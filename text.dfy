/** A value that may be absent: `null` or `undefined` in the analysed code. */
module Options {
  datatype Option<T> = None | Some(value: T)
}

/**
 * String predicates used by the analyses: the character classes of
 * ECMAScript regular expressions, `trim`, `startsWith`, `includes`,
 * `indexOf`, `split`, and decimal conversion of naturals.
 */
module Text {
  import opened Options

  /** ECMAScript white space and line terminators: what `\s` matches and `trim()` removes. */
  predicate IsSpace(c: char) {
    c == ' ' || c == '\t' || c == '\n' || c == '\r' || c == '\U{B}' || c == '\U{C}'
    || c == '\U{A0}' || c == '\U{1680}' || ('\U{2000}' <= c <= '\U{200A}')
    || c == '\U{2028}' || c == '\U{2029}' || c == '\U{202F}' || c == '\U{205F}'
    || c == '\U{3000}' || c == '\U{FEFF}'
  }

  /** The characters `.` does not match and before which a multiline `$` matches. */
  predicate IsLineTerminator(c: char) {
    c == '\n' || c == '\r' || c == '\U{2028}' || c == '\U{2029}'
  }

  predicate IsDigit(c: char) { '0' <= c <= '9' }

  /** `\w`. */
  predicate IsWordChar(c: char) { 'a' <= c <= 'z' || 'A' <= c <= 'Z' || IsDigit(c) || c == '_' }

  /** `[A-Za-z_]`. */
  predicate IsIdentStart(c: char) { 'a' <= c <= 'z' || 'A' <= c <= 'Z' || c == '_' }

  predicate IsNotEquals(c: char) { c != '=' }

  predicate AllDigits(s: string) { forall i :: 0 <= i < |s| ==> IsDigit(s[i]) }

  predicate StartsWith(s: string, p: string) { |p| <= |s| && s[..|p|] == p }

  predicate EndsWith(s: string, p: string) { |p| <= |s| && s[|s| - |p|..] == p }

  /** `p` occurs in `s` starting at index `i`. */
  predicate OccursAt(s: string, p: string, i: int) {
    0 <= i && i + |p| <= |s| && s[i..i + |p|] == p
  }

  /** A one-character pattern occurs exactly where that character stands. */
  lemma OccursAtChar(s: string, c: char, j: nat)
    requires j < |s|
    ensures OccursAt(s, [c], j) <==> s[j] == c
  {
    assert s[j..j + 1] == [s[j]];
  }

  /** A two-character pattern occurs exactly where its two characters stand in turn. */
  lemma OccursAtPair(s: string, a: char, b: char, i: int)
    ensures OccursAt(s, [a, b], i) <==> 0 <= i && i + 2 <= |s| && s[i] == a && s[i + 1] == b
  {
    if 0 <= i && i + 2 <= |s| {
      assert s[i..i + 2] == [s[i], s[i + 1]];
    }
  }

  /** `s.includes(p)`. */
  predicate Contains(s: string, p: string) {
    exists i :: 0 <= i <= |s| - |p| && OccursAt(s, p, i)
  }

  /** The first occurrence of `p` in `s` at or after `from`. */
  function IndexFrom(s: string, p: string, from: nat): (r: Option<nat>)
    decreases |s| - from
    ensures r.Some? ==> from <= r.value && OccursAt(s, p, r.value)
    ensures r.Some? ==> forall j :: from <= j < r.value ==> !OccursAt(s, p, j)
    ensures r.None? ==> forall j :: from <= j ==> !OccursAt(s, p, j)
  {
    if from + |p| > |s| then None
    else if s[from..from + |p|] == p then Some(from)
    else IndexFrom(s, p, from + 1)
  }

  /** `s.indexOf(p)`, with -1 as `None`. */
  function IndexOf(s: string, p: string): (r: Option<nat>)
    ensures r.None? <==> !Contains(s, p)
    ensures r.Some? ==> OccursAt(s, p, r.value) && forall j :: 0 <= j < r.value ==> !OccursAt(s, p, j)
  {
    IndexFrom(s, p, 0)
  }

  /** An occurrence with none before it, from `from` on, is the one `IndexFrom` finds. */
  lemma IndexFromIs(s: string, p: string, from: nat, k: nat)
    requires from <= k && OccursAt(s, p, k)
    requires forall j :: from <= j < k ==> !OccursAt(s, p, j)
    ensures IndexFrom(s, p, from) == Some(k)
  {
  }

  /** `s.replace(p, "")` with a string pattern: only the first occurrence is removed. */
  function RemoveFirst(s: string, p: string): string {
    match IndexOf(s, p)
    case None => s
    case Some(i) => s[..i] + s[i + |p|..]
  }

  /** The end of the longest run of characters satisfying `p` that starts at `i`. */
  function Span(s: string, i: nat, p: char -> bool): (j: nat)
    requires i <= |s|
    decreases |s| - i
    ensures i <= j <= |s|
    ensures forall k :: i <= k < j ==> p(s[k])
    ensures j == |s| || !p(s[j])
  {
    if i == |s| || !p(s[i]) then i else Span(s, i + 1, p)
  }

  /** The start of the longest run of characters satisfying `p` that ends at `j`. */
  function SpanBack(s: string, j: nat, p: char -> bool): (i: nat)
    requires j <= |s|
    ensures i <= j
    ensures forall k :: i <= k < j ==> p(s[k])
    ensures i == 0 || !p(s[i - 1])
  {
    if j == 0 || !p(s[j - 1]) then j else SpanBack(s, j - 1, p)
  }

  /** A run is maximal exactly when `Span` stops at its end. */
  lemma SpanAt(s: string, i: nat, j: nat, p: char -> bool)
    requires i <= j <= |s|
    requires forall k :: i <= k < j ==> p(s[k])
    requires j == |s| || !p(s[j])
    ensures Span(s, i, p) == j
  {
  }

  /** A run of `c` between `pre` and a `y` that does not continue it is spanned exactly. */
  lemma SpanOver(pre: string, c: string, y: string, p: char -> bool)
    requires forall m :: 0 <= m < |c| ==> p(c[m])
    requires y == [] || !p(y[0])
    ensures Span(pre + c + y, |pre|, p) == |pre| + |c|
  {
    var s := pre + c + y;
    forall m | |pre| <= m < |pre| + |c| ensures p(s[m]) {
      assert s[m] == c[m - |pre|];
    }
    if y != [] {
      assert s[|pre| + |c|] == y[0];
    }
    SpanAt(s, |pre|, |pre| + |c|, p);
  }

  /** `s.replace(/\s+/g, "")`. */
  function RemoveSpaces(s: string): string {
    if s == [] then []
    else (if IsSpace(s[0]) then [] else [s[0]]) + RemoveSpaces(s[1..])
  }

  /** Removing white space leaves every other character, as often as it occurred, and nothing else. */
  lemma {:induction false} RemoveSpacesSpec(s: string)
    ensures forall i :: 0 <= i < |RemoveSpaces(s)| ==> !IsSpace(RemoveSpaces(s)[i])
    ensures forall c :: !IsSpace(c) ==> multiset(RemoveSpaces(s))[c] == multiset(s)[c]
  {
    if s != [] {
      RemoveSpacesSpec(s[1..]);
      assert s == [s[0]] + s[1..];
    }
  }

  /** Removing white space works character by character and keeps the order: it distributes over concatenation. */
  lemma {:induction false} RemoveSpacesAppend(a: string, b: string)
    ensures RemoveSpaces(a + b) == RemoveSpaces(a) + RemoveSpaces(b)
    ensures |a| == 1 ==> RemoveSpaces(a) == (if IsSpace(a[0]) then [] else a)
  {
    if a != [] {
      assert (a + b)[0] == a[0];
      assert (a + b)[1..] == a[1..] + b;
      RemoveSpacesAppend(a[1..], b);
    } else {
      assert a + b == b;
    }
  }

  /** `s.trim()`: white space removed at both ends, nothing removed in between. */
  function Trim(s: string): (r: string)
    ensures r == [] || (!IsSpace(r[0]) && !IsSpace(r[|r| - 1]))
    ensures r == [] <==> forall k :: 0 <= k < |s| ==> IsSpace(s[k])
    ensures r != [] ==> multiset(r) <= multiset(s)
  {
    var a := Span(s, 0, IsSpace);
    var b := SpanBack(s, |s|, IsSpace);
    if b <= a then
      assert forall k :: 0 <= k < |s| ==> IsSpace(s[k]) by {
        forall k | 0 <= k < |s| ensures IsSpace(s[k]) {
          if k >= a { assert k >= b; }
        }
      }
      []
    else
      assert !IsSpace(s[a]);
      assert s == s[..a] + s[a..b] + s[b..];
      s[a..b]
  }

  /** `trim()` cuts a run of white space from each end and keeps everything between. */
  lemma TrimSlice(s: string) returns (a: nat, b: nat)
    ensures a <= b <= |s| && Trim(s) == s[a..b]
    ensures forall k :: 0 <= k < a ==> IsSpace(s[k])
    ensures forall k :: b <= k < |s| ==> IsSpace(s[k])
  {
    a := Span(s, 0, IsSpace);
    b := SpanBack(s, |s|, IsSpace);
    if b <= a {
      a, b := 0, 0;
    }
  }

  /** The number of occurrences of `c` in `s`. */
  function Count(s: string, c: char): nat {
    multiset(s)[c]
  }

  /** `s.split(sep)` for a one-character separator. */
  function Split(s: string, sep: char): seq<string>
    decreases |s|
  {
    match IndexOf(s, [sep])
    case None => [s]
    case Some(i) => [s[..i]] + Split(s[i + 1..], sep)
  }

  /** The first occurrence of a one-character pattern is the first place that character stands. */
  lemma IndexOfChar(s: string, c: char)
    ensures IndexOf(s, [c]).None? ==> c !in s
    ensures IndexOf(s, [c]).Some? ==>
      (IndexOf(s, [c]).value < |s| && s[IndexOf(s, [c]).value] == c && c !in s[..IndexOf(s, [c]).value])
  {
    match IndexOf(s, [c]) {
      case None =>
        forall j | 0 <= j < |s| ensures s[j] != c {
          OccursAtChar(s, c, j);
        }
      case Some(i) =>
        OccursAtChar(s, c, i);
        forall j | 0 <= j < i ensures s[j] != c {
          OccursAtChar(s, c, j);
        }
    }
  }

  /** One part more than separators. */
  lemma {:induction false} SplitCount(s: string, sep: char)
    ensures |Split(s, sep)| == Count(s, sep) + 1
    decreases |s|
  {
    IndexOfChar(s, sep);
    match IndexOf(s, [sep]) {
      case None =>
      case Some(i) =>
        SplitCount(s[i + 1..], sep);
        assert s == s[..i] + [sep] + s[i + 1..];
        assert multiset(s) == multiset(s[..i]) + multiset([sep]) + multiset(s[i + 1..]);
    }
  }

  /** No part holds the separator. */
  lemma {:induction false} SplitParts(s: string, sep: char)
    ensures forall k :: 0 <= k < |Split(s, sep)| ==> sep !in Split(s, sep)[k]
    decreases |s|
  {
    IndexOfChar(s, sep);
    match IndexOf(s, [sep]) {
      case None =>
      case Some(i) =>
        SplitParts(s[i + 1..], sep);
        var rest := Split(s[i + 1..], sep);
        assert Split(s, sep) == [s[..i]] + rest;
    }
  }

  /** `parts.join(sep)`. */
  function Join(parts: seq<string>, sep: string): string {
    if parts == [] then ""
    else if |parts| == 1 then parts[0]
    else parts[0] + sep + Join(parts[1..], sep)
  }

  /** Joining a part in front of a non-empty list puts the separator between them. */
  lemma JoinCons(h: string, rest: seq<string>, sep: string)
    requires rest != []
    ensures Join([h] + rest, sep) == h + sep + Join(rest, sep)
  {
    assert ([h] + rest)[1..] == rest;
  }

  /** Splitting and joining again gives back the input. */
  lemma {:induction false} JoinSplit(s: string, sep: char)
    ensures Join(Split(s, sep), [sep]) == s
    decreases |s|
  {
    match IndexOf(s, [sep]) {
      case None =>
      case Some(i) =>
        var rest := Split(s[i + 1..], sep);
        JoinSplit(s[i + 1..], sep);
        SplitCount(s[i + 1..], sep);
        JoinCons(s[..i], rest, [sep]);
        assert s == s[..i] + [sep] + s[i + 1..];
    }
  }

  function DigitChar(d: nat): (c: char)
    requires d < 10
    ensures IsDigit(c)
  {
    (('0' as int) + d) as char
  }

  function DigitValue(c: char): (d: nat)
    requires IsDigit(c)
    ensures d < 10
  {
    (c as int) - ('0' as int)
  }

  /** `${n}`: decimal digits, no leading zero. */
  function NatToString(n: nat): (r: string)
    ensures |r| > 0 && AllDigits(r)
    ensures r[0] != '0' || n == 0
  {
    if n < 10 then [DigitChar(n)] else NatToString(n / 10) + [DigitChar(n % 10)]
  }

  /** `parseInt(s, 10)` on a string of decimal digits. */
  function DecimalValue(s: string): nat
    requires AllDigits(s)
  {
    if s == [] then 0 else DecimalValue(s[..|s| - 1]) * 10 + DigitValue(s[|s| - 1])
  }

  /** Reading back the decimal text of `n` gives `n`. */
  lemma {:induction false} DecimalRoundTrip(n: nat)
    ensures DecimalValue(NatToString(n)) == n
  {
    if n >= 10 {
      DecimalRoundTrip(n / 10);
      var s := NatToString(n);
      assert s[..|s| - 1] == NatToString(n / 10);
    }
  }

  /** Distinct naturals have distinct decimal texts. */
  lemma NatToStringInjective(a: nat, b: nat)
    ensures NatToString(a) == NatToString(b) ==> a == b
  {
    DecimalRoundTrip(a);
    DecimalRoundTrip(b);
  }

  /** An identifier: `[A-Za-z_]\w*`. */
  predicate IsIdentifier(v: string) {
    |v| > 0 && IsIdentStart(v[0]) && forall k :: 0 <= k < |v| ==> IsWordChar(v[k])
  }

  /**
   * Starting at `from`, white space and then the character `d`, and, when
   * `boundary` is set, no word character right after `d`. The white space is
   * the maximal run: a shorter one is followed by white space, not by `d`.
   */
  predicate DigitAfterSpaces(s: string, from: int, d: char, boundary: bool) {
    0 <= from <= |s| &&
    var j := Span(s, from, IsSpace);
    j < |s| && s[j] == d && (boundary ==> j + 1 == |s| || !IsWordChar(s[j + 1]))
  }

  /** `/op\s*d/`, or `/op\s*d\b/` when `boundary` is set, for a digit `d`. */
  predicate OpSpacesDigit(s: string, op: string, d: char, boundary: bool) {
    exists i :: 0 <= i <= |s| - |op| && OccursAt(s, op, i) && DigitAfterSpaces(s, i + |op|, d, boundary)
  }

  /** Any match of the pattern, with any amount of white space, is found. */
  lemma OpSpacesDigitFrom(s: string, op: string, d: char, boundary: bool, i: nat, j: nat)
    requires IsDigit(d)
    requires OccursAt(s, op, i) && i + |op| <= j < |s|
    requires forall k :: i + |op| <= k < j ==> IsSpace(s[k])
    requires s[j] == d
    requires boundary ==> j + 1 == |s| || !IsWordChar(s[j + 1])
    ensures OpSpacesDigit(s, op, d, boundary)
  {
    SpanAt(s, i + |op|, j, IsSpace);
    assert DigitAfterSpaces(s, i + |op|, d, boundary);
  }

  /** Every match found is a match of the pattern. */
  lemma OpSpacesDigitMatch(s: string, op: string, d: char, boundary: bool) returns (i: nat, j: nat)
    requires OpSpacesDigit(s, op, d, boundary)
    ensures OccursAt(s, op, i) && i + |op| <= j < |s|
    ensures forall k :: i + |op| <= k < j ==> IsSpace(s[k])
    ensures s[j] == d && (boundary ==> j + 1 == |s| || !IsWordChar(s[j + 1]))
  {
    i :| 0 <= i <= |s| - |op| && OccursAt(s, op, i) && DigitAfterSpaces(s, i + |op|, d, boundary);
    j := Span(s, i + |op|, IsSpace);
  }
}
