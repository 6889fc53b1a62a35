/**
 * The lizard heat map: the text that `lizard -C 0` prints is cut into
 * lines, each line that holds a function row is matched against the row
 * pattern, rows are kept once per `name@startLine`, and each kept row gets
 * the colour of its cyclomatic complexity, one decoration, and one row of
 * the table sent to the panel.
 */
module Lizard {
  import opened Options
  import opened Text

  // ---------------------------------------------------------------------
  // getColorForComplexity

  /** `complexityColorMap`: the colours of the scores 1 to 25, from bright green to dark maroon. */
  const ColorTable: seq<string> := [
    "#00ff00", "#33ff00", "#66ff00", "#99ff00", "#ccff00",
    "#eeff00", "#ffff00", "#ffdd00", "#ffbb00", "#ff9900",
    "#ff7700", "#ff5500", "#ff3300", "#ff2200", "#ff1100",
    "#ff0000", "#e60000", "#cc0000", "#b30000", "#990000",
    "#800000", "#660000", "#4d0000", "#330000", "#1a0000"
  ]

  /** `Math.max(1, Math.min(score, 25))`. */
  function SafeScore(score: int): (s: int)
    ensures 1 <= s <= 25
    ensures 1 <= score <= 25 ==> s == score
    ensures score < 1 ==> s == 1
    ensures score > 25 ==> s == 25
  {
    var m := if score < 25 then score else 25;
    if 1 < m then m else 1
  }

  /** The colour of a score: the table entry of the clamped score. */
  function ColorForComplexity(score: int): (c: string)
    ensures c in ColorTable
    ensures score <= 1 ==> c == "#00ff00"
    ensures score >= 25 ==> c == "#1a0000"
    ensures 1 <= score <= 25 ==> c == ColorTable[score - 1]
    ensures |c| == 7 && c[0] == '#' && forall i :: 1 <= i < 7 ==> IsHexDigit(c[i])
  {
    ColorTableShape();
    ColorTable[SafeScore(score) - 1]
  }

  predicate IsHexDigit(ch: char) {
    IsDigit(ch) || 'a' <= ch <= 'f'
  }

  /** Every table entry is `#` and six lower-case hexadecimal digits. */
  lemma ColorTableShape()
    ensures forall k :: 0 <= k < |ColorTable| ==>
      |ColorTable[k]| == 7 && ColorTable[k][0] == '#' && forall i :: 1 <= i < 7 ==> IsHexDigit(ColorTable[k][i])
  {
  }

  /** The 25 colours are all different. */
  lemma ColorTableDistinct()
    ensures |ColorTable| == 25
    ensures forall i, j :: 0 <= i < j < |ColorTable| ==> ColorTable[i] != ColorTable[j]
  {
  }

  /** Two scores share a colour exactly when they clamp to the same score. */
  lemma ColorsDistinct(a: int, b: int)
    ensures ColorForComplexity(a) == ColorForComplexity(b) <==> SafeScore(a) == SafeScore(b)
  {
    ColorTableDistinct();
    if SafeScore(a) != SafeScore(b) {
      var i, j := SafeScore(a) - 1, SafeScore(b) - 1;
      if i < j {
        assert ColorTable[i] != ColorTable[j];
      } else {
        assert ColorTable[j] != ColorTable[i];
      }
    }
  }

  // ---------------------------------------------------------------------
  // The row pattern

  /** The character classes of the row pattern: `\s`, `\d` and `[^\s@]`. */
  datatype CharClass = Whitespace | Digit | NameChar

  predicate InClass(cls: CharClass, c: char) {
    match cls
    case Whitespace => IsSpace(c)
    case Digit => IsDigit(c)
    case NameChar => !IsSpace(c) && c != '@'
  }

  function ClassPred(cls: CharClass): char -> bool {
    c => InClass(cls, c)
  }

  /** A piece of the pattern: a run of at least `atLeast` characters of a class, or one literal character. */
  datatype Piece = Run(cls: CharClass, atLeast: nat) | Lit(c: char)

  /**
   * The row pattern, anchored at the start of the line: optional space,
   * nloc, CCN and three more integers separated by space, space, a name
   * without space or `@`, then `@start-end@`. The captures are the pieces
   * 1 (nloc), 3 (CCN), 11 (name), 13 (start) and 15 (end).
   */
  const RowPattern: seq<Piece> := [
    Run(Whitespace, 0), Run(Digit, 1), Run(Whitespace, 1), Run(Digit, 1),
    Run(Whitespace, 1), Run(Digit, 1), Run(Whitespace, 1), Run(Digit, 1),
    Run(Whitespace, 1), Run(Digit, 1), Run(Whitespace, 1), Run(NameChar, 1),
    Lit('@'), Run(Digit, 1), Lit('-'), Run(Digit, 1), Lit('@')
  ]

  /** Does the text `w` match the piece `p` as a whole? */
  predicate PieceFits(p: Piece, w: string) {
    match p
    case Run(cls, n) => |w| >= n && forall k :: 0 <= k < |w| ==> InClass(cls, w[k])
    case Lit(c) => w == [c]
  }

  /** `parts` cut the text from `i` on, piece by piece, with each part matching its piece. */
  predicate Fits(pat: seq<Piece>, s: string, i: nat, parts: seq<string>)
    decreases |pat|
  {
    |parts| == |pat|
    && (pat != [] ==>
      i + |parts[0]| <= |s| && s[i..i + |parts[0]|] == parts[0] && PieceFits(pat[0], parts[0])
      && Fits(pat[1..], s, i + |parts[0]|, parts[1..]))
  }

  /** The end of the longest match of one piece at `i`. */
  function PieceEnd(p: Piece, s: string, i: nat): (r: Option<nat>)
    requires i <= |s|
    ensures r.Some? ==> i <= r.value <= |s| && PieceFits(p, s[i..r.value])
  {
    match p
    case Run(cls, n) =>
      var e := Span(s, i, ClassPred(cls));
      if e - i >= n then Some(e) else None
    case Lit(c) =>
      if i < |s| && s[i] == c then Some(i + 1) else None
  }

  /** The pattern matched piece by piece, each run taking all it can. */
  function Greedy(pat: seq<Piece>, s: string, i: nat): (r: Option<seq<string>>)
    requires i <= |s|
    decreases |pat|
  {
    if pat == [] then Some([])
    else
      match PieceEnd(pat[0], s, i)
      case None => None
      case Some(e) =>
        match Greedy(pat[1..], s, e)
        case None => None
        case Some(ps) => Some([s[i..e]] + ps)
  }

  /** What the greedy match returns is a way to cut the text. */
  lemma {:induction false} GreedySound(pat: seq<Piece>, s: string, i: nat)
    requires i <= |s| && Greedy(pat, s, i).Some?
    decreases |pat|
    ensures Fits(pat, s, i, Greedy(pat, s, i).value)
  {
    if pat != [] {
      var e := PieceEnd(pat[0], s, i).value;
      GreedySound(pat[1..], s, e);
      var ps := Greedy(pat, s, i).value;
      assert ps[1..] == Greedy(pat[1..], s, e).value;
    }
  }

  /** A greedy match has one part per piece, each matching its piece. */
  lemma {:induction false} GreedyShape(pat: seq<Piece>, s: string, i: nat)
    requires i <= |s| && Greedy(pat, s, i).Some?
    decreases |pat|
    ensures |Greedy(pat, s, i).value| == |pat|
    ensures forall k :: 0 <= k < |pat| ==> PieceFits(pat[k], Greedy(pat, s, i).value[k])
  {
    if pat != [] {
      var e := PieceEnd(pat[0], s, i).value;
      GreedyShape(pat[1..], s, e);
      var ps := Greedy(pat, s, i).value;
      assert ps == [s[i..e]] + Greedy(pat[1..], s, e).value;
      forall k | 1 <= k < |pat| ensures PieceFits(pat[k], ps[k]) {
        assert pat[k] == pat[1..][k - 1] && ps[k] == Greedy(pat[1..], s, e).value[k - 1];
      }
    }
  }

  /** No character is in both classes. */
  predicate Disjoint(a: CharClass, b: CharClass) {
    (a == Whitespace) != (b == Whitespace)
  }

  lemma DisjointClasses(a: CharClass, b: CharClass, c: char)
    requires Disjoint(a, b) && InClass(a, c)
    ensures !InClass(b, c)
  {
  }

  /** The piece always starts with a character outside `cls`. */
  predicate StartsOutside(p: Piece, cls: CharClass) {
    match p
    case Run(c2, n) => n >= 1 && Disjoint(c2, cls)
    case Lit(c) => !InClass(cls, c)
  }

  /** Every run is followed by a piece that starts outside its class. */
  predicate Separated(pat: seq<Piece>) {
    forall k :: 0 <= k < |pat| && pat[k].Run? ==> k + 1 < |pat| && StartsOutside(pat[k + 1], pat[k].cls)
  }

  lemma RowPatternSeparated()
    ensures Separated(RowPattern)
  {
  }

  /** The first character of a part that starts outside `cls` is not in `cls`. */
  lemma FirstOutside(p: Piece, w: string, cls: CharClass)
    requires PieceFits(p, w) && StartsOutside(p, cls)
    ensures |w| > 0 && !InClass(cls, w[0])
  {
    if p.Run? {
      DisjointClasses(p.cls, cls, w[0]);
    }
  }

  /** In a separated pattern, any way to cut the text is the greedy one. */
  lemma {:induction false} GreedyComplete(pat: seq<Piece>, s: string, i: nat, parts: seq<string>)
    requires i <= |s| && Separated(pat) && Fits(pat, s, i, parts)
    decreases |pat|
    ensures Greedy(pat, s, i) == Some(parts)
  {
    if pat != [] {
      var e := i + |parts[0]|;
      SeparatedTail(pat);
      PieceEndFits(pat, s, i, parts);
      GreedyComplete(pat[1..], s, e, parts[1..]);
      assert [parts[0]] + parts[1..] == parts;
    }
  }

  /** A separated pattern stays separated without its first piece. */
  lemma SeparatedTail(pat: seq<Piece>)
    requires pat != [] && Separated(pat)
    ensures Separated(pat[1..])
  {
    forall k | 0 <= k < |pat[1..]| && pat[1..][k].Run?
      ensures k + 1 < |pat[1..]| && StartsOutside(pat[1..][k + 1], pat[1..][k].cls)
    {
      assert pat[1..][k] == pat[k + 1];
    }
  }

  /** The first piece of a cut of a separated pattern ends where the longest match of it does. */
  lemma PieceEndFits(pat: seq<Piece>, s: string, i: nat, parts: seq<string>)
    requires pat != [] && Separated(pat) && Fits(pat, s, i, parts)
    ensures PieceEnd(pat[0], s, i) == Some(i + |parts[0]|) && s[i..i + |parts[0]|] == parts[0]
  {
    var e := i + |parts[0]|;
    match pat[0] {
      case Run(cls, n) =>
        forall k | i <= k < e ensures ClassPred(cls)(s[k]) {
          assert s[k] == parts[0][k - i];
        }
        assert e < |s| && !ClassPred(cls)(s[e]) by {
          FirstOutside(pat[1], parts[1], cls);
          assert s[e] == parts[1][0];
        }
        SpanAt(s, i, e, ClassPred(cls));
      case Lit(c) =>
    }
  }

  /** The fields that the row pattern captures, as numbers where they are digits. */
  datatype RowMatch = RowMatch(nloc: nat, score: nat, name: string, startLine: nat, endLine: nat)

  /** A name holds neither space nor `@` and is not empty. */
  predicate IsName(name: string) {
    |name| > 0 && forall k :: 0 <= k < |name| ==> InClass(NameChar, name[k])
  }

  /** The captures of a cut of a line. */
  function Captures(parts: seq<string>): (m: RowMatch)
    requires |parts| == |RowPattern| && forall k :: 0 <= k < |RowPattern| ==> PieceFits(RowPattern[k], parts[k])
    ensures IsName(m.name)
  {
    assert PieceFits(RowPattern[1], parts[1]) && PieceFits(RowPattern[3], parts[3]);
    assert PieceFits(RowPattern[11], parts[11]) && PieceFits(RowPattern[13], parts[13]);
    assert PieceFits(RowPattern[15], parts[15]);
    RowMatch(DecimalValue(parts[1]), DecimalValue(parts[3]), parts[11], DecimalValue(parts[13]), DecimalValue(parts[15]))
  }

  /** `line.match(...)`, with the fields parsed as decimal numbers. */
  function ParseRow(line: string): (r: Option<RowMatch>)
    ensures r.Some? ==> IsName(r.value.name)
  {
    match Greedy(RowPattern, line, 0)
    case None => None
    case Some(ps) =>
      GreedyShape(RowPattern, line, 0);
      Some(Captures(ps))
  }

  /** A line that can be cut by the row pattern matches, and the fields are that cut's captures. */
  lemma ParseRowFits(line: string, parts: seq<string>)
    ensures Fits(RowPattern, line, 0, parts) ==>
      |parts| == |RowPattern| && (forall k :: 0 <= k < |RowPattern| ==> PieceFits(RowPattern[k], parts[k]))
      && ParseRow(line) == Some(Captures(parts))
  {
    if Fits(RowPattern, line, 0, parts) {
      RowPatternSeparated();
      GreedyComplete(RowPattern, line, 0, parts);
      GreedyShape(RowPattern, line, 0);
    }
  }

  /** A line that matches can be cut by the row pattern, and the fields are that cut's captures. */
  lemma ParseRowSound(line: string) returns (parts: seq<string>)
    ensures ParseRow(line).Some? ==>
      Fits(RowPattern, line, 0, parts)
      && |parts| == |RowPattern| && (forall k :: 0 <= k < |RowPattern| ==> PieceFits(RowPattern[k], parts[k]))
      && ParseRow(line) == Some(Captures(parts))
  {
    parts := [];
    if ParseRow(line).Some? {
      parts := Greedy(RowPattern, line, 0).value;
      GreedySound(RowPattern, line, 0);
      GreedyShape(RowPattern, line, 0);
    }
  }

  // ---------------------------------------------------------------------
  // The parse and dedupe loop

  /** The lines of the output that contain `@`. */
  function AtLines(output: string): (ls: seq<string>)
    ensures forall l :: l in ls <==> l in Split(output, '\n') && '@' in l
  {
    Filter(Split(output, '\n'))
  }

  function Filter(ls: seq<string>): (r: seq<string>)
    ensures forall l :: l in r <==> l in ls && '@' in l
  {
    if ls == [] then []
    else (if '@' in ls[0] then [ls[0]] else []) + Filter(ls[1..])
  }

  /** The filter looks at each line on its own and keeps the kept lines in order, repeats included. */
  lemma {:induction false} FilterAppend(a: seq<string>, b: seq<string>)
    ensures Filter(a + b) == Filter(a) + Filter(b)
    ensures |a| == 1 ==> Filter(a) == (if '@' in a[0] then a else [])
  {
    if a != [] {
      assert (a + b)[0] == a[0];
      assert (a + b)[1..] == a[1..] + b;
      FilterAppend(a[1..], b);
    } else {
      assert a + b == b;
    }
  }

  /** A record of `functions`. */
  datatype FunctionInfo = FunctionInfo(name: string, score: nat, line: nat, endLine: nat, nloc: nat, color: string)

  /** The record of a matched row. */
  function InfoOf(m: RowMatch): FunctionInfo {
    FunctionInfo(m.name, m.score, m.startLine, m.endLine, m.nloc, ColorForComplexity(m.score))
  }

  /** The records of the kept rows. */
  function Infos(rs: seq<RowMatch>): (fs: seq<FunctionInfo>)
    ensures |fs| == |rs| && forall k :: 0 <= k < |rs| ==> fs[k] == InfoOf(rs[k])
    ensures forall k :: 0 <= k < |rs| ==> fs[k].score == rs[k].score && fs[k].color in ColorTable
  {
    seq(|rs|, k requires 0 <= k < |rs| => InfoOf(rs[k]))
  }

  /** Two records share a colour exactly when their scores clamp to the same value of the 25-step scale. */
  lemma InfosColors(rs: seq<RowMatch>, i: nat, j: nat)
    requires i < |rs| && j < |rs|
    ensures Infos(rs)[i].color == Infos(rs)[j].color <==> SafeScore(rs[i].score) == SafeScore(rs[j].score)
  {
    ColorsDistinct(rs[i].score, rs[j].score);
  }

  lemma InfosAppend(rs: seq<RowMatch>, m: RowMatch)
    ensures Infos(rs + [m]) == Infos(rs) + [InfoOf(m)]
  {
    var t := rs + [m];
    assert forall k :: 0 <= k < |rs| ==> t[k] == rs[k];
  }

  /** `${name}@${startLine}`. */
  function Key(name: string, startLine: nat): string {
    name + "@" + NatToString(startLine)
  }

  /** The key of a matched row. */
  function KeyOf(m: RowMatch): string {
    Key(m.name, m.startLine)
  }

  /** The keys that `uniqueLines` holds. */
  function Keys(rs: seq<RowMatch>): set<string> {
    set k | 0 <= k < |rs| :: KeyOf(rs[k])
  }

  lemma KeysAppend(rs: seq<RowMatch>, m: RowMatch)
    ensures Keys(rs + [m]) == Keys(rs) + {KeyOf(m)}
  {
    var t := rs + [m];
    assert forall k :: 0 <= k < |rs| ==> t[k] == rs[k];
    assert t[|rs|] == m;
  }

  /** For names without `@`, the key determines the name and the start line. */
  lemma KeyInjective(n1: string, s1: nat, n2: string, s2: nat)
    requires '@' !in n1 && '@' !in n2
    ensures Key(n1, s1) == Key(n2, s2) ==> n1 == n2 && s1 == s2
  {
    var k1, k2 := Key(n1, s1), Key(n2, s2);
    if k1 == k2 {
      assert k1[|n1|] == '@' && k2[|n2|] == '@';
      assert n1 == k1[..|n1|] && n2 == k2[..|n2|];
      assert NatToString(s1) == k1[|n1| + 1..] && NatToString(s2) == k2[|n2| + 1..];
      NatToStringInjective(s1, s2);
    }
  }

  /** `line.match(...)` of each line. */
  function ParseRows(ls: seq<string>): (ms: seq<Option<RowMatch>>)
    ensures |ms| == |ls| && forall k :: 0 <= k < |ls| ==> ms[k] == ParseRow(ls[k])
  {
    seq(|ls|, k requires 0 <= k < |ls| => ParseRow(ls[k]))
  }

  /**
   * The rows kept after the rows `ms`: a row that matched is kept unless
   * a kept row has its key.
   */
  function Collect(ms: seq<Option<RowMatch>>): seq<RowMatch> {
    if ms == [] then []
    else
      var fs := Collect(ms[..|ms| - 1]);
      match ms[|ms| - 1]
      case None => fs
      case Some(m) => if KeyOf(m) in Keys(fs) then fs else fs + [m]
  }

  /** No two kept rows share a key. */
  lemma {:induction false} CollectDistinct(ms: seq<Option<RowMatch>>)
    ensures forall i, j :: 0 <= i < j < |Collect(ms)| ==> KeyOf(Collect(ms)[i]) != KeyOf(Collect(ms)[j])
  {
    if ms != [] {
      CollectDistinct(ms[..|ms| - 1]);
      var fs := Collect(ms[..|ms| - 1]);
      assert forall i :: 0 <= i < |fs| ==> KeyOf(fs[i]) in Keys(fs);
    }
  }

  /** Did a row before `l` match with this key? */
  predicate KeySeenBefore(ms: seq<Option<RowMatch>>, l: nat, key: string)
    requires l <= |ms|
  {
    exists l' :: 0 <= l' < l && ms[l'].Some? && KeyOf(ms[l'].value) == key
  }

  /** A key is kept exactly when some row with that key matched. */
  lemma {:induction false} CollectKeys(ms: seq<Option<RowMatch>>, key: string)
    ensures key in Keys(Collect(ms)) <==> KeySeenBefore(ms, |ms|, key)
  {
    if ms != [] {
      var init := ms[..|ms| - 1];
      CollectKeys(init, key);
      if KeySeenBefore(init, |init|, key) {
        var l' :| 0 <= l' < |init| && init[l'].Some? && KeyOf(init[l'].value) == key;
        assert ms[l'] == init[l'];
      }
      if KeySeenBefore(ms, |ms|, key) {
        var l' :| 0 <= l' < |ms| && ms[l'].Some? && KeyOf(ms[l'].value) == key;
        if l' < |init| {
          assert init[l'] == ms[l'];
        }
      }
      var fs := Collect(init);
      if ms[|ms| - 1].Some? && KeyOf(ms[|ms| - 1].value) !in Keys(fs) {
        KeysAppend(fs, ms[|ms| - 1].value);
      }
    }
  }

  /** One more row: `Collect` keeps it exactly when it matched with a new key. */
  lemma CollectStep(ms: seq<Option<RowMatch>>, i: nat)
    requires i < |ms|
    ensures ms[i].None? ==> Collect(ms[..i + 1]) == Collect(ms[..i])
    ensures ms[i].Some? && KeyOf(ms[i].value) in Keys(Collect(ms[..i])) ==> Collect(ms[..i + 1]) == Collect(ms[..i])
    ensures ms[i].Some? && KeyOf(ms[i].value) !in Keys(Collect(ms[..i])) ==>
      Collect(ms[..i + 1]) == Collect(ms[..i]) + [ms[i].value]
  {
    assert ms[..i + 1][..i] == ms[..i];
  }

  /** Rows before `l` of a longer sequence are rows of the prefix. */
  lemma SeenInPrefix(ms: seq<Option<RowMatch>>, n: nat, l: nat, key: string)
    requires l <= n <= |ms|
    ensures KeySeenBefore(ms[..n], l, key) <==> KeySeenBefore(ms, l, key)
  {
    if KeySeenBefore(ms, l, key) {
      var l' :| 0 <= l' < l && ms[l'].Some? && KeyOf(ms[l'].value) == key;
      assert ms[..n][l'] == ms[l'];
    }
  }

  /** Every kept row is the first row with its key. */
  lemma {:induction false} CollectSound(ms: seq<Option<RowMatch>>, i: nat)
    requires i < |Collect(ms)|
    ensures exists l :: (0 <= l < |ms| && ms[l].Some? && Collect(ms)[i] == ms[l].value
      && !KeySeenBefore(ms, l, KeyOf(Collect(ms)[i])))
  {
    var init := ms[..|ms| - 1];
    var fs := Collect(init);
    var f := Collect(ms)[i];
    if i < |fs| {
      assert f == fs[i];
      CollectSound(init, i);
      var l :| 0 <= l < |init| && init[l].Some? && fs[i] == init[l].value
        && !KeySeenBefore(init, l, KeyOf(fs[i]));
      SeenInPrefix(ms, |init|, l, KeyOf(f));
      assert ms[l] == init[l];
    } else {
      var l := |ms| - 1;
      CollectKeys(init, KeyOf(f));
      SeenInPrefix(ms, |init|, l, KeyOf(f));
    }
  }

  /** The first row with a key is kept. */
  lemma {:induction false} CollectFirst(ms: seq<Option<RowMatch>>, l: nat)
    requires l < |ms| && ms[l].Some? && !KeySeenBefore(ms, l, KeyOf(ms[l].value))
    ensures ms[l].value in Collect(ms)
  {
    var init := ms[..|ms| - 1];
    var f := ms[l].value;
    if l < |init| {
      SeenInPrefix(ms, |init|, l, KeyOf(f));
      assert init[l] == ms[l];
      CollectFirst(init, l);
    } else {
      CollectKeys(init, KeyOf(f));
      SeenInPrefix(ms, |init|, l, KeyOf(f));
    }
  }

  /** Later rows only append. */
  lemma {:induction false} CollectPrefix(ms: seq<Option<RowMatch>>, n: nat)
    requires n <= |ms|
    decreases |ms| - n
    ensures Collect(ms[..n]) <= Collect(ms)
  {
    if n < |ms| {
      var init := ms[..|ms| - 1];
      assert init[..n] == ms[..n];
      CollectPrefix(init, n);
    } else {
      assert ms[..n] == ms;
    }
  }

  /** Kept rows come in the order of the first rows with their keys. */
  lemma CollectOrder(ms: seq<Option<RowMatch>>, l1: nat, l2: nat)
    requires l1 < l2 < |ms| && ms[l1].Some? && ms[l2].Some?
    requires !KeySeenBefore(ms, l1, KeyOf(ms[l1].value))
    requires !KeySeenBefore(ms, l2, KeyOf(ms[l2].value))
    ensures var fs := Collect(ms);
      exists a, b :: 0 <= a < b < |fs| && fs[a] == ms[l1].value && fs[b] == ms[l2].value
  {
    var f1, f2 := ms[l1].value, ms[l2].value;
    var p := ms[..l2];
    var q := ms[..l2 + 1];
    assert q[..l2] == p && q[l2] == ms[l2];
    SeenInPrefix(ms, l2, l1, KeyOf(f1));
    assert p[l1] == ms[l1];
    CollectFirst(p, l1);
    CollectKeys(p, KeyOf(f2));
    SeenInPrefix(ms, l2, l2, KeyOf(f2));
    var t := Collect(p);
    assert Collect(q) == t + [f2];
    CollectPrefix(ms, l2 + 1);
    var fs := Collect(ms);
    var a :| 0 <= a < |t| && t[a] == f1;
    assert fs[a] == f1 && fs[|t|] == f2;
  }

  /** When no matched name holds `@`, every row that matched has a kept row with the same name and start line. */
  lemma CollectCovers(ms: seq<Option<RowMatch>>, l: nat)
    requires forall k :: 0 <= k < |ms| && ms[k].Some? ==> '@' !in ms[k].value.name
    requires l < |ms| && ms[l].Some?
    ensures var rs := Collect(ms); var m := ms[l].value;
      exists k :: 0 <= k < |rs| && rs[k].name == m.name && rs[k].startLine == m.startLine
  {
    var rs := Collect(ms);
    var m := ms[l].value;
    CollectKeys(ms, KeyOf(m));
    var k :| 0 <= k < |rs| && KeyOf(rs[k]) == KeyOf(m);
    CollectSound(ms, k);
    KeyInjective(rs[k].name, rs[k].startLine, m.name, m.startLine);
  }

  /** No name that the row pattern captures holds `@`. */
  lemma ParsedNames(ls: seq<string>)
    ensures var ms := ParseRows(ls); forall k :: 0 <= k < |ms| && ms[k].Some? ==> '@' !in ms[k].value.name
  {
    var ms := ParseRows(ls);
    forall k | 0 <= k < |ms| && ms[k].Some? ensures '@' !in ms[k].value.name {
      assert IsName(ms[k].value.name);
    }
  }

  /** A decoration: its colour, its range (start line, start column, end line, end column) and its hover text. */
  datatype Decoration = Decoration(color: string, startLine: int, startChar: int, endLine: int, endChar: int, hover: string)

  /** The decoration of a record: from line `line`, column 0, to line `endLine - 1`, column 1000. */
  function DecorationOf(f: FunctionInfo): (d: Decoration)
    ensures d.color == f.color
    ensures d.startLine == f.line && d.endLine == f.endLine - 1
    ensures |d.hover| > 12 && d.hover[..12] == "Complexity: "
    ensures AllDigits(d.hover[12..]) && DecimalValue(d.hover[12..]) == f.score
  {
    DecimalRoundTrip(f.score);
    var h := "Complexity: " + NatToString(f.score);
    assert h[12..] == NatToString(f.score);
    Decoration(f.color, f.line, 0, f.endLine - 1, 1000, h)
  }

  /** One decoration per record, in order. */
  function Decorations(fs: seq<FunctionInfo>): (ds: seq<Decoration>)
    ensures |ds| == |fs| && forall k :: 0 <= k < |fs| ==> ds[k] == DecorationOf(fs[k])
  {
    seq(|fs|, k requires 0 <= k < |fs| => DecorationOf(fs[k]))
  }

  lemma DecorationsAppend(fs: seq<FunctionInfo>, f: FunctionInfo)
    ensures Decorations(fs + [f]) == Decorations(fs) + [DecorationOf(f)]
  {
    var t := fs + [f];
    assert forall k :: 0 <= k < |fs| ==> t[k] == fs[k];
  }

  /** The parse-and-dedupe loop of the close callback over the captured output. */
  method ParseLizardOutput(output: string) returns (functions: seq<FunctionInfo>, decorations: seq<Decoration>)
    ensures functions == Infos(Collect(ParseRows(AtLines(output))))
    ensures decorations == Decorations(functions)
  {
    var lines := AtLines(output);
    ghost var ms := ParseRows(lines);
    ghost var kept: seq<RowMatch> := [];
    functions := [];
    decorations := [];
    var uniqueLines: set<string> := {};
    for i := 0 to |lines|
      invariant kept == Collect(ms[..i]) && functions == Infos(kept)
      invariant uniqueLines == Keys(kept)
      invariant decorations == Decorations(functions)
    {
      CollectStep(ms, i);
      var row := ParseRow(lines[i]);
      if row.Some? {
        var m := row.value;
        var key := Key(m.name, m.startLine);
        if key in uniqueLines {
          continue;
        }
        KeysAppend(kept, m);
        uniqueLines := uniqueLines + {key};
        var f := InfoOf(m);
        InfosAppend(kept, m);
        DecorationsAppend(functions, f);
        kept := kept + [m];
        functions := functions + [f];
        decorations := decorations + [DecorationOf(f)];
      }
    }
    assert ms[..|lines|] == ms;
  }

  // ---------------------------------------------------------------------
  // The table sent to the panel

  datatype TableRow = TableRow(functionName: string, complexity: nat, loc: nat, location: string, color: string)

  /** `${line}-${endLine}`. */
  function Location(line: nat, endLine: nat): string {
    NatToString(line) + "-" + NatToString(endLine)
  }

  /** The location text determines both line numbers. */
  lemma LocationInjective(a1: nat, b1: nat, a2: nat, b2: nat)
    ensures Location(a1, b1) == Location(a2, b2) ==> a1 == a2 && b1 == b2
  {
    var x1, x2 := NatToString(a1), NatToString(a2);
    var l1, l2 := Location(a1, b1), Location(a2, b2);
    if l1 == l2 {
      assert l1[|x1|] == '-' && l2[|x2|] == '-';
      assert forall k :: 0 <= k < |x1| ==> l1[k] == x1[k];
      assert forall k :: 0 <= k < |x2| ==> l2[k] == x2[k];
      assert |x1| == |x2|;
      assert x1 == l1[..|x1|] && x2 == l2[..|x2|];
      assert NatToString(b1) == l1[|x1| + 1..] && NatToString(b2) == l2[|x2| + 1..];
      NatToStringInjective(a1, a2);
      NatToStringInjective(b1, b2);
    }
  }

  /** `functions.map(...)`: one row per record, in order. */
  function TableData(fs: seq<FunctionInfo>): (rows: seq<TableRow>)
    ensures |rows| == |fs|
  {
    seq(|fs|, k requires 0 <= k < |fs| =>
      TableRow(fs[k].name, fs[k].score, fs[k].nloc, Location(fs[k].line, fs[k].endLine), fs[k].color))
  }

  /** Each row names its record, shows its score and size, and its location gives back the record's lines. */
  lemma TableRowOf(fs: seq<FunctionInfo>, k: nat, a: nat, b: nat)
    requires k < |fs|
    ensures var r := TableData(fs)[k];
      r.functionName == fs[k].name && r.complexity == fs[k].score && r.loc == fs[k].nloc && r.color == fs[k].color
      && (r.location == Location(a, b) <==> a == fs[k].line && b == fs[k].endLine)
  {
    LocationInjective(a, b, fs[k].line, fs[k].endLine);
  }
}
