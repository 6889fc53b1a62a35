/**
 * The values the complexity analysis produces and merges: the loop term
 * `{exp, log}` standing for n^exp (log n)^log, its ordering and its Big-O
 * text, the label of the recursion classification, and the rule that
 * merges a loop label with a recursion label.
 */
module ComplexityLabels {
  import opened Options
  import opened Text

  /** `{ exp, log }`: the loop cost n^exp * (log n)^log. */
  datatype Term = Term(exp: nat, log: nat)

  /** `{ exp: 0, log: 0 }`. */
  const Constant: Term := Term(0, 0)

  /** `compareComplexity`: `exp` decides first, then `log`. */
  function Compare(a: Term, b: Term): (r: int)
    ensures r == 0 <==> a == b
    ensures r == 1 <==> a.exp > b.exp || (a.exp == b.exp && a.log > b.log)
    ensures r == -1 <==> a.exp < b.exp || (a.exp == b.exp && a.log < b.log)
  {
    if a.exp != b.exp then (if a.exp > b.exp then 1 else -1)
    else if a.log != b.log then (if a.log > b.log then 1 else -1)
    else 0
  }

  /** `compareComplexity` is a strict total order with `{0, 0}` at the bottom. */
  lemma CompareIsTotalOrder(a: Term, b: Term, c: Term)
    ensures Compare(a, b) == -Compare(b, a)
    ensures Compare(a, b) > 0 && Compare(b, c) > 0 ==> Compare(a, c) > 0
    ensures Compare(a, b) >= 0 && Compare(b, c) >= 0 ==> Compare(a, c) >= 0
    ensures Compare(a, Constant) >= 0
  {
  }

  /** The running-maximum step `if (compareComplexity(c, m) > 0) m = c`. */
  function Larger(m: Term, c: Term): (r: Term)
    ensures r == m || r == c
    ensures Compare(r, m) >= 0 && Compare(r, c) >= 0
  {
    if Compare(c, m) > 0 then c else m
  }

  /** Nesting: exponents add componentwise. */
  function Plus(a: Term, b: Term): Term {
    Term(a.exp + b.exp, a.log + b.log)
  }

  function PolyFactor(e: nat): string {
    if e == 1 then "n" else "n^" + NatToString(e)
  }

  function LogFactor(l: nat): string {
    if l == 1 then "log n" else "(log n)^" + NatToString(l)
  }

  /** The present factors joined by one space. */
  function Product(t: Term): string {
    Join((if t.exp > 0 then [PolyFactor(t.exp)] else []) + (if t.log > 0 then [LogFactor(t.log)] else []), " ")
  }

  /** `complexityToString`. */
  function ToLabel(t: Term): (s: string)
    ensures Wrapped(s)
  {
    if t.exp == 0 && t.log == 0 then "O(1)" else "O(" + Product(t) + ")"
  }

  /** A label of the form `O(...)`. */
  predicate Wrapped(c: string) {
    |c| >= 3 && StartsWith(c, "O(") && c[|c| - 1] == ')'
  }

  /** Reads a loop label back into its term: the inverse of `ToLabel`. */
  function ParseLabel(s: string): Option<Term> {
    if !Wrapped(s) then None
    else
      var x := s[2..|s| - 1];
      if x == "1" then Some(Constant) else ParseProduct(x)
  }

  function ParseProduct(x: string): Option<Term> {
    if StartsWith(x, "n^") then
      var k := Span(x, 2, IsDigit);
      assert AllDigits(x[2..k]);
      if k == 2 then None else ParseLogTail(DecimalValue(x[2..k]), x[k..])
    else if StartsWith(x, "n") && (|x| == 1 || x[1] == ' ') then ParseLogTail(1, x[1..])
    else ParseLogFactor(0, x)
  }

  function ParseLogTail(e: nat, y: string): Option<Term> {
    if y == "" then Some(Term(e, 0))
    else if y[0] == ' ' then ParseLogFactor(e, y[1..])
    else None
  }

  function ParseLogFactor(e: nat, y: string): Option<Term> {
    if y == "log n" then Some(Term(e, 1))
    else if StartsWith(y, "(log n)^") && |y| > 8 && AllDigits(y[8..]) then Some(Term(e, DecimalValue(y[8..])))
    else None
  }

  lemma ParseLogFactorOf(e: nat, l: nat)
    requires l >= 1
    ensures ParseLogFactor(e, LogFactor(l)) == Some(Term(e, l))
  {
    if l > 1 {
      var y := LogFactor(l);
      assert y[8..] == NatToString(l);
      DecimalRoundTrip(l);
    }
  }

  lemma ProductShape(t: Term)
    ensures t.exp > 0 && t.log > 0 ==> Product(t) == PolyFactor(t.exp) + " " + LogFactor(t.log)
    ensures t.exp > 0 && t.log == 0 ==> Product(t) == PolyFactor(t.exp)
    ensures t.exp == 0 && t.log > 0 ==> Product(t) == LogFactor(t.log)
  {
    if t.exp > 0 && t.log > 0 {
      var parts := [PolyFactor(t.exp), LogFactor(t.log)];
      assert parts[1..] == [LogFactor(t.log)];
      assert Join(parts, " ") == parts[0] + " " + Join(parts[1..], " ");
    }
  }

  /** Every loop label reads back as the term it was printed from. */
  lemma LabelRoundTrip(t: Term)
    ensures ParseLabel(ToLabel(t)) == Some(t)
  {
    if t.exp == 0 && t.log == 0 { return; }
    var s := ToLabel(t);
    var x := Product(t);
    assert s[2..|s| - 1] == x;
    ProductShape(t);
    if t.exp == 0 {
      ProductOfLog(t);
    } else if t.exp == 1 {
      ProductOfLinear(t);
    } else {
      ProductOfPower(t);
    }
  }

  lemma ProductOfLog(t: Term)
    requires t.exp == 0 && t.log > 0
    ensures Product(t) != "1" && ParseProduct(Product(t)) == Some(t)
  {
    ProductShape(t);
    var x := Product(t);
    if t.log == 1 { assert x == "log n"; } else { assert x[0] == '('; }
    assert x[0] != 'n' && |x| > 1;
    assert !StartsWith(x, "n^") && !StartsWith(x, "n");
    ParseLogFactorOf(0, t.log);
  }

  lemma ProductOfLinear(t: Term)
    requires t.exp == 1
    ensures Product(t) != "1" && ParseProduct(Product(t)) == Some(t)
  {
    ProductShape(t);
    var x := Product(t);
    if t.log == 0 {
      assert x == "n";
      assert !StartsWith(x, "n^") && StartsWith(x, "n") && x[1..] == "";
    } else {
      assert x == "n" + " " + LogFactor(t.log);
      assert x[1] == ' ' && x[1..][1..] == LogFactor(t.log);
      assert !StartsWith(x, "n^") && StartsWith(x, "n");
      ParseLogFactorOf(1, t.log);
    }
  }

  lemma ProductOfPower(t: Term)
    requires t.exp >= 2
    ensures Product(t) != "1" && ParseProduct(Product(t)) == Some(t)
  {
    ProductShape(t);
    var x := Product(t);
    var d := NatToString(t.exp);
    var tail := if t.log == 0 then "" else " " + LogFactor(t.log);
    assert x == "n^" + d + tail;
    assert StartsWith(x, "n^");
    SpanAt(x, 2, 2 + |d|, IsDigit);
    assert x[2..2 + |d|] == d;
    assert x[2 + |d|..] == tail;
    DecimalRoundTrip(t.exp);
    if t.log > 0 {
      assert tail[1..] == LogFactor(t.log);
      ParseLogFactorOf(t.exp, t.log);
    }
  }

  /** Distinct loop terms get distinct labels. */
  lemma ToLabelInjective(a: Term, b: Term)
    ensures ToLabel(a) == ToLabel(b) ==> a == b
  {
    LabelRoundTrip(a);
    LabelRoundTrip(b);
  }

  /** The recursion label chosen from the largest divide and subtract counts. */
  function RecursionLabel(maxDivide: nat, maxSubtract: nat): (r: string)
    ensures r in {"O(n log n)", "O(log n)", "O(3^n)", "O(2^n)", "O(n)", "O(1)"}
    ensures r == "O(1)" <==> maxDivide == 0 && maxSubtract == 0
    ensures Wrapped(r) && ')' !in r[2..|r| - 1]
  {
    if maxDivide >= 2 then "O(n log n)"
    else if maxDivide == 1 then "O(log n)"
    else if maxSubtract >= 3 then "O(3^n)"
    else if maxSubtract == 2 then "O(2^n)"
    else if maxSubtract == 1 then "O(n)"
    else "O(1)"
  }

  /** A divide count settles the recursion label whatever the subtract count. */
  lemma DivideDominates(d: nat, s1: nat, s2: nat)
    requires d > 0
    ensures RecursionLabel(d, s1) == RecursionLabel(d, s2)
    ensures RecursionLabel(d, s1) == (if d >= 2 then "O(n log n)" else "O(log n)")
  {
  }

  /** `c.replace("O(", "").replace(")", "")`: the first `O(` and the first `)` are removed. */
  function StripAsWritten(c: string): string {
    RemoveFirst(RemoveFirst(c, "O("), ")")
  }

  /** `combineComplexities` as the source writes it. */
  function CombineAsWritten(c1: string, c2: string): string {
    if c1 == "O(1)" then c2
    else if c2 == "O(1)" then c1
    else if c1 == c2 then c1
    else if (c1 == "O(n)" && c2 == "O(log n)") || (c2 == "O(n)" && c1 == "O(log n)") then "O(n log n)"
    else "O(" + StripAsWritten(c1) + " * " + StripAsWritten(c2) + ")"
  }

  /**
   * The source's stripping removes the `)` of `(log n)` instead of the
   * closing one of the label: squared-log loops combined with a linear
   * recursion come out as `O((log n^2) * n)`.
   */
  lemma CombineAsWrittenMangles(t: Term, r: string)
    requires t == Term(0, 2) && r == "O(n)"
    ensures ToLabel(t) == "O((log n)^2)"
    ensures CombineAsWritten(ToLabel(t), r) == "O((log n^2) * n)"
    ensures Combine(ToLabel(t), r) == "O((log n)^2 * n)"
  {
    SquaredLogLabel(t);
    SquaredLogPieces();
    StripSquaredLog();
    StripLinear(r);
    UnwrapWrap("(log n)^2");
    UnwrapWrap("n");
    MangledPieces();
  }

  /** The labels of the squared-log example, piece by piece. */
  lemma MangledPieces()
    ensures "O((log n)^2)" != "O(1)" && "O((log n)^2)" != "O(n)" && "O((log n)^2)" != "O(log n)" && "O(n)" != "O(1)"
    ensures "O(" + "(log n)^2" + ")" == "O((log n)^2)" && "O(" + "n" + ")" == "O(n)"
    ensures "O(" + "(log n^2)" + " * " + "n" + ")" == "O((log n^2) * n)"
    ensures "O(" + "(log n)^2" + " * " + "n" + ")" == "O((log n)^2 * n)"
  {
  }

  lemma SquaredLogLabel(t: Term)
    requires t == Term(0, 2)
    ensures ToLabel(t) == "O((log n)^2)"
  {
    assert NatToString(2) == "2";
    ProductShape(t);
  }

  lemma StripSquaredLog()
    ensures StripAsWritten("O((log n)^2)") == "(log n^2)"
  {
    SquaredLogPieces();
    StripFirstParen("(log n", "^2)");
  }

  /** The squared-log label cut at its first `)`. */
  lemma SquaredLogPieces()
    ensures ')' !in "(log n"
    ensures "O(" + "(log n" + ")" + "^2)" == "O((log n)^2)"
    ensures "(log n" + "^2)" == "(log n^2)"
  {
  }

  /** What the source's stripping does to `O(x)y` when `x` has no `)`. */
  lemma StripFirstParen(x: string, y: string)
    requires ')' !in x
    ensures StripAsWritten("O(" + x + ")" + y) == x + y
  {
    RemovePrefix("O(", x + ")" + y);
    assert "O(" + x + ")" + y == "O(" + (x + ")" + y);
    assert x + ")" + y == x + [')'] + y;
    RemoveFirstChar(x, ')', y);
  }

  lemma StripLinear(c: string)
    requires c == "O(n)"
    ensures StripAsWritten(c) == "n"
  {
    assert c == "O(" + "n" + ")";
    assert ')' !in "n";
    StripAsWrittenWhenNoParen("n");
  }

  /** Removing the first occurrence of a prefix drops exactly that prefix. */
  lemma RemovePrefix(p: string, y: string)
    ensures RemoveFirst(p + y, p) == y
  {
    assert OccursAt(p + y, p, 0);
  }

  /** Removing the first `c` when none precedes the given one. */
  lemma RemoveFirstChar(x: string, c: char, y: string)
    requires c !in x
    ensures RemoveFirst(x + [c] + y, [c]) == x + y
  {
    var s := x + [c] + y;
    assert OccursAt(s, [c], |x|);
    forall j | 0 <= j < |x| ensures !OccursAt(s, [c], j) {
      assert s[j] == x[j];
    }
    assert s[..|x|] == x && s[|x| + 1..] == y;
  }

  /** `O(x)` determines `x`. */
  lemma WrapInjective(x: string, y: string)
    ensures "O(" + x + ")" == "O(" + y + ")" ==> x == y
  {
    var a, b := "O(" + x + ")", "O(" + y + ")";
    assert a[2..|a| - 1] == x;
    assert b[2..|b| - 1] == y;
  }

  /** The text between `O(` and the closing `)`. */
  function Unwrap(c: string): string {
    if Wrapped(c) then c[2..|c| - 1] else StripAsWritten(c)
  }

  /** `combineComplexities` with the whole `O(` ... `)` wrapper removed from each label. */
  function Combine(c1: string, c2: string): string {
    if c1 == "O(1)" then c2
    else if c2 == "O(1)" then c1
    else if c1 == c2 then c1
    else if (c1 == "O(n)" && c2 == "O(log n)") || (c2 == "O(n)" && c1 == "O(log n)") then "O(n log n)"
    else "O(" + Unwrap(c1) + " * " + Unwrap(c2) + ")"
  }

  /** `Unwrap` takes back exactly what the wrapper added. */
  lemma UnwrapWrap(x: string)
    ensures Wrapped("O(" + x + ")") && Unwrap("O(" + x + ")") == x
  {
    var c := "O(" + x + ")";
    assert c[..2] == "O(";
    assert c[2..|c| - 1] == x;
  }

  /** The labels the merge rules name, as wrappers around their inner text. */
  lemma NamedLabelPieces()
    ensures "O(1)" == "O(" + "1" + ")"
    ensures "O(n)" == "O(" + "n" + ")"
    ensures "O(log n)" == "O(" + "log n" + ")"
  {
  }

  /** Two labels that no earlier rule settles are multiplied factor by factor. */
  lemma CombineMultiplies(x: string, y: string)
    requires x != "1" && y != "1" && x != y
    requires !(x == "n" && y == "log n") && !(x == "log n" && y == "n")
    ensures Combine("O(" + x + ")", "O(" + y + ")") == "O(" + x + " * " + y + ")"
  {
    UnwrapWrap(x);
    UnwrapWrap(y);
    NamedLabelPieces();
    WrapInjective(x, "1");
    WrapInjective(y, "1");
    WrapInjective(x, y);
    WrapInjective(x, "n");
    WrapInjective(y, "n");
    WrapInjective(x, "log n");
    WrapInjective(y, "log n");
  }

  /**
   * `O(1)` is a unit for the merge, a label merged with itself is unchanged,
   * and linear with logarithmic gives `O(n log n)` in either order; both
   * merges agree on these cases.
   */
  lemma CombineUnit(c: string)
    ensures Combine("O(1)", c) == c && Combine(c, "O(1)") == c && Combine(c, c) == c
    ensures CombineAsWritten("O(1)", c) == c && CombineAsWritten(c, "O(1)") == c && CombineAsWritten(c, c) == c
    ensures Combine("O(n)", "O(log n)") == "O(n log n)" && Combine("O(log n)", "O(n)") == "O(n log n)"
    ensures CombineAsWritten("O(n)", "O(log n)") == "O(n log n)" && CombineAsWritten("O(log n)", "O(n)") == "O(n log n)"
  {
  }

  /** The combined label keeps the `O(...)` form. */
  lemma CombineWrapped(c1: string, c2: string)
    requires Wrapped(c1) && Wrapped(c2)
    ensures Wrapped(Combine(c1, c2))
  {
  }

  /** The source's merge keeps the `O(...)` form too, mangled inside or not. */
  lemma CombineAsWrittenWrapped(c1: string, c2: string)
    requires Wrapped(c1) && Wrapped(c2)
    ensures Wrapped(CombineAsWritten(c1, c2))
  {
    if c1 == "O(1)" || c2 == "O(1)" || c1 == c2 {
    } else if (c1 == "O(n)" && c2 == "O(log n)") || (c2 == "O(n)" && c1 == "O(log n)") {
      WrapWrapped("n log n");
    } else {
      WrapWrapped(StripAsWritten(c1) + " * " + StripAsWritten(c2));
    }
  }

  lemma WrapWrapped(m: string)
    ensures Wrapped("O(" + m + ")")
  {
    assert ("O(" + m + ")")[..2] == "O(";
  }

  /** The source's stripping is right whenever the inner text has no `)`. */
  lemma StripAsWrittenWhenNoParen(x: string)
    requires ')' !in x
    ensures StripAsWritten("O(" + x + ")") == x
  {
    RemovePrefix("O(", x + ")");
    assert "O(" + x + ")" == "O(" + (x + ")");
    assert x + ")" == x + [')'] + "";
    RemoveFirstChar(x, ')', "");
  }

  /** Outside squared-log labels the corrected merge gives the source's result. */
  lemma CombineAgrees(c1: string, c2: string)
    requires Wrapped(c1) && Wrapped(c2)
    requires ')' !in c1[2..|c1| - 1] && ')' !in c2[2..|c2| - 1]
    ensures CombineAsWritten(c1, c2) == Combine(c1, c2)
  {
    assert c1 == "O(" + c1[2..|c1| - 1] + ")";
    assert c2 == "O(" + c2[2..|c2| - 1] + ")";
    StripAsWrittenWhenNoParen(c1[2..|c1| - 1]);
    StripAsWrittenWhenNoParen(c2[2..|c2| - 1]);
  }

  /** Loop labels hold a `)` inside only when the log power is at least two. */
  lemma LoopLabelParen(t: Term)
    requires t.log <= 1
    ensures ')' !in ToLabel(t)[2..|ToLabel(t)| - 1]
  {
    var s := ToLabel(t);
    if !(t.exp == 0 && t.log == 0) {
      assert s[2..|s| - 1] == Product(t);
      var d := NatToString(t.exp);
      assert forall i :: 0 <= i < |d| ==> d[i] != ')';
      assert ')' !in "n^" && ')' !in "log n" && ')' !in " ";
      ProductShape(t);
    }
  }
}
