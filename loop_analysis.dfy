/**
 * `isLogLoop` and `getLoopComplexity`: the loop term of a syntax tree. A
 * loop contributes `n` per nesting level, or `log n` when its update, its
 * condition or its body shows a halving or doubling pattern; sibling
 * subtrees are combined by the lexicographic maximum.
 */
module LoopAnalysis {
  import opened Options
  import opened Text
  import opened SyntaxTree
  import opened ComplexityLabels

  predicate IsLoopKind(kind: string) {
    kind == "for_statement" || kind == "while_statement" || kind == "do_statement"
  }

  predicate NotLoop(m: Node) {
    !IsLoopKind(m.kind)
  }

  /** The loop body: the `body` field, else a positional named child. */
  function BodyIndex(n: Node): (r: Option<nat>)
    ensures r.Some? ==> r.value < |n.children|
  {
    if FieldIndex(n, "body").Some? then FieldIndex(n, "body")
    else if n.kind == "do_statement" then NamedIndex(n, 0)
    else if n.kind == "while_statement" || n.kind == "for_statement" then NamedIndex(n, NamedCount(n) - 1)
    else None
  }

  /** The loop condition: the `condition` field, else the second named child of a `do`. */
  function ConditionIndex(n: Node): (r: Option<nat>)
    ensures r.Some? ==> r.value < |n.children|
  {
    if FieldIndex(n, "condition").Some? then FieldIndex(n, "condition")
    else if n.kind == "do_statement" then NamedIndex(n, 1)
    else None
  }

  // ---------------------------------------------------------------------
  // Identifiers of the loop condition, as an insertion-ordered set

  /** `ids.add(m.text)` on an identifier node `m`; a text already present keeps its place. */
  function AddId(ids: seq<string>, m: Node): seq<string> {
    if m.kind == "identifier" && m.text !in ids then ids + [m.text] else ids
  }

  function AddIds(ids: seq<string>, ms: seq<Node>): seq<string>
    decreases |ms|
  {
    if ms == [] then ids else AddId(AddIds(ids, ms[..|ms| - 1]), ms[|ms| - 1])
  }

  lemma {:induction false} AddIdsAppend(ids: seq<string>, xs: seq<Node>, ys: seq<Node>)
    ensures AddIds(ids, xs + ys) == AddIds(AddIds(ids, xs), ys)
    decreases |ys|
  {
    if ys == [] {
      assert xs + ys == xs;
    } else {
      assert (xs + ys)[..|xs + ys| - 1] == xs + ys[..|ys| - 1];
      AddIdsAppend(ids, xs, ys[..|ys| - 1]);
    }
  }

  predicate Distinct(s: seq<string>) {
    forall a, b :: 0 <= a < b < |s| ==> s[a] != s[b]
  }

  /**
   * Adding the identifiers of `ms` keeps the texts distinct and the earlier
   * ones in place, and adds exactly the texts of the identifier nodes.
   */
  lemma {:induction false} AddIdsSpec(ids: seq<string>, ms: seq<Node>)
    requires Distinct(ids)
    ensures Distinct(AddIds(ids, ms))
    ensures |ids| <= |AddIds(ids, ms)| && AddIds(ids, ms)[..|ids|] == ids
    ensures forall x :: x in AddIds(ids, ms) <==>
      x in ids || exists k :: 0 <= k < |ms| && ms[k].kind == "identifier" && ms[k].text == x
    decreases |ms|
  {
    if ms != [] {
      var front := ms[..|ms| - 1];
      AddIdsSpec(ids, front);
      var p := AddIds(ids, front);
      var m := ms[|ms| - 1];
      assert p[..|ids|] == ids;
      if m.kind == "identifier" && m.text !in p {
        assert (p + [m.text])[..|ids|] == p[..|ids|];
      }
      forall x | x in AddIds(ids, ms)
        ensures x in ids || exists k :: 0 <= k < |ms| && ms[k].kind == "identifier" && ms[k].text == x
      {
        if x in p {
          if x !in ids {
            var k :| 0 <= k < |front| && front[k].kind == "identifier" && front[k].text == x;
            assert ms[k] == front[k];
          }
        } else {
          assert ms[|ms| - 1].text == x;
        }
      }
      forall x | x !in ids && exists k :: 0 <= k < |ms| && ms[k].kind == "identifier" && ms[k].text == x
        ensures x in AddIds(ids, ms)
      {
        var k :| 0 <= k < |ms| && ms[k].kind == "identifier" && ms[k].text == x;
        if k < |front| {
          assert front[k] == ms[k];
        }
      }
    }
  }

  /** Nodes without identifiers add nothing. */
  lemma {:induction false} AddIdsNone(ids: seq<string>, ms: seq<Node>)
    requires forall j :: 0 <= j < |ms| ==> ms[j].kind != "identifier"
    ensures AddIds(ids, ms) == ids
    decreases |ms|
  {
    if ms != [] {
      AddIdsNone(ids, ms[..|ms| - 1]);
    }
  }

  /** Identifiers that all carry the text `v` add at most `v`. */
  lemma {:induction false} AddIdsSingle(ids: seq<string>, ms: seq<Node>, v: string)
    requires ids == [] || ids == [v]
    requires forall j :: 0 <= j < |ms| && ms[j].kind == "identifier" ==> ms[j].text == v
    ensures AddIds(ids, ms) == [] || AddIds(ids, ms) == [v]
    decreases |ms|
  {
    if ms != [] {
      AddIdsSingle(ids, ms[..|ms| - 1], v);
    }
  }

  /** The first identifier met is the first element. */
  lemma FirstIdentifier(ms: seq<Node>, k: nat)
    requires k < |ms| && ms[k].kind == "identifier"
    requires forall j :: 0 <= j < k ==> ms[j].kind != "identifier"
    ensures |AddIds([], ms)| >= 1 && AddIds([], ms)[0] == ms[k].text
  {
    AddIdsNone([], ms[..k]);
    assert ms[..k + 1][..k] == ms[..k];
    assert ms[..k + 1][k] == ms[k];
    assert AddIds([], ms[..k + 1]) == [ms[k].text];
    assert ms == ms[..k + 1] + ms[k + 1..];
    AddIdsAppend([], ms[..k + 1], ms[k + 1..]);
    AddIdsSpec([ms[k].text], ms[k + 1..]);
  }

  /** The loop in `collectIds`: the identifiers met in a visit of `n`, added to `ids`. */
  method CollectIds(n: Node, ids: seq<string>) returns (r: seq<string>)
    ensures r == AddIds(ids, PreOrder(n))
    decreases n
  {
    r := ids;
    if n.kind == "identifier" && n.text !in r {
      r := r + [n.text];
    }
    assert r == AddIds(ids, [n]) by {
      assert [n][..0] == [];
    }
    var i := 0;
    while i < |n.children|
      invariant i <= |n.children|
      invariant r == AddIds(ids, [n] + PreOrderIn(n, i))
    {
      ghost var before := r;
      if n.children[i].named {
        r := CollectIds(n.children[i].node, r);
      }
      assert r == AddIds(before, ChildVisit(n, i));
      CollectStep(ids, n, i, before, r);
      i := i + 1;
    }
  }

  lemma CollectStep(ids: seq<string>, n: Node, i: nat, before: seq<string>, after: seq<string>)
    requires i < |n.children|
    requires before == AddIds(ids, [n] + PreOrderIn(n, i))
    requires after == AddIds(before, ChildVisit(n, i))
    ensures after == AddIds(ids, [n] + PreOrderIn(n, i + 1))
  {
    PreOrderInNext(n, i);
    AddIdsAppend(ids, [n] + PreOrderIn(n, i), ChildVisit(n, i));
  }

  // ---------------------------------------------------------------------
  // The update clause of a for loop

  /** The update text holds `*=`, `/=`, `<<=` or `>>=`. */
  predicate HasCompoundLogOp(t: string) {
    Contains(t, "*=") || Contains(t, "/=") || Contains(t, "<<=") || Contains(t, ">>=")
  }

  /**
   * `/^([A-Za-z_]\w*)=\1op/`, followed by a digit when `digit` is set. The
   * captured name is the whole leading word: a shorter one is followed by a
   * word character, not by `=`.
   */
  predicate SelfUpdate(t: string, op: string, digit: bool) {
    var w := Span(t, 0, IsWordChar);
    0 < w && IsIdentStart(t[0]) && StartsWith(t[w..], "=" + t[..w] + op)
    && (digit ==> 2 * w + 1 + |op| < |t| && IsDigit(t[2 * w + 1 + |op|]))
  }

  /** Every text of the shape `v=v op` for an identifier `v` is recognised. */
  lemma SelfUpdateOf(t: string, v: string, op: string, digit: bool)
    requires IsIdentifier(v) && StartsWith(t, v + "=" + v + op)
    requires digit ==> 2 * |v| + 1 + |op| < |t| && IsDigit(t[2 * |v| + 1 + |op|])
    ensures SelfUpdate(t, op, digit)
  {
    var p := v + "=" + v + op;
    var len := |p|;
    assert t[..len] == p;
    assert t[|v|] == '=';
    SpanAt(t, 0, |v|, IsWordChar);
    assert t[..|v|] == v;
    assert p[|v|..] == "=" + v + op;
    assert t[|v|..][..1 + |v| + |op|] == t[..len][|v|..];
  }

  /** Every recognised text has the shape `v=v op` for an identifier `v`. */
  lemma SelfUpdateShape(t: string, op: string, digit: bool) returns (v: string)
    requires SelfUpdate(t, op, digit)
    ensures IsIdentifier(v) && StartsWith(t, v + "=" + v + op)
    ensures digit ==> 2 * |v| + 1 + |op| < |t| && IsDigit(t[2 * |v| + 1 + |op|])
  {
    var w := Span(t, 0, IsWordChar);
    v := t[..w];
    assert t == v + t[w..];
  }

  /** The three update tests of `isLogLoop`, on the update text without white space. */
  predicate LogUpdate(t: string) {
    HasCompoundLogOp(t) || SelfUpdate(t, "*", false) || SelfUpdate(t, "/", false)
    || SelfUpdate(t, "<<", true) || SelfUpdate(t, ">>", true)
  }

  predicate UpdateIsLog(n: Node) {
    match FieldNode(n, "update")
    case Some(u) => LogUpdate(RemoveSpaces(u.text))
    case None => false
  }

  // ---------------------------------------------------------------------
  // The body walk for a loop controlled by one identifier

  /** `/=[^=]*op/`: after some `=`, `op` occurs before the next `=`. */
  predicate AssignsAfter(t: string, op: string) {
    exists i :: 0 <= i < |t| && t[i] == '=' && Contains(t[i + 1..Span(t, i + 1, IsNotEquals)], op)
  }

  /** Every match of `=[^=]*op` is found. */
  lemma AssignsAfterOf(t: string, op: string, i: nat, k: nat)
    requires i < k && OccursAt(t, op, k) && t[i] == '='
    requires forall j :: i < j < k + |op| ==> t[j] != '='
    ensures AssignsAfter(t, op)
  {
    var e := Span(t, i + 1, IsNotEquals);
    assert k + |op| <= e;
    var run := t[i + 1..e];
    assert run[k - i - 1..k - i - 1 + |op|] == t[k..k + |op|];
    assert OccursAt(run, op, k - i - 1);
  }

  /** What `scanNode` decides at one node before it looks at any child. */
  datatype Verdict = Found | Stop | Descend

  function ScanVerdict(n: Node, v: string): Verdict {
    if n.kind == "assignment_expression" then
      var t := RemoveSpaces(n.text);
      match ChildAt(n, 0)
      case Some(target) =>
        if target.kind == "identifier" && target.text == v then
          if HasCompoundLogOp(t) || AssignsAfter(t, "*") || AssignsAfter(t, "/")
            || AssignsAfter(t, "<<") || AssignsAfter(t, ">>") then Found
          else if Contains(t, "+=") || Contains(t, "-=") || AssignsAfter(t, "+") || AssignsAfter(t, "-") then Stop
          else Descend
        else Descend
      case None => Descend
    else if n.kind == "update_expression" then
      var t := RemoveSpaces(n.text);
      if (StartsWith(t, v) || EndsWith(t, v)) && (Contains(t, "++") || Contains(t, "--")) then Stop
      else Descend
    else Descend
  }

  /** Whether `scanNode` sets `foundLog` somewhere in the subtree of `n`. */
  function ScanLog(n: Node, v: string): bool
    decreases n, 1
  {
    match ScanVerdict(n, v)
    case Found => true
    case Stop => false
    case Descend => ScanIn(n, v, |n.children|)
  }

  function ScanIn(n: Node, v: string, i: nat): bool
    requires i <= |n.children|
    decreases n, 0, i
  {
    i > 0 && (ScanIn(n, v, i - 1) || (n.children[i - 1].named && ScanLog(n.children[i - 1].node, v)))
  }

  /** An additive update stops descent but never sets the flag, and siblings are still walked. */
  lemma {:induction false} ScanInAny(n: Node, v: string, i: nat)
    requires i <= |n.children|
    ensures ScanIn(n, v, i) <==> exists j :: 0 <= j < i && n.children[j].named && ScanLog(n.children[j].node, v)
  {
    if i > 0 {
      ScanInAny(n, v, i - 1);
    }
  }

  /** The flag is set only by a logarithmic assignment inside the subtree. */
  lemma {:induction false} ScanLogSound(n: Node, v: string) returns (k: nat)
    requires ScanLog(n, v)
    ensures k < |PreOrder(n)| && ScanVerdict(PreOrder(n)[k], v) == Found
    decreases n, 1
  {
    if ScanVerdict(n, v) == Found {
      k := 0;
    } else {
      var k' := ScanInSound(n, v, |n.children|);
      k := k' + 1;
      assert PreOrder(n)[k] == PreOrderIn(n, |n.children|)[k'];
    }
  }

  lemma {:induction false} ScanInSound(n: Node, v: string, i: nat) returns (k: nat)
    requires i <= |n.children| && ScanIn(n, v, i)
    ensures k < |PreOrderIn(n, i)| && ScanVerdict(PreOrderIn(n, i)[k], v) == Found
    decreases n, 0, i
  {
    assert i > 0;
    PreOrderInStep(n, i - 1);
    if ScanIn(n, v, i - 1) {
      k := ScanInSound(n, v, i - 1);
    } else {
      var c := n.children[i - 1];
      assert c.named && ScanLog(c.node, v);
      var k' := ScanLogSound(c.node, v);
      k := |PreOrderIn(n, i - 1)| + k';
    }
  }

  predicate NotStopFor(v: string, m: Node) {
    ScanVerdict(m, v) != Stop
  }

  /** Without additive updates of `v` in the subtree, every logarithmic assignment is found. */
  lemma {:induction false} ScanLogComplete(n: Node, v: string, k: nat)
    requires AllNodes(PreOrder(n), m => NotStopFor(v, m))
    requires k < |PreOrder(n)| && ScanVerdict(PreOrder(n)[k], v) == Found
    ensures ScanLog(n, v)
    decreases n, 1
  {
    PreOrderAll(n, m => NotStopFor(v, m));
    if k > 0 && ScanVerdict(n, v) != Found {
      assert PreOrder(n)[k] == PreOrderIn(n, |n.children|)[k - 1];
      ScanInComplete(n, v, |n.children|, k - 1);
    }
  }

  lemma {:induction false} ScanInComplete(n: Node, v: string, i: nat, k: nat)
    requires i <= |n.children|
    requires forall j :: 0 <= j < i && n.children[j].named ==> AllNodes(PreOrder(n.children[j].node), m => NotStopFor(v, m))
    requires k < |PreOrderIn(n, i)| && ScanVerdict(PreOrderIn(n, i)[k], v) == Found
    ensures ScanIn(n, v, i)
    decreases n, 0, i
  {
    PreOrderInStep(n, i - 1);
    var front := PreOrderIn(n, i - 1);
    if k < |front| {
      ScanInComplete(n, v, i - 1, k);
    } else {
      assert n.children[i - 1].named;
      ScanLogComplete(n.children[i - 1].node, v, k - |front|);
    }
  }

  /**
   * Following the named children at the indices of `path` down from `n`,
   * every node passed is one `scanNode` descends into and the node reached
   * holds a logarithmic assignment to `v`.
   */
  predicate FoundAlong(n: Node, v: string, path: seq<nat>)
    decreases |path|
  {
    if path == [] then ScanVerdict(n, v) == Found
    else
      && ScanVerdict(n, v) == Descend
      && path[0] < |n.children| && n.children[path[0]].named
      && FoundAlong(n.children[path[0]].node, v, path[1..])
  }

  /** A logarithmic assignment reached without passing a stopping node sets the flag, whatever its siblings hold. */
  lemma {:induction false} FoundAlongComplete(n: Node, v: string, path: seq<nat>)
    requires FoundAlong(n, v, path)
    ensures ScanLog(n, v)
    decreases |path|
  {
    if path != [] {
      var j := path[0];
      FoundAlongComplete(n.children[j].node, v, path[1..]);
      ScanInAny(n, v, |n.children|);
      assert 0 <= j < |n.children| && n.children[j].named && ScanLog(n.children[j].node, v);
    }
  }

  /** A set flag comes from such a path. */
  lemma {:induction false} FoundAlongSound(n: Node, v: string) returns (path: seq<nat>)
    requires ScanLog(n, v)
    ensures FoundAlong(n, v, path)
    decreases n
  {
    if ScanVerdict(n, v) == Found {
      path := [];
    } else {
      ScanInAny(n, v, |n.children|);
      var j :| 0 <= j < |n.children| && n.children[j].named && ScanLog(n.children[j].node, v);
      var rest := FoundAlongSound(n.children[j].node, v);
      path := [j] + rest;
      assert path[1..] == rest;
    }
  }

  /** `scanNode`: the flag after walking `n`, starting from `found`. */
  method ScanNode(n: Node, v: string, found: bool) returns (r: bool)
    ensures r == (found || ScanLog(n, v))
    decreases n
  {
    r := found;
    var verdict := ScanVerdict(n, v);
    if verdict == Found {
      return true;
    }
    if verdict == Stop {
      return;
    }
    var i := 0;
    while i < |n.children|
      invariant i <= |n.children|
      invariant r == (found || ScanIn(n, v, i))
    {
      if n.children[i].named {
        r := ScanNode(n.children[i].node, v, r);
      }
      i := i + 1;
    }
  }

  // ---------------------------------------------------------------------
  // isLogLoop

  /** `/\/\s*2/` or `/>>\s*1/` on the body text. */
  predicate HalvingText(s: string) {
    OpSpacesDigit(s, "/", '2', false) || OpSpacesDigit(s, ">>", '1', false)
  }

  /** The decision from the condition identifiers `ids` and the body. */
  function ConditionDecides(n: Node, ids: seq<string>): bool {
    if |ids| >= 2 then
      match NodeAt(n, BodyIndex(n))
      case Some(b) => HalvingText(b.text)
      case None => false
    else if |ids| == 1 then
      match NodeAt(n, BodyIndex(n))
      case Some(b) => ScanLog(b, ids[0])
      case None => false
    else false
  }

  /** `isLogLoop`. */
  function LogLoop(n: Node): bool {
    if n.kind == "for_statement" && UpdateIsLog(n) then true
    else
      match NodeAt(n, ConditionIndex(n))
      case None => false
      case Some(c) => ConditionDecides(n, AddIds([], PreOrder(c)))
  }

  /** A logarithmic update clause settles the answer before the condition or body is read. */
  lemma LogUpdateSettles(n: Node)
    requires n.kind == "for_statement" && UpdateIsLog(n)
    ensures LogLoop(n)
  {
  }

  /** Without a condition, only the update clause can make a loop logarithmic. */
  lemma NoConditionNoLog(n: Node)
    requires NodeAt(n, ConditionIndex(n)).None?
    ensures LogLoop(n) <==> n.kind == "for_statement" && UpdateIsLog(n)
  {
  }

  /**
   * With two distinct identifiers in the condition, the loop is logarithmic
   * exactly when the body text halves (or the update clause already said so).
   */
  lemma TwoIdentifiers(n: Node, c: Node, k1: nat, k2: nat)
    requires NodeAt(n, ConditionIndex(n)) == Some(c)
    requires k1 < |PreOrder(c)| && k2 < |PreOrder(c)|
    requires PreOrder(c)[k1].kind == "identifier" && PreOrder(c)[k2].kind == "identifier"
    requires PreOrder(c)[k1].text != PreOrder(c)[k2].text
    ensures LogLoop(n) <==>
      (n.kind == "for_statement" && UpdateIsLog(n))
      || (match NodeAt(n, BodyIndex(n)) case Some(b) => HalvingText(b.text) case None => false)
  {
    var ids := AddIds([], PreOrder(c));
    AddIdsSpec([], PreOrder(c));
    var a, b := PreOrder(c)[k1].text, PreOrder(c)[k2].text;
    assert a in ids && b in ids;
  }

  /** With a single identifier `v` in the condition, the loop is logarithmic exactly when the body walk finds `v` scaled. */
  lemma OneIdentifier(n: Node, c: Node, k: nat)
    requires NodeAt(n, ConditionIndex(n)) == Some(c)
    requires k < |PreOrder(c)| && PreOrder(c)[k].kind == "identifier"
    requires forall j :: 0 <= j < |PreOrder(c)| && PreOrder(c)[j].kind == "identifier" ==> PreOrder(c)[j].text == PreOrder(c)[k].text
    ensures LogLoop(n) <==>
      (n.kind == "for_statement" && UpdateIsLog(n))
      || (match NodeAt(n, BodyIndex(n)) case Some(b) => ScanLog(b, PreOrder(c)[k].text) case None => false)
  {
    var ids := AddIds([], PreOrder(c));
    AddIdsSpec([], PreOrder(c));
    var v := PreOrder(c)[k].text;
    assert v in ids;
    AddIdsSingle([], PreOrder(c), v);
  }

  /** Without identifiers in the condition, only the update clause can make a loop logarithmic. */
  lemma NoIdentifiers(n: Node, c: Node)
    requires NodeAt(n, ConditionIndex(n)) == Some(c)
    requires forall j :: 0 <= j < |PreOrder(c)| ==> PreOrder(c)[j].kind != "identifier"
    ensures LogLoop(n) <==> n.kind == "for_statement" && UpdateIsLog(n)
  {
    AddIdsNone([], PreOrder(c));
  }

  /** `isLogLoop`, with its identifier collection and body walk. */
  method IsLogLoop(n: Node) returns (r: bool)
    ensures r == LogLoop(n)
  {
    if n.kind == "for_statement" {
      match FieldNode(n, "update") {
        case Some(u) =>
          var updateText := RemoveSpaces(u.text);
          if LogUpdate(updateText) {
            return true;
          }
        case None =>
      }
    }
    var cond := NodeAt(n, ConditionIndex(n));
    var body := NodeAt(n, BodyIndex(n));
    if cond.None? {
      return false;
    }
    var ids := CollectIds(cond.value, []);
    if |ids| >= 2 {
      r := body.Some? && HalvingText(body.value.text);
    } else if |ids| == 1 {
      r := false;
      if body.Some? {
        r := ScanNode(body.value, ids[0], false);
      }
    } else {
      r := false;
    }
  }

  // ---------------------------------------------------------------------
  // getLoopComplexity

  /** The term a loop contributes by itself. */
  function OwnTerm(n: Node): Term {
    if LogLoop(n) then Term(0, 1) else Term(1, 0)
  }

  /** `getLoopComplexity`. */
  function LoopTerm(n: Node): Term
    decreases n, 1
  {
    if IsLoopKind(n.kind) then
      match BodyIndex(n)
      case Some(b) => Plus(OwnTerm(n), LoopTerm(n.children[b].node))
      case None => OwnTerm(n)
    else MaxIn(n, |n.children|)
  }

  /** The running maximum over the named children among the first `i`. */
  function MaxIn(n: Node, i: nat): Term
    requires i <= |n.children|
    decreases n, 0, i
  {
    if i == 0 then Constant
    else
      var m := MaxIn(n, i - 1);
      if n.children[i - 1].named then Larger(m, LoopTerm(n.children[i - 1].node)) else m
  }

  /** The running maximum is at least every named child's term, and is one of them unless it is `O(1)`. */
  lemma {:induction false} MaxInBounds(n: Node, i: nat)
    requires i <= |n.children|
    ensures forall j :: 0 <= j < i && n.children[j].named ==> Compare(MaxIn(n, i), LoopTerm(n.children[j].node)) >= 0
    ensures MaxIn(n, i) == Constant
      || exists j :: 0 <= j < i && n.children[j].named && MaxIn(n, i) == LoopTerm(n.children[j].node)
  {
    if i > 0 {
      MaxInBounds(n, i - 1);
    }
  }

  /** A loop's term is its own term plus its body's, whatever its other children hold. */
  lemma LoopTermOfLoop(n: Node)
    requires IsLoopKind(n.kind)
    ensures LoopTerm(n) == Plus(OwnTerm(n), match NodeAt(n, BodyIndex(n)) case Some(b) => LoopTerm(b) case None => Constant)
  {
  }

  /** A loop counts at least one factor. */
  lemma LoopTermPositive(n: Node)
    requires IsLoopKind(n.kind)
    ensures LoopTerm(n).exp + LoopTerm(n).log >= 1
  {
    LoopTermOfLoop(n);
  }

  /** A subtree costs `O(1)` exactly when no loop is reached in it. */
  lemma {:induction false} LoopTermConstant(n: Node)
    ensures LoopTerm(n) == Constant <==> AllNodes(PreOrder(n), NotLoop)
    decreases n, 1
  {
    PreOrderAll(n, NotLoop);
    if !IsLoopKind(n.kind) {
      forall j | 0 <= j < |n.children| && n.children[j].named
        ensures LoopTerm(n.children[j].node) == Constant <==> AllNodes(PreOrder(n.children[j].node), NotLoop)
      {
        LoopTermConstant(n.children[j].node);
      }
      MaxInConstant(n, |n.children|);
    }
  }

  lemma {:induction false} MaxInConstant(n: Node, i: nat)
    requires i <= |n.children|
    ensures MaxIn(n, i) == Constant <==>
      forall j :: 0 <= j < i && n.children[j].named ==> LoopTerm(n.children[j].node) == Constant
  {
    if i > 0 {
      MaxInConstant(n, i - 1);
    }
  }

  /** The loop's own term from the verdict of `isLogLoop`. */
  lemma OwnTermOf(n: Node, logLoop: bool)
    requires logLoop == LogLoop(n)
    ensures OwnTerm(n) == if logLoop then Term(0, 1) else Term(1, 0)
  {
  }

  /** A loop's term from its own term and the term of its body, if any. */
  lemma LoopTermSplit(n: Node, own: Term, inner: Term)
    requires IsLoopKind(n.kind) && OwnTerm(n) == own
    requires inner == if BodyIndex(n).Some? then LoopTerm(n.children[BodyIndex(n).value].node) else Constant
    ensures LoopTerm(n) == Plus(own, inner)
  {
  }

  /** `getLoopComplexity`. */
  method GetLoopComplexity(n: Node) returns (t: Term)
    ensures t == LoopTerm(n)
    decreases n, 2
  {
    if IsLoopKind(n.kind) {
      t := LoopNodeComplexity(n);
    } else {
      t := MaxOverChildren(n);
    }
  }

  /** The loop branch of `getLoopComplexity`: the loop's own term plus its body's. */
  method LoopNodeComplexity(n: Node) returns (t: Term)
    requires IsLoopKind(n.kind)
    ensures t == LoopTerm(n)
    decreases n, 1
  {
    var current := CurrentComplexity(n);
    var inner := Constant;
    var body := BodyIndex(n);
    if body.Some? {
      inner := GetLoopComplexity(n.children[body.value].node);
    }
    LoopTermSplit(n, current, inner);
    return Term(current.exp + inner.exp, current.log + inner.log);
  }

  /** `currentComplexity` in `getLoopComplexity`: `O(log n)` for a logarithmic loop, else `O(n)`. */
  method CurrentComplexity(n: Node) returns (current: Term)
    ensures current == OwnTerm(n)
  {
    var logLoop := IsLogLoop(n);
    current := if logLoop then Term(0, 1) else Term(1, 0);
    OwnTermOf(n, logLoop);
  }

  /** The non-loop branch of `getLoopComplexity`: the running maximum over the named children. */
  method MaxOverChildren(n: Node) returns (maxComp: Term)
    ensures maxComp == MaxIn(n, |n.children|)
    decreases n, 0
  {
    maxComp := Constant;
    var i := 0;
    while i < |n.children|
      invariant i <= |n.children|
      invariant maxComp == MaxIn(n, i)
    {
      if n.children[i].named {
        var comp := GetLoopComplexity(n.children[i].node);
        if Compare(comp, maxComp) > 0 {
          maxComp := comp;
        }
      }
      i := i + 1;
    }
  }
}
