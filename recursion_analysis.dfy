/**
 * `analyzeRecursion`: a pre-order walk of one function definition that
 * records which names are assigned a halved or a decremented value and,
 * at every direct self-call, classifies each argument as dividing,
 * subtracting or neither.
 */
module RecursionAnalysis {
  import opened Options
  import opened Text
  import opened SyntaxTree

  /** The walk's mutable state: the three results and the two name sets. */
  datatype WalkState = WalkState(
    isRecursive: bool,
    divideCount: nat,
    subtractCount: nat,
    halfVars: set<string>,
    subtractVars: set<string>)

  const Start: WalkState := WalkState(false, 0, 0, {}, {})

  predicate IsBlank(c: char) { c == ' ' }

  /** From `j`: a maximal run of digits, then no word character. */
  predicate NumberAt(s: string, j: int) {
    0 <= j <= |s| &&
    var k := Span(s, j, IsDigit);
    j < k && (k == |s| || !IsWordChar(s[k]))
  }

  /** `/\- *\d+\b/`. */
  predicate MinusNumber(s: string) {
    exists i :: 0 <= i < |s| && s[i] == '-' && NumberAt(s, Span(s, i + 1, IsBlank))
  }

  /** Every match of `- *\d+\b` is found. */
  lemma MinusNumberOf(s: string, i: nat, j: nat, k: nat)
    requires i < j <= k <= |s| && s[i] == '-'
    requires forall m :: i < m < j ==> s[m] == ' '
    requires j < k && forall m :: j <= m < k ==> IsDigit(s[m])
    requires k == |s| || !IsWordChar(s[k])
    ensures MinusNumber(s)
  {
    SpanAt(s, i + 1, j, IsBlank);
    SpanAt(s, j, k, IsDigit);
    assert NumberAt(s, j);
  }

  /** `/[\+\-]\d+$/`: the text ends in a sign followed by digits. */
  predicate EndsWithSignedNumber(t: string) {
    var k := SpanBack(t, |t|, IsDigit);
    0 < k < |t| && (t[k - 1] == '+' || t[k - 1] == '-')
  }

  /** Every text ending in a sign and digits is recognised. */
  lemma EndsWithSignedNumberOf(t: string, k: nat)
    requires 0 < k < |t| && (t[k - 1] == '+' || t[k - 1] == '-')
    requires forall m :: k <= m < |t| ==> IsDigit(t[m])
    ensures EndsWithSignedNumber(t)
  {
    SpanBackAt(t, k, |t|);
  }

  lemma {:induction false} SpanBackAt(t: string, k: nat, j: nat)
    requires 0 < k <= j <= |t| && !IsDigit(t[k - 1])
    requires forall m :: k <= m < j ==> IsDigit(t[m])
    ensures SpanBack(t, j, IsDigit) == k
    decreases j
  {
    if j > k {
      SpanBackAt(t, k, j - 1);
    }
  }

  /** The assignment tracking at the start of `walk`. */
  function TrackAssignment(st: WalkState, n: Node): (r: WalkState)
    ensures r.isRecursive == st.isRecursive && r.divideCount == st.divideCount && r.subtractCount == st.subtractCount
    ensures st.halfVars <= r.halfVars && st.subtractVars <= r.subtractVars
    ensures r.halfVars + r.subtractVars <= st.halfVars + st.subtractVars + (if |n.children| > 0 then {n.children[0].node.text} else {})
  {
    if (n.kind == "assignment_expression" || n.kind == "init_declarator") && |n.children| >= 2 then
      var target := n.children[0].node;
      var value := n.children[|n.children| - 1].node;
      if target.kind == "identifier" then
        if OpSpacesDigit(value.text, "/", '2', true) || OpSpacesDigit(value.text, ">>", '1', true) then
          st.(halfVars := st.halfVars + {target.text})
        else if value.kind == "binary_expression" && MinusNumber(value.text) then
          match (ChildAt(value, 0), ChildAt(value, 2))
          case (Some(left), Some(right)) =>
            if left.kind == "identifier" && right.kind == "number_literal" then
              st.(subtractVars := st.subtractVars + {target.text})
            else st
          case _ => st
        else st
      else st
    else st
  }

  /** What one argument of a self-call adds. */
  datatype Bump = Divide | Subtract | NoBump

  /** The argument rules of `walk`, tried in the order the source lists them. */
  function ClassifyArg(st: WalkState, arg: Node): Bump {
    var t := RemoveSpaces(arg.text);
    if EndsWith(t, "/2") || EndsWith(t, ">>1") then Divide
    else if arg.kind == "identifier" && arg.text in st.halfVars then Divide
    else if arg.kind == "identifier" && arg.text in st.subtractVars then Subtract
    else if arg.kind == "binary_expression" then
      if Contains(t, "/2") then Divide
      else
        match (ChildAt(arg, 0), ChildAt(arg, |arg.children| - 1))
        case (Some(left), Some(right)) =>
          if right.kind == "number_literal" && left.text in st.halfVars && EndsWithSignedNumber(t) then Divide
          else if right.kind == "number_literal" && left.kind == "identifier" && Contains(t, "-") && !Contains(t, "/") then Subtract
          else NoBump
        case _ => NoBump
    else NoBump
  }

  function ApplyBump(st: WalkState, b: Bump): WalkState {
    match b
    case Divide => st.(divideCount := st.divideCount + 1)
    case Subtract => st.(subtractCount := st.subtractCount + 1)
    case NoBump => st
  }

  /** The argument loop over the named children among the first `i` of `args`. */
  function VisitArgs(st: WalkState, args: Node, i: nat): WalkState
    requires i <= |args.children|
  {
    if i == 0 then st
    else
      var s := VisitArgs(st, args, i - 1);
      if args.children[i - 1].named then ApplyBump(s, ClassifyArg(s, args.children[i - 1].node)) else s
  }

  /** The number of named children among the first `i`. */
  function NamedIn(cs: seq<Child>, i: nat): nat
    requires i <= |cs|
  {
    if i == 0 then 0 else NamedIn(cs, i - 1) + (if cs[i - 1].named then 1 else 0)
  }

  /**
   * Each argument adds one to at most one counter; the argument loop leaves
   * the flag and the name sets alone.
   */
  lemma {:induction false} VisitArgsBound(st: WalkState, args: Node, i: nat)
    requires i <= |args.children|
    ensures var r := VisitArgs(st, args, i);
      r.isRecursive == st.isRecursive && r.halfVars == st.halfVars && r.subtractVars == st.subtractVars
      && r.divideCount >= st.divideCount && r.subtractCount >= st.subtractCount
      && (r.divideCount - st.divideCount) + (r.subtractCount - st.subtractCount) <= NamedIn(args.children, i)
  {
    if i > 0 {
      VisitArgsBound(st, args, i - 1);
    }
  }

  /** A `call_expression` whose first child is the identifier `name`. */
  predicate IsSelfCall(n: Node, name: string) {
    n.kind == "call_expression" &&
    match ChildAt(n, 0)
    case Some(id) => id.kind == "identifier" && id.text == name
    case None => false
  }

  /** The `arguments` field, else an `argument_list` field. */
  function ArgumentsNode(n: Node): Option<Node> {
    if FieldNode(n, "arguments").Some? then FieldNode(n, "arguments") else FieldNode(n, "argument_list")
  }

  /** The number of arguments a call can classify. */
  function ArgCount(n: Node): nat {
    match ArgumentsNode(n)
    case Some(a) => NamedIn(a.children, |a.children|)
    case None => 0
  }

  /** The self-call handling of `walk`. */
  function VisitCall(st: WalkState, n: Node, name: string): WalkState {
    if IsSelfCall(n, name) then
      var s := st.(isRecursive := true);
      match ArgumentsNode(n)
      case Some(a) => VisitArgs(s, a, |a.children|)
      case None => s
    else st
  }

  /** Everything `walk` does at one node before it visits the children. */
  function Visit(st: WalkState, n: Node, name: string): WalkState {
    VisitCall(TrackAssignment(st, n), n, name)
  }

  /** The state after visiting the nodes `ms` in order. */
  function VisitAll(st: WalkState, ms: seq<Node>, name: string): WalkState
    decreases |ms|
  {
    if ms == [] then st else Visit(VisitAll(st, ms[..|ms| - 1], name), ms[|ms| - 1], name)
  }

  /** The state after a prefix of the walk is where the rest of the walk starts. */
  lemma {:induction false} VisitAllAppend(st: WalkState, xs: seq<Node>, ys: seq<Node>, name: string)
    ensures VisitAll(st, xs + ys, name) == VisitAll(VisitAll(st, xs, name), ys, name)
    decreases |ys|
  {
    if ys == [] {
      assert xs + ys == xs;
    } else {
      assert (xs + ys)[..|xs + ys| - 1] == xs + ys[..|ys| - 1];
      VisitAllAppend(st, xs, ys[..|ys| - 1], name);
    }
  }

  /** The function is recursive exactly when the walk reaches a self-call. */
  lemma {:induction false} RecursiveIffSelfCall(st: WalkState, ms: seq<Node>, name: string)
    ensures VisitAll(st, ms, name).isRecursive <==>
      st.isRecursive || exists k :: 0 <= k < |ms| && IsSelfCall(ms[k], name)
    decreases |ms|
  {
    if ms != [] {
      var front := ms[..|ms| - 1];
      RecursiveIffSelfCall(st, front, name);
      var s := TrackAssignment(VisitAll(st, front, name), ms[|ms| - 1]);
      match ArgumentsNode(ms[|ms| - 1]) {
        case Some(a) => VisitArgsBound(s.(isRecursive := true), a, |a.children|);
        case None =>
      }
      if exists k :: 0 <= k < |front| && IsSelfCall(front[k], name) {
        var k :| 0 <= k < |front| && IsSelfCall(front[k], name);
        assert ms[k] == front[k];
      }
      if exists k :: 0 <= k < |ms| && IsSelfCall(ms[k], name) {
        var k :| 0 <= k < |ms| && IsSelfCall(ms[k], name);
        if k < |front| {
          assert front[k] == ms[k];
        }
      }
    }
  }

  /**
   * The walk only adds: the flag stays set, the counters never drop, and
   * the name sets only grow, so what an earlier call contributed stays.
   */
  lemma {:induction false} VisitAllGrows(st: WalkState, ms: seq<Node>, name: string)
    ensures var r := VisitAll(st, ms, name);
      (st.isRecursive ==> r.isRecursive)
      && st.divideCount <= r.divideCount && st.subtractCount <= r.subtractCount
      && st.halfVars <= r.halfVars && st.subtractVars <= r.subtractVars
    decreases |ms|
  {
    if ms != [] {
      VisitAllGrows(st, ms[..|ms| - 1], name);
      var m := ms[|ms| - 1];
      var s := TrackAssignment(VisitAll(st, ms[..|ms| - 1], name), m);
      match ArgumentsNode(m) {
        case Some(a) => VisitArgsBound(s.(isRecursive := true), a, |a.children|);
        case None =>
      }
    }
  }

  /** The arguments of all the self-calls among `ms`. */
  function SelfCallArgs(ms: seq<Node>, name: string): nat
    decreases |ms|
  {
    if ms == [] then 0
    else SelfCallArgs(ms[..|ms| - 1], name) + (if IsSelfCall(ms[|ms| - 1], name) then ArgCount(ms[|ms| - 1]) else 0)
  }

  /**
   * The counters grow by at most one per argument of a self-call; with no
   * self-call they do not grow at all.
   */
  lemma {:induction false} CountsBound(st: WalkState, ms: seq<Node>, name: string)
    ensures var r := VisitAll(st, ms, name);
      st.divideCount <= r.divideCount && st.subtractCount <= r.subtractCount
      && (r.divideCount - st.divideCount) + (r.subtractCount - st.subtractCount) <= SelfCallArgs(ms, name)
    decreases |ms|
  {
    if ms != [] {
      CountsBound(st, ms[..|ms| - 1], name);
      var m := ms[|ms| - 1];
      var s := TrackAssignment(VisitAll(st, ms[..|ms| - 1], name), m);
      match ArgumentsNode(m) {
        case Some(a) => VisitArgsBound(s.(isRecursive := true), a, |a.children|);
        case None =>
      }
    }
  }

  /** With no self-call both counters stay where they were. */
  lemma {:induction false} NoSelfCallNoCounts(st: WalkState, ms: seq<Node>, name: string)
    requires forall k :: 0 <= k < |ms| ==> !IsSelfCall(ms[k], name)
    ensures VisitAll(st, ms, name).divideCount == st.divideCount
    ensures VisitAll(st, ms, name).subtractCount == st.subtractCount
    ensures VisitAll(st, ms, name).isRecursive == st.isRecursive
    decreases |ms|
  {
    if ms != [] {
      NoSelfCallNoCounts(st, ms[..|ms| - 1], name);
    }
  }

  /** The loop over the named arguments of a self-call, each bumping at most one counter. */
  method CountArguments(st: WalkState, args: Node) returns (r: WalkState)
    ensures r == VisitArgs(st, args, |args.children|)
  {
    r := st;
    var i := 0;
    while i < |args.children|
      invariant i <= |args.children|
      invariant r == VisitArgs(st, args, i)
    {
      if args.children[i].named {
        var bump := ClassifyArg(r, args.children[i].node);
        r := ApplyBump(r, bump);
      }
      i := i + 1;
    }
  }

  /** The walk of `analyzeRecursion` over the subtree of `n`, starting from `st`. */
  method WalkNode(n: Node, name: string, st: WalkState) returns (r: WalkState)
    ensures r == VisitAll(st, PreOrder(n), name)
    decreases n
  {
    r := TrackAssignment(st, n);
    if IsSelfCall(n, name) {
      r := r.(isRecursive := true);
      var argsNode := ArgumentsNode(n);
      if argsNode.Some? {
        r := CountArguments(r, argsNode.value);
      }
    }
    assert r == VisitAll(st, [n], name) by {
      assert [n][..0] == [];
    }
    var i := 0;
    while i < |n.children|
      invariant i <= |n.children|
      invariant r == VisitAll(st, [n] + PreOrderIn(n, i), name)
    {
      ghost var before := r;
      if n.children[i].named {
        r := WalkNode(n.children[i].node, name, r);
      }
      assert r == VisitAll(before, ChildVisit(n, i), name);
      WalkStep(st, n, i, name, before, r);
      i := i + 1;
    }
  }

  lemma WalkStep(st: WalkState, n: Node, i: nat, name: string, before: WalkState, after: WalkState)
    requires i < |n.children|
    requires before == VisitAll(st, [n] + PreOrderIn(n, i), name)
    requires after == VisitAll(before, ChildVisit(n, i), name)
    ensures after == VisitAll(st, [n] + PreOrderIn(n, i + 1), name)
  {
    PreOrderInNext(n, i);
    VisitAllAppend(st, [n] + PreOrderIn(n, i), ChildVisit(n, i), name);
  }

  /** `analyzeRecursion`. */
  method AnalyzeRecursion(funcNode: Node, funcName: string) returns (isRecursive: bool, divideCount: nat, subtractCount: nat)
    ensures var r := VisitAll(Start, PreOrder(funcNode), funcName);
      isRecursive == r.isRecursive && divideCount == r.divideCount && subtractCount == r.subtractCount
    ensures isRecursive <==> exists k :: 0 <= k < |PreOrder(funcNode)| && IsSelfCall(PreOrder(funcNode)[k], funcName)
    ensures divideCount + subtractCount <= SelfCallArgs(PreOrder(funcNode), funcName)
  {
    var r := WalkNode(funcNode, funcName, Start);
    RecursiveIffSelfCall(Start, PreOrder(funcNode), funcName);
    CountsBound(Start, PreOrder(funcNode), funcName);
    return r.isRecursive, r.divideCount, r.subtractCount;
  }
}
