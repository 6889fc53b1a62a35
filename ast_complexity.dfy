/**
 * `analyzeComplexityAST` from the root node on: collect the function
 * definitions, take the largest loop term over them, classify their
 * recursion, and merge the two labels.
 */
module AstComplexity {
  import opened Options
  import opened Text
  import opened SyntaxTree
  import opened ComplexityLabels
  import opened LoopAnalysis
  import opened RecursionAnalysis

  // ---------------------------------------------------------------------
  // getFunctionDefinitions

  /** The `function_definition` nodes of `ms`, in order. */
  function Defs(ms: seq<Node>): (r: seq<Node>)
    decreases |ms|
    ensures |r| <= |ms|
    ensures forall k :: 0 <= k < |r| ==> r[k].kind == "function_definition"
    ensures forall k :: 0 <= k < |ms| && ms[k].kind == "function_definition" ==> ms[k] in r
  {
    if ms == [] then []
    else
      var front := Defs(ms[..|ms| - 1]);
      assert forall k :: 0 <= k < |ms| - 1 ==> ms[..|ms| - 1][k] == ms[k];
      front + (if ms[|ms| - 1].kind == "function_definition" then [ms[|ms| - 1]] else [])
  }

  lemma {:induction false} DefsAppend(xs: seq<Node>, ys: seq<Node>)
    ensures Defs(xs + ys) == Defs(xs) + Defs(ys)
    decreases |ys|
  {
    if ys == [] {
      assert xs + ys == xs;
    } else {
      assert (xs + ys)[..|xs + ys| - 1] == xs + ys[..|ys| - 1];
      DefsAppend(xs, ys[..|ys| - 1]);
    }
  }

  /** The definitions a pre-order visit of the tree meets, nested ones included. */
  function FunctionDefs(root: Node): seq<Node> {
    Defs(PreOrder(root))
  }

  /** `visit` in `getFunctionDefinitions`: the definitions under `n` pushed after `acc`. */
  method CollectDefinitions(n: Node, acc: seq<Node>) returns (r: seq<Node>)
    ensures r == acc + Defs(PreOrder(n))
    decreases n
  {
    r := acc;
    if n.kind == "function_definition" {
      r := r + [n];
    }
    assert r == acc + Defs([n]) by {
      assert [n][..0] == [];
    }
    var i := 0;
    while i < |n.children|
      invariant i <= |n.children|
      invariant r == acc + Defs([n] + PreOrderIn(n, i))
    {
      ghost var before := r;
      if n.children[i].named {
        r := CollectDefinitions(n.children[i].node, r);
      }
      assert r == before + Defs(ChildVisit(n, i)) by {
        assert Defs([]) == [];
      }
      DefsStep(acc, n, i, before, r);
      i := i + 1;
    }
  }

  lemma DefsStep(acc: seq<Node>, n: Node, i: nat, before: seq<Node>, after: seq<Node>)
    requires i < |n.children|
    requires before == acc + Defs([n] + PreOrderIn(n, i))
    requires after == before + Defs(ChildVisit(n, i))
    ensures after == acc + Defs([n] + PreOrderIn(n, i + 1))
  {
    PreOrderInNext(n, i);
    DefsAppend([n] + PreOrderIn(n, i), ChildVisit(n, i));
  }

  /** `getFunctionDefinitions`. */
  method GetFunctionDefinitions(root: Node) returns (fs: seq<Node>)
    ensures fs == FunctionDefs(root)
    ensures forall k :: 0 <= k < |fs| ==> fs[k].kind == "function_definition"
    ensures forall k :: 0 <= k < |PreOrder(root)| && PreOrder(root)[k].kind == "function_definition" ==> PreOrder(root)[k] in fs
  {
    fs := CollectDefinitions(root, []);
  }

  /** A tree without a `function_definition` node has no definitions. */
  lemma NoDefinitionNode(root: Node)
    requires forall k :: 0 <= k < |PreOrder(root)| ==> PreOrder(root)[k].kind != "function_definition"
    ensures FunctionDefs(root) == []
  {
    var fs := FunctionDefs(root);
    if fs != [] {
      assert fs[0].kind == "function_definition";
      DefsFrom(PreOrder(root), 0);
    }
  }

  /** Every definition found is a node of the input. */
  lemma {:induction false} DefsFrom(ms: seq<Node>, k: nat)
    requires k < |Defs(ms)|
    ensures Defs(ms)[k] in ms
    decreases |ms|
  {
    var front := ms[..|ms| - 1];
    if k < |Defs(front)| {
      DefsFrom(front, k);
      assert Defs(ms)[k] == Defs(front)[k];
    }
  }

  // ---------------------------------------------------------------------
  // Function data and getRecursiveComplexity

  /** `node.childForFieldName("declarator")?.child(0)?.text || "unknown"`. */
  function FunctionName(f: Node): (r: string)
    ensures r != ""
    ensures r != "unknown" ==> exists d :: FieldNode(f, "declarator") == Some(d) && ChildAt(d, 0).Some? && ChildAt(d, 0).value.text == r
    ensures FieldNode(f, "declarator").Some? && ChildAt(FieldNode(f, "declarator").value, 0).Some?
      && ChildAt(FieldNode(f, "declarator").value, 0).value.text != ""
      ==> r == ChildAt(FieldNode(f, "declarator").value, 0).value.text
  {
    match FieldNode(f, "declarator")
    case None => "unknown"
    case Some(d) =>
      match ChildAt(d, 0)
      case None => "unknown"
      case Some(c) => if c.text == "" then "unknown" else c.text
  }

  /** One element of `functionData`; the constant `maxLoopDepth: 0` is not kept. */
  datatype FunctionInfo = FunctionInfo(name: string, isRecursive: bool, divideCount: nat, subtractCount: nat)

  function InfoOf(f: Node): FunctionInfo {
    var name := FunctionName(f);
    var r := VisitAll(Start, PreOrder(f), name);
    FunctionInfo(name, r.isRecursive, r.divideCount, r.subtractCount)
  }

  function Infos(fs: seq<Node>): (r: seq<FunctionInfo>)
    ensures |r| == |fs| && forall k :: 0 <= k < |fs| ==> r[k] == InfoOf(fs[k])
  {
    seq(|fs|, k requires 0 <= k < |fs| => InfoOf(fs[k]))
  }

  /** The largest `divideCount` of a recursive function, or 0. */
  function MaxDivide(infos: seq<FunctionInfo>): (r: nat)
    decreases |infos|
    ensures forall k :: 0 <= k < |infos| && infos[k].isRecursive ==> infos[k].divideCount <= r
    ensures r == 0 || exists k :: 0 <= k < |infos| && infos[k].isRecursive && infos[k].divideCount == r
  {
    if infos == [] then 0
    else
      var front := infos[..|infos| - 1];
      var m := MaxDivide(front);
      var f := infos[|infos| - 1];
      assert forall k :: 0 <= k < |front| ==> front[k] == infos[k];
      if f.isRecursive && f.divideCount > m then f.divideCount else m
  }

  /** The largest `subtractCount` of a recursive function, or 0. */
  function MaxSubtract(infos: seq<FunctionInfo>): (r: nat)
    decreases |infos|
    ensures forall k :: 0 <= k < |infos| && infos[k].isRecursive ==> infos[k].subtractCount <= r
    ensures r == 0 || exists k :: 0 <= k < |infos| && infos[k].isRecursive && infos[k].subtractCount == r
  {
    if infos == [] then 0
    else
      var front := infos[..|infos| - 1];
      var m := MaxSubtract(front);
      var f := infos[|infos| - 1];
      assert forall k :: 0 <= k < |front| ==> front[k] == infos[k];
      if f.isRecursive && f.subtractCount > m then f.subtractCount else m
  }

  /** `getRecursiveComplexity`. */
  function RecursiveComplexity(infos: seq<FunctionInfo>): string {
    RecursionLabel(MaxDivide(infos), MaxSubtract(infos))
  }

  /** Only recursive functions count, and only through their counters. */
  lemma RecursiveComplexityConstant(infos: seq<FunctionInfo>)
    ensures RecursiveComplexity(infos) == "O(1)" <==>
      forall k :: 0 <= k < |infos| && infos[k].isRecursive ==> infos[k].divideCount == 0 && infos[k].subtractCount == 0
  {
  }

  /** One recursive function that halves an argument twice decides the label. */
  lemma RecursiveComplexityDivide(infos: seq<FunctionInfo>, k: nat)
    requires k < |infos| && infos[k].isRecursive && infos[k].divideCount >= 2
    ensures RecursiveComplexity(infos) == "O(n log n)"
  {
  }

  /** `getRecursiveComplexity`, with its running maxima. */
  method GetRecursiveComplexity(infos: seq<FunctionInfo>) returns (c: string)
    ensures c == RecursionLabel(MaxDivide(infos), MaxSubtract(infos))
  {
    var maxDivide, maxSubtract := 0, 0;
    var i := 0;
    while i < |infos|
      invariant i <= |infos|
      invariant maxDivide == MaxDivide(infos[..i]) && maxSubtract == MaxSubtract(infos[..i])
    {
      var f := infos[i];
      assert infos[..i + 1][..i] == infos[..i];
      if f.isRecursive {
        if f.divideCount > maxDivide {
          maxDivide := f.divideCount;
        }
        if f.subtractCount > maxSubtract {
          maxSubtract := f.subtractCount;
        }
      }
      i := i + 1;
    }
    assert infos[..i] == infos;
    c := RecursionLabel(maxDivide, maxSubtract);
  }

  // ---------------------------------------------------------------------
  // analyzeComplexityAST

  /** The running maximum of `ts` under `compareComplexity`, from `{0, 0}`. */
  function MaxTerm(ts: seq<Term>): (r: Term)
    decreases |ts|
    ensures forall k :: 0 <= k < |ts| ==> Compare(r, ts[k]) >= 0
    ensures r == Constant || exists k :: 0 <= k < |ts| && r == ts[k]
  {
    if ts == [] then Constant
    else
      var front := ts[..|ts| - 1];
      var m := MaxTerm(front);
      var r := Larger(m, ts[|ts| - 1]);
      assert forall k :: 0 <= k < |front| ==> Compare(r, ts[k]) >= 0 by {
        forall k | 0 <= k < |front| ensures Compare(r, ts[k]) >= 0 {
          assert front[k] == ts[k];
          CompareIsTotalOrder(r, m, ts[k]);
        }
      }
      assert m != Constant ==> exists k :: 0 <= k < |ts| && m == ts[k] by {
        if m != Constant {
          var k :| 0 <= k < |front| && m == front[k];
          assert front[k] == ts[k];
        }
      }
      r
  }

  function LoopTerms(fs: seq<Node>): (r: seq<Term>)
    ensures |r| == |fs| && forall k :: 0 <= k < |fs| ==> r[k] == LoopTerm(fs[k])
  {
    seq(|fs|, k requires 0 <= k < |fs| => LoopTerm(fs[k]))
  }

  /** The overall loop term: the largest loop term of a definition, or `{0, 0}`. */
  function OverallLoop(fs: seq<Node>): Term {
    MaxTerm(LoopTerms(fs))
  }

  /** The label `analyzeComplexityAST` returns, with the labels merged by the corrected rule. */
  function Analyze(root: Node): string {
    var fs := FunctionDefs(root);
    Combine(ToLabel(OverallLoop(fs)), RecursiveComplexity(Infos(fs)))
  }

  /** The same pipeline with the merge as the source writes it. */
  function AnalyzeAsWritten(root: Node): string {
    var fs := FunctionDefs(root);
    CombineAsWritten(ToLabel(OverallLoop(fs)), RecursiveComplexity(Infos(fs)))
  }

  /** Without function definitions the result is `O(1)`. */
  lemma NoDefinitionsConstant(root: Node)
    requires FunctionDefs(root) == []
    ensures Analyze(root) == "O(1)" && AnalyzeAsWritten(root) == "O(1)"
  {
  }

  /** The result is always an `O(...)` label. */
  lemma AnalyzeWrapped(root: Node)
    ensures Wrapped(Analyze(root))
    ensures Wrapped(AnalyzeAsWritten(root))
  {
    var fs := FunctionDefs(root);
    CombineWrapped(ToLabel(OverallLoop(fs)), RecursiveComplexity(Infos(fs)));
    CombineAsWrittenWrapped(ToLabel(OverallLoop(fs)), RecursiveComplexity(Infos(fs)));
  }

  /** The two merges differ only when the loop label has a log power of two or more. */
  lemma AnalyzeAgreesWithSource(root: Node)
    requires OverallLoop(FunctionDefs(root)).log <= 1
    ensures AnalyzeAsWritten(root) == Analyze(root)
  {
    var fs := FunctionDefs(root);
    var t := OverallLoop(fs);
    var c2 := RecursiveComplexity(Infos(fs));
    LoopLabelParen(t);
    CombineAgrees(ToLabel(t), c2);
  }

  /** The overall loop term bounds every definition's, and is one of them or `{0, 0}`. */
  lemma OverallLoopIsMax(fs: seq<Node>)
    ensures forall k :: 0 <= k < |fs| ==> Compare(OverallLoop(fs), LoopTerm(fs[k])) >= 0
    ensures OverallLoop(fs) == Constant || exists k :: 0 <= k < |fs| && OverallLoop(fs) == LoopTerm(fs[k])
  {
    var ts := LoopTerms(fs);
    if OverallLoop(fs) != Constant {
      var k :| 0 <= k < |ts| && OverallLoop(fs) == ts[k];
    }
  }

  /** Without loops and without recursion the result is `O(1)`. */
  lemma StraightLineConstant(root: Node)
    requires forall k :: 0 <= k < |FunctionDefs(root)| ==> LoopTerm(FunctionDefs(root)[k]) == Constant
    requires forall k :: 0 <= k < |FunctionDefs(root)| ==> !InfoOf(FunctionDefs(root)[k]).isRecursive
    ensures Analyze(root) == "O(1)" && AnalyzeAsWritten(root) == "O(1)"
  {
    var fs := FunctionDefs(root);
    OverallLoopIsMax(fs);
    RecursiveComplexityConstant(Infos(fs));
  }

  lemma InfosSnoc(fs: seq<Node>, i: nat)
    requires i < |fs|
    ensures Infos(fs[..i + 1]) == Infos(fs[..i]) + [InfoOf(fs[i])]
  {
  }

  lemma OverallLoopSnoc(fs: seq<Node>, i: nat)
    requires i < |fs|
    ensures OverallLoop(fs[..i + 1]) == Larger(OverallLoop(fs[..i]), LoopTerm(fs[i]))
  {
    var ts := LoopTerms(fs[..i + 1]);
    assert ts[..i] == LoopTerms(fs[..i]);
  }

  /** `analyzeComplexityAST`, from the root node on. */
  method AnalyzeComplexityAST(root: Node) returns (c: string)
    ensures c == Analyze(root)
  {
    var functionNodes := GetFunctionDefinitions(root);
    var functionData: seq<FunctionInfo> := [];
    var i := 0;
    while i < |functionNodes|
      invariant i <= |functionNodes|
      invariant functionData == Infos(functionNodes[..i])
    {
      var node := functionNodes[i];
      var funcName := FunctionName(node);
      var isRecursive, divideCount, subtractCount := AnalyzeRecursion(node, funcName);
      functionData := functionData + [FunctionInfo(funcName, isRecursive, divideCount, subtractCount)];
      InfosSnoc(functionNodes, i);
      i := i + 1;
    }
    assert functionNodes[..i] == functionNodes;
    var overallLoop := Constant;
    i := 0;
    while i < |functionNodes|
      invariant i <= |functionNodes|
      invariant overallLoop == OverallLoop(functionNodes[..i])
    {
      var comp := GetLoopComplexity(functionNodes[i]);
      OverallLoopSnoc(functionNodes, i);
      if Compare(comp, overallLoop) > 0 {
        overallLoop := comp;
      }
      i := i + 1;
    }
    assert functionNodes[..i] == functionNodes;
    var loopComplex := ToLabel(overallLoop);
    var recComplex := GetRecursiveComplexity(functionData);
    c := Combine(loopComplex, recComplex);
  }
}
