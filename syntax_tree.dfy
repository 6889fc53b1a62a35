/**
 * The parsed C++ syntax tree the complexity analysis reads, in place of a
 * tree-sitter `SyntaxNode`: a node kind, the full ordered child list (each
 * child marked named or anonymous), the named fields as indices into that
 * list, and the node's source text.
 */
module SyntaxTree {
  import opened Options

  datatype Child = Child(named: bool, node: Node)

  /**
   * `fields` maps a field name (`declarator`, `update`, `condition`, `body`,
   * `arguments`, ...) to the position of that child; a position outside the
   * child list reads as an absent field.
   */
  datatype Node = Node(kind: string, children: seq<Child>, fields: map<string, nat>, text: string)

  /** The positions of the named children, in order. */
  function NamedPositions(cs: seq<Child>): (r: seq<nat>)
    ensures forall k :: 0 <= k < |r| ==> r[k] < |cs| && cs[r[k]].named
    ensures forall k, l :: 0 <= k < l < |r| ==> r[k] < r[l]
    ensures forall p :: 0 <= p < |cs| && cs[p].named ==> p in r
  {
    if cs == [] then []
    else
      var r0 := NamedPositions(cs[..|cs| - 1]);
      assert forall k :: 0 <= k < |r0| ==> cs[..|cs| - 1][r0[k]] == cs[r0[k]];
      r0 + (if cs[|cs| - 1].named then [|cs| - 1] else [])
  }

  /** `namedChildCount`. */
  function NamedCount(n: Node): nat {
    |NamedPositions(n.children)|
  }

  /** The position of `namedChild(i)`; absent when `i` is out of range. */
  function NamedIndex(n: Node, i: int): (r: Option<nat>)
    ensures r.Some? ==> r.value < |n.children| && n.children[r.value].named
  {
    var ps := NamedPositions(n.children);
    if 0 <= i < |ps| then Some(ps[i]) else None
  }

  /** The position of `childForFieldName(name)`. */
  function FieldIndex(n: Node, name: string): (r: Option<nat>)
    ensures r.Some? ==> r.value < |n.children|
  {
    if name in n.fields && n.fields[name] < |n.children| then Some(n.fields[name]) else None
  }

  /** The child at an optional position. */
  function NodeAt(n: Node, i: Option<nat>): Option<Node> {
    if i.Some? && i.value < |n.children| then Some(n.children[i.value].node) else None
  }

  /** `child(i)`, counting named and anonymous children. */
  function ChildAt(n: Node, i: int): Option<Node> {
    if 0 <= i < |n.children| then Some(n.children[i].node) else None
  }

  /** `childForFieldName(name)`. */
  function FieldNode(n: Node, name: string): Option<Node> {
    NodeAt(n, FieldIndex(n, name))
  }

  /** The nodes a visit reaches through named children, in the order it reaches them. */
  function PreOrder(n: Node): (r: seq<Node>)
    decreases n, 1
    ensures |r| >= 1 && r[0] == n
  {
    [n] + PreOrderIn(n, |n.children|)
  }

  /** The nodes reached from the named children among the first `i`. */
  function PreOrderIn(n: Node, i: nat): seq<Node>
    requires i <= |n.children|
    decreases n, 0, i
  {
    if i == 0 then []
    else PreOrderIn(n, i - 1) + (if n.children[i - 1].named then PreOrder(n.children[i - 1].node) else [])
  }

  /** Every node of `ms` satisfies `p`. */
  predicate AllNodes(ms: seq<Node>, p: Node -> bool) {
    forall k :: 0 <= k < |ms| ==> p(ms[k])
  }

  lemma AllNodesAppend(a: seq<Node>, b: seq<Node>, p: Node -> bool)
    ensures AllNodes(a + b, p) <==> AllNodes(a, p) && AllNodes(b, p)
  {
    if AllNodes(a, p) && AllNodes(b, p) {
      forall k | 0 <= k < |a + b| ensures p((a + b)[k]) {
        if k >= |a| { assert (a + b)[k] == b[k - |a|]; }
      }
    }
    if AllNodes(a + b, p) {
      forall k | 0 <= k < |a| ensures p(a[k]) {
        assert (a + b)[k] == a[k];
      }
      forall k | 0 <= k < |b| ensures p(b[k]) {
        assert (a + b)[|a| + k] == b[k];
      }
    }
  }

  /** A property holds throughout the first `i` named subtrees exactly when it holds in each. */
  lemma {:induction false} PreOrderInAll(n: Node, i: nat, p: Node -> bool)
    requires i <= |n.children|
    ensures AllNodes(PreOrderIn(n, i), p) <==>
      forall j :: 0 <= j < i && n.children[j].named ==> AllNodes(PreOrder(n.children[j].node), p)
  {
    if i > 0 {
      PreOrderInAll(n, i - 1, p);
      var last := if n.children[i - 1].named then PreOrder(n.children[i - 1].node) else [];
      AllNodesAppend(PreOrderIn(n, i - 1), last, p);
    }
  }

  /** A property holds of a whole subtree exactly when it holds at the root and in each named subtree. */
  lemma PreOrderAll(n: Node, p: Node -> bool)
    ensures AllNodes(PreOrder(n), p) <==>
      p(n) && forall j :: 0 <= j < |n.children| && n.children[j].named ==> AllNodes(PreOrder(n.children[j].node), p)
  {
    PreOrderInAll(n, |n.children|, p);
    AllNodesAppend([n], PreOrderIn(n, |n.children|), p);
  }

  /** The nodes a visit reaches through child `i`: none when that child is unnamed. */
  function ChildVisit(n: Node, i: nat): seq<Node>
    requires i < |n.children|
  {
    if n.children[i].named then PreOrder(n.children[i].node) else []
  }

  /** Visiting one more child appends what that child reaches. */
  lemma PreOrderInNext(n: Node, i: nat)
    requires i < |n.children|
    ensures [n] + PreOrderIn(n, i + 1) == ([n] + PreOrderIn(n, i)) + ChildVisit(n, i)
  {
  }

  /** The nodes reached from the first `i` children keep their places when one more child is visited. */
  lemma PreOrderInStep(n: Node, i: nat)
    requires i < |n.children|
    ensures PreOrderIn(n, i + 1) == PreOrderIn(n, i) + (if n.children[i].named then PreOrder(n.children[i].node) else [])
    ensures forall k :: 0 <= k < |PreOrderIn(n, i)| ==> PreOrderIn(n, i + 1)[k] == PreOrderIn(n, i)[k]
    ensures n.children[i].named ==> forall k :: 0 <= k < |PreOrder(n.children[i].node)| ==>
      PreOrderIn(n, i + 1)[|PreOrderIn(n, i)| + k] == PreOrder(n.children[i].node)[k]
  {
  }
}
