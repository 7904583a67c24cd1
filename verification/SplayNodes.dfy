/** Nodes of a splay tree, the trees they form in memory, and the two trees a splay step takes apart into. */
module SplayNodes {
  class Node {
    const key: real
    const value: object?
    var left: Node?
    var right: Node?

    constructor (key: real, value: object?)
      ensures this.key == key && this.value == value && left == null && right == null
    {
      this.key, this.value := key, value;
      left, right := null, null;
    }
  }

  // ----- Trees -----

  /** The shape of a tree of nodes. */
  datatype Tree = Leaf | Bin(left: Tree, node: Node, right: Tree)

  ghost function Inorder(t: Tree): seq<Node> {
    match t
    case Leaf => []
    case Bin(l, x, r) => Inorder(l) + [x] + Inorder(r)
  }

  ghost function Elements(s: seq<Node>): set<Node> {
    set x | x in s
  }

  /** n is the root of a tree of shape t. */
  ghost predicate Rep(n: Node?, t: Tree)
    reads Elements(Inorder(t))
  {
    match t
    case Leaf => n == null
    case Bin(l, x, r) => n == x && Rep(x.left, l) && Rep(x.right, r)
  }

  // ----- Order -----

  /** Strictly increasing keys; so no node occurs twice. */
  ghost predicate Sorted(s: seq<Node>) {
    forall i, j :: 0 <= i < j < |s| ==> s[i].key < s[j].key
  }

  ghost predicate Below(s: seq<Node>, k: real) {
    forall x :: x in s ==> x.key < k
  }

  ghost predicate AboveKey(s: seq<Node>, k: real) {
    forall x :: x in s ==> x.key > k
  }

  lemma {:induction false} SortedParts(a: seq<Node>, b: seq<Node>)
    requires Sorted(a + b)
    ensures Sorted(a) && Sorted(b) && Elements(a) !! Elements(b)
    ensures forall x, y :: x in a && y in b ==> x.key < y.key
  {
    var s := a + b;
    forall i, j | 0 <= i < j < |a| ensures a[i].key < a[j].key {
      assert s[i] == a[i] && s[j] == a[j];
    }
    forall i, j | 0 <= i < j < |b| ensures b[i].key < b[j].key {
      assert s[|a| + i] == b[i] && s[|a| + j] == b[j];
    }
    forall x, y | x in a && y in b ensures x.key < y.key {
      var i :| 0 <= i < |a| && a[i] == x;
      var j :| 0 <= j < |b| && b[j] == y;
      assert s[i] == x && s[|a| + j] == y;
    }
  }

  /** What order says of a tree. */
  lemma {:induction false} SortedTree(t: Tree)
    requires t.Bin? && Sorted(Inorder(t))
    ensures Sorted(Inorder(t.left)) && Sorted(Inorder(t.right))
    ensures Below(Inorder(t.left), t.node.key) && AboveKey(Inorder(t.right), t.node.key)
    ensures t.node !in Inorder(t.left) && t.node !in Inorder(t.right)
    ensures Elements(Inorder(t.left)) !! Elements(Inorder(t.right))
    ensures t.node in Inorder(t)
  {
    var l, r := Inorder(t.left), Inorder(t.right);
    SortedParts(l + [t.node], r);
    SortedParts(l, [t.node]);
    assert t.node in [t.node] && t.node in l + [t.node];
    assert forall x :: x in l ==> x in l + [t.node];
  }

  // ----- The left and the right tree of a splay -----

  /** Nodes linked through right, each with its left subtree; the last one's right link is pending. */
  datatype Lefts = NoLefts | AddLeft(before: Lefts, tree: Tree, node: Node)

  ghost function InLefts(l: Lefts): seq<Node> {
    match l
    case NoLefts => []
    case AddLeft(b, t, x) => InLefts(b) + (Inorder(t) + [x])
  }

  ghost function LastLeft(l: Lefts, dummy: Node): Node {
    if l.NoLefts? then dummy else l.node
  }

  ghost predicate RepLefts(l: Lefts, dummy: Node)
    reads Elements(InLefts(l)), dummy`right
  {
    match l
    case NoLefts => true
    case AddLeft(b, t, x) =>
      RepLefts(b, dummy) && LastLeft(b, dummy) in Elements(InLefts(b)) + {dummy}
      && LastLeft(b, dummy).right == x && Rep(x.left, t)
  }

  /** Nodes linked through left, each with its right subtree; the last one's left link is pending. */
  datatype Rights = NoRights | AddRight(before: Rights, node: Node, tree: Tree)

  ghost function InRights(r: Rights): seq<Node> {
    match r
    case NoRights => []
    case AddRight(b, x, t) => ([x] + Inorder(t)) + InRights(b)
  }

  ghost function LastRight(r: Rights, dummy: Node): Node {
    if r.NoRights? then dummy else r.node
  }

  ghost predicate RepRights(r: Rights, dummy: Node)
    reads Elements(InRights(r)), dummy`left
  {
    match r
    case NoRights => true
    case AddRight(b, x, t) =>
      RepRights(b, dummy) && LastRight(b, dummy) in Elements(InRights(b)) + {dummy}
      && LastRight(b, dummy).left == x && Rep(x.right, t)
  }

  /** The left tree with t at its open end. */
  ghost function CloseLefts(l: Lefts, t: Tree): Tree {
    match l
    case NoLefts => t
    case AddLeft(b, s, x) => CloseLefts(b, Bin(s, x, t))
  }

  ghost function CloseRights(r: Rights, t: Tree): Tree {
    match r
    case NoRights => t
    case AddRight(b, x, s) => CloseRights(b, Bin(t, x, s))
  }

  lemma {:induction false} MovedLeft(a: seq<Node>, s: seq<Node>, x: Node, t: seq<Node>)
    ensures a + (s + [x] + t) == a + (s + [x]) + t
  {}

  lemma {:induction false} MovedRight(t: seq<Node>, x: Node, s: seq<Node>, b: seq<Node>)
    ensures t + [x] + s + b == t + (([x] + s) + b)
  {}

  lemma {:induction false} CloseLeftsRep(l: Lefts, dummy: Node, t: Tree)
    requires RepLefts(l, dummy) && Rep(LastLeft(l, dummy).right, t)
    ensures Rep(dummy.right, CloseLefts(l, t)) && Inorder(CloseLefts(l, t)) == InLefts(l) + Inorder(t)
    decreases l
  {
    match l
    case NoLefts =>
    case AddLeft(b, s, x) =>
      CloseLeftsRep(b, dummy, Bin(s, x, t));
      MovedLeft(InLefts(b), Inorder(s), x, Inorder(t));
  }

  lemma {:induction false} CloseRightsRep(r: Rights, dummy: Node, t: Tree)
    requires RepRights(r, dummy) && Rep(LastRight(r, dummy).left, t)
    ensures Rep(dummy.left, CloseRights(r, t)) && Inorder(CloseRights(r, t)) == Inorder(t) + InRights(r)
    decreases r
  {
    match r
    case NoRights =>
    case AddRight(b, x, s) =>
      CloseRightsRep(b, dummy, Bin(t, x, s));
      MovedRight(Inorder(t), x, Inorder(s), InRights(b));
  }
}
