/** The splay tree as a sorted map from keys to values. */
module SplayTrees {
  import opened SplayNodes
  import opened Splaying
  import opened Options

  // ----- Sorted nodes as a map -----

  ghost predicate DistinctKeys(e: set<Node>) {
    forall x, y :: x in e && y in e && x.key == y.key ==> x == y
  }

  ghost function MapOf(e: set<Node>): map<real, object?>
    requires DistinctKeys(e)
  {
    map x | x in e :: x.key := x.value
  }

  lemma {:induction false} SortedDistinct(s: seq<Node>)
    requires Sorted(s)
    ensures DistinctKeys(Elements(s))
  {
    forall x, y | x in s && y in s && x.key == y.key ensures x == y {
      var i :| 0 <= i < |s| && s[i] == x;
      var j :| 0 <= j < |s| && s[j] == y;
      assert i == j;
    }
  }

  ghost function Entries(s: seq<Node>): map<real, object?>
    requires Sorted(s)
  {
    SortedDistinct(s);
    MapOf(Elements(s))
  }

  lemma {:induction false} OneMore(e: set<Node>, x: Node)
    requires DistinctKeys(e + {x}) && x !in e
    ensures DistinctKeys(e) && x.key !in MapOf(e) && MapOf(e + {x}) == MapOf(e)[x.key := x.value]
    ensures MapOf(e) == MapOf(e + {x}) - {x.key}
  {}

  /** Taking one node out of a sorted sequence. */
  lemma {:induction false} WithoutMiddle(a: seq<Node>, x: Node, b: seq<Node>)
    requires Sorted(a + [x] + b)
    ensures Sorted(a + b) && Elements(a + [x] + b) == Elements(a + b) + {x}
    ensures forall y :: y in a + b ==> y.key != x.key
  {
    var s, r := a + [x] + b, a + b;
    forall i, j | 0 <= i < j < |r| ensures r[i].key < r[j].key {
      assert r[i] == s[if i < |a| then i else i + 1] && r[j] == s[if j < |a| then j else j + 1];
    }
    assert s[|a|] == x;
    forall i | 0 <= i < |r| ensures r[i].key != x.key {
      assert r[i] == s[if i < |a| then i else i + 1];
    }
    assert forall y :: y in s <==> y in r || y == x;
  }

  lemma {:induction false} EntriesSplit(a: seq<Node>, x: Node, b: seq<Node>)
    requires Sorted(a + [x] + b)
    ensures Sorted(a + b) && x.key !in Entries(a + b)
    ensures Entries(a + [x] + b) == Entries(a + b)[x.key := x.value]
    ensures Entries(a + b) == Entries(a + [x] + b) - {x.key}
  {
    WithoutMiddle(a, x, b);
    SortedDistinct(a + [x] + b);
    OneMore(Elements(a + b), x);
  }

  lemma {:induction false} NearestFound(t: Tree, key: real)
    requires Nearest(t, key) && Sorted(Inorder(t))
    ensures key in Entries(Inorder(t)) <==> t.node.key == key
    ensures key in Entries(Inorder(t)) ==> Entries(Inorder(t))[key] == t.node.value
  {
    SortedTree(t);
    assert t.node in Elements(Inorder(t));
    assert forall x :: x in Inorder(t) <==> x in Inorder(t.left) || x == t.node || x in Inorder(t.right);
  }

  ghost function KeysOf(s: seq<Node>): seq<real> {
    seq(|s|, i requires 0 <= i < |s| => s[i].key)
  }

  /** The new node above the root x, with the right subtree of x as its own. */
  method TakeRight(node: Node, x: Node, ghost l: Tree, ghost r: Tree)
    requires Rep(x, Bin(l, x, r)) && Sorted(Inorder(l) + [x] + Inorder(r)) && node !in Inorder(l) + [x] + Inorder(r)
    modifies node, x
    ensures Rep(node, Bin(Bin(l, x, Leaf), node, r))
  {
    SortedTree(Bin(l, x, r));
    assert x !in Elements(Inorder(l)) && x !in Elements(Inorder(r));
    assert node !in Elements(Inorder(l)) && node !in Elements(Inorder(r)) && node in [node] && x in [x];
    node.left := x;
    node.right := x.right;
    x.right := null;
    assert Rep(x, Bin(l, x, Leaf));
  }

  /** The new node above the root x, with the left subtree of x as its own. */
  method TakeLeft(node: Node, x: Node, ghost l: Tree, ghost r: Tree)
    requires Rep(x, Bin(l, x, r)) && Sorted(Inorder(l) + [x] + Inorder(r)) && node !in Inorder(l) + [x] + Inorder(r)
    modifies node, x
    ensures Rep(node, Bin(l, node, Bin(Leaf, x, r)))
  {
    SortedTree(Bin(l, x, r));
    assert x !in Elements(Inorder(l)) && x !in Elements(Inorder(r));
    assert node !in Elements(Inorder(l)) && node !in Elements(Inorder(r)) && node in [node] && x in [x];
    node.right := x;
    node.left := x.left;
    x.left := null;
    assert Rep(x, Bin(Leaf, x, r));
  }

  /** The node at the root instead of x, the key or a neighbour of the new one. */
  method Crown(node: Node, x: Node, ghost l: Tree, ghost r: Tree) returns (ghost t: Tree)
    requires Rep(x, Bin(l, x, r)) && Sorted(Inorder(Bin(l, x, r))) && node !in Inorder(Bin(l, x, r))
    requires Nearest(Bin(l, x, r), node.key) && x.key != node.key
    modifies node, x
    ensures Rep(node, t) && Sorted(Inorder(t)) && Elements(Inorder(t)) == Elements(Inorder(Bin(l, x, r))) + {node}
    ensures Entries(Inorder(t)) == Entries(Inorder(Bin(l, x, r)))[node.key := node.value]
  {
    if node.key > x.key {
      CrownRight(node, x, l, r);
      TakeRight(node, x, l, r);
      t := Bin(Bin(l, x, Leaf), node, r);
    } else {
      CrownLeft(node, x, l, r);
      TakeLeft(node, x, l, r);
      t := Bin(l, node, Bin(Leaf, x, r));
    }
  }

  lemma {:induction false} CrownRight(node: Node, x: Node, l: Tree, r: Tree)
    requires Sorted(Inorder(Bin(l, x, r))) && Nearest(Bin(l, x, r), node.key) && node.key > x.key
    ensures var s, t := Inorder(Bin(l, x, r)), Inorder(Bin(Bin(l, x, Leaf), node, r));
      Sorted(t) && Elements(t) == Elements(s) + {node} && Entries(t) == Entries(s)[node.key := node.value]
  {
    SortedTree(Bin(l, x, r));
    InsertedOrder(Inorder(l) + [x], node, Inorder(r));
    assert Inorder(Bin(l, x, Leaf)) == Inorder(l) + [x];
  }

  lemma {:induction false} CrownLeft(node: Node, x: Node, l: Tree, r: Tree)
    requires Sorted(Inorder(Bin(l, x, r))) && Nearest(Bin(l, x, r), node.key) && node.key < x.key
    ensures var s, t := Inorder(Bin(l, x, r)), Inorder(Bin(l, node, Bin(Leaf, x, r)));
      Sorted(t) && Elements(t) == Elements(s) + {node} && Entries(t) == Entries(s)[node.key := node.value]
  {
    SortedTree(Bin(l, x, r));
    var a, b := Inorder(l), [x] + Inorder(r);
    assert a + b == Inorder(Bin(l, x, r));
    assert Inorder(Bin(Leaf, x, r)) == b;
    assert Inorder(Bin(l, node, Bin(Leaf, x, r))) == a + [node] + b;
    assert Below(a, node.key);
    forall y | y in b ensures y.key > node.key {
      assert y == x || y in Inorder(r);
    }
    hide *;
    InsertedOrder(a, node, b);
  }

  /** x.right = right, x having no right subtree. */
  method LinkAtRight(x: Node, right: Node?, ghost l: Tree, ghost r: Tree)
    requires Rep(x, Bin(l, x, Leaf)) && Rep(right, r) && Sorted(Inorder(l) + [x] + Inorder(r))
    modifies x`right
    ensures Rep(x, Bin(l, x, r))
  {
    SortedTree(Bin(l, x, r));
    assert x !in Elements(Inorder(l)) && x !in Elements(Inorder(r));
    x.right := right;
  }

  class SplayTree {
    var root: Node?
    ghost var tree: Tree
    ghost var nodes: seq<Node>

    constructor ()
      ensures Valid() && Model() == map[] && nodes == []
    {
      root, tree, nodes := null, Leaf, [];
    }

    /** The nodes form a tree with increasing keys. */
    ghost predicate Valid()
      reads this, Elements(nodes)
    {
      Inorder(tree) == nodes && Rep(root, tree) && Sorted(nodes)
    }

    ghost function Model(): map<real, object?>
      requires Valid()
      reads this, Elements(nodes)
    {
      Entries(nodes)
    }

    method IsEmpty() returns (r: bool)
      requires Valid()
      ensures Valid() && (r <==> Model() == map[]) && (r <==> root == null)
    {
      r := root == null;
      if !r { assert root.key in Model() by { NodeOf(tree); } }
    }

    /** Bring the key or a neighbour of it to the root. */
    method SplayOn(key: real)
      requires Valid()
      modifies this`root, this`tree, Elements(nodes)
      ensures Valid() && Model() == old(Model()) && (nodes != [] ==> Nearest(tree, key))
    {
      if root == null { return; }
      root, tree := Splay(root, key, tree, nodes);
    }

    /** Add an entry; an entry that is there is never overwritten. */
    method Insert(key: real, value: object?)
      requires Valid()
      modifies this, Elements(nodes)
      ensures Valid() && fresh(Elements(nodes) - old(Elements(nodes)))
      ensures Model() == if key in old(Model()) then old(Model()) else old(Model())[key := value]
    {
      if root == null {
        root := new Node(key, value);
        tree, nodes := Bin(Leaf, root, Leaf), [root];
        return;
      }
      SplayOn(key);
      NearestFound(tree, key);
      if root.key == key { return; }
      var node := new Node(key, value);
      InsertAtRoot(node);
    }

    /** The new node takes the root and one of its subtrees. */
    method InsertAtRoot(node: Node)
      requires Valid() && Nearest(tree, node.key) && tree.node.key != node.key && node !in nodes
      modifies this, Elements(nodes), node
      ensures Valid() && root == node && Elements(nodes) == old(Elements(nodes)) + {node}
      ensures Model() == old(Model())[node.key := node.value]
    {
      tree := Crown(node, root, tree.left, tree.right);
      nodes := Inorder(tree);
      root := node;
    }

    /** Remove an entry and return its node; None where the source throws. */
    method Remove(key: real) returns (removed: Option<Node>)
      requires Valid()
      modifies this, Elements(nodes)
      ensures Valid() && Elements(nodes) <= old(Elements(nodes))
      ensures removed == None <==> key !in old(Model())
      ensures removed == None ==> Model() == old(Model())
      ensures removed.Some? ==>
        removed.value.key == key && removed.value.value == old(Model())[key] && Model() == old(Model()) - {key}
    {
      if root == null { return None; }
      SplayOn(key);
      NearestFound(tree, key);
      if root.key != key { return None; }
      removed := Some(root);
      RemoveRoot(key);
    }

    method RemoveRoot(key: real)
      requires Valid() && tree.Bin? && tree.node.key == key
      modifies this, Elements(nodes)
      ensures Valid() && Elements(nodes) <= old(Elements(nodes)) && Model() == old(Model()) - {key}
    {
      EntriesSplit(Inorder(tree.left), tree.node, Inorder(tree.right));
      ChildElements(tree);
      DropRoot(key, tree.left, tree.right);
    }

    method DropRoot(key: real, ghost l: Tree, ghost r: Tree)
      requires Valid() && tree.Bin? && tree.left == l && tree.right == r && tree.node.key == key
      modifies this, Elements(nodes)
      ensures Valid() && nodes == Inorder(l) + Inorder(r)
    {
      SortedTree(tree);
      WithoutMiddle(Inorder(l), root, Inorder(r));
      ChildElements(tree);
      SortedParts(Inorder(l), Inorder(r));
      assert Rep(root.left, l) && Rep(root.right, r);
      if root.left == null {
        root := root.right;
        tree, nodes := r, Inorder(r);
        assert Inorder(l) + Inorder(r) == Inorder(r);
      } else {
        var right := root.right;
        root := root.left;
        tree, nodes := l, Inorder(l);
        JoinLeft(key, right, r, Elements(Inorder(r)));
      }
    }

    /** All keys are below the removed one and those of r above: splay on it and hang r on the right. */
    method JoinLeft(key: real, right: Node?, ghost r: Tree, ghost e: set<Node>)
      requires Valid() && tree.Bin? && Below(nodes, key) && Rep(right, r) && Sorted(nodes + Inorder(r))
      requires e == Elements(Inorder(r))
      modifies this, Elements(nodes)
      ensures Valid() && nodes == old(nodes) + Inorder(r)
    {
      SortedParts(nodes, Inorder(r));
      assert e !! Elements(nodes);
      SplayOn(key);
      assert Rep(right, r);
      EmptyRight(tree, key);
      JoinRight(right, r, e);
    }

    /** The whole of r becomes the right subtree of the root, which has none. */
    method JoinRight(right: Node?, ghost r: Tree, ghost e: set<Node>)
      requires e == Elements(Inorder(r)) && Valid() && tree.Bin? && tree.right.Leaf? && Rep(right, r)
      requires Sorted(nodes + Inorder(r))
      modifies this`tree, this`nodes, Elements(nodes)
      ensures Valid() && nodes == old(nodes) + Inorder(r)
    {
      ghost var l := tree.left;
      NothingRight(tree);
      LinkAtRight(root, right, l, r);
      assert Elements(Inorder(Bin(l, root, r))) == Elements(nodes) + e;
      tree, nodes := Bin(l, root, r), nodes + Inorder(r);
    }

    /** The node with the key, null if there is none. */
    method Find(key: real) returns (r: Node?)
      requires Valid()
      modifies this`root, this`tree, Elements(nodes)
      ensures Valid() && Model() == old(Model())
      ensures r == null <==> key !in Model()
      ensures r != null ==> r.key == key && r.value == Model()[key]
    {
      if root == null { return null; }
      SplayOn(key);
      NearestFound(tree, key);
      r := if root.key == key then root else null;
    }

    /** The last node of the subtree at start, or of the whole tree. */
    method FindMax(start: Node?, ghost t: Tree) returns (r: Node?)
      requires Valid() && (if start == null then t == tree else Rep(start, t))
      ensures root == null ==> r == null
      ensures root != null ==> r != null && t.Bin? && r == Inorder(t)[|Inorder(t)| - 1]
    {
      if root == null { return null; }
      var current: Node := if start != null then start else root;
      ghost var c := t;
      while current.right != null
        invariant c.Bin? && Rep(current, c) && t.Bin? && |Inorder(c)| <= |Inorder(t)|
        invariant Inorder(c)[|Inorder(c)| - 1] == Inorder(t)[|Inorder(t)| - 1]
        decreases c
      {
        assert Rep(current.right, c.right);
        current := current.right;
        c := c.right;
      }
      assert Rep(current.right, c.right);
      r := current;
    }

    /** The node with the greatest key below the given one, null if there is none. */
    method FindGreatestLessThan(key: real) returns (r: Node?)
      requires Valid()
      modifies this`root, this`tree, Elements(nodes)
      ensures Valid() && Model() == old(Model())
      ensures r == null ==> forall k :: k in Model() ==> k >= key
      ensures r != null ==> IsGreatestBelow(r, nodes, key)
    {
      if root == null { return null; }
      SplayOn(key);
      SortedTree(tree);
      GreatestBelow(tree, key);
      if root.key < key {
        r := root;
      } else if root.left != null {
        assert Rep(root.left, tree.left);
        r := FindMax(root.left, tree.left);
      } else {
        assert Rep(root.left, tree.left);
        r := null;
      }
    }

    /** All keys in increasing order. */
    method ExportKeys() returns (result: seq<real>)
      requires Valid()
      ensures Valid() && result == KeysOf(nodes)
      ensures forall k :: k in result <==> k in Model()
      ensures forall i, j :: 0 <= i < j < |result| ==> result[i] < result[j]
    {
      result := [];
      if root != null {
        result := Traverse(root, result, tree, Elements(nodes));
      }
      assert result == KeysOf(nodes);
      KeysAreDomain(nodes);
    }
  }

  lemma {:induction false} NodeOf(t: Tree)
    requires t.Bin? && Sorted(Inorder(t))
    ensures t.node.key in Entries(Inorder(t))
  {
    assert t.node in Elements(Inorder(t));
  }

  /** A node between those below it and those above it. */
  lemma {:induction false} InsertedOrder(a: seq<Node>, x: Node, b: seq<Node>)
    requires Sorted(a + b) && Below(a, x.key) && AboveKey(b, x.key)
    ensures Sorted(a + [x] + b) && Entries(a + [x] + b) == Entries(a + b)[x.key := x.value]
    ensures Elements(a + [x] + b) == Elements(a + b) + {x}
  {
    SortedParts(a, b);
    var s := a + [x] + b;
    forall i, j | 0 <= i < j < |s| ensures s[i].key < s[j].key {
      assert i < |a| ==> s[i] == a[i] && a[i] in a;
      assert j > |a| ==> s[j] == b[j - |a| - 1] && b[j - |a| - 1] in b;
      assert i > |a| ==> s[i] == b[i - |a| - 1];
      assert j < |a| ==> s[j] == a[j];
    }
    EntriesSplit(a, x, b);
  }

  lemma {:induction false} NothingRight(t: Tree)
    requires t.Bin? && t.right.Leaf?
    ensures Inorder(t) == Inorder(t.left) + [t.node]
  {}

  lemma {:induction false} RootIn(t: Tree)
    ensures t.Bin? ==> t.node in Inorder(t)
  {}

  /** Splaying on a key above all others leaves nothing to the right of the root. */
  lemma {:induction false} EmptyRight(t: Tree, key: real)
    requires Nearest(t, key) && Sorted(Inorder(t)) && Below(Inorder(t), key)
    ensures t.right.Leaf?
  {
    RootIn(t);
    RootIn(t.right);
    assert forall x :: x in Inorder(t.right) ==> x in Inorder(t);
  }

  ghost predicate IsGreatestBelow(x: Node, s: seq<Node>, key: real)
    requires Sorted(s)
  {
    && x.key < key && x.key in Entries(s) && Entries(s)[x.key] == x.value
    && forall k :: k in Entries(s) && k < key ==> k <= x.key
  }

  lemma {:induction false} GreatestBelow(t: Tree, key: real)
    requires Nearest(t, key) && Sorted(Inorder(t))
    ensures t.node.key < key ==> IsGreatestBelow(t.node, Inorder(t), key)
    ensures t.node.key >= key && t.left.Leaf? ==> forall k :: k in Entries(Inorder(t)) ==> k >= key
    ensures t.node.key >= key && t.left.Bin? ==>
        IsGreatestBelow(Inorder(t.left)[|Inorder(t.left)| - 1], Inorder(t), key)
  {
    SortedTree(t);
    var s, l := Inorder(t), Inorder(t.left);
    assert forall x :: x in s <==> x in l || x == t.node || x in Inorder(t.right);
    if t.node.key < key {
      GreatestOf(t.node, s, key);
    } else if t.left.Bin? {
      LastIsGreatest(l);
      GreatestOf(l[|l| - 1], s, key);
    }
  }

  lemma {:induction false} GreatestOf(x: Node, s: seq<Node>, key: real)
    requires Sorted(s) && x in s && x.key < key && forall y :: y in s && y.key < key ==> y.key <= x.key
    ensures IsGreatestBelow(x, s, key)
  {
    SortedDistinct(s);
    assert x in Elements(s);
  }

  lemma {:induction false} LastIsGreatest(s: seq<Node>)
    requires Sorted(s) && s != []
    ensures s[|s| - 1] in s && forall y :: y in s ==> y.key <= s[|s| - 1].key
  {
    forall y | y in s ensures y.key <= s[|s| - 1].key {
      var i :| 0 <= i < |s| && s[i] == y;
    }
  }

  lemma {:induction false} KeysAreDomain(s: seq<Node>)
    requires Sorted(s)
    ensures forall k :: k in KeysOf(s) <==> k in Entries(s)
  {
    SortedDistinct(s);
    forall k ensures k in KeysOf(s) <==> k in Entries(s) {
      if k in KeysOf(s) {
        var i :| 0 <= i < |s| && KeysOf(s)[i] == k;
        assert s[i] in Elements(s);
      }
      if k in Entries(s) {
        var x :| x in s && x.key == k;
        var i :| 0 <= i < |s| && s[i] == x;
        assert KeysOf(s)[i] == k;
      }
    }
  }

  /** Append the keys of the subtree in order: recursion to the left, a loop to the right. */
  method Traverse(n: Node, result0: seq<real>, ghost t: Tree, ghost s: set<Node>) returns (result: seq<real>)
    requires Rep(n, t) && Elements(Inorder(t)) <= s
    ensures result == result0 + KeysOf(Inorder(t))
    decreases t
  {
    result := result0;
    var current: Node? := n;
    ghost var c := t;
    while current != null
      invariant Rep(current, c) && (c == t || c < t) && Elements(Inorder(c)) <= s
      invariant result + KeysOf(Inorder(c)) == result0 + KeysOf(Inorder(t))
      decreases c
    {
      ghost var before := result;
      var left := current.left;
      assert Rep(left, c.left) && Rep(current.right, c.right);
      ChildElements(c);
      if left != null { result := Traverse(left, result, c.left, s); }
      KeysInOrder(before, c);
      result := result + [current.key];
      current := current.right;
      c := c.right;
    }
  }

  lemma {:induction false} ChildElements(c: Tree)
    requires c.Bin?
    ensures Elements(Inorder(c.left)) <= Elements(Inorder(c)) && Elements(Inorder(c.right)) <= Elements(Inorder(c))
  {
    assert forall x :: x in Inorder(c.left) || x in Inorder(c.right) ==> x in Inorder(c);
  }

  lemma {:induction false} KeysInOrder(before: seq<real>, c: Tree)
    requires c.Bin?
    ensures before + KeysOf(Inorder(c)) == before + KeysOf(Inorder(c.left)) + [c.node.key] + KeysOf(Inorder(c.right))
    ensures c.left.Leaf? ==> before + KeysOf(Inorder(c.left)) == before
  {}
}
