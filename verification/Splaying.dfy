/** Top-down splaying: the tree is taken apart along the search path and put together again. */
module Splaying {
  import opened SplayNodes
  import opened SplayShapes

  /** Everything a splay step keeps: the left tree, the current tree and the right tree are the
      nodes s in order, smaller keys to the left and larger ones to the right. */
  ghost predicate Apart(dummy: Node, left: Node, right: Node, current: Node,
                        l: Lefts, c: Tree, r: Rights, s: seq<Node>, key: real)
    reads dummy, Elements(s)
  {
    && c.Bin? && s == InLefts(l) + Inorder(c) + InRights(r) && Sorted(s) && dummy !in s
    && RepLefts(l, dummy) && left == LastLeft(l, dummy)
    && RepRights(r, dummy) && right == LastRight(r, dummy)
    && Rep(current, c)
    && Below(InLefts(l), key) && AboveKey(InRights(r), key)
  }

  /** The three parts have no node in common. */
  lemma {:induction false} ThreeParts(a: seq<Node>, b: seq<Node>, c: seq<Node>)
    requires Sorted(a + b + c)
    ensures Sorted(a) && Sorted(b) && Sorted(c)
    ensures Elements(a) !! Elements(b) && Elements(a) !! Elements(c) && Elements(b) !! Elements(c)
  {
    SortedParts(a + b, c);
    SortedParts(a, b);
    assert forall x :: x in a || x in b ==> x in a + b;
  }

  /** The open ends and the current node belong to their own part only. */
  lemma {:induction false} Separate(dummy: Node, l: Lefts, c: Tree, r: Rights, s: seq<Node>)
    requires c.Bin? && s == InLefts(l) + Inorder(c) + InRights(r) && Sorted(s) && dummy !in s
    ensures Sorted(InLefts(l)) && Sorted(Inorder(c)) && Sorted(InRights(r))
    ensures dummy !in InLefts(l) && dummy !in Inorder(c) && dummy !in InRights(r)
    ensures forall x :: x in Inorder(c.left) || x in Inorder(c.right) ==> x in Inorder(c)
    ensures var x := LastLeft(l, dummy);
            x !in Elements(Inorder(c.left)) && x !in Elements(Inorder(c.right)) && x !in Elements(InRights(r))
    ensures var x := LastRight(r, dummy);
            x !in Elements(Inorder(c.left)) && x !in Elements(Inorder(c.right)) && x !in Elements(InLefts(l))
    ensures c.node !in Elements(InLefts(l)) && c.node !in Elements(InRights(r)) && c.node != dummy
    ensures c.node !in Elements(Inorder(c.left)) && c.node !in Elements(Inorder(c.right))
    ensures c.node != LastLeft(l, dummy) && c.node != LastRight(r, dummy)
  {
    ThreeParts(InLefts(l), Inorder(c), InRights(r));
    SortedTree(c);
    assert c.node in Elements(Inorder(c));
    assert l.AddLeft? ==> LastLeft(l, dummy) in Elements(InLefts(l));
    assert r.AddRight? ==> LastRight(r, dummy) in Elements(InRights(r));
  }

  // ----- The open ends -----

  /** left.right = n. */
  method HangLeft(left: Node, n: Node?, dummy: Node, ghost l: Lefts)
    requires Sorted(InLefts(l)) && dummy !in InLefts(l) && RepLefts(l, dummy) && left == LastLeft(l, dummy)
    modifies left`right
    ensures RepLefts(l, dummy) && left.right == n
  {
    match l {
      case NoLefts =>
      case AddLeft(b, t, x) =>
        SortedParts(InLefts(b), Inorder(t) + [x]);
        SortedParts(Inorder(t), [x]);
        assert x in [x] && x in Inorder(t) + [x];
    }
    left.right := n;
  }

  /** right.left = n. */
  method HangRight(right: Node, n: Node?, dummy: Node, ghost r: Rights)
    requires Sorted(InRights(r)) && dummy !in InRights(r) && RepRights(r, dummy) && right == LastRight(r, dummy)
    modifies right`left
    ensures RepRights(r, dummy) && right.left == n
  {
    match r {
      case NoRights =>
      case AddRight(b, x, t) =>
        SortedParts([x] + Inorder(t), InRights(b));
        SortedParts([x], Inorder(t));
        assert x in [x] && x in [x] + Inorder(t);
    }
    right.left := n;
  }

  // ----- Steps -----

  /** Link right: the current node and its right subtree go to the right tree. */
  method LinkRight(dummy: Node, left: Node, right: Node, current: Node,
                   ghost l: Lefts, ghost c: Tree, ghost r: Rights, ghost s: seq<Node>, key: real)
    returns (right': Node, current': Node)
    requires Apart(dummy, left, right, current, l, c, r, s, key) && key < current.key && current.left != null
    modifies right
    ensures Apart(dummy, left, right', current', l, c.left, AddRight(r, current, c.right), s, key)
  {
    Separate(dummy, l, c, r, s);
    assert Rep(current.left, c.left);
    LinkRightOrder(InLefts(l), c, InRights(r), key);
    assert right !in Elements(InLefts(l));
    assert right !in Elements(Inorder(c.left)) && right !in Elements(Inorder(c.right));
    HangRight(right, current, dummy, r);
    right' := current;
    current' := current.left;
  }

  lemma {:induction false} LinkRightOrder(a: seq<Node>, c: Tree, b: seq<Node>, key: real)
    requires c.Bin? && Sorted(Inorder(c)) && key < c.node.key && AboveKey(b, key)
    ensures a + Inorder(c) + b == a + Inorder(c.left) + (([c.node] + Inorder(c.right)) + b)
    ensures AboveKey(([c.node] + Inorder(c.right)) + b, key)
  {
    SortedTree(c);
  }

  /** Link left, the mirror image. */
  method LinkLeft(dummy: Node, left: Node, right: Node, current: Node,
                  ghost l: Lefts, ghost c: Tree, ghost r: Rights, ghost s: seq<Node>, key: real)
    returns (left': Node, current': Node)
    requires Apart(dummy, left, right, current, l, c, r, s, key) && key > current.key && current.right != null
    modifies left
    ensures Apart(dummy, left', right, current', AddLeft(l, c.left, current), c.right, r, s, key)
  {
    Separate(dummy, l, c, r, s);
    assert Rep(current.right, c.right);
    LinkLeftOrder(InLefts(l), c, InRights(r), key);
    assert left !in Elements(InRights(r)) && left !in Elements(Inorder(c.left)) && left !in Elements(Inorder(c.right));
    HangLeft(left, current, dummy, l);
    left' := current;
    current' := current.right;
  }

  lemma {:induction false} LinkLeftOrder(a: seq<Node>, c: Tree, b: seq<Node>, key: real)
    requires c.Bin? && Sorted(Inorder(c)) && key > c.node.key && Below(a, key)
    ensures a + Inorder(c) + b == a + (Inorder(c.left) + [c.node]) + Inorder(c.right) + b
    ensures var low := Inorder(c.left) + [c.node];
      a + low + Inorder(c.right) + b == (a + low) + Inorder(c.right) + b
    ensures Below(a + (Inorder(c.left) + [c.node]), key)
  {
    SortedTree(c);
  }

  /** Rotate right at the current node. */
  method RotateRight(current: Node, ghost c: Tree) returns (top: Node, ghost c': Tree)
    requires c.Bin? && Rep(current, c) && Sorted(Inorder(c)) && current.left != null
    modifies current, current.left
    ensures c'.Bin? && Rep(top, c') && Inorder(c') == Inorder(c) && top == old(current.left) == c'.node
    ensures c.left.Bin? && c' == RotatedRight(c)
  {
    SortedTree(c);
    SortedTree(c.left);
    var tmp := current.left;
    current.left := tmp.right;
    tmp.right := current;
    top := tmp;
    c' := RotatedRight(c);
    RotatedOrder(c.left.left, c.left.node, c.left.right, c.node, c.right);
  }

  /** Rotate left at the current node. */
  method RotateLeft(current: Node, ghost c: Tree) returns (top: Node, ghost c': Tree)
    requires c.Bin? && Rep(current, c) && Sorted(Inorder(c)) && current.right != null
    modifies current, current.right
    ensures c'.Bin? && Rep(top, c') && Inorder(c') == Inorder(c) && top == old(current.right) == c'.node
    ensures c.right.Bin? && c' == RotatedLeft(c)
  {
    SortedTree(c);
    SortedTree(c.right);
    var tmp := current.right;
    current.right := tmp.left;
    tmp.left := current;
    top := tmp;
    c' := RotatedLeft(c);
    RotatedOrder(c.left, c.node, c.right.left, c.right.node, c.right.right);
  }

  lemma {:induction false} RotatedOrder(a: Tree, x: Node, b: Tree, y: Node, c: Tree)
    ensures Inorder(Bin(Bin(a, x, b), y, c)) == Inorder(Bin(a, x, Bin(b, y, c)))
  {}

  /** Where the current node and the open ends are. */
  lemma {:induction false} Links(dummy: Node, left: Node, right: Node, current: Node,
                                 l: Lefts, c: Tree, r: Rights, s: seq<Node>, key: real)
    requires Apart(dummy, left, right, current, l, c, r, s, key)
    ensures Sorted(Inorder(c)) && c.node == current && current in Elements(s) && current != dummy
    ensures left == dummy || left in Elements(s)
    ensures right == dummy || right in Elements(s)
    ensures current !in Elements(InLefts(l)) && current !in Elements(InRights(r))
    ensures |Inorder(c.left)| < |Inorder(c)| && |Inorder(c.right)| < |Inorder(c)|
  {
    ThreeParts(InLefts(l), Inorder(c), InRights(r));
    SortedTree(c);
    assert current in Elements(Inorder(c));
    assert l.AddLeft? ==> left in InLefts(l);
    assert r.AddRight? ==> right in InRights(r);
  }

  lemma {:induction false} LeftLink(dummy: Node, left: Node, right: Node, current: Node,
                                    l: Lefts, c: Tree, r: Rights, s: seq<Node>, key: real)
    requires Apart(dummy, left, right, current, l, c, r, s, key)
    ensures current.left == null <==> c.left.Leaf?
    ensures current.left != null ==>
      && current.left in Elements(s) && current.left != dummy && c.left.node == current.left
      && current.left !in Elements(InLefts(l)) && current.left !in Elements(InRights(r))
  {
    ThreeParts(InLefts(l), Inorder(c), InRights(r));
    SortedTree(c);
    assert Rep(current.left, c.left);
    if c.left.Bin? {
      SortedTree(c.left);
      assert current.left in Inorder(c.left);
      assert current.left in Elements(Inorder(c));
    }
  }

  lemma {:induction false} RightLink(dummy: Node, left: Node, right: Node, current: Node,
                                     l: Lefts, c: Tree, r: Rights, s: seq<Node>, key: real)
    requires Apart(dummy, left, right, current, l, c, r, s, key)
    ensures current.right == null <==> c.right.Leaf?
    ensures current.right != null ==>
      && current.right in Elements(s) && current.right != dummy && c.right.node == current.right
      && current.right !in Elements(InLefts(l)) && current.right !in Elements(InRights(r))
  {
    ThreeParts(InLefts(l), Inorder(c), InRights(r));
    SortedTree(c);
    assert Rep(current.right, c.right);
    if c.right.Bin? {
      SortedTree(c.right);
      assert current.right in Inorder(c.right);
      assert current.right in Elements(Inorder(c));
    }
  }

  /** One turn to the left of the key: rotate if the key goes left twice, then link right. Done when
      there is nothing to the left. */
  method StepLeft(dummy: Node, left: Node, right: Node, current: Node,
                  ghost l: Lefts, ghost c: Tree, ghost r: Rights, ghost s: seq<Node>, key: real)
    returns (done: bool, right': Node, current': Node, ghost c': Tree, ghost r': Rights)
    requires Apart(dummy, left, right, current, l, c, r, s, key) && key < current.key
    modifies Elements(s), dummy
    ensures Apart(dummy, left, right', current', l, c', r', s, key)
    ensures done ==> key < current'.key && c'.left.Leaf?
    ensures Split(l, c, r, key) == if done then Parts(l, c', r') else Split(l, c', r', key)
    ensures if done then |Inorder(c')| == |Inorder(c)| else |Inorder(c')| < |Inorder(c)|
  {
    hide Split, Inorder, Rep, RepLefts, RepRights, Sorted, Below, AboveKey;
    done, right', current', c', r' := false, right, current, c, r;
    Links(dummy, left, right, current, l, c, r, s, key);
    LeftLink(dummy, left, right, current, l, c, r, s, key);
    SplitToLeft(l, c, r, key);
    if current.left == null { return true, right, current, c, r; }
    if key < current.left.key {
      current', c' := RotateInPlace(dummy, left, right, current, l, c, r, s, key);
      Links(dummy, left, right, current', l, c', r, s, key);
      LeftLink(dummy, left, right, current', l, c', r, s, key);
      if current'.left == null { done := true; return; }
    }
    r' := AddRight(r, current', c'.right);
    right', current' := LinkRight(dummy, left, right, current', l, c', r, s, key);
    c' := c'.left;
  }

  /** A rotation, to the right or to the left, leaves the other two parts alone. */
  method RotateBeside(dummy: Node, current: Node, ghost l: Lefts, ghost c: Tree, ghost r: Rights, toRight: bool)
    returns (top: Node, ghost c': Tree)
    requires c.Bin? && Rep(current, c) && Sorted(Inorder(c)) && RepLefts(l, dummy) && RepRights(r, dummy)
    requires var child := if toRight then current.left else current.right;
      && child != null && child != dummy && child !in Elements(InLefts(l)) && child !in Elements(InRights(r))
    requires current != dummy && current !in Elements(InLefts(l)) && current !in Elements(InRights(r))
    modifies current, if toRight then current.left else current.right
    ensures c'.Bin? && Rep(top, c') && Inorder(c') == Inorder(c)
    ensures top == if toRight then old(current.left) else old(current.right)
    ensures RepLefts(l, dummy) && RepRights(r, dummy)
    ensures if toRight then c.left.Bin? && c' == RotatedRight(c) else c.right.Bin? && c' == RotatedLeft(c)
  {
    var child := if toRight then current.left else current.right;
    assert current !in Elements(InLefts(l)) && current !in Elements(InRights(r));
    assert child !in Elements(InLefts(l)) && child !in Elements(InRights(r));
    if toRight {
      top, c' := RotateRight(current, c);
    } else {
      top, c' := RotateLeft(current, c);
    }
  }

  method RotateInPlace(dummy: Node, left: Node, right: Node, current: Node,
                       ghost l: Lefts, ghost c: Tree, ghost r: Rights, ghost s: seq<Node>, key: real)
    returns (current': Node, ghost c': Tree)
    requires Apart(dummy, left, right, current, l, c, r, s, key)
    requires current.left != null && key < current.left.key
    modifies current, current.left
    ensures Apart(dummy, left, right, current', l, c', r, s, key) && Inorder(c') == Inorder(c) && key < current'.key
    ensures c.left.Bin? && c' == RotatedRight(c)
  {
    Links(dummy, left, right, current, l, c, r, s, key);
    LeftLink(dummy, left, right, current, l, c, r, s, key);
    current', c' := RotateBeside(dummy, current, l, c, r, true);
  }

  /** One turn to the right of the key, the mirror image. */
  method StepRight(dummy: Node, left: Node, right: Node, current: Node,
                   ghost l: Lefts, ghost c: Tree, ghost r: Rights, ghost s: seq<Node>, key: real)
    returns (done: bool, left': Node, current': Node, ghost l': Lefts, ghost c': Tree)
    requires Apart(dummy, left, right, current, l, c, r, s, key) && key > current.key
    modifies Elements(s), dummy
    ensures Apart(dummy, left', right, current', l', c', r, s, key)
    ensures done ==> key > current'.key && c'.right.Leaf?
    ensures Split(l, c, r, key) == if done then Parts(l', c', r) else Split(l', c', r, key)
    ensures if done then |Inorder(c')| == |Inorder(c)| else |Inorder(c')| < |Inorder(c)|
  {
    hide Split, Inorder, Rep, RepLefts, RepRights, Sorted, Below, AboveKey;
    done, left', current', l', c' := false, left, current, l, c;
    Links(dummy, left, right, current, l, c, r, s, key);
    RightLink(dummy, left, right, current, l, c, r, s, key);
    SplitToRight(l, c, r, key);
    if current.right == null { return true, left, current, l, c; }
    if key > current.right.key {
      current', c' := RotateInPlaceLeft(dummy, left, right, current, l, c, r, s, key);
      Links(dummy, left, right, current', l, c', r, s, key);
      RightLink(dummy, left, right, current', l, c', r, s, key);
      if current'.right == null { done := true; return; }
    }
    l' := AddLeft(l, c'.left, current');
    left', current' := LinkLeft(dummy, left, right, current', l, c', r, s, key);
    c' := c'.right;
  }

  method RotateInPlaceLeft(dummy: Node, left: Node, right: Node, current: Node,
                           ghost l: Lefts, ghost c: Tree, ghost r: Rights, ghost s: seq<Node>, key: real)
    returns (current': Node, ghost c': Tree)
    requires Apart(dummy, left, right, current, l, c, r, s, key)
    requires current.right != null && key > current.right.key
    modifies current, current.right
    ensures Apart(dummy, left, right, current', l, c', r, s, key) && Inorder(c') == Inorder(c) && key > current'.key
    ensures c.right.Bin? && c' == RotatedLeft(c)
  {
    Links(dummy, left, right, current, l, c, r, s, key);
    RightLink(dummy, left, right, current, l, c, r, s, key);
    current', c' := RotateBeside(dummy, current, l, c, r, false);
  }

  // ----- The whole splay -----

  /** What a splay brings to the root: the key, or else its successor or its predecessor. */
  ghost predicate Nearest(t: Tree, key: real) {
    && t.Bin?
    && (key < t.node.key ==> Below(Inorder(t.left), key))
    && (key > t.node.key ==> AboveKey(Inorder(t.right), key))
  }

  lemma {:induction false} JoinedNearest(l: Lefts, c: Tree, r: Rights, key: real)
    requires c.Bin? && Below(InLefts(l), key) && AboveKey(InRights(r), key)
    requires (key < c.node.key ==> c.left.Leaf?) && (key > c.node.key ==> c.right.Leaf?)
    ensures Nearest(Joined(Parts(l, c, r)), key)
  {
    ClosedLeftsOrder(l, c.left);
    ClosedRightsOrder(r, c.right);
  }

  lemma {:induction false} ClosedLeftsOrder(l: Lefts, t: Tree)
    ensures Inorder(CloseLefts(l, t)) == InLefts(l) + Inorder(t)
    decreases l
  {
    if l.AddLeft? {
      ClosedLeftsOrder(l.before, Bin(l.tree, l.node, t));
      MovedLeft(InLefts(l.before), Inorder(l.tree), l.node, Inorder(t));
    }
  }

  lemma {:induction false} ClosedRightsOrder(r: Rights, t: Tree)
    ensures Inorder(CloseRights(r, t)) == Inorder(t) + InRights(r)
    decreases r
  {
    if r.AddRight? {
      ClosedRightsOrder(r.before, Bin(t, r.node, r.tree));
      MovedRight(Inorder(t), r.node, Inorder(r.tree), InRights(r.before));
    }
  }

  /** Put the parts together under the current node. */
  method Assemble(dummy: Node, left: Node, right: Node, current: Node,
                  ghost l: Lefts, ghost c: Tree, ghost r: Rights, ghost s: seq<Node>, key: real)
    returns (ghost t: Tree)
    requires Apart(dummy, left, right, current, l, c, r, s, key)
    requires (key < current.key ==> c.left.Leaf?) && (key > current.key ==> c.right.Leaf?)
    modifies Elements(s), dummy
    ensures Rep(current, t) && Inorder(t) == s && Nearest(t, key) && t == Joined(Parts(l, c, r))
  {
    Links(dummy, left, right, current, l, c, r, s, key);
    Separate(dummy, l, c, r, s);
    JoinedNearest(l, c, r, key);
    hide Split, Sorted, CloseLefts, CloseRights, Below, AboveKey, Nearest;
    HangBoth(dummy, left, right, current.left, current.right, l, r, c.left, c.right);
    AssembledOrder(InLefts(l), c, InRights(r));
    AssembledApart(InLefts(l), c, InRights(r));
    t := Under(dummy, current, CloseLefts(l, c.left), CloseRights(r, c.right));
  }

  /** The two trees at the dummy become the subtrees of the current node. */
  method Under(dummy: Node, current: Node, ghost tl: Tree, ghost tr: Tree) returns (ghost t: Tree)
    requires Rep(dummy.right, tl) && Rep(dummy.left, tr) && dummy != current
    requires current !in Inorder(tl) && current !in Inorder(tr)
    modifies current
    ensures t == Bin(tl, current, tr) && Rep(current, t)
  {
    assert current !in Elements(Inorder(tl)) && current !in Elements(Inorder(tr));
    current.left := dummy.right;
    current.right := dummy.left;
    t := Bin(tl, current, tr);
  }

  lemma {:induction false} AssembledApart(a: seq<Node>, c: Tree, b: seq<Node>)
    requires c.Bin? && Sorted(a + Inorder(c) + b)
    ensures c.node !in a + Inorder(c.left) && c.node !in Inorder(c.right) + b
  {
    ThreeParts(a, Inorder(c), b);
    SortedTree(c);
    assert c.node in Elements(Inorder(c));
  }

  /** Trees at both open ends. */
  method HangBoth(dummy: Node, left: Node, right: Node, x: Node?, y: Node?,
                  ghost l: Lefts, ghost r: Rights, ghost tx: Tree, ghost ty: Tree)
    requires Sorted(InLefts(l)) && dummy !in InLefts(l) && RepLefts(l, dummy) && left == LastLeft(l, dummy)
    requires Sorted(InRights(r)) && dummy !in InRights(r) && RepRights(r, dummy) && right == LastRight(r, dummy)
    requires Rep(x, tx) && Rep(y, ty)
    requires left !in Elements(Inorder(tx)) && left !in Elements(Inorder(ty)) && left !in Elements(InRights(r))
    requires right !in Elements(Inorder(tx)) && right !in Elements(Inorder(ty)) && right !in Elements(InLefts(l))
    modifies left`right, right`left
    ensures Rep(dummy.right, CloseLefts(l, tx)) && Inorder(CloseLefts(l, tx)) == InLefts(l) + Inorder(tx)
    ensures Rep(dummy.left, CloseRights(r, ty)) && Inorder(CloseRights(r, ty)) == Inorder(ty) + InRights(r)
  {
    assert left !in Elements(Inorder(tx)) && left !in Elements(Inorder(ty)) && left !in Elements(InRights(r));
    assert right !in Elements(Inorder(tx)) && right !in Elements(Inorder(ty)) && right !in Elements(InLefts(l));
    HangLeft(left, x, dummy, l);
    HangRight(right, y, dummy, r);
    CloseLeftsRep(l, dummy, tx);
    CloseRightsRep(r, dummy, ty);
  }

  lemma {:induction false} AssembledOrder(a: seq<Node>, c: Tree, b: seq<Node>)
    requires c.Bin?
    ensures (a + Inorder(c.left)) + [c.node] + (Inorder(c.right) + b) == a + Inorder(c) + b
  {}

  /** Splay on the key: the same nodes in the same order, the key or a neighbour of it at the root, and the shape of
      which PathHalves says that it is flatter along the search path. */
  method Splay(root: Node, key: real, ghost t: Tree, ghost s: seq<Node>) returns (current: Node, ghost t': Tree)
    requires Rep(root, t) && Inorder(t) == s && Sorted(s)
    modifies Elements(s)
    ensures Rep(current, t') && Inorder(t') == s && Nearest(t', key) && t.Bin? && t' == Splayed(t, key)
  {
    var dummy := new Node(0.0, null);
    var left, right := dummy, dummy;
    current := root;
    ghost var l, c, r := NoLefts, t, NoRights;
    var done := false;
    while !done
      invariant Apart(dummy, left, right, current, l, c, r, s, key) && fresh(dummy)
      invariant Split(NoLefts, t, NoRights, key) == if done then Parts(l, c, r) else Split(l, c, r, key)
      invariant done ==> (key < current.key ==> c.left.Leaf?) && (key > current.key ==> c.right.Leaf?)
      decreases |Inorder(c)|, if done then 0 else 1
    {
      if key < current.key {
        done, right, current, c, r := StepLeft(dummy, left, right, current, l, c, r, s, key);
      } else if key > current.key {
        done, left, current, l, c := StepRight(dummy, left, right, current, l, c, r, s, key);
      } else {
        done := true;
      }
    }
    t' := Assemble(dummy, left, right, current, l, c, r, s, key);
  }
}
