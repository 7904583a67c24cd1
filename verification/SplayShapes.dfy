/** What splaying does to the shape of a tree, and that it halves the depth of the search path. */
module SplayShapes {
  import opened SplayNodes

  // ----- The shape after a splay -----

  /** The left tree, the tree still to be searched, and the right tree. */
  datatype Parts = Parts(l: Lefts, c: Tree, r: Rights)

  ghost function RotatedRight(c: Tree): Tree
    requires c.Bin? && c.left.Bin?
  {
    Bin(c.left.left, c.left.node, Bin(c.left.right, c.node, c.right))
  }

  ghost function RotatedLeft(c: Tree): Tree
    requires c.Bin? && c.right.Bin?
  {
    Bin(Bin(c.left, c.node, c.right.left), c.right.node, c.right.right)
  }

  ghost function Split(l: Lefts, c: Tree, r: Rights, key: real): (p: Parts)
    requires c.Bin?
    ensures p.c.Bin?
    decreases c
  {
    if key < c.node.key then
      if c.left.Leaf? then Parts(l, c, r)
      else if key < c.left.node.key then
        if c.left.left.Leaf? then Parts(l, RotatedRight(c), r)
        else Split(l, c.left.left, AddRight(r, c.left.node, RotatedRight(c).right), key)
      else Split(l, c.left, AddRight(r, c.node, c.right), key)
    else if key > c.node.key then
      if c.right.Leaf? then Parts(l, c, r)
      else if key > c.right.node.key then
        if c.right.right.Leaf? then Parts(l, RotatedLeft(c), r)
        else Split(AddLeft(l, RotatedLeft(c).left, c.right.node), c.right.right, r, key)
      else Split(AddLeft(l, c.left, c.node), c.right, r, key)
    else Parts(l, c, r)
  }

  lemma SplitToLeft(l: Lefts, c: Tree, r: Rights, key: real)
    requires c.Bin? && key < c.node.key
    ensures c.left.Leaf? ==> Split(l, c, r, key) == Parts(l, c, r)
    ensures c.left.Bin? && key < c.left.node.key && c.left.left.Leaf? ==>
        Split(l, c, r, key) == Parts(l, RotatedRight(c), r)
    ensures c.left.Bin? && key < c.left.node.key && c.left.left.Bin? ==>
        var d := RotatedRight(c); Split(l, c, r, key) == Split(l, d.left, AddRight(r, d.node, d.right), key)
    ensures c.left.Bin? && key >= c.left.node.key ==>
        Split(l, c, r, key) == Split(l, c.left, AddRight(r, c.node, c.right), key)
  {
  }

  lemma SplitToRight(l: Lefts, c: Tree, r: Rights, key: real)
    requires c.Bin? && key > c.node.key
    ensures c.right.Leaf? ==> Split(l, c, r, key) == Parts(l, c, r)
    ensures c.right.Bin? && key > c.right.node.key && c.right.right.Leaf? ==>
        Split(l, c, r, key) == Parts(l, RotatedLeft(c), r)
    ensures c.right.Bin? && key > c.right.node.key && c.right.right.Bin? ==>
        var d := RotatedLeft(c); Split(l, c, r, key) == Split(AddLeft(l, d.left, d.node), d.right, r, key)
    ensures c.right.Bin? && key <= c.right.node.key ==>
        Split(l, c, r, key) == Split(AddLeft(l, c.left, c.node), c.right, r, key)
  {
  }

  ghost function Joined(p: Parts): Tree
    requires p.c.Bin?
  {
    Bin(CloseLefts(p.l, p.c.left), p.c.node, CloseRights(p.r, p.c.right))
  }

  // ----- Depth -----

  /** x is d links below the root of t. */
  ghost predicate IsAt(t: Tree, x: Node, d: nat) {
    t.Bin? && if d == 0 then t.node == x else IsAt(t.left, x, d - 1) || IsAt(t.right, x, d - 1)
  }

  ghost function LeftsLength(l: Lefts): nat {
    if l.NoLefts? then 0 else LeftsLength(l.before) + 1
  }

  ghost function RightsLength(r: Rights): nat {
    if r.NoRights? then 0 else RightsLength(r.before) + 1
  }

  /** x is d links below the root of the left tree. */
  ghost predicate IsAtLefts(l: Lefts, x: Node, d: nat) {
    match l
    case NoLefts => false
    case AddLeft(b, t, y) =>
      var n := LeftsLength(b); IsAtLefts(b, x, d) || (d == n && x == y) || (d > n && IsAt(t, x, d - n - 1))
  }

  ghost predicate IsAtRights(r: Rights, x: Node, d: nat) {
    match r
    case NoRights => false
    case AddRight(b, y, t) =>
      var n := RightsLength(b); IsAtRights(b, x, d) || (d == n && x == y) || (d > n && IsAt(t, x, d - n - 1))
  }

  lemma {:induction false} ClosedLefts(l: Lefts, t: Tree, x: Node, d: nat)
    requires IsAtLefts(l, x, d) || (d >= LeftsLength(l) && IsAt(t, x, d - LeftsLength(l)))
    ensures IsAt(CloseLefts(l, t), x, d)
    decreases l
  {
    match l
    case NoLefts =>
    case AddLeft(b, s, y) =>
      ClosedLefts(b, Bin(s, y, t), x, d);
  }

  lemma {:induction false} ClosedRights(r: Rights, t: Tree, x: Node, d: nat)
    requires IsAtRights(r, x, d) || (d >= RightsLength(r) && IsAt(t, x, d - RightsLength(r)))
    ensures IsAt(CloseRights(r, t), x, d)
    decreases r
  {
    match r
    case NoRights =>
    case AddRight(b, y, s) =>
      ClosedRights(b, Bin(t, y, s), x, d);
  }

  /** What is in the left tree or the right tree stays there, one link below the new root. */
  lemma {:induction false} SplitKeeps(l: Lefts, c: Tree, r: Rights, key: real, x: Node, d: nat)
    requires c.Bin? && (IsAtLefts(l, x, d) || IsAtRights(r, x, d))
    ensures IsAt(Joined(Split(l, c, r, key)), x, d + 1)
    decreases c
  {
    var p := Split(l, c, r, key);
    if key < c.node.key && c.left.Bin? && !(key < c.left.node.key && c.left.left.Leaf?) {
      if key < c.left.node.key {
        SplitKeeps(l, c.left.left, AddRight(r, c.left.node, RotatedRight(c).right), key, x, d);
      } else {
        SplitKeeps(l, c.left, AddRight(r, c.node, c.right), key, x, d);
      }
    } else if key > c.node.key && c.right.Bin? && !(key > c.right.node.key && c.right.right.Leaf?) {
      if key > c.right.node.key {
        SplitKeeps(AddLeft(l, RotatedLeft(c).left, c.right.node), c.right.right, r, key, x, d);
      } else {
        SplitKeeps(AddLeft(l, c.left, c.node), c.right, r, key, x, d);
      }
    } else if IsAtLefts(l, x, d) {
      ClosedLefts(p.l, p.c.left, x, d);
    } else {
      ClosedRights(p.r, p.c.right, x, d);
    }
  }

  // ----- The search path -----

  /** The nodes at which a search for the key looks, from the root down. */
  ghost function Path(t: Tree, key: real): (s: seq<Node>)
    ensures t.Bin? ==> |s| > 0
    ensures s == [] <==> t.Leaf?
  {
    if t.Leaf? then []
    else if key < t.node.key then [t.node] + Path(t.left, key)
    else if key > t.node.key then [t.node] + Path(t.right, key)
    else [t.node]
  }

  /** Twice the depth at which the next node of the path may come to hang, less four; it goes to the tree of the
      other side next. */
  ghost function Room(l: Lefts, c: Tree, r: Rights, key: real): int
    requires c.Bin?
  {
    var a, b := 2 * LeftsLength(l), 2 * RightsLength(r);
    if key < c.node.key then (if a - 1 > b then a - 1 else b)
    else if key > c.node.key then (if b - 1 > a then b - 1 else a)
    else -4
  }

  /** A node i links down the search path ends at most i / 2 + 2 links below the root. */
  lemma {:induction false} PathSinks(l: Lefts, c: Tree, r: Rights, key: real, i: nat) returns (d: nat)
    requires c.Bin? && i < |Path(c, key)|
    ensures 2 * d <= i + 4 + Room(l, c, r, key)
    ensures IsAt(Joined(Split(l, c, r, key)), Path(c, key)[i], d)
    decreases c, 1
  {
    if key < c.node.key {
      d := SinksRight(l, c, r, key, i);
    } else if key > c.node.key {
      d := SinksLeft(l, c, r, key, i);
    } else {
      d := 0;
    }
  }

  lemma {:induction false} SinksRight(l: Lefts, c: Tree, r: Rights, key: real, i: nat) returns (d: nat)
    requires c.Bin? && key < c.node.key && i < |Path(c, key)|
    ensures 2 * d <= i + 4 + Room(l, c, r, key)
    ensures IsAt(Joined(Split(l, c, r, key)), Path(c, key)[i], d)
    decreases c, 0
  {
    var n, p := RightsLength(r), Split(l, c, r, key);
    if c.left.Leaf? {
      d := 0;
    } else if key < c.left.node.key {
      var t := RotatedRight(c).right;
      if c.left.left.Leaf? {
        if i == 0 {
          d := n + 1;
          ClosedRights(r, t, c.node, n);
        } else {
          d := 0;
        }
      } else {
        var r' := AddRight(r, c.left.node, t);
        if i == 0 {
          d := n + 2;
          assert IsAt(t, c.node, 0);
          SplitKeeps(l, c.left.left, r', key, c.node, n + 1);
        } else if i == 1 {
          d := n + 1;
          SplitKeeps(l, c.left.left, r', key, c.left.node, n);
        } else {
          d := PathSinks(l, c.left.left, r', key, i - 2);
        }
      }
    } else {
      var r' := AddRight(r, c.node, c.right);
      if i == 0 {
        d := n + 1;
        SplitKeeps(l, c.left, r', key, c.node, n);
      } else {
        d := PathSinks(l, c.left, r', key, i - 1);
      }
    }
  }

  lemma {:induction false} SinksLeft(l: Lefts, c: Tree, r: Rights, key: real, i: nat) returns (d: nat)
    requires c.Bin? && key > c.node.key && i < |Path(c, key)|
    ensures 2 * d <= i + 4 + Room(l, c, r, key)
    ensures IsAt(Joined(Split(l, c, r, key)), Path(c, key)[i], d)
    decreases c, 0
  {
    var n, p := LeftsLength(l), Split(l, c, r, key);
    if c.right.Leaf? {
      d := 0;
    } else if key > c.right.node.key {
      var t := RotatedLeft(c).left;
      if c.right.right.Leaf? {
        if i == 0 {
          d := n + 1;
          ClosedLefts(l, t, c.node, n);
        } else {
          d := 0;
        }
      } else {
        var l' := AddLeft(l, t, c.right.node);
        if i == 0 {
          d := n + 2;
          assert IsAt(t, c.node, 0);
          SplitKeeps(l', c.right.right, r, key, c.node, n + 1);
        } else if i == 1 {
          d := n + 1;
          SplitKeeps(l', c.right.right, r, key, c.right.node, n);
        } else {
          d := PathSinks(l', c.right.right, r, key, i - 2);
        }
      }
    } else {
      var l' := AddLeft(l, c.left, c.node);
      if i == 0 {
        d := n + 1;
        SplitKeeps(l', c.right, r, key, c.node, n);
      } else {
        d := PathSinks(l', c.right, r, key, i - 1);
      }
    }
  }

  // ----- The whole splay -----

  ghost function Splayed(t: Tree, key: real): Tree
    requires t.Bin?
  {
    Joined(Split(NoLefts, t, NoRights, key))
  }

  /** Splaying halves the depth along the search path, up to two links. */
  lemma {:induction false} PathHalves(t: Tree, key: real, i: nat) returns (d: nat)
    requires t.Bin? && i < |Path(t, key)|
    ensures d <= i / 2 + 2 && IsAt(Splayed(t, key), Path(t, key)[i], d)
  {
    d := PathSinks(NoLefts, t, NoRights, key, i);
  }
}
