/** The growable collection in which the constraint planner keeps constraints, plans and work lists. */
module OrderedCollections {

  /** The elements of s that differ from x, in their order. */
  function Without<T(==)>(s: seq<T>, x: T): (r: seq<T>)
    ensures |r| <= |s|
    ensures x !in r
  {
    if s == [] then [] else
      var rest := Without(s[..|s| - 1], x);
      if s[|s| - 1] == x then rest else rest + [s[|s| - 1]]
  }

  /** Removing x takes every copy of x and nothing else. */
  lemma {:induction false} WithoutCounts<T>(s: seq<T>, x: T)
    ensures multiset(Without(s, x)) == multiset(s)[x := 0]
  {
    if s != [] {
      var n := |s| - 1;
      WithoutCounts(s[..n], x);
      assert s == s[..n] + [s[n]];
      assert multiset(s) == multiset(s[..n]) + multiset{s[n]};
    }
  }

  lemma {:induction false} WithoutKeeps<T>(s: seq<T>, x: T, y: T)
    ensures y in Without(s, x) <==> y in s && y != x
  {
    WithoutCounts(s, x);
    assert y in Without(s, x) <==> y in multiset(Without(s, x));
    assert y in s <==> y in multiset(s);
  }

  lemma {:induction false} WithoutNext<T>(s: seq<T>, x: T, i: nat)
    requires i < |s|
    ensures Without(s[..i + 1], x) == if s[i] == x then Without(s[..i], x) else Without(s[..i], x) + [s[i]]
  {
    assert s[..i + 1][..i] == s[..i];
  }

  class OrderedCollection<T(==)> {
    var elms: seq<T>

    constructor ()
      ensures elms == []
    {
      elms := [];
    }

    method Add(elm: T)
      modifies `elms
      ensures elms == old(elms) + [elm]
    {
      elms := elms + [elm];
    }

    /** Despite its name it takes the element added last. */
    method RemoveFirst() returns (elm: T)
      requires elms != []
      modifies `elms
      ensures old(elms) == elms + [elm]
    {
      elm := elms[|elms| - 1];
      elms := elms[..|elms| - 1];
    }

    /** Kept elements slide down over the removed ones, then the surplus is popped. */
    method Remove(elm: T)
      modifies `elms
      ensures elms == Without(old(elms), elm)
    {
      ghost var was := elms;
      var index, skipped := 0, 0;
      for i := 0 to |elms|
        invariant |elms| == |was| && index + skipped == i
        invariant forall k | i <= k < |was| :: elms[k] == was[k]
        invariant elms[..index] == Without(was[..i], elm)
      {
        var value := elms[i];
        WithoutNext(was, elm, i);
        if value != elm {
          ghost var kept := elms[..index];
          elms := elms[index := value];
          index := index + 1;
          assert elms[..index] == kept + [value];
        } else {
          skipped := skipped + 1;
        }
      }
      assert was[..|was|] == was;
      for i := 0 to skipped
        invariant |elms| == |was| - i
        invariant elms[..index] == Without(was, elm)
      {
        elms := elms[..|elms| - 1];
      }
    }
  }
}
