/** Lists as sets: no repeats, the elements, and how many there are. */
module Lists {
  predicate Distinct<T(==)>(list: seq<T>)
  {
    forall i, j :: 0 <= i < j < |list| ==> list[i] != list[j]
  }

  function AsSet<T(==)>(list: seq<T>): set<T> { set x | x in list }

  lemma {:induction false} SizeOfDistinct<T>(list: seq<T>)
    requires Distinct(list)
    ensures |AsSet(list)| == |list|
  {
    if list != [] {
      SizeOfDistinct(list[1..]);
      assert AsSet(list) == {list[0]} + AsSet(list[1..]);
    }
  }

  lemma {:induction false} SubsetSize<T>(a: set<T>, b: set<T>)
    requires a <= b
    ensures |a| <= |b| && (|a| == |b| ==> a == b)
  {
    if a != {} {
      var x :| x in a;
      SubsetSize(a - {x}, b - {x});
      assert a == (a - {x}) + {x} && b == (b - {x}) + {x};
    }
  }

  /******* Sublists *******/

  /** The positions of the elements to keep, in order. */
  ghost predicate Picks<T(!new)>(list: seq<T>, keep: T -> bool, at: seq<nat>)
  {
    && (forall i, j :: 0 <= i < j < |at| ==> at[i] < at[j])
    && (forall i :: 0 <= i < |at| ==> at[i] < |list| && keep(list[at[i]]))
    && (forall k :: 0 <= k < |list| && keep(list[k]) ==> k in at)
  }

  ghost predicate PicksAre<T(!new)>(list: seq<T>, keep: T -> bool, sub: seq<T>, at: seq<nat>)
  {
    && Picks(list, keep, at) && |sub| == |at|
    && forall i :: 0 <= i < |at| ==> sub[i] == list[at[i]]
  }

  /** The second list has exactly the elements of the first that are kept, each as
      often as it stands there and in their order. */
  ghost predicate IsSublist<T(!new)>(list: seq<T>, keep: T -> bool, sub: seq<T>)
  {
    exists at :: PicksAre(list, keep, sub, at)
  }

  lemma EmptySublist<T(!new)>(keep: T -> bool)
    ensures IsSublist([], keep, [])
  {
    assert PicksAre([], keep, [], []);
  }

  lemma PicksOneMore<T(!new)>(list: seq<T>, keep: T -> bool, at: seq<nat>)
    requires list != [] && Picks(list[..|list| - 1], keep, at)
    ensures keep(list[|list| - 1]) ==> Picks(list, keep, at + [|list| - 1])
    ensures !keep(list[|list| - 1]) ==> Picks(list, keep, at)
  {
    var n := |list| - 1;
    forall k | 0 <= k < n && keep(list[k]) ensures k in at {
      assert list[..n][k] == list[k];
    }
    if keep(list[n]) {
      var more := at + [n];
      forall k | 0 <= k <= n && keep(list[k]) ensures k in more {
        if k == n { assert more[|at|] == k; }
      }
    }
  }

  /** The sublist of one element more. */
  lemma SublistOfMore<T(!new)>(list: seq<T>, keep: T -> bool, sub: seq<T>, more: seq<T>)
    requires list != [] && IsSublist(list[..|list| - 1], keep, sub)
    requires more == if keep(list[|list| - 1]) then sub + [list[|list| - 1]] else sub
    ensures IsSublist(list, keep, more)
  {
    var at: seq<nat> :| PicksAre(list[..|list| - 1], keep, sub, at);
    PicksOneMore(list, keep, at);
    if keep(list[|list| - 1]) {
      assert PicksAre(list, keep, more, at + [|list| - 1]);
    } else {
      assert PicksAre(list, keep, more, at);
    }
  }
}
