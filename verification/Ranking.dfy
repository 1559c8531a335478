/**
 Ordering items by a key, greatest first, equal keys in the order they were
 found: what a stable descending sort in place leaves in the list.
 */
module Ranking {

  function Insert<T(!new)>(s: seq<T>, c: T, key: T -> real): (r: seq<T>)
    ensures |r| == |s| + 1
    ensures forall x :: x in r <==> x in s || x == c
  {
    if s == [] then [c]
    else if key(s[0]) >= key(c) then [s[0]] + Insert(s[1..], c, key)
    else [c] + s
  }

  function Sort<T(!new)>(s: seq<T>, key: T -> real): (r: seq<T>)
    ensures |r| == |s|
  {
    if s == [] then [] else Insert(Sort(s[..|s| - 1], key), s[|s| - 1], key)
  }

  predicate Descending<T(!new)>(s: seq<T>, key: T -> real)
  {
    forall i, j :: 0 <= i < j < |s| ==> key(s[i]) >= key(s[j])
  }

  /** The items of one key, in their order. */
  function Rated<T(!new)>(s: seq<T>, key: T -> real, rating: real): seq<T>
  {
    if s == [] then []
    else Rated(s[..|s| - 1], key, rating) + if key(s[|s| - 1]) == rating then [s[|s| - 1]] else []
  }

  lemma {:induction false} InsertDescending<T(!new)>(s: seq<T>, c: T, key: T -> real)
    requires Descending(s, key)
    ensures Descending(Insert(s, c, key), key)
  {
    if s != [] && key(s[0]) >= key(c) {
      var r := Insert(s[1..], c, key);
      InsertDescending(s[1..], c, key);
      forall j | 0 <= j < |r| ensures key(s[0]) >= key(r[j]) {
        assert r[j] in s[1..] || r[j] == c;
      }
    }
  }

  lemma {:induction false} InsertMultiset<T(!new)>(s: seq<T>, c: T, key: T -> real)
    ensures multiset(Insert(s, c, key)) == multiset(s) + multiset{c}
  {
    if s != [] {
      InsertMultiset(s[1..], c, key);
      assert s == [s[0]] + s[1..];
    }
  }

  /** The sorted list is a descending permutation. */
  lemma {:induction false} SortDescending<T(!new)>(s: seq<T>, key: T -> real)
    ensures Descending(Sort(s, key), key) && multiset(Sort(s, key)) == multiset(s)
  {
    if s != [] {
      var init, c := s[..|s| - 1], s[|s| - 1];
      SortDescending(init, key);
      InsertDescending(Sort(init, key), c, key);
      InsertMultiset(Sort(init, key), c, key);
      assert s == init + [c];
    }
  }

  lemma SortMembers<T(!new)>(s: seq<T>, key: T -> real, x: T)
    ensures x in Sort(s, key) <==> x in s
  {
    SortDescending(s, key);
    assert x in multiset(s) <==> x in multiset(Sort(s, key));
  }

  lemma {:induction false} RatedAppend<T(!new)>(a: seq<T>, b: seq<T>, key: T -> real, rating: real)
    ensures Rated(a + b, key, rating) == Rated(a, key, rating) + Rated(b, key, rating)
  {
    if b == [] {
      assert a + b == a;
    } else {
      assert (a + b)[..|a + b| - 1] == a + b[..|b| - 1];
      RatedAppend(a, b[..|b| - 1], key, rating);
    }
  }

  lemma {:induction false} RatedNone<T(!new)>(s: seq<T>, key: T -> real, rating: real)
    requires forall c <- s :: key(c) != rating
    ensures Rated(s, key, rating) == []
  {
    if s != [] { RatedNone(s[..|s| - 1], key, rating); }
  }

  lemma Associate<T>(a: seq<T>, b: seq<T>, c: seq<T>)
    ensures a + (b + c) == a + b + c
  {
  }

  lemma {:induction false} InsertStable<T(!new)>(s: seq<T>, c: T, key: T -> real, rating: real)
    requires Descending(s, key)
    ensures Rated(Insert(s, c, key), key, rating) == Rated(s, key, rating) + Rated([c], key, rating)
  {
    if s == [] {
    } else if key(s[0]) >= key(c) {
      var first, rest := [s[0]], s[1..];
      calc {
        Rated(Insert(s, c, key), key, rating);
        { RatedAppend(first, Insert(rest, c, key), key, rating); }
        Rated(first, key, rating) + Rated(Insert(rest, c, key), key, rating);
        { InsertStable(rest, c, key, rating); }
        Rated(first, key, rating) + (Rated(rest, key, rating) + Rated([c], key, rating));
        { Associate(Rated(first, key, rating), Rated(rest, key, rating), Rated([c], key, rating)); }
        (Rated(first, key, rating) + Rated(rest, key, rating)) + Rated([c], key, rating);
        { RatedAppend(first, rest, key, rating); assert s == first + rest; }
        Rated(s, key, rating) + Rated([c], key, rating);
      }
    } else {
      RatedAppend([c], s, key, rating);
      if rating == key(c) {
        RatedNone(s, key, rating);
      } else {
        RatedNone([c], key, rating);
      }
    }
  }

  /** Items of equal key keep the order they came in. */
  lemma {:induction false} SortStable<T(!new)>(s: seq<T>, key: T -> real, rating: real)
    ensures Rated(Sort(s, key), key, rating) == Rated(s, key, rating)
  {
    if s != [] {
      var init, c := s[..|s| - 1], s[|s| - 1];
      SortStable(init, key, rating);
      SortDescending(init, key);
      InsertStable(Sort(init, key), c, key, rating);
      RatedAppend(init, [c], key, rating);
      assert s == init + [c];
    }
  }
}
