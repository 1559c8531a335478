/** A list with the elements of one kind moved to the front, all in their order. */
module Partition {
  function Having<T>(list: seq<T>, p: T -> bool): seq<T>
  {
    if list == [] then []
    else
      var last := list[|list| - 1];
      Having(list[..|list| - 1], p) + if p(last) then [last] else []
  }

  function Lacking<T>(list: seq<T>, p: T -> bool): seq<T>
  {
    if list == [] then []
    else
      var last := list[|list| - 1];
      Lacking(list[..|list| - 1], p) + if p(last) then [] else [last]
  }

  function Front<T>(list: seq<T>, p: T -> bool): seq<T> { Having(list, p) + Lacking(list, p) }

  function Mapped<T>(list: seq<T>, f: T -> T): (r: seq<T>)
    ensures |r| == |list| && forall i :: 0 <= i < |r| ==> r[i] == f(list[i])
  {
    if list == [] then [] else Mapped(list[..|list| - 1], f) + [f(list[|list| - 1])]
  }

  lemma PartsStep<T>(list: seq<T>, p: T -> bool, i: nat)
    requires i < |list|
    ensures var having, lacking := Having(list[..i], p), Lacking(list[..i], p);
            if p(list[i]) then Having(list[..i + 1], p) == having + [list[i]] && Lacking(list[..i + 1], p) == lacking
            else Having(list[..i + 1], p) == having && Lacking(list[..i + 1], p) == lacking + [list[i]]
  {
    assert list[..i + 1][..i] == list[..i];
  }

  lemma {:induction false} PartsHave<T>(list: seq<T>, p: T -> bool)
    ensures forall x <- Having(list, p) :: x in list && p(x)
    ensures forall x <- Lacking(list, p) :: x in list && !p(x)
  {
    if list != [] {
      PartsHave(list[..|list| - 1], p);
    }
  }

  lemma {:induction false} OfConcatenation<T>(a: seq<T>, b: seq<T>, p: T -> bool)
    ensures Having(a + b, p) == Having(a, p) + Having(b, p)
    ensures Lacking(a + b, p) == Lacking(a, p) + Lacking(b, p)
  {
    if b == [] {
      assert a + b == a;
    } else {
      OfConcatenation(a, b[..|b| - 1], p);
      assert (a + b)[..|a + b| - 1] == a + b[..|b| - 1];
    }
  }

  lemma {:induction false} AllHave<T>(list: seq<T>, p: T -> bool)
    requires forall x <- list :: p(x)
    ensures Having(list, p) == list && Lacking(list, p) == []
  {
    if list != [] {
      AllHave(list[..|list| - 1], p);
    }
  }

  lemma {:induction false} NoneHave<T>(list: seq<T>, p: T -> bool)
    requires forall x <- list :: !p(x)
    ensures Having(list, p) == [] && Lacking(list, p) == list
  {
    if list != [] {
      NoneHave(list[..|list| - 1], p);
    }
  }

  lemma HavingGrows<T>(list: seq<T>, p: T -> bool, i: nat)
    requires i <= |list|
    ensures |Having(list[..i], p)| <= |Having(list, p)|
  {
    OfConcatenation(list[..i], list[i..], p);
    assert list[..i] + list[i..] == list;
  }

  lemma {:induction false} HavingMapped<T>(list: seq<T>, f: T -> T, p: T -> bool)
    requires forall x <- list :: p(f(x)) == p(x)
    ensures |Having(Mapped(list, f), p)| == |Having(list, p)|
  {
    if list != [] {
      HavingMapped(list[..|list| - 1], f, p);
      assert Mapped(list, f)[..|list| - 1] == Mapped(list[..|list| - 1], f);
    }
  }

  lemma {:induction false} SameElements<T>(list: seq<T>, p: T -> bool)
    ensures multiset(Front(list, p)) == multiset(list)
  {
    if list != [] {
      SameElements(list[..|list| - 1], p);
      assert list == list[..|list| - 1] + [list[|list| - 1]];
    }
  }

  lemma MovedStep<T>(having: seq<T>, lacking: seq<T>, x: T)
    ensures |having + [x]| <= 1 ==> having + [x] + lacking == [x] + (having + lacking)
    ensures having + (lacking + [x]) == having + lacking + [x]
  {
  }

  /** Where at most one is of the kind, putting it before and the others behind
      what is there builds the list with that one in front. */
  lemma FrontStep<T>(list: seq<T>, p: T -> bool, i: nat)
    requires i < |list| && |Having(list, p)| <= 1
    ensures Front(list[..i + 1], p)
         == if p(list[i]) then [list[i]] + Front(list[..i], p) else Front(list[..i], p) + [list[i]]
  {
    var having, lacking := Having(list[..i], p), Lacking(list[..i], p);
    HavingGrows(list, p, i + 1);
    PartsStep(list, p, i);
    MovedStep(having, lacking, list[i]);
    assert Front(list[..i], p) == having + lacking;
  }

  lemma FrontShape<T>(list: seq<T>, p: T -> bool)
    requires |Having(list, p)| <= 1
    ensures |Front(list, p)| == |list|
    ensures forall i :: 0 < i < |list| ==> !p(Front(list, p)[i])
  {
    var having, lacking := Having(list, p), Lacking(list, p);
    PartsHave(list, p);
    LengthOfParts(list, p);
    forall i | 0 < i < |list| ensures !p((having + lacking)[i]) {
      assert (having + lacking)[i] == lacking[i - |having|];
    }
  }

  lemma {:induction false} LengthOfParts<T>(list: seq<T>, p: T -> bool)
    ensures |Having(list, p)| + |Lacking(list, p)| == |list|
  {
    if list != [] {
      LengthOfParts(list[..|list| - 1], p);
    }
  }

  lemma FrontTwice<T>(list: seq<T>, p: T -> bool)
    ensures Having(Front(list, p), p) == Having(list, p)
    ensures Front(Front(list, p), p) == Front(list, p)
  {
    var having, lacking := Having(list, p), Lacking(list, p);
    PartsHave(list, p);
    AllHave(having, p);
    NoneHave(lacking, p);
    OfConcatenation(having, lacking, p);
    assert having + [] == having && [] + lacking == lacking;
  }

  lemma CountStep<T>(list: seq<T>, x: T, q: T -> bool)
    ensures |Having(list + [x], q)| == |Having(list, q)| + if q(x) then 1 else 0
  {
    assert (list + [x])[..|list|] == list;
  }

  /** Moving some to the front does not change how many are of another kind. */
  lemma {:induction false} SameCountInFront<T>(list: seq<T>, p: T -> bool, q: T -> bool)
    ensures |Having(Front(list, p), q)| == |Having(list, q)|
  {
    if list != [] {
      var init, x := list[..|list| - 1], list[|list| - 1];
      var having, lacking := Having(init, p), Lacking(init, p);
      SameCountInFront(init, p, q);
      CountStep(having, x, q);
      CountStep(lacking, x, q);
      OfConcatenation(having, lacking, q);
      OfConcatenation(Having(list, p), Lacking(list, p), q);
      assert having + [] == having && lacking + [] == lacking;
    }
  }

  lemma {:induction false} SomeHave<T>(list: seq<T>, p: T -> bool)
    ensures Having(list, p) != [] <==> exists i :: 0 <= i < |list| && p(list[i])
  {
    if list != [] {
      var init := list[..|list| - 1];
      SomeHave(init, p);
      if i :| 0 <= i < |init| && p(init[i]) {
        assert p(list[i]);
      }
      if i :| 0 <= i < |list| && p(list[i]) && i < |init| {
        assert p(init[i]);
      }
    }
  }

  /** More than one is counted exactly when two of them are of the kind. */
  lemma {:induction false} TwoHave<T>(list: seq<T>, p: T -> bool)
    ensures |Having(list, p)| > 1 <==> exists i, j :: 0 <= i < j < |list| && p(list[i]) && p(list[j])
  {
    if list != [] {
      var init, n := list[..|list| - 1], |list| - 1;
      SomeHave(init, p);
      TwoHave(init, p);
      if i, j :| 0 <= i < j < n && p(init[i]) && p(init[j]) {
        assert p(list[i]) && p(list[j]);
      }
      if i :| 0 <= i < n && p(init[i]) && p(list[n]) {
        assert p(list[i]);
      }
      if i, j :| 0 <= i < j < |list| && p(list[i]) && p(list[j]) {
        assert p(init[i]) && (j < n ==> p(init[j]));
      }
    }
  }

  lemma FrontWithout<T>(list: seq<T>, p: T -> bool)
    requires list != [] && !p(list[|list| - 1])
    ensures Front(list, p) == Front(list[..|list| - 1], p) + [list[|list| - 1]]
    ensures Having(list, p) == Having(list[..|list| - 1], p)
  {
    var having, lacking, x := Having(list[..|list| - 1], p), Lacking(list[..|list| - 1], p), list[|list| - 1];
    assert having + [] == having;
    assert having + (lacking + [x]) == having + lacking + [x];
  }

  lemma FrontOnly<T>(list: seq<T>, p: T -> bool)
    requires list != [] && p(list[|list| - 1]) && |Having(list, p)| <= 1
    ensures Having(list[..|list| - 1], p) == []
    ensures Front(list, p) == [list[|list| - 1]] + list[..|list| - 1]
  {
    var init := list[..|list| - 1];
    SomeHave(init, p);
    forall x | x in init ensures !p(x) {
      var i :| 0 <= i < |init| && init[i] == x;
    }
    NoneHave(init, p);
  }

  lemma NoneBefore<T>(list: seq<T>, p: T -> bool)
    requires list != [] && Having(list[..|list| - 1], p) == []
    ensures forall i :: 0 <= i < |list| - 1 ==> !p(list[i])
  {
    var init := list[..|list| - 1];
    SomeHave(init, p);
    forall i | 0 <= i < |list| - 1 ensures !p(list[i]) {
      assert init[i] == list[i];
    }
  }

  /** The one of the kind is in front, those before it move on by one place, and
      those behind it stay where they are. */
  lemma {:induction false} FrontAt<T>(list: seq<T>, p: T -> bool, e: nat)
    requires |Having(list, p)| <= 1 && e < |list| && p(list[e])
    ensures |Front(list, p)| == |list| && Front(list, p)[0] == list[e]
    ensures forall i :: 0 <= i < e ==> Front(list, p)[i + 1] == list[i]
    ensures forall i :: e < i < |list| ==> Front(list, p)[i] == list[i]
  {
    var init, n := list[..|list| - 1], |list| - 1;
    if p(list[n]) {
      FrontOnly(list, p);
      NoneBefore(list, p);
    } else {
      FrontWithout(list, p);
      assert init[e] == list[e];
      FrontAt(init, p, e);
    }
  }

  /** The same for a list each of whose elements is replaced by one of its kind. */
  lemma FrontMappedAt<T>(list: seq<T>, f: T -> T, p: T -> bool, e: nat)
    requires forall x <- list :: p(f(x)) == p(x)
    requires |Having(list, p)| <= 1 && e < |list| && p(list[e])
    ensures |Front(Mapped(list, f), p)| == |list| && Front(Mapped(list, f), p)[0] == f(list[e])
    ensures forall i :: 0 <= i < e ==> Front(Mapped(list, f), p)[i + 1] == f(list[i])
    ensures forall i :: e < i < |list| ==> Front(Mapped(list, f), p)[i] == f(list[i])
  {
    HavingMapped(list, f, p);
    assert list[e] in list;
    FrontAt(Mapped(list, f), p, e);
  }

  lemma FrontMappedNone<T>(list: seq<T>, f: T -> T, p: T -> bool)
    requires forall x <- list :: !p(f(x))
    ensures Front(Mapped(list, f), p) == Mapped(list, f)
  {
    var c := Mapped(list, f);
    forall x | x in c ensures !p(x) {
      var i :| 0 <= i < |c| && c[i] == x;
      assert list[i] in list;
    }
    NoneHave(c, p);
    assert [] + c == c;
  }
}
