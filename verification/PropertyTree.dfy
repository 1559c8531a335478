/**
 The tree of dotted property paths that the client builds before it asks the
 platform for an entity, and the union operation on such trees.
 */
module PropertyTree {
  import opened DottedPaths

  /** A node of the tree: the plain names it holds (the `_values` entry of the
      dictionary the client builds) and one subtree for each leading component. */
  datatype Trie = Trie(values: set<string>, kids: map<string, Trie>)

  const EMPTY := Trie({}, map[])

  /******* What a tree stands for *******/

  /** The path can be read out of the tree. */
  predicate Reads(t: Trie, p: Path)
  {
    match p
    case One(name) => name in t.values
    case More(head, rest) => head in t.kids && Reads(t.kids[head], rest)
  }

  /** No subtree is empty. */
  ghost predicate Canonical(t: Trie)
  {
    forall k <- t.kids :: t.kids[k] != EMPTY && Canonical(t.kids[k])
  }

  /** `t` is the tree of exactly the listed paths. */
  ghost predicate Represents(t: Trie, props: seq<Path>)
  {
    Canonical(t) && forall p :: Reads(t, p) <==> p in props
  }

  lemma {:induction false} SomePath(t: Trie) returns (p: Path)
    requires Canonical(t) && t != EMPTY
    ensures Reads(t, p)
  {
    if t.values != {} {
      var v :| v in t.values;
      p := One(v);
    } else {
      assert t.kids != map[];
      var k :| k in t.kids;
      var rest := SomePath(t.kids[k]);
      p := More(k, rest);
    }
  }

  /** A tree is determined by the paths that can be read out of it. */
  lemma {:induction false} CanonicalUnique(t: Trie, u: Trie)
    requires Canonical(t) && Canonical(u)
    requires forall p :: Reads(t, p) <==> Reads(u, p)
    ensures t == u
  {
    assert t.values == u.values by {
      forall v ensures v in t.values <==> v in u.values {
        assert Reads(t, One(v)) <==> Reads(u, One(v));
      }
    }
    KidsIncluded(t, u);
    KidsIncluded(u, t);
    forall k | k in t.kids ensures t.kids[k] == u.kids[k] {
      forall r ensures Reads(t.kids[k], r) <==> Reads(u.kids[k], r) {
        assert Reads(t, More(k, r)) <==> Reads(u, More(k, r));
      }
      CanonicalUnique(t.kids[k], u.kids[k]);
    }
  }

  lemma KidsIncluded(t: Trie, u: Trie)
    requires Canonical(t) && Canonical(u)
    requires forall p :: Reads(t, p) ==> Reads(u, p)
    ensures t.kids.Keys <= u.kids.Keys
  {
    forall k | k in t.kids ensures k in u.kids {
      var r := SomePath(t.kids[k]);
      assert Reads(t, More(k, r));
    }
  }

  /** Two lists of paths give the same tree exactly when they hold the same
      paths, in any order and with any repeats. */
  lemma SameTreeIffSamePaths(t: Trie, u: Trie, l: seq<Path>, m: seq<Path>)
    requires Represents(t, l) && Represents(u, m)
    ensures t == u <==> (forall p :: p in l <==> p in m)
  {
    if forall p :: p in l <==> p in m {
      CanonicalUnique(t, u);
    }
    if t == u {
      forall p ensures p in l <==> p in m {
        assert Reads(t, p) <==> p in l;
        assert Reads(u, p) <==> p in m;
      }
    }
  }

  /******* Union of trees *******/

  function Kid(t: Trie, k: string): Trie
  {
    if k in t.kids then t.kids[k] else EMPTY
  }

  /** How many of the two trees hold anything: the first part of the measure
      under which merging terminates. */
  function Occupied(t: Trie, u: Trie): nat
  {
    (if t == EMPTY then 0 else 1) + (if u == EMPTY then 0 else 1)
  }

  function Merge(t: Trie, u: Trie): Trie
    decreases Occupied(t, u), t, u
  {
    Trie(t.values + u.values,
         map k | k in t.kids.Keys + u.kids.Keys :: Merge(Kid(t, k), Kid(u, k)))
  }

  lemma {:induction false} MergeIsUnion(t: Trie, u: Trie, p: Path)
    ensures Reads(Merge(t, u), p) <==> Reads(t, p) || Reads(u, p)
    decreases p
  {
    if p.More? {
      MergeIsUnion(Kid(t, p.head), Kid(u, p.head), p.rest);
      assert !Reads(EMPTY, p.rest);
    }
  }

  lemma {:induction false} MergeCanonical(t: Trie, u: Trie)
    requires Canonical(t) && Canonical(u)
    ensures Canonical(Merge(t, u))
    ensures Merge(t, u) == EMPTY ==> t == EMPTY && u == EMPTY
    decreases Occupied(t, u), t, u
  {
    var m := Merge(t, u);
    forall k | k in m.kids ensures m.kids[k] != EMPTY && Canonical(m.kids[k]) {
      MergeCanonical(Kid(t, k), Kid(u, k));
    }
    if m == EMPTY {
      assert t.kids.Keys <= m.kids.Keys && u.kids.Keys <= m.kids.Keys;
      assert t.kids == map[] && u.kids == map[];
    }
  }

  lemma {:induction false} MergeCommutes(t: Trie, u: Trie)
    ensures Merge(t, u) == Merge(u, t)
    decreases Occupied(t, u), t, u
  {
    forall k | k in t.kids.Keys + u.kids.Keys
      ensures Merge(Kid(t, k), Kid(u, k)) == Merge(Kid(u, k), Kid(t, k))
    {
      MergeCommutes(Kid(t, k), Kid(u, k));
    }
  }

  lemma {:induction false} MergeIdempotent(t: Trie)
    ensures Merge(t, t) == t
  {
    forall k | k in t.kids ensures Merge(t.kids[k], t.kids[k]) == t.kids[k] {
      MergeIdempotent(t.kids[k]);
    }
  }

  lemma {:induction false} MergeEmpty(t: Trie)
    ensures Merge(t, EMPTY) == t
  {
    forall k | k in t.kids ensures Merge(t.kids[k], EMPTY) == t.kids[k] {
      MergeEmpty(t.kids[k]);
    }
  }

  lemma MergeKid(t: Trie, u: Trie, k: string)
    ensures Kid(Merge(t, u), k) == Merge(Kid(t, k), Kid(u, k))
  {
    if k !in t.kids && k !in u.kids {
      assert Merge(EMPTY, EMPTY) == EMPTY;
    }
  }

  lemma SameTrie(t: Trie, u: Trie)
    requires t.values == u.values && t.kids.Keys == u.kids.Keys
    requires forall k <- t.kids :: Kid(t, k) == Kid(u, k)
    ensures t == u
  {
    assert forall k <- t.kids :: t.kids[k] == Kid(t, k) && u.kids[k] == Kid(u, k);
  }

  lemma {:induction false} MergeAssociates(t: Trie, u: Trie, v: Trie)
    ensures Merge(Merge(t, u), v) == Merge(t, Merge(u, v))
    decreases Occupied(t, u) + Occupied(v, EMPTY), t, u, v
  {
    var l, r := Merge(Merge(t, u), v), Merge(t, Merge(u, v));
    forall k | k in l.kids ensures Kid(l, k) == Kid(r, k) {
      MergeAssociatesAt(t, u, v, k);
    }
    SameTrie(l, r);
  }

  lemma {:induction false} MergeAssociatesAt(t: Trie, u: Trie, v: Trie, k: string)
    requires k in t.kids || k in u.kids || k in v.kids
    ensures Kid(Merge(Merge(t, u), v), k) == Kid(Merge(t, Merge(u, v)), k)
    decreases Occupied(t, u) + Occupied(v, EMPTY), t, u, v, 0
  {
    calc {
      Kid(Merge(Merge(t, u), v), k);
      { MergeKid(Merge(t, u), v, k); MergeKid(t, u, k); }
      Merge(Merge(Kid(t, k), Kid(u, k)), Kid(v, k));
      { MergeAssociates(Kid(t, k), Kid(u, k), Kid(v, k)); }
      Merge(Kid(t, k), Merge(Kid(u, k), Kid(v, k)));
      { MergeKid(u, v, k); MergeKid(t, Merge(u, v), k); }
      Kid(Merge(t, Merge(u, v)), k);
    }
  }

  /******* The tree of a list, as a plain fold *******/

  function Single(p: Path): Trie
  {
    match p
    case One(name) => Trie({name}, map[])
    case More(head, rest) => Trie({}, map[head := Single(rest)])
  }

  function TreeOf(props: seq<Path>): Trie
  {
    if props == [] then EMPTY else Merge(TreeOf(props[..|props| - 1]), Single(props[|props| - 1]))
  }

  lemma {:induction false} SingleRepresents(p: Path)
    ensures Represents(Single(p), [p]) && Single(p) != EMPTY
  {
    if p.More? {
      SingleRepresents(p.rest);
      assert p.head in Single(p).kids;
      forall q ensures Reads(Single(p), q) <==> q in [p] {
        if q.More? && q.head == p.head {
          assert Reads(Single(p.rest), q.rest) <==> q.rest in [p.rest];
        }
      }
    }
  }

  lemma {:induction false} TreeOfRepresents(props: seq<Path>)
    ensures Represents(TreeOf(props), props)
  {
    if props != [] {
      var init, last := props[..|props| - 1], props[|props| - 1];
      assert props == init + [last];
      TreeOfRepresents(init);
      SingleRepresents(last);
      MergeCanonical(TreeOf(init), Single(last));
      forall p ensures Reads(TreeOf(props), p) <==> p in props {
        MergeIsUnion(TreeOf(init), Single(last), p);
      }
    }
  }

  lemma RepresentsUnique(t: Trie, props: seq<Path>)
    requires Represents(t, props)
    ensures t == TreeOf(props)
  {
    TreeOfRepresents(props);
    SameTreeIffSamePaths(t, TreeOf(props), props, props);
  }

  /******* The two builders *******/

  ghost predicate MergedSoFar(d1: Trie, d2: Trie, kids: map<string, Trie>)
  {
    forall k <- kids :: kids[k] == Merge(Kid(d1, k), Kid(d2, k))
  }

  lemma MergedOneWay(d1: Trie, d2: Trie, m: map<string, Trie>, n: map<string, Trie>)
    requires MergedSoFar(d1, d2, m) && MergedSoFar(d1, d2, n) && m.Keys == n.Keys
    ensures m == n
  {
    forall k | k in m ensures m[k] == n[k] {
      assert m[k] == Merge(Kid(d1, k), Kid(d2, k));
    }
  }

  lemma MergeShape(t: Trie, u: Trie)
    ensures Merge(t, u).values == t.values + u.values
    ensures Merge(t, u).kids.Keys == t.kids.Keys + u.kids.Keys
    ensures MergedSoFar(t, u, Merge(t, u).kids)
  {
  }

  /** `_merge_props_dicts`: walks the joint key set and merges key by key. */
  method MergeProps(d1: Trie, d2: Trie) returns (merged: Trie)
    ensures merged == Merge(d1, d2)
    decreases Occupied(d1, d2), d1, d2
  {
    var keys := d1.kids.Keys + d2.kids.Keys;
    var kids: map<string, Trie> := map[];
    while keys != {}
      invariant keys <= d1.kids.Keys + d2.kids.Keys
      invariant kids.Keys == d1.kids.Keys + d2.kids.Keys - keys
      invariant MergedSoFar(d1, d2, kids)
      decreases keys
    {
      var key :| key in keys;
      var sub := MergeProps(Kid(d1, key), Kid(d2, key));
      kids := kids[key := sub];
      keys := keys - {key};
    }
    merged := Trie(d1.values + d2.values, kids);
    MergeShape(d1, d2);
    MergedOneWay(d1, d2, kids, Merge(d1, d2).kids);
  }

  /** The dictionary key that is reserved for the plain names. */
  const RESERVED := "_values"

  /** Some component other than the last is the reserved key. */
  predicate UsesReserved(p: Path)
  {
    p.More? && (p.head == RESERVED || UsesReserved(p.rest))
  }

  function Components(p: Path): nat
  {
    match p case One(_) => 1 case More(_, rest) => 1 + Components(rest)
  }

  function Longest(props: seq<Path>): nat
  {
    if props == [] then 0
    else if Components(props[0]) > Longest(props[1..]) then Components(props[0]) else Longest(props[1..])
  }

  lemma {:induction false} LongestBounds(props: seq<Path>, i: nat)
    requires i < |props|
    ensures Components(props[i]) <= Longest(props)
    ensures props[i].More? ==> Longest([props[i].rest]) < Longest(props)
  {
    if i > 0 { LongestBounds(props[1..], i - 1); }
  }

  /** `_convert_props_list_to_dict`: plain names first, then every dotted path is
      turned into a tree of its own and merged under its first component. */
  method ConvertProps(props: seq<Path>) returns (tree: Trie)
    requires forall p <- props :: !UsesReserved(p)
    ensures Represents(tree, props) && tree == TreeOf(props)
    ensures props != [] ==> tree != EMPTY
    decreases Longest(props)
  {
    tree := Trie(set p | p in props && p.One? :: p.name, map[]);
    for i := 0 to |props|
      invariant ReadsSoFar(tree, props, i)
    {
      match props[i]
      case One(_) =>
        ReadsSkip(tree, props, i);
      case More(head, rest) =>
        LongestBounds(props, i);
        assert !UsesReserved(props[i]);
        var sub := ConvertProps([rest]);
        var merged := MergeProps(Kid(tree, head), sub);
        ReadsOneMore(tree, props, i, sub);
        tree := Insert(tree, head, merged);
    }
    ReadsAll(tree, props);
    RepresentsUnique(tree, props);
  }

  /** The loop of the builder: the plain names are all in, the dotted paths up to `i`. */
  ghost predicate ReadsSoFar(t: Trie, props: seq<Path>, i: nat)
    requires i <= |props|
  {
    Canonical(t) && forall p :: Reads(t, p) <==> if p.More? then p in props[..i] else p in props
  }

  lemma ReadsAll(t: Trie, props: seq<Path>)
    requires ReadsSoFar(t, props, |props|)
    ensures Represents(t, props)
    ensures props != [] ==> t != EMPTY
  {
    assert props[..|props|] == props;
    if props != [] {
      assert Reads(t, props[0]);
    }
  }

  lemma ReadsSkip(t: Trie, props: seq<Path>, i: nat)
    requires i < |props| && props[i].One? && ReadsSoFar(t, props, i)
    ensures ReadsSoFar(t, props, i + 1)
  {
    assert props[..i + 1] == props[..i] + [props[i]];
  }

  lemma ReadsOneMore(t: Trie, props: seq<Path>, i: nat, sub: Trie)
    requires i < |props| && props[i].More? && ReadsSoFar(t, props, i)
    requires Represents(sub, [props[i].rest]) && sub != EMPTY
    ensures ReadsSoFar(Insert(t, props[i].head, Merge(Kid(t, props[i].head), sub)), props, i + 1)
  {
    InsertSubtree(t, props[i], sub);
    ReadsGrow(t, Insert(t, props[i].head, Merge(Kid(t, props[i].head), sub)), props, i);
  }

  lemma ReadsGrow(t: Trie, after: Trie, props: seq<Path>, i: nat)
    requires i < |props| && props[i].More? && ReadsSoFar(t, props, i)
    requires Canonical(after) && forall p :: Reads(after, p) <==> Reads(t, p) || p == props[i]
    ensures ReadsSoFar(after, props, i + 1)
  {
    assert props[..i + 1] == props[..i] + [props[i]];
  }

  function Insert(t: Trie, key: string, sub: Trie): Trie
  {
    Trie(t.values, t.kids[key := sub])
  }

  lemma InsertCanonical(before: Trie, key: string, sub: Trie)
    requires Canonical(before) && Canonical(sub) && sub != EMPTY
    ensures Canonical(Insert(before, key, Merge(Kid(before, key), sub)))
  {
    MergeCanonical(Kid(before, key), sub);
  }

  lemma InsertReads(before: Trie, item: Path, sub: Trie, p: Path)
    requires item.More? && Represents(sub, [item.rest])
    ensures Reads(Insert(before, item.head, Merge(Kid(before, item.head), sub)), p)
       <==> Reads(before, p) || p == item
  {
    if p.More? && p.head == item.head {
      MergeIsUnion(Kid(before, item.head), sub, p.rest);
      assert Reads(sub, p.rest) <==> p.rest in [item.rest];
      assert p == item <==> p.rest == item.rest;
      assert !Reads(EMPTY, p.rest);
    }
  }

  lemma InsertSubtree(before: Trie, item: Path, sub: Trie)
    requires Canonical(before) && item.More? && Represents(sub, [item.rest]) && sub != EMPTY
    ensures var after := Insert(before, item.head, Merge(Kid(before, item.head), sub));
            Canonical(after) && forall p :: Reads(after, p) <==> Reads(before, p) || p == item
  {
    InsertCanonical(before, item.head, sub);
    forall p {
      InsertReads(before, item, sub, p);
    }
  }
}
