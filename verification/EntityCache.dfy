/**
 Rebuilding nested entities from the platform's flat property map, linking
 them by id to entities already cached, and caching the result by entity name.
 */
module EntityCache {
  import opened Lists
  import opened Results
  import opened DottedPaths
  import opened PropertyTree

  type Id = string

  /** A property value as the platform delivers it. */
  datatype Value = Text(text: string) | Scalar(number: int) | Ref(id: Id) | Refs(ids: seq<Id>)

  /** What a field of a rebuilt object holds. */
  datatype Field =
    | Leaf(value: Value)
    | Nested(fields: map<string, Field>)
    | Link(entity: Entity)
    | Links(entities: seq<Entity>)

  datatype Entity = Entity(id: Id, fields: map<string, Field>)

  type Flat = map<Path, Value>

  /******* The part of the flat map below one component *******/

  /** `sub` holds exactly the entries of `flat` below `key`, with `key` cut off. */
  ghost predicate IsSub(sub: Flat, flat: Flat, key: string)
  {
    && (forall r {:trigger r in sub} {:trigger More(key, r)} :: r in sub <==> More(key, r) in flat)
    && (forall r {:trigger sub[r]} | r in sub :: sub[r] == flat[More(key, r)])
  }

  lemma SubStep(sub: Flat, done: Flat, p: Path, v: Value, key: string)
    requires p !in done && IsSub(sub, done, key)
    ensures IsSub(if p.More? && p.head == key then sub[p.rest := v] else sub, done[p := v], key)
  {
  }

  /** `_get_platform_sub_results`; a plain key equal to the component has no
      second part to index, which is an IndexError in Python. */
  method GetSubResults(flat: Flat, key: string) returns (r: Result<Flat, BuildError>)
    ensures r.Success? <==> One(key) !in flat
    ensures r.Success? ==> IsSub(r.value, flat, key)
    ensures r.Failure? ==> r.error == NoSecondComponent
  {
    var todo := flat.Keys;
    var sub: Flat := map[];
    while todo != {}
      invariant todo <= flat.Keys
      invariant One(key) in flat ==> One(key) in todo
      invariant IsSub(sub, flat - todo, key)
      decreases todo
    {
      var p :| p in todo;
      SubAdvance(sub, flat, todo, p, key);
      todo := todo - {p};
      match p
      case One(name) =>
        if name == key {
          return Failure(NoSecondComponent);
        }
      case More(head, rest) =>
        if head == key {
          sub := sub[rest := flat[p]];
        }
    }
    SubDone(sub, flat, todo, key);
    return Success(sub);
  }

  lemma SubAdvance(sub: Flat, flat: Flat, todo: set<Path>, p: Path, key: string)
    requires todo <= flat.Keys && p in todo && IsSub(sub, flat - todo, key)
    ensures IsSub(if p.More? && p.head == key then sub[p.rest := flat[p]] else sub, flat - (todo - {p}), key)
  {
    SubStep(sub, flat - todo, p, flat[p], key);
    assert (flat - todo)[p := flat[p]] == flat - (todo - {p});
  }

  lemma SubDone(sub: Flat, flat: Flat, todo: set<Path>, key: string)
    requires todo == {} && IsSub(sub, flat - todo, key)
    ensures IsSub(sub, flat, key)
  {
    assert flat - todo == flat;
  }

  /******* When and what the build delivers *******/

  /** KeyError, IndexError, and the OperationRetry of a reference that cannot be resolved. */
  datatype BuildError = MissingProperty(key: string) | NoSecondComponent | PlatformChanged(mapping: string)

  /** No key of the flat map stands above the path: such a key has no second
      part to index when the path's subtree is built. */
  predicate Clear(flat: Flat, p: Path)
  {
    forall q <- flat.Keys :: !Below(p, q)
  }

  /** Every requested path is present. */
  ghost predicate AllPresent(t: Trie, flat: Flat)
  {
    forall p :: Reads(t, p) ==> p in flat
  }

  ghost predicate AllClear(t: Trie, flat: Flat)
  {
    forall p :: Reads(t, p) ==> Clear(flat, p)
  }

  function Last(p: Path): string
  {
    match p case One(name) => name case More(_, rest) => Last(rest)
  }

  /** It is what follows the last dot of the text. */
  lemma {:induction false} LastIsAfterTheDots(p: Path)
    requires Plain(p)
    ensures '.' !in Last(p)
    ensures Print(p) == Last(p) || exists front :: Print(p) == front + "." + Last(p)
  {
    if p.More? {
      LastIsAfterTheDots(p.rest);
      if Print(p.rest) == Last(p.rest) {
        assert Print(p) == p.head + "." + Last(p);
      } else {
        var front :| Print(p.rest) == front + "." + Last(p.rest);
        assert Print(p) == (p.head + "." + front) + "." + Last(p);
      }
    }
  }

  /** `name` is a component other than the last. */
  predicate NameInside(p: Path)
  {
    p.More? && (p.head == "name" || NameInside(p.rest))
  }

  /** `name` is text wherever it is requested, and never a nested object:
      otherwise the call of `unquote` breaks. */
  ghost predicate WellNamed(t: Trie, flat: Flat)
  {
    forall p :: Reads(t, p) ==> !NameInside(p) && (Last(p) == "name" && p in flat ==> flat[p].Text?)
  }

  /** The flat value, with text under `name` in its normal form. */
  function Delivered(norm: string -> string, p: Path, v: Value): Value
  {
    if Last(p) == "name" && v.Text? then Text(norm(v.text)) else v
  }

  /** Following a path of attribute names. */
  function Walk(fields: map<string, Field>, p: Path): Option<Field>
    decreases p
  {
    match p
    case One(name) => if name in fields then Some(fields[name]) else None
    case More(head, rest) =>
      if head in fields && fields[head].Nested? then Walk(fields[head].fields, rest) else None
  }

  /** Walking the object along the requested paths gives the flat map's values,
      and there is no leaf on any other path. */
  ghost predicate Agrees(fields: map<string, Field>, t: Trie, flat: Flat, norm: string -> string)
  {
    && (forall p :: Reads(t, p) ==> p in flat && Walk(fields, p) == Some(Leaf(Delivered(norm, p, flat[p]))))
    && (forall p :: Walk(fields, p).Some? && Walk(fields, p).value.Leaf? ==> Reads(t, p))
  }

  /******* The build *******/

  /** Text in a field called `name` is brought to its normal form. */
  function Named(norm: string -> string, fields: map<string, Field>): (r: map<string, Field>)
    ensures r.Keys == fields.Keys
    ensures forall n <- fields :: n != "name" ==> r[n] == fields[n]
  {
    if "name" in fields && fields["name"].Leaf? && fields["name"].value.Text?
    then fields["name" := Leaf(Text(norm(fields["name"].value.text)))]
    else fields
  }

  /** The fields for the plain names of one level. */
  ghost predicate ValuesCopied(fields: map<string, Field>, t: Trie, flat: Flat)
  {
    fields.Keys == t.values && forall v <- fields :: One(v) in flat && fields[v] == Leaf(flat[One(v)])
  }

  /** The loop over the plain names. */
  method CopyValues(t: Trie, flat: Flat) returns (r: Result<map<string, Field>, BuildError>)
    ensures r.Success? ==> ValuesCopied(r.value, t, flat)
    ensures r.Failure? ==> r.error.MissingProperty? && r.error.key in t.values && One(r.error.key) !in flat
  {
    var todo := t.values;
    var args: map<string, Field> := map[];
    while todo != {}
      invariant todo <= t.values
      invariant args.Keys == t.values - todo
      invariant forall v <- args :: One(v) in flat && args[v] == Leaf(flat[One(v)])
      decreases todo
    {
      var key :| key in todo;
      if One(key) !in flat {
        return Failure(MissingProperty(key));
      }
      args := args[key := Leaf(flat[One(key)])];
      todo := todo - {key};
    }
    return Success(args);
  }

  /** What the subtree under `k` comes out as. */
  ghost predicate KidBuilt(t: Trie, flat: Flat, norm: string -> string, k: string, f: Field)
    requires k in t.kids
  {
    && f.Nested?
    && (forall r :: Reads(t.kids[k], r) ==>
          && More(k, r) in flat && Clear(flat, More(k, r))
          && Walk(f.fields, r) == Some(Leaf(Delivered(norm, More(k, r), flat[More(k, r)]))))
    && (forall r :: Walk(f.fields, r).Some? && Walk(f.fields, r).value.Leaf? ==> Reads(t.kids[k], r))
  }

  lemma ClearBelow(flat: Flat, sub: Flat, k: string, r: Path)
    requires IsSub(sub, flat, k)
    ensures Clear(flat, More(k, r)) <==> One(k) !in flat && Clear(sub, r)
  {
    if Clear(flat, More(k, r)) {
      assert Below(More(k, r), One(k));
      forall q | q in sub ensures !Below(r, q) {
        assert More(k, q) in flat && (Below(More(k, r), More(k, q)) <==> Below(r, q));
      }
    }
    if One(k) !in flat && Clear(sub, r) {
      forall q | q in flat ensures !Below(More(k, r), q) {
        if q.More? && q.head == k {
          assert q == More(k, q.rest) && q.rest in sub;
        }
      }
    }
  }

  lemma KidFromSub(t: Trie, flat: Flat, norm: string -> string, k: string, sub: Flat, fields: map<string, Field>)
    requires k in t.kids && IsSub(sub, flat, k) && One(k) !in flat
    requires AllClear(t.kids[k], sub) && Agrees(fields, t.kids[k], sub, norm)
    ensures KidBuilt(t, flat, norm, k, Nested(fields))
  {
    forall r | Reads(t.kids[k], r)
      ensures More(k, r) in flat && Clear(flat, More(k, r))
      ensures Walk(fields, r) == Some(Leaf(Delivered(norm, More(k, r), flat[More(k, r)])))
    {
      ClearBelow(flat, sub, k, r);
      assert r in sub && sub[r] == flat[More(k, r)];
    }
  }

  lemma KidWellNamed(t: Trie, flat: Flat, k: string, sub: Flat)
    requires k in t.kids && IsSub(sub, flat, k) && WellNamed(t, flat)
    ensures WellNamed(t.kids[k], sub)
  {
    forall r | Reads(t.kids[k], r) ensures !NameInside(r) && (Last(r) == "name" && r in sub ==> sub[r].Text?) {
      assert Reads(t, More(k, r));
    }
  }

  lemma KidMissing(t: Trie, flat: Flat, k: string, sub: Flat)
    requires k in t.kids && IsSub(sub, flat, k) && !AllPresent(t.kids[k], sub)
    ensures !AllPresent(t, flat)
  {
    var r :| Reads(t.kids[k], r) && r !in sub;
    assert Reads(t, More(k, r));
  }

  lemma KidNotClear(t: Trie, flat: Flat, k: string)
    requires Canonical(t) && k in t.kids
    requires One(k) in flat || exists sub :: IsSub(sub, flat, k) && !AllClear(t.kids[k], sub)
    ensures !AllClear(t, flat)
  {
    if One(k) in flat {
      var r := SomePath(t.kids[k]);
      assert Reads(t, More(k, r)) && Below(More(k, r), One(k));
    } else {
      var sub :| IsSub(sub, flat, k) && !AllClear(t.kids[k], sub);
      var r :| Reads(t.kids[k], r) && !Clear(sub, r);
      ClearBelow(flat, sub, k, r);
      assert Reads(t, More(k, r));
    }
  }

  method MakeKid(t: Trie, flat: Flat, norm: string -> string, key: string) returns (r: Result<Field, BuildError>)
    requires Canonical(t) && WellNamed(t, flat) && key in t.kids
    ensures r.Success? ==> KidBuilt(t, flat, norm, key, r.value)
    ensures r.Failure? ==> r.error.MissingProperty? || r.error.NoSecondComponent?
    ensures r.Failure? ==> if r.error.MissingProperty? then !AllPresent(t, flat) else !AllClear(t, flat)
    decreases t.kids[key], 2
  {
    var sub := GetSubResults(flat, key);
    if sub.Failure? {
      KidNotClear(t, flat, key);
      return Failure(sub.error);
    }
    KidWellNamed(t, flat, key, sub.value);
    var made := MakeNested(t.kids[key], sub.value, norm);
    if made.Failure? {
      if made.error.MissingProperty? {
        KidMissing(t, flat, key, sub.value);
      } else {
        KidNotClear(t, flat, key);
      }
      return Failure(made.error);
    }
    KidFromSub(t, flat, norm, key, sub.value, made.value);
    return Success(Nested(made.value));
  }

  ghost predicate KidsBuilt(t: Trie, flat: Flat, norm: string -> string, args: map<string, Field>)
  {
    args.Keys == t.kids.Keys && forall k <- args :: KidBuilt(t, flat, norm, k, args[k])
  }

  /** The loop over the subtrees. */
  method MakeKids(t: Trie, flat: Flat, norm: string -> string) returns (r: Result<map<string, Field>, BuildError>)
    requires Canonical(t) && WellNamed(t, flat)
    ensures r.Success? ==> KidsBuilt(t, flat, norm, r.value)
    ensures r.Failure? ==> r.error.MissingProperty? || r.error.NoSecondComponent?
    ensures r.Failure? ==> if r.error.MissingProperty? then !AllPresent(t, flat) else !AllClear(t, flat)
    decreases t, 0
  {
    var todo := t.kids.Keys;
    var args: map<string, Field> := map[];
    while todo != {}
      invariant todo <= t.kids.Keys
      invariant args.Keys == t.kids.Keys - todo
      invariant forall k <- args :: KidBuilt(t, flat, norm, k, args[k])
      decreases todo
    {
      var key :| key in todo;
      var made := MakeKid(t, flat, norm, key);
      if made.Failure? {
        return Failure(made.error);
      }
      args := args[key := made.value];
      todo := todo - {key};
    }
    return Success(args);
  }

  /** `_make_cached_object` for a nested object. */
  method MakeNested(t: Trie, flat: Flat, norm: string -> string) returns (r: Result<map<string, Field>, BuildError>)
    requires Canonical(t) && WellNamed(t, flat)
    ensures r.Success? ==> AllClear(t, flat) && Agrees(r.value, t, flat, norm)
    ensures r.Failure? ==> r.error.MissingProperty? || r.error.NoSecondComponent?
    ensures r.Failure? ==> if r.error.MissingProperty? then !AllPresent(t, flat) else !AllClear(t, flat)
    ensures r.Success? <==> AllClear(t, flat) && AllPresent(t, flat)
    decreases t, 1
  {
    var base := CopyValues(t, flat);
    if base.Failure? {
      assert Reads(t, One(base.error.key));
      return base;
    }
    var subs := MakeKids(t, flat, norm);
    if subs.Failure? {
      return subs;
    }
    r := Success(Named(norm, base.value + subs.value));
    Assembled(t, flat, norm, base.value, subs.value);
  }

  lemma Assembled(t: Trie, flat: Flat, norm: string -> string, leaves: map<string, Field>, subs: map<string, Field>)
    requires Canonical(t) && WellNamed(t, flat) && ValuesCopied(leaves, t, flat) && KidsBuilt(t, flat, norm, subs)
    ensures AllClear(t, flat) && Agrees(Named(norm, leaves + subs), t, flat, norm)
  {
    var fields := Named(norm, leaves + subs);
    forall p | Reads(t, p)
      ensures p in flat && Clear(flat, p) && Walk(fields, p) == Some(Leaf(Delivered(norm, p, flat[p])))
    {
      PathAssembled(t, flat, norm, leaves, subs, p);
    }
    forall p | Walk(fields, p).Some? && Walk(fields, p).value.Leaf? ensures Reads(t, p) {
      LeafRequested(t, flat, norm, leaves, subs, p);
    }
  }

  lemma NameIsValue(t: Trie, flat: Flat)
    requires Canonical(t) && WellNamed(t, flat)
    ensures "name" !in t.kids
  {
    if "name" in t.kids {
      var r := SomePath(t.kids["name"]);
      assert Reads(t, More("name", r));
      assert false;
    }
  }

  lemma PathAssembled(t: Trie, flat: Flat, norm: string -> string,
                      leaves: map<string, Field>, subs: map<string, Field>, p: Path)
    requires Canonical(t) && WellNamed(t, flat) && ValuesCopied(leaves, t, flat) && KidsBuilt(t, flat, norm, subs)
    requires Reads(t, p)
    ensures p in flat && Clear(flat, p)
    ensures Walk(Named(norm, leaves + subs), p) == Some(Leaf(Delivered(norm, p, flat[p])))
  {
    NameIsValue(t, flat);
    match p
    case One(v) =>
      if v in t.kids {
        var r := SomePath(t.kids[v]);
        assert KidBuilt(t, flat, norm, v, subs[v]);
        assert Clear(flat, More(v, r)) && Below(More(v, r), p) && p in flat;
        assert false;
      }
      assert (leaves + subs)[v] == leaves[v];
      assert Last(p) == v;
    case More(k, r) =>
      assert KidBuilt(t, flat, norm, k, subs[k]);
      assert (leaves + subs)[k] == subs[k];
  }

  lemma LeafRequested(t: Trie, flat: Flat, norm: string -> string,
                      leaves: map<string, Field>, subs: map<string, Field>, p: Path)
    requires Canonical(t) && WellNamed(t, flat) && ValuesCopied(leaves, t, flat) && KidsBuilt(t, flat, norm, subs)
    requires var found := Walk(Named(norm, leaves + subs), p); found.Some? && found.value.Leaf?
    ensures Reads(t, p)
  {
    NameIsValue(t, flat);
    if p.More? {
      var k := p.head;
      if k in t.kids {
        assert KidBuilt(t, flat, norm, k, subs[k]);
        assert (leaves + subs)[k] == subs[k];
      }
    }
  }

  /******* References to entities already cached *******/

  function Ids(entities: seq<Entity>): set<Id>
  {
    set e <- entities :: e.id
  }

  predicate DistinctIds(entities: seq<Entity>)
  {
    forall i, j :: 0 <= i < j < |entities| ==> entities[i].id != entities[j].id
  }

  /** The cached entities whose id is referenced, in the order of the cache. */
  function Referenced(entities: seq<Entity>, ids: seq<Id>): (r: seq<Entity>)
    ensures forall e :: e in r <==> e in entities && e.id in ids
  {
    if entities == [] then []
    else
      var last := entities[|entities| - 1];
      Referenced(entities[..|entities| - 1], ids) + if last.id in ids then [last] else []
  }

  lemma SizeOfCommon(a: set<Id>, b: set<Id>, x: Id)
    requires x !in a
    ensures |({x} + a) * b| == |a * b| + if x in b then 1 else 0
  {
    assert ({x} + a) * b == if x in b then {x} + a * b else a * b;
  }

  /** It is the sublist of the cached entities, in their order. */
  lemma {:induction false} ReferencedInOrder(entities: seq<Entity>, ids: seq<Id>)
    ensures IsSublist(entities, (e: Entity) => e.id in ids, Referenced(entities, ids))
  {
    if entities == [] {
      EmptySublist<Entity>((e: Entity) => e.id in ids);
    } else {
      var init := entities[..|entities| - 1];
      ReferencedInOrder(init, ids);
      assert Referenced(init, ids) + [] == Referenced(init, ids);
      SublistOfMore(entities, (e: Entity) => e.id in ids, Referenced(init, ids), Referenced(entities, ids));
    }
  }

  lemma IdsOfLast(entities: seq<Entity>)
    requires entities != [] && DistinctIds(entities)
    ensures var init, last := entities[..|entities| - 1], entities[|entities| - 1];
            && DistinctIds(init)
            && Ids(entities) == {last.id} + Ids(init) && last.id !in Ids(init)
  {
    var init, last := entities[..|entities| - 1], entities[|entities| - 1];
    assert forall e :: e in entities <==> e in init || e == last;
  }

  lemma {:induction false} ReferencedCount(entities: seq<Entity>, ids: seq<Id>)
    requires DistinctIds(entities)
    ensures |Referenced(entities, ids)| == |Ids(entities) * AsSet(ids)|
  {
    if entities != [] {
      IdsOfLast(entities);
      ReferencedCount(entities[..|entities| - 1], ids);
      SizeOfCommon(Ids(entities[..|entities| - 1]), AsSet(ids), entities[|entities| - 1].id);
    }
  }

  datatype LinkKind = Static | Dynamic | OnlyOne

  /** One entry of `other_entity_mappings`. */
  datatype LinkSpec = LinkSpec(kind: LinkKind, entities: seq<Entity>)

  predicate Typed(spec: LinkSpec, v: Value)
  {
    if spec.kind == OnlyOne then v.Ref? else v.Refs?
  }

  function FirstById(entities: seq<Entity>, id: Id): (r: Option<Entity>)
    ensures r.Some? ==> r.value in entities && r.value.id == id
    ensures r.None? <==> id !in Ids(entities)
  {
    if entities == [] then None
    else if entities[0].id == id then Some(entities[0])
    else
      assert Ids(entities) == {entities[0].id} + Ids(entities[1..]);
      FirstById(entities[1..], id)
  }

  /** It is the first one with the id. */
  lemma {:induction false} FirstByIdAt(entities: seq<Entity>, id: Id) returns (i: nat)
    requires id in Ids(entities)
    ensures i < |entities| && entities[i].id == id && FirstById(entities, id) == Some(entities[i])
    ensures forall j :: 0 <= j < i ==> entities[j].id != id
  {
    i := 0;
    if entities[0].id != id {
      assert Ids(entities) == {entities[0].id} + Ids(entities[1..]);
      var k := FirstByIdAt(entities[1..], id);
      assert forall j :: 0 < j <= k ==> entities[j] == entities[1..][j - 1];
      i := k + 1;
    }
  }

  /** What a mapped field is overwritten with; None where the operation is retried. */
  function Resolve(spec: LinkSpec, v: Value): Option<Field>
    requires Typed(spec, v)
  {
    match spec.kind
    case OnlyOne =>
      var found := FirstById(spec.entities, v.id);
      if found.Some? then Some(Link(found.value)) else None
    case Dynamic => Some(Links(Referenced(spec.entities, v.ids)))
    case Static =>
      var mapped := Referenced(spec.entities, v.ids);
      if |mapped| == |v.ids| then Some(Links(mapped)) else None
  }

  /** A static link holds exactly the referenced ids, and is refused exactly
      when some referenced id is not cached. */
  lemma StaticLinkIsExact(entities: seq<Entity>, ids: seq<Id>)
    requires DistinctIds(entities) && Distinct(ids)
    ensures var r := Resolve(LinkSpec(Static, entities), Refs(ids));
            && (r.Some? <==> forall id <- ids :: id in Ids(entities))
            && (r.Some? ==> r.value.Links? && Ids(r.value.entities) == AsSet(ids) && |r.value.entities| == |ids|)
            && (r.Some? ==> IsSublist(entities, (e: Entity) => e.id in ids, r.value.entities))
  {
    ReferencedInOrder(entities, ids);
    var mapped, wanted := Referenced(entities, ids), AsSet(ids);
    ReferencedCount(entities, ids);
    SizeOfDistinct(ids);
    assert Ids(mapped) == Ids(entities) * wanted;
    if forall id <- ids :: id in Ids(entities) {
      assert Ids(entities) * wanted == wanted;
    }
    if |mapped| == |ids| {
      SubsetSize(Ids(entities) * wanted, wanted);
      forall id | id in ids ensures id in Ids(entities) {
        assert id in wanted;
      }
    }
  }

  ghost predicate IsFirstWithId(entities: seq<Entity>, id: Id, e: Entity)
  {
    exists i :: 0 <= i < |entities| && entities[i] == e && e.id == id && forall j :: 0 <= j < i ==> entities[j].id != id
  }

  /** Dynamic links keep the referenced ids that are cached; a single link
      resolves to the first entity with the referenced id or is refused. */
  lemma OtherLinksAreExact(entities: seq<Entity>, ids: seq<Id>, id: Id)
    ensures var r := Resolve(LinkSpec(Dynamic, entities), Refs(ids));
            && r.Some? && r.value.Links? && Ids(r.value.entities) == Ids(entities) * AsSet(ids)
            && IsSublist(entities, (e: Entity) => e.id in ids, r.value.entities)
    ensures var r := Resolve(LinkSpec(OnlyOne, entities), Ref(id));
            && (r.Some? <==> id in Ids(entities))
            && (r.Some? ==> r.value.Link? && IsFirstWithId(entities, id, r.value.entity))
  {
    ReferencedInOrder(entities, ids);
    if id in Ids(entities) {
      var i := FirstByIdAt(entities, id);
    }
  }

  /******* The root object *******/

  /** One object of the platform's answer: its id and the properties it came with. */
  datatype Row = Row(id: Id, props: Flat)

  /** The answer as a map, with the object itself under `obj`. */
  function Answer(row: Row): Flat
  {
    row.props[One("obj") := Ref(row.id)]
  }

  type LinkMap = map<string, LinkSpec>

  /** The mapped fields are requested by name, are references of the right kind,
      and are none of the fields the build treats specially. */
  ghost predicate WellLinked(t: Trie, flat: Flat, links: LinkMap)
  {
    forall f <- links ::
      && f in t.values && f != "id" && f != "obj" && f != "name"
      && (One(f) in flat ==> Typed(links[f], flat[One(f)]))
  }

  /** Some reference cannot be resolved. */
  ghost predicate Dangling(t: Trie, flat: Flat, links: LinkMap)
    requires WellLinked(t, flat, links)
  {
    exists f <- links :: One(f) in flat && Resolve(links[f], flat[One(f)]).None?
  }

  /** The root object agrees with the flat map on every requested path that is
      neither overwritten by the object's own id nor by a link; the links are
      the resolved references. */
  ghost predicate RootAgrees(e: Entity, t: Trie, row: Row, links: LinkMap, norm: string -> string)
    requires WellLinked(t, Answer(row), links)
  {
    && e.id == row.id
    && ("id" !in t.kids ==> Walk(e.fields, One("id")) == Some(Leaf(Text(row.id))))
    && Walk(e.fields, One("obj")) == Some(Leaf(Ref(row.id)))
    && (forall f <- links :: One(f) in Answer(row) && Walk(e.fields, One(f)) == Resolve(links[f], Answer(row)[One(f)]))
    && (forall p :: Reads(t, p) && p != One("id") && !(p.One? && p.name in links) ==>
          p in Answer(row) && Walk(e.fields, p) == Some(Leaf(Delivered(norm, p, Answer(row)[p]))))
    && NoOtherLeaf(e, t)
  }

  /** The object has leaves on requested paths and under its two own fields only. */
  ghost predicate NoOtherLeaf(e: Entity, t: Trie)
  {
    forall p :: Walk(e.fields, p).Some? && Walk(e.fields, p).value.Leaf? ==>
      Reads(t, p) || p == One("id") || p == One("obj")
  }

  /** The loop over the mappings: `args` with the mapped fields replaced. */
  method LinkFields(args: map<string, Field>, t: Trie, flat: Flat, links: LinkMap)
    returns (r: Result<map<string, Field>, BuildError>)
    requires WellLinked(t, flat, links) && links.Keys <= args.Keys
    requires forall f <- links :: One(f) in flat && args[f] == Leaf(flat[One(f)])
    ensures r.Success? ==>
              && r.value.Keys == args.Keys
              && (forall n <- args :: n !in links ==> r.value[n] == args[n])
              && (forall f <- links :: Resolve(links[f], flat[One(f)]) == Some(r.value[f]))
    ensures r.Failure? ==> r.error.PlatformChanged? && Dangling(t, flat, links)
  {
    var todo := links.Keys;
    var mapped := args;
    while todo != {}
      invariant todo <= links.Keys && mapped.Keys == args.Keys
      invariant forall n <- args :: n !in links || n in todo ==> mapped[n] == args[n]
      invariant forall f <- links :: f !in todo ==> Resolve(links[f], flat[One(f)]) == Some(mapped[f])
      decreases todo
    {
      var f :| f in todo;
      var resolved := Resolve(links[f], flat[One(f)]);
      if resolved.None? {
        return Failure(PlatformChanged(f));
      }
      mapped := mapped[f := resolved.value];
      todo := todo - {f};
    }
    return Success(mapped);
  }

  /** The plain names of the root are all there: they are copied first, then the
      references are resolved, and the subtrees come last. */
  ghost predicate ValuesPresent(t: Trie, flat: Flat)
  {
    forall v <- t.values :: One(v) in flat
  }

  /** `_make_cached_object` for a root object. */
  method MakeEntity(t: Trie, row: Row, links: LinkMap, norm: string -> string) returns (r: Result<Entity, BuildError>)
    requires Canonical(t) && WellNamed(t, Answer(row)) && WellLinked(t, Answer(row), links)
    ensures r.Success? ==> RootAgrees(r.value, t, row, links, norm)
    ensures r.Success? ==> AllClear(t, Answer(row)) && AllPresent(t, Answer(row)) && !Dangling(t, Answer(row), links)
    ensures r.Failure? && r.error.MissingProperty? ==> !AllPresent(t, Answer(row))
    ensures r.Failure? && r.error.NoSecondComponent? ==> !AllClear(t, Answer(row))
    ensures r.Failure? && r.error.PlatformChanged? <==> ValuesPresent(t, Answer(row)) && Dangling(t, Answer(row), links)
    ensures r.Success? <==> AllClear(t, Answer(row)) && AllPresent(t, Answer(row)) && !Dangling(t, Answer(row), links)
  {
    var base := CopyValues(t, Answer(row));
    if base.Failure? {
      assert Reads(t, One(base.error.key));
      return Failure(base.error);
    }
    assert ValuesPresent(t, Answer(row));
    var mapped := MapFields(t, row, links, base.value);
    if mapped.Failure? {
      return Failure(mapped.error);
    }
    var subs := MakeKids(t, Answer(row), norm);
    if subs.Failure? {
      return Failure(subs.error);
    }
    RootAssembled(t, row, links, norm, base.value, mapped.value, subs.value);
    return Success(Entity(row.id, Named(norm, mapped.value + subs.value)));
  }

  /** The two own fields and the links, on top of the plain names. */
  method MapFields(t: Trie, row: Row, links: LinkMap, leaves: map<string, Field>)
    returns (r: Result<map<string, Field>, BuildError>)
    requires WellLinked(t, Answer(row), links) && ValuesCopied(leaves, t, Answer(row))
    ensures r.Success? ==> Mapped(t, row, links, leaves, r.value)
    ensures r.Failure? ==> r.error.PlatformChanged? && Dangling(t, Answer(row), links)
  {
    var args := leaves["id" := Leaf(Text(row.id))]["obj" := Leaf(Ref(row.id))];
    r := LinkFields(args, t, Answer(row), links);
  }

  /** The fields after the plain names, the two own fields and the links. */
  ghost predicate Mapped(t: Trie, row: Row, links: LinkMap, leaves: map<string, Field>, mapped: map<string, Field>)
    requires WellLinked(t, Answer(row), links)
  {
    && ValuesCopied(leaves, t, Answer(row))
    && mapped.Keys == leaves.Keys + {"id", "obj"}
    && mapped["id"] == Leaf(Text(row.id)) && mapped["obj"] == Leaf(Ref(row.id))
    && (forall n <- leaves :: n !in links && n != "id" && n != "obj" ==> mapped[n] == leaves[n])
    && (forall f <- links :: One(f) in Answer(row) && Resolve(links[f], Answer(row)[One(f)]) == Some(mapped[f]))
  }

  lemma RootAssembled(t: Trie, row: Row, links: LinkMap, norm: string -> string,
                      leaves: map<string, Field>, mapped: map<string, Field>, subs: map<string, Field>)
    requires Canonical(t) && WellNamed(t, Answer(row)) && WellLinked(t, Answer(row), links)
    requires Mapped(t, row, links, leaves, mapped) && KidsBuilt(t, Answer(row), norm, subs)
    ensures RootAgrees(Entity(row.id, Named(norm, mapped + subs)), t, row, links, norm)
    ensures AllClear(t, Answer(row)) && AllPresent(t, Answer(row)) && !Dangling(t, Answer(row), links)
  {
    Assembled(t, Answer(row), norm, leaves, subs);
    NameIsValue(t, Answer(row));
    forall k | k in t.values || k == "obj" ensures k !in t.kids {
      ValueIsNotKid(t, Answer(row), k);
    }
    forall p | Reads(t, p) && p != One("id") && !(p.One? && p.name in links)
      ensures Walk(Named(norm, mapped + subs), p) == Some(Leaf(Delivered(norm, p, Answer(row)[p])))
    {
      RootPath(t, row, links, norm, leaves, mapped, subs, p);
    }
    RootLeaves(t, row, links, norm, leaves, mapped, subs);
  }

  lemma RootLeaves(t: Trie, row: Row, links: LinkMap, norm: string -> string,
                   leaves: map<string, Field>, mapped: map<string, Field>, subs: map<string, Field>)
    requires Canonical(t) && WellNamed(t, Answer(row)) && WellLinked(t, Answer(row), links)
    requires Mapped(t, row, links, leaves, mapped) && KidsBuilt(t, Answer(row), norm, subs)
    ensures NoOtherLeaf(Entity(row.id, Named(norm, mapped + subs)), t)
  {
    NameIsValue(t, Answer(row));
    var fields := Named(norm, mapped + subs);
    forall p | Walk(fields, p).Some? && Walk(fields, p).value.Leaf?
      ensures Reads(t, p) || p == One("id") || p == One("obj")
    {
      RootLeaf(t, row, links, norm, leaves, mapped, subs, p);
    }
  }

  lemma NoneIsNested(t: Trie, row: Row, links: LinkMap, leaves: map<string, Field>, mapped: map<string, Field>, k: string)
    requires WellLinked(t, Answer(row), links) && Mapped(t, row, links, leaves, mapped) && k in mapped
    ensures !mapped[k].Nested?
  {
    if k in links {
      assert Resolve(links[k], Answer(row)[One(k)]) == Some(mapped[k]);
    }
  }

  lemma RootLeaf(t: Trie, row: Row, links: LinkMap, norm: string -> string,
                 leaves: map<string, Field>, mapped: map<string, Field>, subs: map<string, Field>, p: Path)
    requires "name" !in t.kids && WellLinked(t, Answer(row), links)
    requires Mapped(t, row, links, leaves, mapped) && KidsBuilt(t, Answer(row), norm, subs)
    requires var found := Walk(Named(norm, mapped + subs), p); found.Some? && found.value.Leaf?
    ensures Reads(t, p) || p == One("id") || p == One("obj")
  {
    if p.More? {
      var k := p.head;
      if k in t.kids {
        assert KidBuilt(t, Answer(row), norm, k, subs[k]);
        assert (mapped + subs)[k] == subs[k];
      } else {
        NoneIsNested(t, row, links, leaves, mapped, k);
      }
    }
  }

  lemma ValueIsNotKid(t: Trie, flat: Flat, v: string)
    requires Canonical(t) && AllClear(t, flat) && One(v) in flat
    ensures v !in t.kids
  {
    if v in t.kids {
      var r := SomePath(t.kids[v]);
      assert Reads(t, More(v, r)) && Below(More(v, r), One(v));
      assert false;
    }
  }

  lemma RootPath(t: Trie, row: Row, links: LinkMap, norm: string -> string,
                 leaves: map<string, Field>, mapped: map<string, Field>, subs: map<string, Field>, p: Path)
    requires Canonical(t) && WellNamed(t, Answer(row)) && WellLinked(t, Answer(row), links)
    requires Mapped(t, row, links, leaves, mapped) && KidsBuilt(t, Answer(row), norm, subs)
    requires AllClear(t, Answer(row)) && AllPresent(t, Answer(row))
    requires Reads(t, p) && p != One("id") && !(p.One? && p.name in links)
    ensures Walk(Named(norm, mapped + subs), p) == Some(Leaf(Delivered(norm, p, Answer(row)[p])))
  {
    NameIsValue(t, Answer(row));
    match p
    case One(v) =>
      ValueIsNotKid(t, Answer(row), v);
      assert (mapped + subs)[v] == mapped[v];
      assert mapped[v] == Leaf(Answer(row)[p]);
      assert Last(p) == v;
    case More(k, r) =>
      assert KidBuilt(t, Answer(row), norm, k, subs[k]);
      assert (mapped + subs)[k] == subs[k];
  }

  /******* Fetching entities *******/

  /** No requested path runs below another, nor below a path that the answer has
      of its own. */
  predicate PrefixFree(props: seq<Path>, own: set<Path>)
  {
    && (forall p <- props, q <- props :: !Below(p, q))
    && (forall p <- props, q <- own :: !Below(p, q))
  }

  /** Where the answer has requested paths and its own only: if the list is free of
      prefixes, the build can only fail for a missing path; and if all paths are
      present, it can only fail for one that runs below another. */
  lemma ClearIffPrefixFree(t: Trie, props: seq<Path>, own: set<Path>, flat: Flat)
    requires Represents(t, props) && own <= flat.Keys && forall p <- flat.Keys :: p in props || p in own
    ensures AllPresent(t, flat) <==> forall p <- props :: p in flat
    ensures PrefixFree(props, own) ==> AllClear(t, flat)
    ensures AllPresent(t, flat) ==> (AllClear(t, flat) <==> PrefixFree(props, own))
  {
    if AllClear(t, flat) && AllPresent(t, flat) {
      forall p, q | p in props && (q in props || q in own) ensures !Below(p, q) {
        assert Reads(t, p) && q in flat.Keys;
      }
    }
  }

  /** The platform answers with requested properties. */
  predicate Answered(row: Row, props: seq<Path>)
  {
    forall p <- row.props.Keys :: p in props
  }

  predicate HasAll(row: Row, props: seq<Path>)
  {
    forall p <- props :: p in Answer(row)
  }

  /** Whether a row can be built, told from the list of properties: for lists free
      of prefixes, exactly where it has all of them and no reference dangles; and
      where it has all of them, exactly for such lists. */
  lemma SoundByList(props: seq<Path>, row: Row, links: LinkMap)
    requires WellLinked(TreeOf(props), Answer(row), links) && Answered(row, props)
    ensures AllPresent(TreeOf(props), Answer(row)) <==> HasAll(row, props)
    ensures PrefixFree(props, {One("obj")}) ==>
              (Sound(TreeOf(props), row, links) <==> HasAll(row, props) && !Dangling(TreeOf(props), Answer(row), links))
    ensures HasAll(row, props) ==>
              (Sound(TreeOf(props), row, links)
               <==> PrefixFree(props, {One("obj")}) && !Dangling(TreeOf(props), Answer(row), links))
  {
    TreeOfRepresents(props);
    ClearIffPrefixFree(TreeOf(props), props, {One("obj")}, Answer(row));
  }

  lemma SoundRowsByList(props: seq<Path>, rows: seq<Row>, links: LinkMap)
    requires Usable(TreeOf(props), rows, links)
    ensures PrefixFree(props, {One("obj")}) && (forall row <- rows :: Answered(row, props)) ==>
              ((forall row <- rows :: Sound(TreeOf(props), row, links))
               <==> forall row <- rows :: HasAll(row, props) && !Dangling(TreeOf(props), Answer(row), links))
  {
    forall row | row in rows && Answered(row, props)
      ensures PrefixFree(props, {One("obj")}) ==>
                (Sound(TreeOf(props), row, links) <==> HasAll(row, props) && !Dangling(TreeOf(props), Answer(row), links))
    {
      SoundByList(props, row, links);
    }
  }

  /** Walking a built entity along the listed paths gives the row's values, and
      there are no other leaves but its own. */
  lemma WalksByList(e: Entity, props: seq<Path>, row: Row, links: LinkMap, norm: string -> string)
    requires WellLinked(TreeOf(props), Answer(row), links) && RootAgrees(e, TreeOf(props), row, links, norm)
    ensures forall p <- props :: p != One("id") && !(p.One? && p.name in links) ==>
              && p in Answer(row)
              && (Last(p) == "name" && Answer(row)[p].Text? ==>
                    Walk(e.fields, p) == Some(Leaf(Text(norm(Answer(row)[p].text)))))
              && (Last(p) != "name" || !Answer(row)[p].Text? ==> Walk(e.fields, p) == Some(Leaf(Answer(row)[p])))
    ensures forall p :: Walk(e.fields, p).Some? && Walk(e.fields, p).value.Leaf? ==>
              p in props || p == One("id") || p == One("obj")
  {
    TreeOfRepresents(props);
  }

  /** NonRecoverableError, OperationRetry, and any other exception. */
  datatype FetchError = Unretrievable | RetryLater | Crash

  /** The row can be built. */
  ghost predicate Sound(t: Trie, row: Row, links: LinkMap)
    requires WellLinked(t, Answer(row), links)
  {
    AllClear(t, Answer(row)) && AllPresent(t, Answer(row)) && !Dangling(t, Answer(row), links)
  }

  /** The row is left out where broken rows are skipped: something is missing, and
      it is missed before a dangling reference is met. */
  ghost predicate Skippable(t: Trie, row: Row, links: LinkMap)
    requires WellLinked(t, Answer(row), links)
  {
    !AllPresent(t, Answer(row)) && !(ValuesPresent(t, Answer(row)) && Dangling(t, Answer(row), links))
  }

  ghost predicate Passes(t: Trie, row: Row, links: LinkMap, skipBroken: bool)
    requires WellLinked(t, Answer(row), links)
  {
    Sound(t, row, links) || (skipBroken && Skippable(t, row, links))
  }

  /** The rows that carry every requested path. */
  ghost function Kept(t: Trie, rows: seq<Row>): seq<Row>
  {
    if rows == [] then []
    else Kept(t, rows[..|rows| - 1]) + if AllPresent(t, Answer(rows[|rows| - 1])) then [rows[|rows| - 1]] else []
  }

  /** They are the sublist of these rows, and all rows where none misses a path. */
  lemma {:induction false} KeptInOrder(t: Trie, rows: seq<Row>)
    ensures IsSublist(rows, (row: Row) => AllPresent(t, Answer(row)), Kept(t, rows))
    ensures (forall row <- rows :: AllPresent(t, Answer(row))) ==> Kept(t, rows) == rows
  {
    if rows == [] {
      EmptySublist<Row>((row: Row) => AllPresent(t, Answer(row)));
    } else {
      KeptInOrder(t, rows[..|rows| - 1]);
      KeptOfMore(t, rows);
    }
  }

  lemma KeptOfMore(t: Trie, rows: seq<Row>)
    requires rows != []
    requires IsSublist(rows[..|rows| - 1], (row: Row) => AllPresent(t, Answer(row)), Kept(t, rows[..|rows| - 1]))
    ensures IsSublist(rows, (row: Row) => AllPresent(t, Answer(row)), Kept(t, rows))
  {
    var kept := Kept(t, rows[..|rows| - 1]);
    assert kept + [] == kept;
    SublistOfMore(rows, (row: Row) => AllPresent(t, Answer(row)), kept, Kept(t, rows));
  }

  ghost predicate Usable(t: Trie, rows: seq<Row>, links: LinkMap)
  {
    forall row <- rows :: WellNamed(t, Answer(row)) && WellLinked(t, Answer(row), links)
  }

  lemma {:induction false} KeptUsable(t: Trie, rows: seq<Row>, links: LinkMap)
    requires Usable(t, rows, links)
    ensures Usable(t, Kept(t, rows), links)
  {
    if rows != [] {
      KeptUsable(t, rows[..|rows| - 1], links);
    }
  }

  /** One entity for each complete row, in the platform's order. */
  ghost predicate Gathered(es: seq<Entity>, t: Trie, rows: seq<Row>, links: LinkMap, norm: string -> string)
    requires Usable(t, rows, links)
  {
    KeptUsable(t, rows, links);
    && |es| == |Kept(t, rows)|
    && forall i :: 0 <= i < |es| ==> RootAgrees(es[i], t, Kept(t, rows)[i], links, norm)
  }

  lemma GatheredNext(es: seq<Entity>, t: Trie, rows: seq<Row>, n: nat, links: LinkMap, norm: string -> string, e: Entity)
    requires Usable(t, rows, links) && n < |rows| && Gathered(es, t, rows[..n], links, norm)
    requires AllPresent(t, Answer(rows[n])) ==> RootAgrees(e, t, rows[n], links, norm)
    ensures Gathered(if AllPresent(t, Answer(rows[n])) then es + [e] else es, t, rows[..n + 1], links, norm)
  {
    KeptUsable(t, rows[..n], links);
    KeptUsable(t, rows[..n + 1], links);
    assert rows[..n + 1][..n] == rows[..n];
    var kept := Kept(t, rows[..n + 1]);
    if AllPresent(t, Answer(rows[n])) {
      assert kept == Kept(t, rows[..n]) + [rows[n]];
    } else {
      assert kept == Kept(t, rows[..n]);
    }
  }

  predicate DistinctRows(rows: seq<Row>)
  {
    forall i, j :: 0 <= i < j < |rows| ==> rows[i].id != rows[j].id
  }

  lemma {:induction false} KeptAreRows(t: Trie, rows: seq<Row>)
    ensures forall row <- Kept(t, rows) :: row in rows
    ensures DistinctRows(rows) ==> DistinctRows(Kept(t, rows))
  {
    if rows != [] {
      var init, last := rows[..|rows| - 1], rows[|rows| - 1];
      KeptAreRows(t, init);
      assert forall row <- init :: row in rows;
      if DistinctRows(rows) {
        forall row | row in Kept(t, init) ensures row.id != last.id {
          var i :| 0 <= i < |init| && init[i] == row;
        }
      }
    }
  }

  /** Rows with distinct ids are cached as entities with distinct ids. */
  lemma GatheredAreDistinct(es: seq<Entity>, t: Trie, rows: seq<Row>, links: LinkMap, norm: string -> string)
    requires Usable(t, rows, links) && Gathered(es, t, rows, links, norm) && DistinctRows(rows)
    ensures DistinctIds(es)
  {
    KeptAreRows(t, rows);
    KeptUsable(t, rows, links);
    forall i | 0 <= i < |es| ensures es[i].id == Kept(t, rows)[i].id {
      assert RootAgrees(es[i], t, Kept(t, rows)[i], links, norm);
    }
  }

  /** `_get_entity`, the loop over the platform's answer. */
  method BuildRows(t: Trie, rows: seq<Row>, links: LinkMap, skipBroken: bool, norm: string -> string)
    returns (r: Result<seq<Entity>, FetchError>)
    requires Canonical(t) && Usable(t, rows, links)
    ensures r.Success? ==> Gathered(r.value, t, rows, links, norm)
    ensures r.Success? ==> forall row <- rows :: Passes(t, row, links, skipBroken)
    ensures r.Failure? ==> exists row <- rows ::
              !Sound(t, row, links) && (AllClear(t, Answer(row)) ==> !Passes(t, row, links, skipBroken))
    ensures r == Failure(Unretrievable) ==> !skipBroken && exists row <- rows :: !AllPresent(t, Answer(row))
    ensures r == Failure(RetryLater) ==>
              exists row <- rows :: ValuesPresent(t, Answer(row)) && Dangling(t, Answer(row), links)
    ensures r == Failure(Crash) ==> exists row <- rows :: !AllClear(t, Answer(row))
  {
    var results: seq<Entity> := [];
    for n := 0 to |rows|
      invariant Gathered(results, t, rows[..n], links, norm)
      invariant forall k :: 0 <= k < n ==> Passes(t, rows[k], links, skipBroken)
    {
      assert rows[n] in rows;
      var made := MakeEntity(t, rows[n], links, norm);
      match made {
        case Success(e) =>
          GatheredNext(results, t, rows, n, links, norm, e);
          results := results + [e];
        case Failure(PlatformChanged(_)) =>
          return Failure(RetryLater);
        case Failure(NoSecondComponent) =>
          return Failure(Crash);
        case Failure(MissingProperty(_)) =>
          if !skipBroken {
            return Failure(Unretrievable);
          }
          GatheredNext(results, t, rows, n, links, norm, Entity("", map[]));
      }
    }
    assert rows[..|rows|] == rows;
    return Success(results);
  }

  /** The client's cache of entities by entity name. */
  class Client {
    var cache: map<string, seq<Entity>>

    constructor ()
      ensures cache == map[] && CachesDistinct()
    {
      cache := map[];
    }

    /** No two cached entities of one name have the same id. */
    predicate CachesDistinct()
      reads this
    {
      forall name <- cache :: DistinctIds(cache[name])
    }

    /** `_get_entity`: `rows` is what the platform answers when it is asked. */
    method GetEntity(name: string, props: seq<Path>, rows: seq<Row>, useCache: bool, links: LinkMap,
                     skipBroken: bool, norm: string -> string) returns (r: Result<seq<Entity>, FetchError>)
      requires forall p <- props :: !UsesReserved(p)
      requires Usable(TreeOf(props), rows, links)
      modifies this
      ensures name in old(cache) && useCache ==> r == Success(old(cache)[name])
      ensures r.Failure? || (name in old(cache) && useCache) ==> cache == old(cache)
      ensures r.Success? ==> cache == old(cache)[name := r.value]
      ensures !(name in old(cache) && useCache) && r.Success? ==>
                && Gathered(r.value, TreeOf(props), rows, links, norm)
                && forall row <- rows :: Passes(TreeOf(props), row, links, skipBroken)
      ensures r.Failure? ==> exists row <- rows ::
                && !Sound(TreeOf(props), row, links)
                && (AllClear(TreeOf(props), Answer(row)) ==> !Passes(TreeOf(props), row, links, skipBroken))
      ensures r == Failure(Unretrievable) ==> !skipBroken && exists row <- rows :: !AllPresent(TreeOf(props), Answer(row))
      ensures r == Failure(RetryLater) ==> exists row <- rows ::
                ValuesPresent(TreeOf(props), Answer(row)) && Dangling(TreeOf(props), Answer(row), links)
      ensures r == Failure(Crash) ==> exists row <- rows :: !AllClear(TreeOf(props), Answer(row))
      ensures !(name in old(cache) && useCache) && !skipBroken
              && PrefixFree(props, {One("obj")}) && (forall row <- rows :: Answered(row, props)) ==>
                (r.Success? <==> forall row <- rows :: HasAll(row, props) && !Dangling(TreeOf(props), Answer(row), links))
      ensures old(CachesDistinct()) && DistinctRows(rows) ==> CachesDistinct()
    {
      if name in cache && useCache {
        return Success(cache[name]);
      }
      var tree := ConvertProps(props);
      r := BuildRows(tree, rows, links, skipBroken, norm);
      SoundRowsByList(props, rows, links);
      if r.Success? {
        cache := cache[name := r.value];
        if DistinctRows(rows) {
          GatheredAreDistinct(r.value, tree, rows, links, norm);
        }
      }
    }
  }
}
