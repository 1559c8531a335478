/**
 The networks a virtual machine is connected to: each is checked and completed,
 and the external one is put first.
 */
module NetworkOrder {
  import opened Partition
  import opened Results

  /** A value in a dictionary: text, a truth value, nothing, or anything else. */
  datatype Value = Text(text: string) | Bool(flag: bool) | Null | Other(truthy: bool)

  predicate Truthy(v: Value)
  {
    match v
    case Text(t) => t != ""
    case Bool(b) => b
    case Null => false
    case Other(t) => t
  }

  /** The keys that are supported, and all others. */
  datatype Key =
    | Name | NetworkId | Gateway | Ip
    | FromRelationship | External | Management | SwitchDistributed | NsxTSwitch | UseDhcp
    | Unsupported(key: string)

  type Network = map<Key, Value>

  function Get(n: Network, key: Key): Value { if key in n then n[key] else Null }

  predicate IsText(key: Key) { key.Name? || key.NetworkId? || key.Gateway? || key.Ip? }

  predicate IsFlag(key: Key) { !IsText(key) && !key.Unsupported? }

  const KNOWN: set<Key> :=
    {Name, NetworkId, Gateway, Ip, FromRelationship, External, Management, SwitchDistributed, NsxTSwitch, UseDhcp}

  function Default(key: Key): Value
  {
    if IsText(key) then Null else Bool(key.UseDhcp?)
  }

  /******* One network *******/

  /** The entry is known and has a value of its type, or none where it is a text. */
  predicate ValidEntry(key: Key, v: Value)
  {
    || (IsText(key) && (v.Text? || !Truthy(v)))
    || (IsFlag(key) && v.Bool?)
  }

  predicate Valid(n: Network)
  {
    && Truthy(Get(n, Name))
    && !(Truthy(Get(n, SwitchDistributed)) && Truthy(Get(n, NsxTSwitch)))
    && forall key <- n.Keys :: ValidEntry(key, n[key])
  }

  /** What an entry of a valid network becomes. */
  function Entry(n: Network, key: Key): Value
  {
    if key !in n then Default(key) else if IsText(key) && !Truthy(n[key]) then Null else n[key]
  }

  function Completed(n: Network): Network { map key | key in KNOWN :: Entry(n, key) }

  /** The entry is among those known, and valid. */
  predicate Accepted(known: set<Key>, key: Key, v: Value) { key in known && ValidEntry(key, v) }

  /** The entries gone through so far are replaced where they are empty texts. */
  predicate Replaced(n: Network, seen: set<Key>, result: Network)
  {
    && result.Keys == n.Keys
    && forall key <- n.Keys :: result[key] == if key in seen && IsText(key) && !Truthy(n[key]) then Null else n[key]
  }

  /** The loop over the entries, in any order. */
  method Review(n: Network, known: set<Key>) returns (error: bool, unseen: set<Key>, result: Network)
    requires known <= KNOWN
    ensures error <==> exists key <- n.Keys :: !Accepted(known, key, n[key])
    ensures unseen == known - n.Keys
    ensures !error ==> Replaced(n, n.Keys, result)
  {
    error, unseen, result := false, known, n;
    var todo := n.Keys;
    while todo != {}
      invariant todo <= n.Keys && unseen == known - (n.Keys - todo)
      invariant error <==> exists key <- n.Keys - todo :: !Accepted(known, key, n[key])
      invariant !error ==> Replaced(n, n.Keys - todo, result)
      decreases |todo|
    {
      var key :| key in todo;
      assert n.Keys - (todo - {key}) == n.Keys - todo + {key};
      todo := todo - {key};
      if key !in unseen {
        error := true;
      } else {
        unseen := unseen - {key};
        if !Truthy(n[key]) && IsText(key) {
          result := result[key := Null];
        } else if (if IsText(key) then !n[key].Text? else !n[key].Bool?) {
          error := true;
        }
      }
    }
  }

  /** A value that Python takes as false. */
  predicate IsFalse(v: Value) { v == Text("") || v == Bool(false) || v == Null || v == Other(false) }

  /** What is accepted, key by key. */
  lemma ValidMeans(n: Network)
    ensures Valid(n) <==>
              && Name in n && n[Name].Text? && n[Name].text != ""
              && !(SwitchDistributed in n && n[SwitchDistributed] == Bool(true)
                   && NsxTSwitch in n && n[NsxTSwitch] == Bool(true))
              && forall key <- n.Keys ::
                   match key
                   case Name => n[key].Text? || IsFalse(n[key])
                   case NetworkId => n[key].Text? || IsFalse(n[key])
                   case Gateway => n[key].Text? || IsFalse(n[key])
                   case Ip => n[key].Text? || IsFalse(n[key])
                   case Unsupported(_) => false
                   case _ => n[key].Bool?
  {
    if Valid(n) {
      assert ValidEntry(Name, n[Name]);
      assert SwitchDistributed in n ==> ValidEntry(SwitchDistributed, n[SwitchDistributed]);
      assert NsxTSwitch in n ==> ValidEntry(NsxTSwitch, n[NsxTSwitch]);
    }
  }

  /** What becomes of the entries: a missing `use_dhcp` is true, any other missing
      flag false, a missing or empty text nothing; all else keeps its value. */
  lemma CompletedMeans(n: Network)
    ensures var c := Completed(n);
            && c.Keys == {Name, NetworkId, Gateway, Ip, FromRelationship, External, Management, SwitchDistributed,
                          NsxTSwitch, UseDhcp}
            && (UseDhcp !in n ==> c[UseDhcp] == Bool(true))
            && (forall key <- {FromRelationship, External, Management, SwitchDistributed, NsxTSwitch} ::
                  key !in n ==> c[key] == Bool(false))
            && (forall key <- {FromRelationship, External, Management, SwitchDistributed, NsxTSwitch, UseDhcp} ::
                  key in n ==> c[key] == n[key])
            && (forall key <- {Name, NetworkId, Gateway, Ip} :: key !in n || IsFalse(n[key]) ==> c[key] == Null)
            && (forall key <- {Name, NetworkId, Gateway, Ip} :: key in n && !IsFalse(n[key]) ==> c[key] == n[key])
  {
  }

  lemma CompletedEntries(n: Network, c: Network)
    requires Valid(n) && c == Completed(n)
    ensures c.Keys == KNOWN && (UseDhcp !in n ==> c[UseDhcp] == Bool(true))
    ensures forall key <- {FromRelationship, External, Management, SwitchDistributed, NsxTSwitch} ::
              key !in n ==> c[key] == Bool(false)
    ensures forall key <- {FromRelationship, External, Management, SwitchDistributed, NsxTSwitch, UseDhcp} ::
              key in n ==> c[key] == n[key]
    ensures forall key <- {Name, NetworkId, Gateway, Ip} ::
              c[key] == if key in n && n[key].Text? && n[key].text != "" then n[key] else Null
  {
    CompletedMeans(n);
    forall key | key in {Name, NetworkId, Gateway, Ip} && key in n ensures n[key].Text? || IsFalse(n[key]) {
      assert ValidEntry(key, n[key]);
    }
  }

  /** `validate_connect_network`; None for the error. */
  method ValidateConnectNetwork(n: Network) returns (r: Option<Network>)
    ensures r == if Valid(n) then Some(Completed(n)) else None
    ensures r.Some? && UseDhcp !in n ==> r.value[UseDhcp] == Bool(true)
    ensures r.Some? ==> forall key <- {FromRelationship, External, Management, SwitchDistributed, NsxTSwitch} ::
              key !in n ==> r.value[key] == Bool(false)
    ensures r.Some? ==> forall key <- {FromRelationship, External, Management, SwitchDistributed, NsxTSwitch, UseDhcp} ::
              key in n ==> r.value[key] == n[key]
    ensures r.Some? ==> forall key <- {Name, NetworkId, Gateway, Ip} ::
              r.value[key] == if key in n && n[key].Text? && n[key].text != "" then n[key] else Null
  {

    var both := Truthy(Get(n, SwitchDistributed)) && Truthy(Get(n, NsxTSwitch));
    var named := Truthy(Get(n, Name));
    var known := if named then KNOWN else KNOWN - {Name};
    var error, unseen, result := Review(n, known);
    if error || both || !named {
      return None;
    }
    assert forall key <- n.Keys :: Accepted(known, key, n[key]);
    r := Some(map key | key in KNOWN :: if key in unseen then Default(key) else result[key]);
    assert r.value == Completed(n);
    CompletedEntries(n, r.value);
  }

  /** A completed network has all ten entries, each of its type, and checking it
      again changes nothing. */
  lemma CompletedIsFixed(n: Network)
    requires Valid(n)
    ensures Valid(Completed(n)) && Completed(Completed(n)) == Completed(n)
    ensures Completed(n).Keys == KNOWN
    ensures forall key <- KNOWN :: IsFlag(key) ==> Completed(n)[key].Bool?
    ensures forall key <- KNOWN :: IsText(key) ==>
              Completed(n)[key].Null? || (Completed(n)[key].Text? && Completed(n)[key].text != "")
  {
  }

  /******* All networks *******/

  datatype Invalid = TwoExternal | TwoManagement | InvalidNetwork

  predicate IsExternal(n: Network) { Truthy(Get(n, External)) }

  predicate IsManagement(n: Network) { Truthy(Get(n, Management)) }

  predicate AllValid(networks: seq<Network>, count: nat)
    requires count <= |networks|
  {
    forall i :: 0 <= i < count ==> Valid(networks[i])
  }

  /** Why the networks are refused, None if they are not. */
  function Refusal(networks: seq<Network>): Option<Invalid>
  {
    if |Having(networks, IsExternal)| > 1 then Some(TwoExternal)
    else if |Having(networks, IsManagement)| > 1 then Some(TwoManagement)
    else if !AllValid(networks, |networks|) then Some(InvalidNetwork)
    else None
  }

  /** All of them completed, the external one in front. */
  function Handled(networks: seq<Network>): seq<Network> { Front(Mapped(networks, Completed), IsExternal) }

  lemma CompletedKeepsFlags(n: Network)
    ensures IsExternal(Completed(n)) == IsExternal(n) && IsManagement(Completed(n)) == IsManagement(n)
  {
  }

  lemma SameCounts(networks: seq<Network>)
    ensures |Having(Mapped(networks, Completed), IsExternal)| == |Having(networks, IsExternal)|
    ensures |Having(Mapped(networks, Completed), IsManagement)| == |Having(networks, IsManagement)|
  {
    forall n ensures IsExternal(Completed(n)) == IsExternal(n) && IsManagement(Completed(n)) == IsManagement(n) {
      CompletedKeepsFlags(n);
    }
    HavingMapped(networks, Completed, IsExternal);
    HavingMapped(networks, Completed, IsManagement);
  }

  method Count(networks: seq<Network>, p: Network -> bool) returns (count: nat)
    ensures count == |Having(networks, p)|
  {
    count := 0;
    for i := 0 to |networks|
      invariant count == |Having(networks[..i], p)|
    {
      PartsStep(networks, p, i);
      if p(networks[i]) {
        count := count + 1;
      }
    }
    assert networks[..|networks|] == networks;
  }

  /** The first n of them. */
  function HandledOf(networks: seq<Network>, n: nat): seq<Network>
    requires n <= |networks|
  {
    Front(Mapped(networks, Completed)[..n], IsExternal)
  }

  function Placed(list: seq<Network>, n: Network): seq<Network>
  {
    if IsExternal(n) then [n] + list else list + [n]
  }

  lemma HandledStep(networks: seq<Network>, i: nat)
    requires i < |networks| && |Having(networks, IsExternal)| <= 1
    ensures HandledOf(networks, i + 1) == Placed(HandledOf(networks, i), Completed(networks[i]))
  {
    SameCounts(networks);
    FrontStep(Mapped(networks, Completed), IsExternal, i);
  }

  lemma HandledEnds(networks: seq<Network>)
    ensures HandledOf(networks, 0) == [] && HandledOf(networks, |networks|) == Handled(networks)
  {
    assert Mapped(networks, Completed)[..|networks|] == Mapped(networks, Completed);
  }

  lemma AllValidStep(networks: seq<Network>, i: nat)
    requires i < |networks| && AllValid(networks, i)
    ensures Valid(networks[i]) ==> AllValid(networks, i + 1)
    ensures !Valid(networks[i]) ==> !AllValid(networks, |networks|)
  {
  }

  /** The loop of `handle_networks`. */
  method Reorder(networks: seq<Network>) returns (r: Option<seq<Network>>)
    requires |Having(networks, IsExternal)| <= 1
    ensures r == if AllValid(networks, |networks|) then Some(Handled(networks)) else None
  {
    HandledEnds(networks);
    var reordered: seq<Network> := [];
    for i := 0 to |networks|
      invariant AllValid(networks, i)
      invariant reordered == HandledOf(networks, i)
    {
      var n := ValidateConnectNetwork(networks[i]);
      AllValidStep(networks, i);
      if n.None? {
        return None;
      }
      HandledStep(networks, i);
      reordered := Placed(reordered, n.value);
    }
    return Some(reordered);
  }

  /** The entry is there and Python takes it as true. */
  predicate HasTrue(n: Network, key: Key) { key in n && !IsFalse(n[key]) }

  ghost predicate TwoHaveTrue(networks: seq<Network>, key: Key)
  {
    exists i, j :: 0 <= i < j < |networks| && HasTrue(networks[i], key) && HasTrue(networks[j], key)
  }

  lemma RefusalMeans(networks: seq<Network>)
    ensures Refusal(networks) == Some(TwoExternal) <==> TwoHaveTrue(networks, External)
    ensures Refusal(networks) == Some(TwoManagement) <==>
              !TwoHaveTrue(networks, External) && TwoHaveTrue(networks, Management)
    ensures Refusal(networks).None? <==>
              && !TwoHaveTrue(networks, External) && !TwoHaveTrue(networks, Management)
              && forall i :: 0 <= i < |networks| ==> Valid(networks[i])
  {
    TwoHave(networks, IsExternal);
    TwoHave(networks, IsManagement);
    forall n ensures IsExternal(n) <==> HasTrue(n, External)
      ensures IsManagement(n) <==> HasTrue(n, Management)
    {
      ExternalMeans(n);
    }
  }

  /** The external network is first; those before it follow, and those behind it
      stay where they are. */
  ghost predicate MovedToFront(networks: seq<Network>, e: nat, r: seq<Network>)
    requires e < |networks|
  {
    && |r| == |networks| && r[0] == Completed(networks[e])
    && (forall i :: 0 <= i < e ==> r[i + 1] == Completed(networks[i]))
    && (forall i :: e < i < |networks| ==> r[i] == Completed(networks[i]))
  }

  lemma HandledMoved(networks: seq<Network>, e: nat)
    requires |Having(networks, IsExternal)| <= 1 && e < |networks| && IsExternal(networks[e])
    ensures MovedToFront(networks, e, Handled(networks))
  {
    KindsAreKept(networks);
    FrontMappedAt(networks, Completed, IsExternal, e);
  }

  lemma HandledUnmoved(networks: seq<Network>)
    requires forall n <- networks :: !IsExternal(n)
    ensures Handled(networks) == Mapped(networks, Completed)
  {
    KindsAreKept(networks);
    FrontMappedNone(networks, Completed, IsExternal);
  }

  lemma KindsAreKept(networks: seq<Network>)
    ensures forall n <- networks :: IsExternal(Completed(n)) == IsExternal(n)
  {
    forall n | n in networks ensures IsExternal(Completed(n)) == IsExternal(n) {
      CompletedKeepsFlags(n);
    }
  }

  lemma ExternalMeans(n: Network)
    ensures IsExternal(n) <==> HasTrue(n, External)
    ensures IsManagement(n) <==> HasTrue(n, Management)
  {
  }

  /** The result, place by place: moved to the front where one is external, in its
      place where none is. */
  ghost predicate InPlace(networks: seq<Network>, r: seq<Network>)
  {
    && (forall e :: 0 <= e < |networks| && HasTrue(networks[e], External) ==> MovedToFront(networks, e, r))
    && ((forall e :: 0 <= e < |networks| ==> !HasTrue(networks[e], External)) ==>
          |r| == |networks| && forall i :: 0 <= i < |networks| ==> r[i] == Completed(networks[i]))
  }

  lemma HandledInPlace(networks: seq<Network>)
    requires |Having(networks, IsExternal)| <= 1
    ensures InPlace(networks, Handled(networks))
  {
    if forall e :: 0 <= e < |networks| ==> !HasTrue(networks[e], External) {
      forall n | n in networks ensures !IsExternal(n) {
        ExternalMeans(n);
      }
      HandledUnmoved(networks);
    }
    forall e | 0 <= e < |networks| && HasTrue(networks[e], External) ensures MovedToFront(networks, e, Handled(networks)) {
      ExternalMeans(networks[e]);
      HandledMoved(networks, e);
    }
  }

  /** `handle_networks`. */
  method HandleNetworks(networks: seq<Network>) returns (r: Result<seq<Network>, Invalid>)
    ensures r == match Refusal(networks) case Some(e) => Failure(e) case None => Success(Handled(networks))
    ensures r == Failure(TwoExternal) <==> TwoHaveTrue(networks, External)
    ensures r == Failure(TwoManagement) <==> !TwoHaveTrue(networks, External) && TwoHaveTrue(networks, Management)
    ensures r.Success? <==>
              && !TwoHaveTrue(networks, External) && !TwoHaveTrue(networks, Management)
              && forall i :: 0 <= i < |networks| ==> Valid(networks[i])
    ensures r.Success? ==> InPlace(networks, r.value)
  {
    RefusalMeans(networks);
    var external := Count(networks, IsExternal);
    if external > 1 {
      return Failure(TwoExternal);
    }
    HandledInPlace(networks);
    var management := Count(networks, IsManagement);
    if management > 1 {
      return Failure(TwoManagement);
    }
    var reordered := Reorder(networks);
    return if reordered.None? then Failure(InvalidNetwork) else Success(reordered.value);
  }

  /******* What comes of it *******/

  lemma MappedAgain(networks: seq<Network>)
    requires forall n <- networks :: Completed(n) == n
    ensures Mapped(networks, Completed) == networks
  {
  }

  lemma HandledAreCompleted(networks: seq<Network>)
    requires AllValid(networks, |networks|)
    ensures forall n <- Handled(networks) :: Valid(n) && Completed(n) == n && n.Keys == KNOWN
  {
    var c := Mapped(networks, Completed);
    PartsHave(c, IsExternal);
    forall n | n in Handled(networks) ensures Valid(n) && Completed(n) == n && n.Keys == KNOWN {
      assert n in c;
      var i :| 0 <= i < |c| && c[i] == n;
      CompletedIsFixed(networks[i]);
    }
  }

  /** Accepted networks come out each once, with all ten entries; the external one,
      if there is one, comes first. */
  lemma HandledIsPermutation(networks: seq<Network>)
    requires Refusal(networks).None?
    ensures multiset(Handled(networks)) == multiset(Mapped(networks, Completed))
    ensures forall n <- Handled(networks) :: Valid(n) && n.Keys == KNOWN
    ensures |Handled(networks)| == |networks|
    ensures forall i :: 0 < i < |networks| ==> !IsExternal(Handled(networks)[i])
  {
    SameElements(Mapped(networks, Completed), IsExternal);
    HandledAreCompleted(networks);
    SameCounts(networks);
    FrontShape(Mapped(networks, Completed), IsExternal);
  }

  /** The others stay in their order: without the external one, the list before and
      the list after are the same. */
  lemma OthersKeepTheirOrder(networks: seq<Network>)
    ensures Lacking(Handled(networks), IsExternal) == Lacking(Mapped(networks, Completed), IsExternal)
  {
    var c := Mapped(networks, Completed);
    FrontTwice(c, IsExternal);
    PartsHave(c, IsExternal);
    AllHave(Having(c, IsExternal), IsExternal);
    NoneHave(Lacking(c, IsExternal), IsExternal);
    OfConcatenation(Having(c, IsExternal), Lacking(c, IsExternal), IsExternal);
  }

  lemma HandledIsFixed(networks: seq<Network>)
    requires AllValid(networks, |networks|)
    ensures Handled(Handled(networks)) == Handled(networks)
  {
    HandledAreCompleted(networks);
    MappedAgain(Handled(networks));
    FrontTwice(Mapped(networks, Completed), IsExternal);
  }

  lemma CountsOfHandled(networks: seq<Network>)
    ensures |Having(Handled(networks), IsExternal)| == |Having(networks, IsExternal)|
    ensures |Having(Handled(networks), IsManagement)| == |Having(networks, IsManagement)|
  {
    SameCounts(networks);
    SameCountInFront(Mapped(networks, Completed), IsExternal, IsExternal);
    SameCountInFront(Mapped(networks, Completed), IsExternal, IsManagement);
  }

  lemma HandledIsAccepted(networks: seq<Network>)
    requires Refusal(networks).None?
    ensures Refusal(Handled(networks)).None?
  {
    HandledAreCompleted(networks);
    CountsOfHandled(networks);
    assert AllValid(Handled(networks), |Handled(networks)|);
  }

  /** Handling the result again accepts it and gives it back. */
  lemma HandledAgain(networks: seq<Network>)
    requires Refusal(networks).None?
    ensures Refusal(Handled(networks)).None? && Handled(Handled(networks)) == Handled(networks)
  {
    HandledIsAccepted(networks);
    HandledIsFixed(networks);
  }
}
