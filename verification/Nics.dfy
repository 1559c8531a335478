/**
 Bringing the network cards of a virtual machine in line with the networks asked
 for, and the check whether they are.
 */
module Nics {
  import opened Lists
  import opened Results

  /** A card, and the network it is really on. */
  datatype Nic = Nic(mac: string, network: string)

  /** What the runtime properties say of the card with the address. */
  datatype Record = Record(name: string, mac: string)

  /** The name in the first record with the address. */
  function NameOf(records: seq<Record>, mac: string): (r: Option<string>)
    ensures r.Some? ==> Record(r.value, mac) in records
    ensures r.None? <==> forall rec <- records :: rec.mac != mac
  {
    if records == [] then None
    else if records[0].mac == mac then Some(records[0].name)
    else NameOf(records[1..], mac)
  }

  /** It is the first such record. */
  lemma {:induction false} NameOfAt(records: seq<Record>, mac: string) returns (i: nat)
    requires NameOf(records, mac).Some?
    ensures i < |records| && records[i] == Record(NameOf(records, mac).value, mac)
    ensures forall j :: 0 <= j < i ==> records[j].mac != mac
  {
    i := 0;
    if records[0].mac != mac {
      var k := NameOfAt(records[1..], mac);
      assert forall j :: 0 < j <= k ==> records[j] == records[1..][j - 1];
      i := k + 1;
    }
  }

  method FindName(records: seq<Record>, mac: string) returns (r: Option<string>)
    ensures r == NameOf(records, mac)
  {
    for i := 0 to |records|
      invariant NameOf(records, mac) == NameOf(records[i..], mac)
    {
      assert records[i..][1..] == records[i + 1..];
      if mac == records[i].mac {
        return Some(records[i].name);
      }
    }
    return None;
  }

  /** The card stays: it is recorded, under a name that is asked for. */
  predicate Wanted(nic: Nic, records: seq<Record>, desired: seq<string>)
  {
    var name := NameOf(records, nic.mac);
    name.Some? && name.value in desired
  }

  /** In the records themselves: the first one with its address has a name that is
      asked for. */
  lemma WantedMeans(nic: Nic, records: seq<Record>, desired: seq<string>)
    ensures Wanted(nic, records, desired)
       <==> exists i ::
              && 0 <= i < |records| && records[i].mac == nic.mac && records[i].name in desired
              && forall j :: 0 <= j < i ==> records[j].mac != nic.mac
  {
    if NameOf(records, nic.mac).Some? {
      var i := NameOfAt(records, nic.mac);
    }
  }

  function Kept(nics: seq<Nic>, records: seq<Record>, desired: seq<string>): (r: seq<Nic>)
    ensures forall nic :: nic in r <==> nic in nics && Wanted(nic, records, desired)
    ensures |r| <= |nics|
  {
    if nics == [] then []
    else
      var last := nics[|nics| - 1];
      Kept(nics[..|nics| - 1], records, desired) + if Wanted(last, records, desired) then [last] else []
  }

  function Removed(nics: seq<Nic>, records: seq<Record>, desired: seq<string>): (r: seq<Nic>)
    ensures forall nic :: nic in r <==> nic in nics && !Wanted(nic, records, desired)
    ensures |r| == |nics| - |Kept(nics, records, desired)|
  {
    if nics == [] then []
    else
      var last := nics[|nics| - 1];
      Removed(nics[..|nics| - 1], records, desired) + if Wanted(last, records, desired) then [] else [last]
  }

  /** Those that stay and those that go are in the machine's order. */
  lemma {:induction false} PartsAreInOrder(nics: seq<Nic>, records: seq<Record>, desired: seq<string>)
    ensures IsSublist(nics, nic => Wanted(nic, records, desired), Kept(nics, records, desired))
    ensures IsSublist(nics, nic => !Wanted(nic, records, desired), Removed(nics, records, desired))
  {
    if nics == [] {
      EmptySublist<Nic>(nic => Wanted(nic, records, desired));
      EmptySublist<Nic>(nic => !Wanted(nic, records, desired));
    } else {
      var init := nics[..|nics| - 1];
      PartsAreInOrder(init, records, desired);
      KeptOfMore(nics, records, desired);
      RemovedOfMore(nics, records, desired);
    }
  }

  lemma KeptOfMore(nics: seq<Nic>, records: seq<Record>, desired: seq<string>)
    requires nics != []
    requires IsSublist(nics[..|nics| - 1], nic => Wanted(nic, records, desired), Kept(nics[..|nics| - 1], records, desired))
    ensures IsSublist(nics, nic => Wanted(nic, records, desired), Kept(nics, records, desired))
  {
    var kept := Kept(nics[..|nics| - 1], records, desired);
    assert kept + [] == kept;
    SublistOfMore(nics, nic => Wanted(nic, records, desired), kept, Kept(nics, records, desired));
  }

  lemma RemovedOfMore(nics: seq<Nic>, records: seq<Record>, desired: seq<string>)
    requires nics != []
    requires IsSublist(nics[..|nics| - 1], nic => !Wanted(nic, records, desired),
                       Removed(nics[..|nics| - 1], records, desired))
    ensures IsSublist(nics, nic => !Wanted(nic, records, desired), Removed(nics, records, desired))
  {
    var removed := Removed(nics[..|nics| - 1], records, desired);
    assert removed + [] == removed;
    SublistOfMore(nics, nic => !Wanted(nic, records, desired), removed, Removed(nics, records, desired));
  }

  function RecordedNames(nics: seq<Nic>, records: seq<Record>): set<string>
  {
    set nic | nic in nics && NameOf(records, nic.mac).Some? :: NameOf(records, nic.mac).value
  }

  /** The names asked for, in their order, that no card is recorded under. */
  function Missing(desired: seq<string>, recorded: set<string>): seq<string>
  {
    if desired == [] then []
    else
      var last := desired[|desired| - 1];
      Missing(desired[..|desired| - 1], recorded) + if last in recorded then [] else [last]
  }

  lemma {:induction false} InMissing(desired: seq<string>, recorded: set<string>, n: string)
    ensures n in Missing(desired, recorded) <==> n in desired && n !in recorded
  {
    if desired != [] {
      InMissing(desired[..|desired| - 1], recorded, n);
      assert n in desired <==> n in desired[..|desired| - 1] || n == desired[|desired| - 1];
    }
  }

  /** In the order asked for, repeats included. */
  lemma {:induction false} MissingInOrder(desired: seq<string>, recorded: set<string>)
    ensures IsSublist(desired, n => n !in recorded, Missing(desired, recorded))
  {
    if desired == [] {
      EmptySublist<string>(n => n !in recorded);
    } else {
      var init := desired[..|desired| - 1];
      MissingInOrder(init, recorded);
      assert Missing(init, recorded) + [] == Missing(init, recorded);
      SublistOfMore(desired, n => n !in recorded, Missing(init, recorded), Missing(desired, recorded));
    }
  }

  lemma MembersOfMissing(desired: seq<string>, recorded: set<string>)
    ensures forall n :: n in Missing(desired, recorded) <==> n in desired && n !in recorded
  {
    forall n ensures n in Missing(desired, recorded) <==> n in desired && n !in recorded {
      InMissing(desired, recorded, n);
    }
  }

  /** A card to add: its network, and the key it has in the request. */
  datatype Addition = Addition(network: string, key: nat)

  function Additions(names: seq<string>, first: nat): (r: seq<Addition>)
    ensures |r| == |names| && forall i :: 0 <= i < |r| ==> r[i] == Addition(names[i], first + i)
  {
    if names == [] then []
    else Additions(names[..|names| - 1], first) + [Addition(names[|names| - 1], first + |names| - 1)]
  }

  /******* The changes *******/

  lemma RecordedNamesStep(nics: seq<Nic>, records: seq<Record>, i: nat)
    requires i < |nics|
    ensures var name := NameOf(records, nics[i].mac);
            RecordedNames(nics[..i + 1], records)
            == RecordedNames(nics[..i], records) + if name.Some? then {name.value} else {}
  {
    assert forall nic :: nic in nics[..i + 1] <==> nic in nics[..i] || nic == nics[i];
  }

  /** `update`, the list of the networks there are. */
  method RealNetworks(nics: seq<Nic>, records: seq<Record>) returns (names: seq<string>)
    ensures AsSet(names) == RecordedNames(nics, records)
  {
    names := [];
    for i := 0 to |nics|
      invariant AsSet(names) == RecordedNames(nics[..i], records)
    {
      RecordedNamesStep(nics, records, i);
      var name := FindName(records, nics[i].mac);
      if name.Some? {
        ghost var was := names;
        names := names + [name.value];
        assert forall n :: n in names <==> n in was || n == name.value;
      }
    }
    assert nics[..|nics|] == nics;
  }

  /** The names of the first list that are not in the second. */
  method Minus(names: seq<string>, others: seq<string>) returns (r: seq<string>)
    ensures r == Missing(names, AsSet(others))
  {
    r := [];
    for i := 0 to |names|
      invariant r == Missing(names[..i], AsSet(others))
    {
      assert names[..i + 1][..i] == names[..i];
      if names[i] !in others {
        r := r + [names[i]];
      }
    }
    assert names[..|names|] == names;
  }

  lemma RemovedStep(nics: seq<Nic>, records: seq<Record>, desired: seq<string>, i: nat)
    requires i < |nics|
    ensures Removed(nics[..i + 1], records, desired)
         == Removed(nics[..i], records, desired) + if Wanted(nics[i], records, desired) then [] else [nics[i]]
  {
    assert nics[..i + 1][..i] == nics[..i];
  }

  /** `update`, the choice of the cards to remove. */
  method NicsToRemove(nics: seq<Nic>, records: seq<Record>, desired: seq<string>, unwanted: seq<string>)
    returns (r: seq<Nic>)
    requires forall n :: n in unwanted <==> n in RecordedNames(nics, records) && n !in desired
    ensures r == Removed(nics, records, desired)
  {
    r := [];
    for i := 0 to |nics|
      invariant r == Removed(nics[..i], records, desired)
    {
      RemovedStep(nics, records, desired, i);
      var name := FindName(records, nics[i].mac);
      assert nics[i] in nics && (name.Some? ==> name.value in RecordedNames(nics, records));
      if name.None? || name.value in unwanted {
        r := r + [nics[i]];
      }
    }
    assert nics[..|nics|] == nics;
  }

  lemma AdditionsStep(names: seq<string>, n: string, first: nat)
    ensures Additions(names + [n], first) == Additions(names, first) + [Addition(n, first + |names|)]
  {
    assert (names + [n])[..|names|] == names;
  }

  lemma MissingStep(desired: seq<string>, recorded: set<string>, i: nat)
    requires i < |desired|
    ensures Missing(desired[..i + 1], recorded)
         == Missing(desired[..i], recorded) + if desired[i] in recorded then [] else [desired[i]]
  {
    assert desired[..i + 1][..i] == desired[..i];
  }

  /** `update`, the additions: the counter goes on from the cards that stay. */
  method AdditionsFor(desired: seq<string>, missing: seq<string>, recorded: set<string>, stay: nat)
    returns (r: seq<Addition>)
    requires missing == Missing(desired, recorded)
    ensures r == Additions(missing, stay)
  {
    r := [];
    var count := stay;
    ghost var names: seq<string> := [];
    for i := 0 to |desired|
      invariant names == Missing(desired[..i], recorded)
      invariant r == Additions(names, stay) && count == stay + |names|
    {
      MissingStep(desired, recorded, i);
      InMissing(desired, recorded, desired[i]);
      if desired[i] in missing {
        AdditionsStep(names, desired[i], stay);
        r := r + [Addition(desired[i], count)];
        names := names + [desired[i]];
        count := count + 1;
      }
    }
    assert desired[..|desired|] == desired;
  }

  /** `update`, the device changes: the cards that are not recorded or not asked
      for go, the networks no card is recorded under come. */
  method DeviceChanges(nics: seq<Nic>, records: seq<Record>, desired: seq<string>)
    returns (removed: seq<Nic>, added: seq<Addition>)
    ensures removed == Removed(nics, records, desired)
    ensures added == Additions(Missing(desired, RecordedNames(nics, records)), |Kept(nics, records, desired)|)
  {
    var real_ := RealNetworks(nics, records);
    var unwanted := Minus(real_, desired);
    var missing := Minus(desired, real_);
    assert forall n :: n in real_ <==> n in RecordedNames(nics, records);
    MembersOfMissing(real_, AsSet(desired));
    removed := NicsToRemove(nics, records, desired, unwanted);
    added := AdditionsFor(desired, missing, RecordedNames(nics, records), |nics| - |removed|);
  }

  /******* The check *******/

  /** A card is not recorded, or the names recorded are not those asked for. */
  predicate Drifted(nics: seq<Nic>, records: seq<Record>, desired: seq<string>)
  {
    || (exists nic <- nics :: NameOf(records, nic.mac).None?)
    || RecordedNames(nics, records) != AsSet(desired)
  }

  /** `check_drift`, the networks: None stands for the random value that an
      unrecorded card contributes, and order and repeats are ignored. */
  method CheckDrift(nics: seq<Nic>, records: seq<Record>, desired: seq<string>) returns (drift: bool)
    ensures drift <==> Drifted(nics, records, desired)
  {
    var existing: seq<Option<string>> := [];
    for i := 0 to |nics|
      invariant |existing| == i
      invariant forall k :: 0 <= k < i ==> existing[k] == NameOf(records, nics[k].mac)
    {
      var name := FindName(records, nics[i].mac);
      existing := existing + [name];
    }
    ExistingAsSet(nics, records, existing);
    SameAsSets(existing, RecordedNames(nics, records), desired);
    drift := (set e | e in existing) != (set n | n in desired :: Some(n));
  }

  lemma ExistingAsSet(nics: seq<Nic>, records: seq<Record>, existing: seq<Option<string>>)
    requires |existing| == |nics|
    requires forall k :: 0 <= k < |nics| ==> existing[k] == NameOf(records, nics[k].mac)
    ensures None in existing <==> exists nic <- nics :: NameOf(records, nic.mac).None?
    ensures forall n :: Some(n) in existing <==> n in RecordedNames(nics, records)
  {
    forall nic | nic in nics ensures NameOf(records, nic.mac) in existing {
      var k :| 0 <= k < |nics| && nics[k] == nic;
      assert existing[k] in existing;
    }
  }

  lemma SameAsSets(existing: seq<Option<string>>, recorded: set<string>, desired: seq<string>)
    requires forall n :: Some(n) in existing <==> n in recorded
    ensures (set e | e in existing) == (set n | n in desired :: Some(n))
       <==> None !in existing && recorded == AsSet(desired)
  {
    var a, b := set e | e in existing, set n | n in desired :: Some(n);
    if a == b {
      assert None !in b;
      forall n ensures n in recorded <==> n in AsSet(desired) {
        assert Some(n) in a <==> Some(n) in b;
      }
    }
    if None !in existing && recorded == AsSet(desired) {
      forall e ensures e in a <==> e in b {
        if e.Some? {
          assert e.value in recorded <==> e.value in AsSet(desired);
        }
      }
    }
  }

  lemma NothingMissing(desired: seq<string>, recorded: set<string>)
    ensures Missing(desired, recorded) == [] <==> AsSet(desired) <= recorded
  {
    var missing := Missing(desired, recorded);
    MembersOfMissing(desired, recorded);
    if missing != [] {
      assert missing[0] in missing && missing[0] in AsSet(desired);
    } else {
      forall n | n in AsSet(desired) ensures n in recorded {
        assert n !in missing;
      }
    }
  }

  lemma NothingRemoved(nics: seq<Nic>, records: seq<Record>, desired: seq<string>)
    ensures Removed(nics, records, desired) == []
       <==> (forall nic <- nics :: NameOf(records, nic.mac).Some?) && RecordedNames(nics, records) <= AsSet(desired)
  {
    var removed := Removed(nics, records, desired);
    if removed != [] {
      var nic := removed[0];
      assert nic in nics && !Wanted(nic, records, desired);
      if NameOf(records, nic.mac).Some? {
        assert NameOf(records, nic.mac).value in RecordedNames(nics, records);
      }
    } else {
      forall nic | nic in nics ensures Wanted(nic, records, desired) {
        assert nic !in removed;
      }
    }
  }

  /** The check finds a difference exactly when the update has something to change. */
  lemma DriftMeansChanges(nics: seq<Nic>, records: seq<Record>, desired: seq<string>)
    ensures Drifted(nics, records, desired)
       <==> Removed(nics, records, desired) != [] || Missing(desired, RecordedNames(nics, records)) != []
  {
    NothingMissing(desired, RecordedNames(nics, records));
    NothingRemoved(nics, records, desired);
  }

  /******* One update *******/

  function Without(nics: seq<Nic>, gone: seq<Nic>): seq<Nic>
  {
    if nics == [] then []
    else
      var last := nics[|nics| - 1];
      Without(nics[..|nics| - 1], gone) + if last in gone then [] else [last]
  }

  lemma {:induction false} WithoutRemoved(nics: seq<Nic>, gone: seq<Nic>, records: seq<Record>, desired: seq<string>)
    requires forall nic <- nics :: nic in gone <==> !Wanted(nic, records, desired)
    ensures Without(nics, gone) == Kept(nics, records, desired)
  {
    if nics != [] {
      WithoutRemoved(nics[..|nics| - 1], gone, records, desired);
    }
  }

  function RecordsOf(nics: seq<Nic>): (r: seq<Record>)
    ensures |r| == |nics| && forall i :: 0 <= i < |r| ==> r[i] == Record(nics[i].network, nics[i].mac)
  {
    if nics == [] then [] else RecordsOf(nics[..|nics| - 1]) + [Record(nics[|nics| - 1].network, nics[|nics| - 1].mac)]
  }

  /** What a card is attached to: an NSX-T network by its id, a distributed port
      group by its key, or a standard port group by its name. */
  datatype Backing = Opaque(id: string) | PortGroup(key: string) | Standard(name: string)

  datatype Device = Device(mac: string, backing: Backing)

  /** A network of the machine; only port groups have a key. */
  datatype VmNetwork = VmNetwork(name: string, key: Option<string>)

  /** The name of the last network with the key. */
  function NameOfKey(networks: seq<VmNetwork>, key: string): (r: Option<string>)
    ensures r.Some? <==> exists n <- networks :: n.key == Some(key)
    ensures r.Some? ==> VmNetwork(r.value, Some(key)) in networks
  {
    if networks == [] then None
    else
      var last := networks[|networks| - 1];
      if last.key == Some(key) then Some(last.name) else NameOfKey(networks[..|networks| - 1], key)
  }

  /** It is the last such network. */
  lemma {:induction false} NameOfKeyAt(networks: seq<VmNetwork>, key: string) returns (i: nat)
    requires NameOfKey(networks, key).Some?
    ensures i < |networks| && networks[i] == VmNetwork(NameOfKey(networks, key).value, Some(key))
    ensures forall j :: i < j < |networks| ==> networks[j].key != Some(key)
  {
    i := |networks| - 1;
    if networks[i].key != Some(key) {
      i := NameOfKeyAt(networks[..|networks| - 1], key);
    }
  }

  /** The name of a card's network, by the kind of its backing. */
  ghost predicate IsNamed(backing: Backing, networks: seq<VmNetwork>, name: string)
  {
    match backing
    case Opaque(id) => name == id
    case Standard(n) => name == n
    case PortGroup(key) =>
      exists i :: 0 <= i < |networks| && networks[i] == VmNetwork(name, Some(key))
                  && forall j :: i < j < |networks| ==> networks[j].key != Some(key)
  }

  lemma NetworkNameMeans(backing: Backing, networks: seq<VmNetwork>)
    ensures NetworkName(backing, networks).None? <==>
              backing.PortGroup? && forall n <- networks :: n.key != Some(backing.key)
    ensures forall name :: NetworkName(backing, networks) == Some(name) ==> IsNamed(backing, networks, name)
  {
    if backing.PortGroup? && NameOfKey(networks, backing.key).Some? {
      var i := NameOfKeyAt(networks, backing.key);
    }
  }

  function NetworkName(backing: Backing, networks: seq<VmNetwork>): Option<string>
  {
    match backing
    case Opaque(id) => Some(id)
    case Standard(name) => Some(name)
    case PortGroup(key) => NameOfKey(networks, key)
  }

  method FindNameOfKey(networks: seq<VmNetwork>, key: string) returns (r: Option<string>)
    ensures r == NameOfKey(networks, key)
  {
    r := None;
    for i := 0 to |networks|
      invariant r == NameOfKey(networks[..i], key)
    {
      assert networks[..i + 1][..i] == networks[..i];
      if networks[i].key == Some(key) {
        r := Some(networks[i].name);
      }
    }
    assert networks[..|networks|] == networks;
  }

  predicate AllNamed(devices: seq<Device>, networks: seq<VmNetwork>)
  {
    forall d <- devices :: NetworkName(d.backing, networks).Some?
  }

  /** `get_vm_networks`; None for the error that a card's network has no name. */
  method GetVmNetworks(devices: seq<Device>, networks: seq<VmNetwork>) returns (r: Option<seq<Record>>)
    ensures r.Some? <==> AllNamed(devices, networks)
    ensures r.Some? ==> |r.value| == |devices|
    ensures r.Some? ==> forall i :: 0 <= i < |devices| ==>
                          && NetworkName(devices[i].backing, networks) == Some(r.value[i].name)
                          && r.value[i].mac == devices[i].mac
    ensures r.Some? ==> forall i :: 0 <= i < |devices| ==> IsNamed(devices[i].backing, networks, r.value[i].name)
    ensures r.None? <==> exists d <- devices :: d.backing.PortGroup? && forall n <- networks :: n.key != Some(d.backing.key)
  {
    forall d | d in devices
      ensures NetworkName(d.backing, networks).None? <==>
                d.backing.PortGroup? && forall n <- networks :: n.key != Some(d.backing.key)
      ensures forall name :: NetworkName(d.backing, networks) == Some(name) ==> IsNamed(d.backing, networks, name)
    {
      NetworkNameMeans(d.backing, networks);
    }
    var records: seq<Record> := [];
    for i := 0 to |devices|
      invariant |records| == i
      invariant forall k :: 0 <= k < i ==>
                  NetworkName(devices[k].backing, networks) == Some(records[k].name) && records[k].mac == devices[k].mac
    {
      var name: Option<string>;
      match devices[i].backing {
        case Opaque(id) => name := Some(id);
        case PortGroup(key) => name := FindNameOfKey(networks, key);
        case Standard(deviceName) => name := Some(deviceName);
      }
      if name.None? {
        assert devices[i] in devices;
        return None;
      }
      records := records + [Record(name.value, devices[i].mac)];
    }
    return Some(records);
  }

  /** The devices that the platform lists for the cards: a network that has a name
      is the one the card is on. */
  predicate Shows(nics: seq<Nic>, devices: seq<Device>, networks: seq<VmNetwork>)
  {
    && |devices| == |nics|
    && forall i :: 0 <= i < |nics| ==>
         && devices[i].mac == nics[i].mac
         && (NetworkName(devices[i].backing, networks).Some? ==>
               NetworkName(devices[i].backing, networks).value == nics[i].network)
  }

  /** The machine's cards and the runtime property `networks`. */
  class Server {
    var nics: seq<Nic>
    var records: seq<Record>

    constructor (nics: seq<Nic>, records: seq<Record>)
      ensures this.nics == nics && this.records == records
    {
      this.nics, this.records := nics, records;
    }

    /** `update`, the networks: `arrivals` are the cards that the platform makes of
        the additions, one for each; `devices` and `networks` are what it lists for
        the machine afterwards. False for the error that a network has no name, in
        which case the records stay as they were. */
    method Update(desired: seq<string>, arrivals: seq<Nic>, devices: seq<Device>, networks: seq<VmNetwork>)
      returns (stored: bool, removed: seq<Nic>, added: seq<Addition>)
      requires |arrivals| == |Missing(desired, RecordedNames(nics, records))|
      requires Shows(Kept(nics, records, desired) + arrivals, devices, networks)
      modifies this
      ensures removed == old(Removed(nics, records, desired))
      ensures added == old(Additions(Missing(desired, RecordedNames(nics, records)), |Kept(nics, records, desired)|))
      ensures nics == old(Kept(nics, records, desired)) + arrivals
      ensures stored <==> AllNamed(devices, networks)
      ensures records == if stored then RecordsOf(nics) else old(records)
    {
      removed, added := DeviceChanges(nics, records, desired);
      WithoutRemoved(nics, removed, records, desired);
      nics := Without(nics, removed) + arrivals;
      var r := GetVmNetworks(devices, networks);
      stored := r.Some?;
      if r.Some? {
        forall i | 0 <= i < |nics| ensures r.value[i] == RecordsOf(nics)[i] {
          assert devices[i] in devices;
        }
        records := r.value;
      }
    }
  }

  /******* Convergence *******/

  predicate DistinctMacs(nics: seq<Nic>)
  {
    forall i, j :: 0 <= i < j < |nics| ==> nics[i].mac != nics[j].mac
  }

  function NetworksOf(nics: seq<Nic>): set<string> { set nic | nic in nics :: nic.network }

  /** The recorded cards are on the networks that are recorded for them. */
  predicate Current(nics: seq<Nic>, records: seq<Record>)
  {
    forall nic <- nics :: NameOf(records, nic.mac).Some? ==> NameOf(records, nic.mac).value == nic.network
  }

  /** The names under which the platform reports the networks asked for. */
  function Reported(called: string -> string, names: set<string>): set<string>
  {
    set n | n in names :: called(n)
  }

  /** The platform's cards for the additions. */
  predicate Arrived(names: seq<string>, called: string -> string, arrivals: seq<Nic>)
  {
    |arrivals| == |names| && forall i :: 0 <= i < |names| ==> arrivals[i].network == called(names[i])
  }

  lemma {:induction false} NameInRecordsOf(nics: seq<Nic>, k: nat)
    requires DistinctMacs(nics) && k < |nics|
    ensures NameOf(RecordsOf(nics), nics[k].mac) == Some(nics[k].network)
  {
    var r := NameOf(RecordsOf(nics), nics[k].mac);
    assert RecordsOf(nics)[k] in RecordsOf(nics);
    var i :| 0 <= i < |nics| && RecordsOf(nics)[i] == Record(r.value, nics[k].mac);
  }

  /** Once the details are stored again, the check compares what is real. */
  lemma DriftAfterStoring(nics: seq<Nic>, desired: seq<string>)
    requires DistinctMacs(nics)
    ensures Current(nics, RecordsOf(nics))
    ensures Drifted(nics, RecordsOf(nics), desired) <==> NetworksOf(nics) != AsSet(desired)
  {
    forall nic | nic in nics ensures NameOf(RecordsOf(nics), nic.mac) == Some(nic.network) {
      var k :| 0 <= k < |nics| && nics[k] == nic;
      NameInRecordsOf(nics, k);
    }
    assert RecordedNames(nics, RecordsOf(nics)) == NetworksOf(nics);
  }

  lemma NetworksAfter(nics: seq<Nic>, records: seq<Record>, desired: seq<string>, called: string -> string,
                      arrivals: seq<Nic>)
    requires var missing := Missing(desired, RecordedNames(nics, records)); Arrived(missing, called, arrivals)
    ensures NetworksOf(Kept(nics, records, desired) + arrivals)
         == NetworksOf(Kept(nics, records, desired)) + Reported(called, AsSet(desired) - RecordedNames(nics, records))
  {
    var kept, missing := Kept(nics, records, desired), Missing(desired, RecordedNames(nics, records));
    MembersOfMissing(desired, RecordedNames(nics, records));
    assert NetworksOf(kept + arrivals) == NetworksOf(kept) + NetworksOf(arrivals);
    ArrivedNetworks(missing, called, arrivals);
    assert AsSet(missing) == AsSet(desired) - RecordedNames(nics, records);
  }

  lemma ArrivedNetworks(names: seq<string>, called: string -> string, arrivals: seq<Nic>)
    requires Arrived(names, called, arrivals)
    ensures NetworksOf(arrivals) == Reported(called, AsSet(names))
  {
    forall n | n in AsSet(names) ensures called(n) in NetworksOf(arrivals) {
      var i :| 0 <= i < |names| && names[i] == n;
      assert arrivals[i] in arrivals;
    }
    forall nic | nic in arrivals ensures nic.network in Reported(called, AsSet(names)) {
      var i :| 0 <= i < |arrivals| && arrivals[i] == nic;
      assert names[i] in AsSet(names);
    }
  }

  /** The cards that stay, where the records are current, are on the recorded ones
      of the networks asked for. */
  lemma NetworksKept(nics: seq<Nic>, records: seq<Record>, desired: seq<string>)
    requires Current(nics, records)
    ensures NetworksOf(Kept(nics, records, desired)) == AsSet(desired) * RecordedNames(nics, records)
  {
    var kept := Kept(nics, records, desired);
    forall n | n in AsSet(desired) * RecordedNames(nics, records) ensures n in NetworksOf(kept) {
      var nic :| nic in nics && NameOf(records, nic.mac) == Some(n);
      assert nic in kept;
    }
  }

  lemma {:induction false} ReportedIsNoLarger(called: string -> string, names: set<string>)
    ensures |Reported(called, names)| <= |names|
  {
    if names != {} {
      var n :| n in names;
      ReportedIsNoLarger(called, names - {n});
      assert Reported(called, names) == Reported(called, names - {n}) + {called(n)};
    }
  }

  /** Where the records are current, one update leads to exactly the networks asked
      for if and only if the platform reports those it adds under the names they
      were asked for by, in whatever assignment. */
  lemma ConvergesExactly(nics: seq<Nic>, records: seq<Record>, desired: seq<string>, called: string -> string,
                         arrivals: seq<Nic>)
    requires Current(nics, records)
    requires Arrived(Missing(desired, RecordedNames(nics, records)), called, arrivals)
    ensures var missing := AsSet(desired) - RecordedNames(nics, records);
            (NetworksOf(Kept(nics, records, desired) + arrivals) == AsSet(desired)
             <==> Reported(called, missing) == missing)
  {
    var recorded := RecordedNames(nics, records);
    var missing := AsSet(desired) - recorded;
    NetworksAfter(nics, records, desired, called, arrivals);
    NetworksKept(nics, records, desired);
    ReportedIsNoLarger(called, missing);
    if NetworksOf(Kept(nics, records, desired) + arrivals) == AsSet(desired) {
      assert missing <= Reported(called, missing);
      SubsetSize(missing, Reported(called, missing));
    }
  }

  /** Where the platform reports every network under its own name, one update
      leads to exactly the networks asked for if and only if the cards that stay
      are on networks asked for, and every name they are recorded under is the
      network of one of them. */
  lemma StaleRecords(nics: seq<Nic>, records: seq<Record>, desired: seq<string>, called: string -> string,
                     arrivals: seq<Nic>)
    requires forall n <- desired :: called(n) == n
    requires Arrived(Missing(desired, RecordedNames(nics, records)), called, arrivals)
    ensures var kept := Kept(nics, records, desired);
            (NetworksOf(kept + arrivals) == AsSet(desired)
             <==> NetworksOf(kept) <= AsSet(desired) && RecordedNames(kept, records) <= NetworksOf(kept))
  {
    var kept, recorded := Kept(nics, records, desired), RecordedNames(nics, records);
    var missing := AsSet(desired) - recorded;
    NetworksAfter(nics, records, desired, called, arrivals);
    assert Reported(called, missing) == missing;
    assert RecordedNames(kept, records) == AsSet(desired) * recorded;
  }

  /** The machine has exactly the networks asked for, every card is recorded, the
      check finds nothing and another update changes nothing. */
  predicate Settled(nics: seq<Nic>, records: seq<Record>, desired: seq<string>)
  {
    && NetworksOf(nics) == AsSet(desired)
    && (forall nic <- nics :: NameOf(records, nic.mac) == Some(nic.network))
    && !Drifted(nics, records, desired)
    && Removed(nics, records, desired) == [] && Missing(desired, RecordedNames(nics, records)) == []
  }

  lemma SettledOnceEqual(nics: seq<Nic>, desired: seq<string>)
    requires DistinctMacs(nics) && NetworksOf(nics) == AsSet(desired)
    ensures Settled(nics, RecordsOf(nics), desired)
  {
    DriftAfterStoring(nics, desired);
    DriftMeansChanges(nics, RecordsOf(nics), desired);
  }

  /** From current records, one update settles the machine. */
  lemma Converges(nics: seq<Nic>, records: seq<Record>, desired: seq<string>, called: string -> string,
                  arrivals: seq<Nic>)
    requires Current(nics, records) && forall n <- desired :: called(n) == n
    requires Arrived(Missing(desired, RecordedNames(nics, records)), called, arrivals)
    requires DistinctMacs(Kept(nics, records, desired) + arrivals)
    ensures var after := Kept(nics, records, desired) + arrivals; Settled(after, RecordsOf(after), desired)
  {
    var missing := AsSet(desired) - RecordedNames(nics, records);
    assert Reported(called, missing) == missing;
    ConvergesExactly(nics, records, desired, called, arrivals);
    SettledOnceEqual(Kept(nics, records, desired) + arrivals, desired);
  }

  /** Whatever the records say at first, two updates settle it. */
  lemma TwoUpdatesSettle(nics: seq<Nic>, records: seq<Record>, desired: seq<string>, called: string -> string,
                         arrivals: seq<Nic>, later: seq<Nic>)
    requires forall n <- desired :: called(n) == n
    requires var once := Kept(nics, records, desired) + arrivals;
             && DistinctMacs(once) && DistinctMacs(Kept(once, RecordsOf(once), desired) + later)
             && Arrived(Missing(desired, RecordedNames(once, RecordsOf(once))), called, later)
    ensures var once := Kept(nics, records, desired) + arrivals;
            var twice := Kept(once, RecordsOf(once), desired) + later;
            Settled(twice, RecordsOf(twice), desired)
  {
    var once := Kept(nics, records, desired) + arrivals;
    DriftAfterStoring(once, desired);
    Converges(once, RecordsOf(once), desired, called, later);
  }
}
