/**
 Creating a virtual disk: the choice of the controller, the address of the new
 disk, and the attempts that are resumed through the saved name of the disk.
 */
module DiskCreation {
  import opened Results
  import opened Runs
  import opened DiskNames
  import opened Lists

  datatype Disk = Disk(name: string, unit: nat, controllerKey: int)

  /** `attached` is the number of devices on the controller. */
  datatype Controller = Controller(key: int, bus: nat, attached: nat)

  /** The devices of a machine that matter here. */
  datatype Hardware = Hardware(disks: seq<Disk>, controllers: seq<Controller>)

  function NamesOf(disks: seq<Disk>): (r: seq<string>)
    ensures |r| == |disks| && forall i :: 0 <= i < |r| ==> r[i] == disks[i].name
    ensures forall name :: name in r <==> exists d <- disks :: d.name == name
  {
    if disks == [] then [] else
      var r := NamesOf(disks[..|disks| - 1]) + [disks[|disks| - 1].name];
      assert forall d <- disks :: d in disks[..|disks| - 1] || d == disks[|disks| - 1];
      r
  }

  /******* The controller *******/

  /** No parent asked for: the only controller there is. Otherwise the first one
      with the parent's key. */
  ghost predicate IsParent(controllers: seq<Controller>, parentKey: int, c: Controller)
  {
    if parentKey < 0 then controllers == [c]
    else exists i :: 0 <= i < |controllers| && controllers[i] == c && c.key == parentKey
                     && forall j :: 0 <= j < i ==> controllers[j].key != parentKey
  }

  /** `create_storage`, the search for the controller. */
  method PickController(controllers: seq<Controller>, parentKey: int) returns (r: Option<Controller>)
    ensures r.Some? ==> IsParent(controllers, parentKey, r.value)
    ensures r.None? ==> forall c :: !IsParent(controllers, parentKey, c)
  {
    var controller: Option<Controller> := None;
    var count := 0;
    for i := 0 to |controllers|
      invariant parentKey < 0 ==> count == i && (i > 0 ==> controller == Some(controllers[i - 1]))
      invariant parentKey >= 0 ==> count == 0 && forall j :: 0 <= j < i ==> controllers[j].key != parentKey
    {
      if parentKey < 0 {
        count := count + 1;
        controller := Some(controllers[i]);
      } else if parentKey == controllers[i].key {
        return Some(controllers[i]);
      }
    }
    if count != 1 {
      return None;
    }
    return controller;
  }

  /******* The address *******/

  function FirstNamed(disks: seq<Disk>, name: string): (r: Option<Disk>)
    ensures r.Some? ==> r.value in disks && r.value.name == name
    ensures r.None? <==> forall d <- disks :: d.name != name
  {
    if disks == [] then None
    else if disks[0].name == name then Some(disks[0])
    else FirstNamed(disks[1..], name)
  }

  function BusOf(controllers: seq<Controller>, key: int): (r: Option<nat>)
    ensures r.Some? ==> exists c <- controllers :: c.key == key && c.bus == r.value
    ensures r.None? <==> forall c <- controllers :: c.key != key
  {
    if controllers == [] then None
    else if controllers[0].key == key then Some(controllers[0].bus)
    else BusOf(controllers[1..], key)
  }

  function ScsiId(bus: nat, unit: nat): string { Print(bus) + ":" + Print(unit) }

  lemma ColonOfScsiId(bus: nat, unit: nat)
    ensures var s, n := ScsiId(bus, unit), |Print(bus)|;
            && n < |s| && s[n] == ':' && s[..n] == Print(bus) && s[n + 1..] == Print(unit)
            && forall i :: 0 <= i < n ==> IsDigit(s[i])
  {
    var s := ScsiId(bus, unit);
    assert s[..|Print(bus)|] == Print(bus) && s[|Print(bus)| + 1..] == Print(unit);
  }

  /** The text tells bus and unit apart. */
  lemma ScsiIdIsExact(bus: nat, unit: nat, bus': nat, unit': nat)
    requires ScsiId(bus, unit) == ScsiId(bus', unit')
    ensures bus == bus' && unit == unit'
  {
    ColonOfScsiId(bus, unit);
    ColonOfScsiId(bus', unit');
    assert |Print(bus)| == |Print(bus')|;
    NumberOfPrint(bus);
    NumberOfPrint(bus');
    NumberOfPrint(unit);
    NumberOfPrint(unit');
  }

  /** Bus and unit of the first disk with the name. */
  function Address(disks: seq<Disk>, controllers: seq<Controller>, name: string): Option<string>
  {
    var disk := FirstNamed(disks, name);
    if disk.None? then None
    else
      var bus := BusOf(controllers, disk.value.controllerKey);
      if bus.None? then None else Some(ScsiId(bus.value, disk.value.unit))
  }

  lemma {:induction false} FirstNamedAt(disks: seq<Disk>, name: string) returns (i: nat)
    requires FirstNamed(disks, name).Some?
    ensures i < |disks| && disks[i] == FirstNamed(disks, name).value
    ensures forall j :: 0 <= j < i ==> disks[j].name != name
  {
    i := 0;
    if disks[0].name != name {
      var k := FirstNamedAt(disks[1..], name);
      assert forall j :: 0 < j <= k ==> disks[j] == disks[1..][j - 1];
      i := k + 1;
    }
  }

  lemma {:induction false} BusOfAt(controllers: seq<Controller>, key: int) returns (i: nat)
    requires BusOf(controllers, key).Some?
    ensures i < |controllers| && controllers[i].key == key && controllers[i].bus == BusOf(controllers, key).value
    ensures forall j :: 0 <= j < i ==> controllers[j].key != key
  {
    i := 0;
    if controllers[0].key != key {
      var k := BusOfAt(controllers[1..], key);
      assert forall j :: 0 < j <= k ==> controllers[j] == controllers[1..][j - 1];
      i := k + 1;
    }
  }

  /** The address is the bus of the first controller with the key of the first disk
      with the name, and the unit of that disk. */
  lemma AddressIsFirst(disks: seq<Disk>, controllers: seq<Controller>, name: string) returns (d: nat, c: nat)
    requires Address(disks, controllers, name).Some?
    ensures d < |disks| && disks[d].name == name && forall j :: 0 <= j < d ==> disks[j].name != name
    ensures c < |controllers| && controllers[c].key == disks[d].controllerKey
    ensures forall j :: 0 <= j < c ==> controllers[j].key != controllers[c].key
    ensures Address(disks, controllers, name).value == Print(controllers[c].bus) + ":" + Print(disks[d].unit)
  {
    d := FirstNamedAt(disks, name);
    c := BusOfAt(controllers, disks[d].controllerKey);
  }

  /** There is none exactly when no disk has the name, or no controller the key of
      the first one that does. */
  lemma AddressIsMissing(disks: seq<Disk>, controllers: seq<Controller>, name: string)
    ensures Address(disks, controllers, name).None?
       <==> forall i :: 0 <= i < |disks| && disks[i].name == name
                        && (forall j :: 0 <= j < i ==> disks[j].name != name) ==>
              forall c <- controllers :: c.key != disks[i].controllerKey
  {
    if FirstNamed(disks, name).Some? {
      var i := FirstNamedAt(disks, name);
    }
  }

  /** `create_storage`, the search for the new disk. */
  method FindAddress(disks: seq<Disk>, controllers: seq<Controller>, name: string) returns (r: Option<string>)
    ensures r == Address(disks, controllers, name)
  {
    for i := 0 to |disks|
      invariant FirstNamed(disks, name) == FirstNamed(disks[i..], name)
    {
      assert disks[i..][1..] == disks[i + 1..];
      if disks[i].name == name {
        for k := 0 to |controllers|
          invariant BusOf(controllers, disks[i].controllerKey) == BusOf(controllers[k..], disks[i].controllerKey)
        {
          assert controllers[k..][1..] == controllers[k + 1..];
          if controllers[k].key == disks[i].controllerKey {
            return Some(ScsiId(controllers[k].bus, disks[i].unit));
          }
        }
        return None;
      }
    }
    return None;
  }

  /******* One attempt *******/

  datatype Waited = Returned | RetryRaised | ErrorRaised | ClashRaised

  datatype Failed = Retrying | TaskFailed | NoFreeName | FirstNameInvalid | NoController | ControllerFull | NoAddress

  /** An empty name is taken for none. */
  predicate Unset(name: Option<string>) { name.None? || name.value == "" }

  /** The name that the disks there are allow, or why there is none. */
  predicate Nameable(disks: seq<Disk>) { FirstIsWellFormed(NamesOf(disks)) && BaseOf(NamesOf(disks)) != "" }

  /** What is asked of the platform, or why nothing is. */
  ghost predicate Planned(disks: seq<Disk>, controllers: seq<Controller>, parentKey: int, r: Result<Disk, Failed>)
  {
    match r
    case Success(disk) =>
      && Nameable(disks) && disk.name == NewName(NamesOf(disks))
      && exists c :: IsParent(controllers, parentKey, c)
                     && c.key == disk.controllerKey && NextUnit(c.attached) == Some(disk.unit)
    case Failure(e) =>
      if disks != [] && !WellFormed(disks[0].name) then e == Failed.FirstNameInvalid
      else if !Nameable(disks) then e == NoFreeName
      else
        || (e == NoController && forall c :: !IsParent(controllers, parentKey, c))
        || (e == ControllerFull && exists c :: IsParent(controllers, parentKey, c) && c.attached == 15)
  }

  method Plan(disks: seq<Disk>, controllers: seq<Controller>, parentKey: int) returns (r: Result<Disk, Failed>)
    requires forall d <- disks :: '\n' !in d.name
    ensures Planned(disks, controllers, parentKey, r)
  {
    var name := NewDiskName(NamesOf(disks));
    if name.Failure? {
      return Failure(if name.error.NoName? then NoFreeName else Failed.FirstNameInvalid);
    }
    var controller := PickController(controllers, parentKey);
    if controller.None? {
      return Failure(NoController);
    }
    var unit := NextUnit(controller.value.attached);
    if unit.None? {
      return Failure(ControllerFull);
    }
    return Success(Disk(name.value, unit.value, controller.value.key));
  }

  /** The runtime properties of the storage, and the requests it has made. */
  datatype Props = Props(saved: Option<string>, fileName: Option<string>, scsi: Option<string>, requests: seq<Disk>)

  function Asked(p: Props, disk: Disk): Props { p.(saved := Some(disk.name), requests := p.requests + [disk]) }

  function Ended(p: Props, name: string, address: Option<string>): Props
  {
    if address.Some? then p.(saved := None, fileName := Some(name), scsi := address) else p.(saved := None)
  }

  /** What one attempt does to the properties, and how it ends. */
  ghost predicate IsAttempt(p: Props, before: Hardware, parentKey: int, waited: Waited,
                            later: Hardware, p': Props, r: Result<(), Failed>)
  {
    exists plan ::
      && (NeedsPlan(p) ==> Planned(before.disks, before.controllers, parentKey, plan))
      && FollowsPlan(p, plan, waited, later, p', r)
  }

  predicate NeedsPlan(p: Props) { Unset(p.fileName) && Unset(p.saved) }

  /** Nothing where a file name is recorded, only the search where a name is saved. */
  predicate FollowsPlan(p: Props, plan: Result<Disk, Failed>, waited: Waited, later: Hardware,
                        p': Props, r: Result<(), Failed>)
  {
    if !Unset(p.fileName) then p' == p && r.Success?
    else if !Unset(p.saved) then IsEnd(p, p.saved.value, later, p', r)
    else IsFirst(p, plan, waited, later, p', r)
  }

  predicate IsFirst(p: Props, plan: Result<Disk, Failed>, waited: Waited, later: Hardware,
                    p': Props, r: Result<(), Failed>)
  {
    match plan
    case Failure(e) => p' == p && r == Failure(e)
    case Success(disk) =>
      match waited
      case Returned => IsEnd(Asked(p, disk), disk.name, later, p', r)
      case ErrorRaised => p' == Asked(p, disk) && r == Failure(TaskFailed)
      case _ => p' == Asked(p, disk) && r == Failure(Retrying)
  }

  predicate IsEnd(p: Props, name: string, later: Hardware, p': Props, r: Result<(), Failed>)
  {
    var address := Address(later.disks, later.controllers, name);
    p' == Ended(p, name, address) && r == if address.Some? then Success(()) else Failure(NoAddress)
  }

  class Storage {
    var saved: Option<string>
    var fileName: Option<string>
    var scsi: Option<string>
    var requests: seq<Disk>

    constructor ()
      ensures Now() == Props(None, None, None, [])
    {
      saved, fileName, scsi, requests := None, None, None, [];
    }

    function Now(): Props
      reads this
    {
      Props(saved, fileName, scsi, requests)
    }

    /** `create_storage` up to the request; none is made while a name is saved. */
    method Request(before: Hardware, parentKey: int) returns (r: Result<Disk, Failed>)
      requires forall d <- before.disks :: '\n' !in d.name
      modifies this
      ensures Planned(before.disks, before.controllers, parentKey, r)
      ensures Now() == if r.Success? then Asked(old(Now()), r.value) else old(Now())
    {
      r := Plan(before.disks, before.controllers, parentKey);
      if r.Success? {
        saved, requests := Some(r.value.name), requests + [r.value];
      }
    }

    /** `create_storage` after the wait. */
    method Finish(name: string, later: Hardware) returns (r: Result<(), Failed>)
      modifies this
      ensures IsEnd(old(Now()), name, later, Now(), r)
    {
      saved := None;
      var address := FindAddress(later.disks, later.controllers, name);
      if address.None? {
        return Failure(NoAddress);
      }
      fileName, scsi := Some(name), address;
      return Success(());
    }

    /** `create`: the devices as cached when the attempt starts, how the wait for
        the task ends, and the devices read from the platform after it. */
    method Create(before: Hardware, parentKey: int, waited: Waited, later: Hardware) returns (r: Result<(), Failed>)
      requires forall d <- before.disks :: '\n' !in d.name
      modifies this
      ensures IsAttempt(old(Now()), before, parentKey, waited, later, Now(), r)
      // a file name is recorded
      ensures old(fileName.Some? && fileName.value != "") ==> r.Success? && Now() == old(Now())
      // a name is saved
      ensures old((fileName.None? || fileName.value == "") && saved.Some? && saved.value != "") ==>
                && requests == old(requests) && (r.Success? || r == Failure(NoAddress))
                && (r.Success? ==> fileName == old(saved))
      // neither: a request, unless there is a reason against it
      ensures old((fileName.None? || fileName.value == "") && (saved.None? || saved.value == "")) ==>
                if requests == old(requests) then
                  Now() == old(Now()) && r.Failure? && r.error != Retrying && r.error != TaskFailed && r.error != NoAddress
                else
                  && |requests| == |old(requests)| + 1 && requests[..|old(requests)|] == old(requests)
                  && (r.Success? ==> fileName == Some(requests[|old(requests)|].name))
                  && (r == Failure(TaskFailed) <==> waited == ErrorRaised)
                  && (r == Failure(Retrying) <==> waited == RetryRaised || waited == ClashRaised)
                  && (r.Success? || r == Failure(NoAddress) || saved == Some(requests[|old(requests)|].name))
      // the search
      ensures old(fileName.None? || fileName.value == "") && r.Success? ==>
                saved.None? && fileName.Some? && scsi.Some?
                && scsi == Address(later.disks, later.controllers, fileName.value)
      ensures r == Failure(NoAddress) ==> saved.None?
      ensures r.Failure? ==> fileName == old(fileName) && scsi == old(scsi)
    {
      ghost var p := Now();
      if !Unset(fileName) {
        r := Success(());
        assert FollowsPlan(p, Failure(Retrying), waited, later, Now(), r);
        return;
      }
      if !Unset(saved) {
        r := Finish(saved.value, later);
        assert FollowsPlan(p, Failure(Retrying), waited, later, Now(), r);
        return;
      }
      var plan := Request(before, parentKey);
      if plan.Failure? {
        r := Failure(plan.error);
      } else if waited == Returned {
        r := Finish(plan.value.name, later);
      } else {
        r := Failure(if waited == ErrorRaised then TaskFailed else Retrying);
      }
      assert FollowsPlan(p, plan, waited, later, Now(), r);
    }
  }

  /******* Runs of attempts *******/

  datatype Point = Idle | Begun | Waiting | Looking

  /** `pending`: the disk of the task that is not done; `failed`: the last task
      failed, `failures` how many did; `made`: the names of the disks that the
      storage's own tasks added; `lost`: somebody removed a disk of its own. */
  datatype State = State(p: Props, disks: seq<Disk>, controllers: seq<Controller>, pending: Option<Disk>, point: Point,
                         failed: bool, failures: nat, made: set<string>, lost: bool)

  datatype Action =
    | Begin | Submit(disk: Disk) | Refuse | Skip | WaitReturns | WaitRetries | WaitFails | Look
    | TaskDone | TaskFails
    | OutsiderAdds(disk: Disk) | OutsiderRemoves(name: string)

  predicate Enabled(s: State, a: Action)
  {
    match a
    // the wrapper lets no attempt begin while the saved task is unfinished
    case Begin => s.point == Idle && s.pending.None? && Unset(s.p.fileName)
    case Submit(disk) =>
      && s.point == Begun && Unset(s.p.saved)
      && Nameable(s.disks) && disk.name == NewName(NamesOf(s.disks))
      && BusOf(s.controllers, disk.controllerKey).Some?
    case Refuse => s.point == Begun && Unset(s.p.saved)
    case Skip => s.point == Begun && !Unset(s.p.saved)
    case WaitReturns => s.point == Waiting && s.pending.None? && !s.failed
    case WaitRetries => s.point == Waiting
    case WaitFails => s.point == Waiting && s.pending.None? && s.failed
    case Look => s.point == Looking && s.p.saved.Some?
    // no two disks share a file
    case TaskDone => s.pending.Some? && FirstNamed(s.disks, s.pending.value.name).None?
    case TaskFails => s.pending.Some?
    case OutsiderAdds(disk) => FirstNamed(s.disks, disk.name).None?
    case OutsiderRemoves(_) => true
  }

  function Without(disks: seq<Disk>, name: string): seq<Disk>
  {
    if disks == [] then []
    else (if disks[0].name == name then [] else [disks[0]]) + Without(disks[1..], name)
  }

  function Step(s: State, a: Action): State
  {
    if !Enabled(s, a) then s
    else match a
      case Begin => s.(point := Begun)
      case Submit(disk) => Requested(s, disk)
      case Refuse => s.(point := Idle)
      case Skip => s.(point := Looking)
      case WaitReturns => s.(point := Looking)
      case WaitRetries => s.(point := Idle)
      case WaitFails => s.(point := Idle)
      case Look =>
        var name := s.p.saved.value;
        s.(p := Ended(s.p, name, Address(s.disks, s.controllers, name)), point := Idle)
      case TaskDone => s.(disks := s.disks + [s.pending.value], made := s.made + {s.pending.value.name}, pending := None)
      case TaskFails => s.(pending := None, failed := true, failures := s.failures + 1)
      case OutsiderAdds(disk) => s.(disks := s.disks + [disk])
      case OutsiderRemoves(name) =>
        s.(disks := Without(s.disks, name), lost := s.lost || name in s.made || s.p.fileName == Some(name))
  }

  /** The request is made and the wait for it begins. */
  function Requested(s: State, disk: Disk): State
  {
    s.(p := Asked(s.p, disk), pending := Some(disk), failed := false, point := Waiting)
  }

  function Fresh(disks: seq<Disk>, controllers: seq<Controller>): State
  {
    State(Props(None, None, None, []), disks, controllers, None, Idle, false, 0, {}, false)
  }

  /******* What every run keeps *******/

  /** The name of the last disk asked for. */
  function LastName(s: State): string
    requires s.p.requests != []
  {
    s.p.requests[|s.p.requests| - 1].name
  }

  predicate Untouched(s: State)
  {
    && s.p == Props(None, None, None, []) && s.pending.None? && s.made == {} && !s.failed && s.failures == 0
    && (s.point == Idle || s.point == Begun)
  }

  /** The task of the last request is not done. */
  predicate InFlight(s: State)
    requires s.p.requests != []
  {
    && s.pending == Some(s.p.requests[|s.p.requests| - 1])
    && s.p.saved == Some(LastName(s)) && s.p.fileName.None? && !s.failed && s.made == {}
    && |s.p.requests| == s.failures + 1 && (s.point == Waiting || s.point == Idle)
    && BusOf(s.controllers, s.pending.value.controllerKey).Some?
  }

  /** It has failed. */
  predicate Broken(s: State)
    requires s.p.requests != []
  {
    s.pending.None? && s.failed && s.made == {} && |s.p.requests| == s.failures
  }

  /** It has added its disk. */
  predicate Added(s: State)
    requires s.p.requests != []
  {
    && s.pending.None? && !s.failed && s.made == {LastName(s)} && |s.p.requests| == s.failures + 1
    && Address(s.disks, s.controllers, LastName(s)).Some?
    && (s.p.saved.None? ==> s.p.fileName.Some?)
  }

  predicate Inv(s: State)
  {
    if s.p.requests == [] then Untouched(s)
    else
      && (InFlight(s) || Broken(s) || Added(s))
      && LastName(s) != ""
      && (s.p.saved.Some? ==> s.p.saved.value == LastName(s) && s.p.fileName.None?)
      && (s.p.fileName.Some? ==>
            && s.p.fileName.value == LastName(s) && s.point == Idle
            && s.p.scsi.Some? && s.p.scsi == Address(s.disks, s.controllers, LastName(s)))
      && (s.point == Waiting || s.point == Looking ==> s.p.saved.Some?)
  }

  lemma FirstAfterAdding(disks: seq<Disk>, disk: Disk, name: string)
    ensures FirstNamed(disks, name).Some? ==> FirstNamed(disks + [disk], name) == FirstNamed(disks, name)
    ensures FirstNamed(disks, name).None? && disk.name == name ==> FirstNamed(disks + [disk], name) == Some(disk)
  {
    if disks == [] {
      assert [disk][0] == disk;
    } else {
      assert (disks + [disk])[1..] == disks[1..] + [disk];
      FirstAfterAdding(disks[1..], disk, name);
    }
  }

  lemma {:induction false} FirstAfterRemoving(disks: seq<Disk>, gone: string, name: string)
    requires gone != name
    ensures FirstNamed(Without(disks, gone), name) == FirstNamed(disks, name)
  {
    if disks != [] {
      FirstAfterRemoving(disks[1..], gone, name);
      var rest := Without(disks[1..], gone);
      assert ([disks[0]] + rest)[1..] == rest && [] + rest == rest;
    }
  }

  lemma AddressAfterAdding(s: State, disk: Disk, name: string)
    requires Address(s.disks, s.controllers, name).Some?
    ensures Address(s.disks + [disk], s.controllers, name) == Address(s.disks, s.controllers, name)
  {
    FirstAfterAdding(s.disks, disk, name);
  }

  lemma AddedKeeps(s: State, a: Action)
    requires s.p.requests != [] && Inv(s) && Added(s) && !Step(s, a).lost
    ensures Inv(Step(s, a))
  {
    match a
    case OutsiderAdds(disk) => AddressAfterAdding(s, disk, LastName(s));
    case OutsiderRemoves(name) => FirstAfterRemoving(s.disks, name, LastName(s));
    case _ =>
  }

  /** A request made while no own disk is there. */
  lemma SubmitKeeps(s: State, disk: Disk)
    requires Enabled(s, Submit(disk)) && s.pending.None? && s.made == {} && |s.p.requests| == s.failures
    requires s.p.fileName.None?
    ensures Inv(Step(s, Submit(disk)))
  {
    NewNameIsNotEmpty(NamesOf(s.disks));
    RequestKeeps(s, disk);
  }

  lemma RequestKeeps(s: State, disk: Disk)
    requires disk.name != "" && BusOf(s.controllers, disk.controllerKey).Some?
    requires s.pending.None? && s.made == {} && |s.p.requests| == s.failures && s.p.fileName.None?
    ensures Inv(Requested(s, disk))
  {
    assert Requested(s, disk).p.requests[|s.p.requests|] == disk;
  }

  lemma BrokenKeeps(s: State, a: Action)
    requires s.p.requests != [] && Inv(s) && Broken(s) && !Step(s, a).lost
    ensures Inv(Step(s, a))
  {
    match a
    case OutsiderAdds(disk) =>
      if s.p.fileName.Some? { AddressAfterAdding(s, disk, LastName(s)); }
    case OutsiderRemoves(name) =>
      if s.p.fileName.Some? { FirstAfterRemoving(s.disks, name, LastName(s)); }
    case Submit(disk) =>
      if Enabled(s, a) { SubmitKeeps(s, disk); }
    case _ =>
  }

  lemma InFlightKeeps(s: State, a: Action)
    requires s.p.requests != [] && Inv(s) && InFlight(s) && !Step(s, a).lost
    ensures Inv(Step(s, a))
  {
    if a.TaskDone? {
      FirstAfterAdding(s.disks, s.pending.value, LastName(s));
    }
  }

  lemma UntouchedKeeps(s: State, a: Action)
    requires s.p.requests == [] && Inv(s)
    ensures Inv(Step(s, a))
  {
    if a.Submit? && Enabled(s, a) {
      SubmitKeeps(s, a.disk);
    }
  }

  lemma StepKeepsInv(s: State, a: Action)
    requires Inv(s) && !Step(s, a).lost
    ensures Inv(Step(s, a))
  {
    if s.p.requests == [] {
      UntouchedKeeps(s, a);
    } else if InFlight(s) {
      InFlightKeeps(s, a);
    } else if Broken(s) {
      BrokenKeeps(s, a);
    } else {
      AddedKeeps(s, a);
    }
  }

  predicate InvUnlessLost(s: State) { s.lost || Inv(s) }

  lemma RunKeepsInv(disks: seq<Disk>, controllers: seq<Controller>, actions: seq<Action>)
    ensures InvUnlessLost(After(Step, Fresh(disks, controllers), actions))
  {
    forall s, a | InvUnlessLost(s) ensures InvUnlessLost(Step(s, a)) {
      if !Step(s, a).lost {
        StepKeepsInv(s, a);
      }
    }
    Keeps(Step, InvUnlessLost, a => true, Fresh(disks, controllers), actions);
  }

  /** However often it is retried: there is at most one request beyond the failed
      ones, and at most one disk is added. Once the file name is recorded, no name
      is saved any more, the SCSI id is that of the disk with the file name, and
      that disk is the storage's own exactly when its last task did not fail. */
  lemma AddedOnce(disks: seq<Disk>, controllers: seq<Controller>, actions: seq<Action>)
    requires !After(Step, Fresh(disks, controllers), actions).lost
    ensures var s := After(Step, Fresh(disks, controllers), actions);
            && |s.p.requests| <= s.failures + 1 && |s.made| <= 1
            && (s.p.fileName.Some? ==>
                  && s.p.saved.None? && s.p.requests != [] && s.p.fileName.value == LastName(s)
                  && s.p.scsi.Some? && s.p.scsi == Address(s.disks, s.controllers, s.p.fileName.value)
                  && (s.p.fileName.value in s.made <==> !s.failed))
  {
    RunKeepsInv(disks, controllers, actions);
  }

  predicate Succeeds(a: Action) { !a.TaskFails? }

  predicate NoFailure(s: State) { !s.failed && s.failures == 0 }

  /** Where no task fails, any number of retries makes one request, and the disk
      recorded is the one disk that was added. */
  lemma ExactlyOneDisk(disks: seq<Disk>, controllers: seq<Controller>, actions: seq<Action>)
    requires forall a <- actions :: Succeeds(a)
    requires !After(Step, Fresh(disks, controllers), actions).lost
    ensures var s := After(Step, Fresh(disks, controllers), actions);
            && |s.p.requests| <= 1
            && (s.p.fileName.Some? ==> |s.p.requests| == 1 && s.made == {s.p.fileName.value})
  {
    RunKeepsInv(disks, controllers, actions);
    Keeps(Step, NoFailure, Succeeds, Fresh(disks, controllers), actions);
  }

  /******* The attempts of the class are runs *******/

  /** What the platform and others do. */
  predicate IsOutside(a: Action) { a.TaskDone? || a.TaskFails? || a.OutsiderAdds? || a.OutsiderRemoves? }

  predicate Outside(actions: seq<Action>) { forall a <- actions :: IsOutside(a) }

  /** The two states differ at most in the disks and in the task's state. */
  predicate SameAttempt(s: State, t: State)
  {
    t.p == s.p && t.controllers == s.controllers && t.point == s.point && (s.pending.None? ==> t.pending.None?)
  }

  lemma OutsideKeepsAttempt(s: State, actions: seq<Action>)
    requires Outside(actions)
    ensures SameAttempt(s, After(Step, s, actions))
  {
    Keeps(Step, t => SameAttempt(s, t), IsOutside, s, actions);
  }

  /** The wait may end so: it returns or raises the task's error, a name clash
      included, only when the task is done, and it may give up at any time. */
  predicate MayEnd(s: State, waited: Waited)
  {
    match waited
    case Returned => s.pending.None? && !s.failed
    case RetryRaised => true
    case _ => s.pending.None? && s.failed
  }

  function WaitAction(waited: Waited): Action
  {
    match waited
    case Returned => WaitReturns
    case RetryRaised => WaitRetries
    case _ => WaitFails
  }

  /** The steps of one attempt, with what happens outside during its wait and
      between the wait and the search; `plan` is only looked at where no name is
      saved. */
  function AttemptActions(p: Props, plan: Result<Disk, Failed>, waited: Waited,
                          during: seq<Action>, then_: seq<Action>): seq<Action>
  {
    if !Unset(p.fileName) then []
    else if !Unset(p.saved) then [Begin] + ([Skip] + (then_ + [Look]))
    else if plan.Failure? then [Begin] + [Refuse]
    else if waited == Returned then
      [Begin] + ([Submit(plan.value)] + (during + ([WaitReturns] + (then_ + [Look]))))
    else [Begin] + ([Submit(plan.value)] + (during + [WaitAction(waited)]))
  }

  /** The state in which the disks are looked through. */
  function Before(s: State, plan: Result<Disk, Failed>, during: seq<Action>, then_: seq<Action>): State
  {
    if !Unset(s.p.saved) || plan.Failure? then After(Step, s.(point := Looking), then_)
    else After(Step, After(Step, Requested(s, plan.value), during).(point := Looking), then_)
  }

  predicate CanBegin(s: State) { s.point == Idle && s.pending.None? && Unset(s.p.fileName) }

  predicate CanAsk(s: State, disk: Disk)
  {
    && Unset(s.p.saved) && Nameable(s.disks) && disk.name == NewName(NamesOf(s.disks))
    && BusOf(s.controllers, disk.controllerKey).Some?
  }

  lemma LookEnds(s: State, then_: seq<Action>)
    requires s.point == Looking && s.p.saved.Some? && Outside(then_)
    ensures var t, name := After(Step, s, then_), s.p.saved.value;
            After(Step, s, then_ + [Look])
            == t.(p := Ended(s.p, name, Address(t.disks, s.controllers, name)), point := Idle)
  {
    Append(Step, s, then_, [Look]);
    OutsideKeepsAttempt(s, then_);
    Cons(Step, After(Step, s, then_), Look, []);
  }

  /** An attempt that finds a saved name makes no request. */
  lemma Resumed(s: State, then_: seq<Action>)
    requires CanBegin(s) && !Unset(s.p.saved) && Outside(then_)
    ensures var t, name := After(Step, s.(point := Looking), then_), s.p.saved.value;
            After(Step, s, [Begin] + ([Skip] + (then_ + [Look])))
            == t.(p := Ended(s.p, name, Address(t.disks, s.controllers, name)), point := Idle)
  {
    var s1 := Step(s, Begin);
    var s2 := Step(s1, Skip);
    assert s2 == s.(point := Looking);
    LookEnds(s2, then_);
    Cons(Step, s1, Skip, then_ + [Look]);
    Cons(Step, s, Begin, [Skip] + (then_ + [Look]));
  }

  lemma RequestedAnd(s: State, disk: Disk, rest: seq<Action>)
    requires CanBegin(s) && CanAsk(s, disk)
    ensures After(Step, s, [Begin] + ([Submit(disk)] + rest)) == After(Step, Requested(s, disk), rest)
  {
    var s1 := Step(s, Begin);
    Cons(Step, s1, Submit(disk), rest);
    Cons(Step, s, Begin, [Submit(disk)] + rest);
  }

  /** An attempt whose wait gives up or raises the task's error. */
  lemma AbandonedAttempt(s: State, disk: Disk, waited: Waited, during: seq<Action>)
    requires CanBegin(s) && CanAsk(s, disk) && Outside(during)
    requires waited != Returned && MayEnd(After(Step, Requested(s, disk), during), waited)
    ensures var t := After(Step, Requested(s, disk), during);
            && After(Step, s, [Begin] + ([Submit(disk)] + (during + [WaitAction(waited)]))) == t.(point := Idle)
            && t.p == Asked(s.p, disk)
  {
    var t := After(Step, Requested(s, disk), during);
    RequestedAnd(s, disk, during + [WaitAction(waited)]);
    OutsideKeepsAttempt(Requested(s, disk), during);
    Append(Step, Requested(s, disk), during, [WaitAction(waited)]);
    Cons(Step, t, WaitAction(waited), []);
  }

  /** An attempt whose wait returns. */
  lemma FirstAttempt(s: State, disk: Disk, during: seq<Action>, then_: seq<Action>)
    requires CanBegin(s) && CanAsk(s, disk) && Outside(during) && Outside(then_)
    requires MayEnd(After(Step, Requested(s, disk), during), Returned)
    ensures var t := After(Step, After(Step, Requested(s, disk), during).(point := Looking), then_);
            After(Step, s, [Begin] + ([Submit(disk)] + (during + ([WaitReturns] + (then_ + [Look])))))
            == t.(p := Ended(Asked(s.p, disk), disk.name, Address(t.disks, s.controllers, disk.name)), point := Idle)
  {
    var t := After(Step, Requested(s, disk), during);
    RequestedAnd(s, disk, during + ([WaitReturns] + (then_ + [Look])));
    OutsideKeepsAttempt(Requested(s, disk), during);
    Append(Step, Requested(s, disk), during, [WaitReturns] + (then_ + [Look]));
    Cons(Step, t, WaitReturns, then_ + [Look]);
    LookEnds(t.(point := Looking), then_);
  }

  lemma PlannedCanBeAsked(s: State, parentKey: int, disk: Disk)
    requires Unset(s.p.saved) && Planned(s.disks, s.controllers, parentKey, Success(disk))
    ensures CanAsk(s, disk)
  {
    var c :| IsParent(s.controllers, parentKey, c) && c.key == disk.controllerKey;
    assert c in s.controllers;
  }

  lemma RefusedAttempt(s: State)
    requires CanBegin(s) && Unset(s.p.saved)
    ensures After(Step, s, [Begin] + [Refuse]) == s
  {
    Cons(Step, Step(s, Begin), Refuse, []);
    Cons(Step, s, Begin, [Refuse]);
  }

  /** Whatever the wait comes to, and whatever happens outside meanwhile: what
      `Storage.Create` does in one go is what the steps do. */
  lemma AttemptIsARun(s: State, parentKey: int, plan: Result<Disk, Failed>, waited: Waited,
                      during: seq<Action>, then_: seq<Action>, p': Props, r: Result<(), Failed>)
    requires s.point == Idle && s.pending.None? && Outside(during) && Outside(then_)
    requires NeedsPlan(s.p) ==> Planned(s.disks, s.controllers, parentKey, plan)
    requires NeedsPlan(s.p) && plan.Success? ==> MayEnd(After(Step, Requested(s, plan.value), during), waited)
    requires FollowsPlan(s.p, plan, waited, Hardware(Before(s, plan, during, then_).disks, s.controllers), p', r)
    ensures var t := After(Step, s, AttemptActions(s.p, plan, waited, during, then_)); t.p == p' && t.point == Idle
  {
    if !Unset(s.p.fileName) {
    } else if !Unset(s.p.saved) {
      Resumed(s, then_);
    } else if plan.Failure? {
      RefusedAttempt(s);
    } else {
      PlannedCanBeAsked(s, parentKey, plan.value);
      if waited == Returned {
        FirstAttempt(s, plan.value, during, then_);
      } else {
        AbandonedAttempt(s, plan.value, waited, during);
      }
    }
  }

  /******* A name clash *******/

  /** Another's disk with the name comes first. */
  lemma LosesTheRace(s: State, disk: Disk, other: Disk)
    requires CanBegin(s) && CanAsk(s, disk) && other.name == disk.name
    requires FirstNamed(s.disks, other.name).None?
    ensures var t := After(Step, Requested(s, disk), [OutsiderAdds(other)] + [TaskFails]);
            && MayEnd(t, ClashRaised) && t.lost == s.lost && t.made == s.made
            && t.disks == s.disks + [other] && t.p == Asked(s.p, disk) && t.controllers == s.controllers
  {
    var s1 := Step(Requested(s, disk), OutsiderAdds(other));
    assert s1 == Requested(s, disk).(disks := s.disks + [other]);
    Cons(Step, s1, TaskFails, []);
    Cons(Step, Requested(s, disk), OutsiderAdds(other), [TaskFails]);
  }

  /** The retry after it. */
  lemma TakesOver(s: State, other: Disk)
    requires CanBegin(s) && s.p.saved == Some(other.name) && other.name != ""
    requires FirstNamed(s.disks, other.name) == Some(other) && BusOf(s.controllers, other.controllerKey).Some?
    ensures var t := After(Step, s, [Begin] + ([Skip] + ([] + [Look])));
            t.lost == s.lost && t.made == s.made && t.p.fileName == Some(other.name)
  {
    Resumed(s, []);
  }

  lemma ClashedAttempt(s: State, disk: Disk, other: Disk)
    requires CanBegin(s) && CanAsk(s, disk) && other.name == disk.name
    requires FirstNamed(s.disks, other.name).None?
    ensures var t := After(Step, s, [Begin] + ([Submit(disk)] + (([OutsiderAdds(other)] + [TaskFails]) + [WaitFails])));
            && t.lost == s.lost && t.made == s.made && t.p == Asked(s.p, disk) && t.controllers == s.controllers
            && CanBegin(t) && FirstNamed(t.disks, other.name) == Some(other)
  {
    LosesTheRace(s, disk, other);
    AbandonedAttempt(s, disk, ClashRaised, [OutsiderAdds(other)] + [TaskFails]);
    FirstAfterAdding(s.disks, other, other.name);
  }

  /** On every machine where a disk can be created: when another one takes the
      name before the request is served, the request fails, the saved name stays,
      and the retry records the other's disk. */
  lemma AnothersDiskIsAdopted(disks: seq<Disk>, controllers: seq<Controller>, key: int) returns (actions: seq<Action>)
    requires Nameable(disks) && BusOf(controllers, key).Some?
    ensures var s := After(Step, Fresh(disks, controllers), actions);
            !s.lost && s.p.fileName == Some(NewName(NamesOf(disks))) && s.made == {}
  {
    var s, name := Fresh(disks, controllers), NewName(NamesOf(disks));
    NewNameIsFresh(NamesOf(disks));
    NewNameIsNotEmpty(NamesOf(disks));
    var own, other := Disk(name, 0, key), Disk(name, 1, key);
    ClashedAttempt(s, own, other);
    var first := [Begin] + ([Submit(own)] + (([OutsiderAdds(other)] + [TaskFails]) + [WaitFails]));
    TakesOver(After(Step, s, first), other);
    var second := [Begin] + ([Skip] + ([] + [Look]));
    Append(Step, s, first, second);
    actions := first + second;
  }

  /******* Deletion *******/

  function LastNamed(disks: seq<Disk>, name: string): (r: Option<Disk>)
    ensures r.Some? ==> r.value in disks && r.value.name == name
    ensures r.None? <==> forall d <- disks :: d.name != name
  {
    if disks == [] then None
    else if disks[|disks| - 1].name == name then Some(disks[|disks| - 1])
    else LastNamed(disks[..|disks| - 1], name)
  }

  /** It is the last one with the name. */
  lemma {:induction false} LastNamedAt(disks: seq<Disk>, name: string) returns (i: nat)
    requires LastNamed(disks, name).Some?
    ensures i < |disks| && disks[i] == LastNamed(disks, name).value && disks[i].name == name
    ensures forall j :: i < j < |disks| ==> disks[j].name != name
  {
    i := |disks| - 1;
    if disks[i].name != name {
      i := LastNamedAt(disks[..|disks| - 1], name);
    }
  }

  /** `delete_storage`: every match replaces the one before; None where there is
      nothing left to delete. */
  method DiskToDelete(disks: seq<Disk>, name: string) returns (r: Option<Disk>)
    ensures r == LastNamed(disks, name)
  {
    r := None;
    for i := 0 to |disks|
      invariant r == LastNamed(disks[..i], name)
    {
      assert disks[..i + 1][..i] == disks[..i];
      if disks[i].name == name {
        r := Some(disks[i]);
      }
    }
    assert disks[..|disks|] == disks;
  }

  /** Deletion looks up the disk that creation looked up, as no two disks share a file. */
  lemma OneDiskPerFile(disks: seq<Disk>, name: string)
    requires Distinct(NamesOf(disks))
    ensures LastNamed(disks, name) == FirstNamed(disks, name)
  {
    if LastNamed(disks, name).Some? {
      var i :| 0 <= i < |disks| && disks[i] == LastNamed(disks, name).value;
      var j := FirstNamedAt(disks, name);
      assert NamesOf(disks)[i] == NamesOf(disks)[j];
    }
  }

  /** Deleting what was created gives the disks back. */
  lemma {:induction false} DeleteUndoesCreate(disks: seq<Disk>, disk: Disk)
    requires FirstNamed(disks, disk.name).None?
    ensures LastNamed(disks + [disk], disk.name) == Some(disk)
    ensures Without(disks + [disk], disk.name) == disks
  {
    WithoutLast(disks, disk);
  }

  lemma {:induction false} WithoutLast(disks: seq<Disk>, disk: Disk)
    requires forall d <- disks :: d.name != disk.name
    ensures Without(disks + [disk], disk.name) == disks
  {
    if disks == [] {
      assert [disk][1..] == [];
    } else {
      WithoutLast(disks[1..], disk);
      assert (disks + [disk])[1..] == disks[1..] + [disk];
    }
  }
}
