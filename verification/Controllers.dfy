/**
 Attaching a controller to a virtual machine and finding out which key it got,
 by comparing the keys before and after, across retries.
 */
module Controllers {
  import opened Results
  import opened Runs

  /** `wanted`: the device is of the controller type being attached. */
  datatype Device = Device(key: int, wanted: bool, bus: Option<int>)

  function WantedKeys(devices: seq<Device>): (r: seq<int>)
    ensures forall k :: k in r <==> exists d <- devices :: d.wanted && d.key == k
  {
    if devices == [] then []
    else WantedKeys(devices[..|devices| - 1]) +
         if devices[|devices| - 1].wanted then [devices[|devices| - 1].key] else []
  }

  /** The first wanted device whose key is not known. */
  function FirstNew(devices: seq<Device>, known: seq<int>): (r: Option<Device>)
    ensures r.Some? ==> r.value in devices && r.value.wanted && r.value.key !in known
    ensures r.None? <==> forall d <- devices :: d.wanted ==> d.key in known
  {
    if devices == [] then None
    else if devices[0].wanted && devices[0].key !in known then Some(devices[0])
    else FirstNew(devices[1..], known)
  }

  /** It is the first such device of the list. */
  lemma {:induction false} FirstNewIsFirst(devices: seq<Device>, known: seq<int>) returns (i: nat)
    requires FirstNew(devices, known).Some?
    ensures i < |devices| && devices[i] == FirstNew(devices, known).value
    ensures forall j :: 0 <= j < i && devices[j].wanted ==> devices[j].key in known
  {
    i := 0;
    if !(devices[0].wanted && devices[0].key !in known) {
      var k := FirstNewIsFirst(devices[1..], known);
      assert forall j :: 0 < j <= k ==> devices[j] == devices[1..][j - 1];
      i := k + 1;
    }
  }

  /** No list, or an empty one: Python takes both as false. */
  predicate Unknown(known: Option<seq<int>>) { known.None? || known.value == [] }

  datatype Waited = Returned | RetryRaised | ErrorRaised

  datatype Failed = Retrying | TaskFailed | NoNewKey

  /** What one attempt leaves: the keys recorded before the add stay known until
      the new device is found, which is the first new one of the list read last. */
  predicate IsAttempt(known: Option<seq<int>>, devices: seq<Device>, waited: Waited, later: seq<Device>,
                      known': Option<seq<int>>, adds: nat, r: Result<Device, Failed>)
  {
    var recorded := if Unknown(known) then WantedKeys(devices) else known.value;
    && adds == (if Unknown(known) then 1 else 0)
    && (if Unknown(known) && waited != Returned then
          r == Failure(if waited == RetryRaised then Retrying else TaskFailed) && known' == Some(recorded)
        else
          var found := FirstNew(later, recorded);
          if found.Some? then r == Success(found.value) && known'.None?
          else r == Failure(NoNewKey) && known' == Some(recorded))
  }

  /** The runtime properties and the device list that one attach works on. */
  class Attachment {
    var known: Option<seq<int>>
    var adds: nat

    constructor ()
      ensures known.None? && adds == 0
    {
      known, adds := None, 0;
    }

    /** `attach_controller`: `devices` is the list as it is when the call starts,
        `waited` how the wait for the task ends, and `later` the list read after. */
    method AttachController(devices: seq<Device>, waited: Waited, later: seq<Device>) returns (r: Result<Device, Failed>)
      modifies this
      ensures old(known.Some? && known.value != []) ==> adds == old(adds)
      ensures old(known.None? || known.value == []) ==> adds == old(adds) + 1
      ensures r.Success? ==> known.None? && r.value in later && r.value.wanted
      ensures r.Failure? ==> known.Some?
      ensures r.Failure? && old(known.Some? && known.value != []) ==> known == old(known)
      ensures r.Failure? && old(known.None? || known.value == []) ==>
                forall k :: k in known.value <==> exists d <- devices :: d.wanted && d.key == k
      ensures r.Success? && old(known.Some? && known.value != []) ==> r.value.key !in old(known).value
      ensures r.Success? && old(known.None? || known.value == []) ==>
                forall d <- devices :: d.wanted ==> d.key != r.value.key
      ensures r == Failure(Retrying) <==> old(known.None? || known.value == []) && waited == RetryRaised
      ensures r == Failure(TaskFailed) <==> old(known.None? || known.value == []) && waited == ErrorRaised
      ensures r == Failure(NoNewKey) ==> forall d <- later :: d.wanted ==> d.key in known.value
      ensures adds >= old(adds) && IsAttempt(old(known), devices, waited, later, known, adds - old(adds), r)
    {
      if Unknown(known) {
        var keys: seq<int> := [];
        for i := 0 to |devices|
          invariant keys == WantedKeys(devices[..i])
          invariant known == old(known) && adds == old(adds)
        {
          assert devices[..i + 1][..i] == devices[..i];
          if devices[i].wanted {
            keys := keys + [devices[i].key];
          }
        }
        assert devices[..|devices|] == devices;
        known := Some(keys);
        adds := adds + 1;
        if waited == RetryRaised {
          return Failure(Retrying);
        }
        if waited == ErrorRaised {
          return Failure(TaskFailed);
        }
      }
      assert later[0..] == later;
      for i := 0 to |later|
        invariant FirstNew(later, known.value) == FirstNew(later[i..], known.value)
      {
        assert later[i..][1..] == later[i + 1..];
        if later[i].wanted && later[i].key !in known.value {
          known := None;
          return Success(later[i]);
        }
      }
      return Failure(NoNewKey);
    }
  }

  /******* Runs of attempts *******/

  datatype Point = Idle | Begun | Waiting | Looking

  /** `pending`: the submitted task is not done; `failed`: the last one failed.
      `adds`: submits so far; `first`: the keys recorded before the first of
      them, `recorded`: before the last; `made`: the keys of the devices that the
      submitted tasks created. */
  datatype State = State(known: Option<seq<int>>, devices: seq<Device>, pending: bool, failed: bool, point: Point,
                         found: Option<int>, adds: nat, first: Option<seq<int>>, recorded: seq<int>,
                         made: set<int>)

  datatype Action =
    | Begin | Launch | Skip | WaitReturns | WaitRetries | WaitFails | Look
    | TaskDone(key: int, bus: Option<int>) | TaskFails
    | OutsiderAdds(device: Device) | OutsiderRemoves(key: int)

  predicate Enabled(s: State, a: Action)
  {
    match a
    // the attach operations run the deferred task before they come here
    case Begin => s.point == Idle && s.found.None? && !s.pending
    case Launch => s.point == Begun && Unknown(s.known)
    case Skip => s.point == Begun && !Unknown(s.known)
    case WaitReturns => s.point == Waiting && !s.pending && !s.failed
    case WaitRetries => s.point == Waiting
    case WaitFails => s.point == Waiting && !s.pending && s.failed
    case Look => s.point == Looking
    case TaskDone(key, _) => s.pending && forall d <- s.devices :: d.key != key
    case TaskFails => s.pending
    case OutsiderAdds(device) => forall d <- s.devices :: d.key != device.key
    case OutsiderRemoves(_) => true
  }

  function Without(devices: seq<Device>, key: int): seq<Device>
  {
    if devices == [] then []
    else (if devices[0].key == key then [] else [devices[0]]) + Without(devices[1..], key)
  }

  function Step(s: State, a: Action): State
  {
    if !Enabled(s, a) then s
    else match a
      case Begin => s.(point := Begun)
      case Launch =>
        var keys := WantedKeys(s.devices);
        s.(known := Some(keys), pending := true, failed := false, point := Waiting, adds := s.adds + 1,
           first := if s.first.None? then Some(keys) else s.first, recorded := keys)
      case Skip => s.(point := Looking)
      case WaitReturns => s.(point := Looking)
      case WaitRetries => s.(point := Idle)
      case WaitFails => s.(point := Idle)
      case Look =>
        var new_ := FirstNew(s.devices, s.known.GetOr([]));
        if new_.Some? then s.(point := Idle, found := Some(new_.value.key), known := None) else s.(point := Idle)
      case TaskDone(key, bus) =>
        s.(devices := s.devices + [Device(key, true, bus)], pending := false, made := s.made + {key})
      case TaskFails => s.(pending := false, failed := true)
      case OutsiderAdds(device) => s.(devices := s.devices + [device])
      case OutsiderRemoves(key) => s.(devices := Without(s.devices, key))
  }

  function Fresh(devices: seq<Device>): State
  {
    State(None, devices, false, false, Idle, None, 0, None, [], {})
  }

  /** Holds whatever outsiders do. */
  predicate Inv(s: State)
  {
    && (s.adds == 0 <==> s.first.None?)
    && (s.first.None? ==> s.known.None? && s.found.None? && !s.pending && s.point != Waiting && s.point != Looking)
    && (s.point == Waiting || s.point == Looking || s.pending ==> s.known.Some?)
    && (s.found.Some? ==> s.known.None? && s.point == Idle && !s.pending)
    && (s.first.Some? && s.first.value != [] ==>
          s.adds == 1 && s.recorded == s.first.value && (s.found.None? ==> s.known == s.first))
    && (s.first.Some? && s.found.None? ==> s.known.Some?)
    && (s.point == Looking || s.point == Begun ==> !s.pending)
    && (s.known.Some? ==> s.known.value == s.recorded)
    && (s.found.Some? ==> s.found.value !in s.recorded)
  }

  lemma StepKeepsInv(s: State, a: Action)
    requires Inv(s)
    ensures Inv(Step(s, a))
  {
  }

  /** Whatever outsiders do, the key found was not among those recorded before
      the last add; and where the machine had a controller of the type before the
      first attempt, any number of retries submits exactly one add. */
  lemma OneAddIfSomeKnown(devices: seq<Device>, actions: seq<Action>)
    ensures var s := After(Step, Fresh(devices), actions);
            && (s.found.Some? ==> s.found.value !in s.recorded)
            && (s.first.Some? && s.first.value != [] ==> s.adds == 1 && s.recorded == s.first.value)
  {
    forall s, a | Inv(s) ensures Inv(Step(s, a)) {
      StepKeepsInv(s, a);
    }
    Keeps(Step, Inv, a => true, Fresh(devices), actions);
  }

  /** No outsider touches the machine and every submitted task ends well. */
  predicate IsQuiet(a: Action) { !a.OutsiderAdds? && !a.OutsiderRemoves? && !a.TaskFails? }

  predicate Quiet(actions: seq<Action>) { forall a <- actions :: IsQuiet(a) }

  ghost predicate QuietInv(s: State)
  {
    && Inv(s) && !s.failed
    && (s.first.None? ==> s.made == {})
    && (s.first.Some? ==> forall d <- s.devices :: d.wanted ==> d.key in s.first.value || d.key in s.made)
    && (forall k <- s.made :: exists d <- s.devices :: d.wanted && d.key == k)
    && (s.first.Some? && !s.pending ==> exists k :: k in s.made)
    && (s.first.Some? ==> forall k <- s.first.value :: k in s.recorded)
    && (s.found.Some? ==> s.found.value in s.made)
    && s.adds <= 2
    && (s.adds == 2 ==> s.first == Some([]) && s.recorded != [])
    && (s.adds == 1 ==> s.first == Some(s.recorded))
  }

  lemma StepKeepsQuietInv(s: State, a: Action)
    requires QuietInv(s) && IsQuiet(a)
    ensures QuietInv(Step(s, a))
  {
    StepKeepsInv(s, a);
    var t := Step(s, a);
    if Enabled(s, a) {
      match a
      case TaskDone(key, bus) =>
        assert t.devices[|s.devices|] == Device(key, true, bus) && key in t.made;
        forall k | k in t.made ensures exists d <- t.devices :: d.wanted && d.key == k {
          if k == key {
            assert Device(key, true, bus) in t.devices;
          } else {
            var d :| d in s.devices && d.wanted && d.key == k;
            assert d in t.devices;
          }
        }
      case Launch =>
        if s.first.Some? {
          var k :| k in s.made;
          assert k in WantedKeys(s.devices);
        }
      case _ =>
    }
  }

  lemma QuietRunKeepsInv(devices: seq<Device>, actions: seq<Action>)
    requires Quiet(actions)
    ensures QuietInv(After(Step, Fresh(devices), actions))
  {
    forall s, a | QuietInv(s) && IsQuiet(a) ensures QuietInv(Step(s, a)) {
      StepKeepsQuietInv(s, a);
    }
    Keeps(Step, QuietInv, IsQuiet, Fresh(devices), actions);
  }

  /** The first add recorded the keys that the machine had to begin with. */
  ghost predicate StartedFrom(s: State, devices: seq<Device>)
  {
    if s.first.None? then s.devices == devices && !s.pending else s.first.value == WantedKeys(devices)
  }

  lemma QuietRunStartedFrom(devices: seq<Device>, actions: seq<Action>)
    requires Quiet(actions)
    ensures StartedFrom(After(Step, Fresh(devices), actions), devices)
  {
    Keeps(Step, s => StartedFrom(s, devices), IsQuiet, Fresh(devices), actions);
  }

  /** Left alone, the key found is that of a device one of the own tasks made;
      there are at most two adds, and two only where the machine had no
      controller of the type to begin with. */
  lemma FoundWasMade(devices: seq<Device>, actions: seq<Action>)
    requires Quiet(actions)
    ensures var s := After(Step, Fresh(devices), actions);
            && (s.found.Some? ==> s.found.value in s.made)
            && s.adds <= 2 && (s.adds == 2 ==> WantedKeys(devices) == [])
  {
    QuietRunKeepsInv(devices, actions);
    QuietRunStartedFrom(devices, actions);
  }

  /******* The attempts of the class are runs *******/

  /** What the platform and others do. */
  predicate IsOutside(a: Action) { a.TaskDone? || a.TaskFails? || a.OutsiderAdds? || a.OutsiderRemoves? }

  predicate Outside(actions: seq<Action>) { forall a <- actions :: IsOutside(a) }

  /** The two states differ at most in the devices and in the task's state. */
  predicate SameAttempt(s: State, t: State)
  {
    && t.known == s.known && t.point == s.point && t.found == s.found && t.adds == s.adds
    && t.first == s.first && t.recorded == s.recorded && (t.pending ==> s.pending)
  }

  lemma OutsideKeepsAttempt(s: State, actions: seq<Action>)
    requires Outside(actions)
    ensures SameAttempt(s, After(Step, s, actions))
  {
    Keeps(Step, t => SameAttempt(s, t), IsOutside, s, actions);
  }

  /** The wait may end so: it returns or raises the task's error only when the task
      is done, and it may give up at any time. */
  predicate MayEnd(s: State, waited: Waited)
  {
    match waited
    case Returned => !s.pending && !s.failed
    case RetryRaised => true
    case ErrorRaised => !s.pending && s.failed
  }

  function WaitAction(waited: Waited): Action
  {
    match waited
    case Returned => WaitReturns
    case RetryRaised => WaitRetries
    case ErrorRaised => WaitFails
  }

  /** The steps of one attempt, with what happens outside during its wait and
      between the wait and the search. */
  function AttemptActions(known: Option<seq<int>>, waited: Waited, during: seq<Action>, then_: seq<Action>): seq<Action>
  {
    if !Unknown(known) then [Begin] + ([Skip] + (then_ + [Look]))
    else if waited == Returned then [Begin] + ([Launch] + (during + ([WaitReturns] + (then_ + [Look]))))
    else [Begin] + ([Launch] + (during + [WaitAction(waited)]))
  }

  /** The state in which the devices are looked through. */
  function Before(s: State, waited: Waited, during: seq<Action>, then_: seq<Action>): State
  {
    if !Unknown(s.known) then After(Step, s.(point := Looking), then_)
    else After(Step, After(Step, Launched(s), during).(point := Looking), then_)
  }

  function Launched(s: State): State { Step(Step(s, Begin), Launch) }

  lemma LookEnds(s: State, then_: seq<Action>)
    requires s.point == Looking && Outside(then_)
    ensures After(Step, s, then_ + [Look]) == Step(After(Step, s, then_), Look)
    ensures SameAttempt(s, After(Step, s, then_))
  {
    Append(Step, s, then_, [Look]);
    OutsideKeepsAttempt(s, then_);
    Cons(Step, After(Step, s, then_), Look, []);
  }

  /** An attempt that finds known keys. */
  lemma LaterAttempt(s: State, then_: seq<Action>)
    requires s.point == Idle && s.found.None? && !s.pending && !Unknown(s.known) && Outside(then_)
    ensures var t := After(Step, s.(point := Looking), then_);
            && SameAttempt(s.(point := Looking), t)
            && After(Step, s, [Begin] + ([Skip] + (then_ + [Look]))) == Step(t, Look)
  {
    var s1 := Step(s, Begin);
    var s2 := Step(s1, Skip);
    assert s2 == s.(point := Looking);
    LookEnds(s2, then_);
    Cons(Step, s1, Skip, then_ + [Look]);
    Cons(Step, s, Begin, [Skip] + (then_ + [Look]));
  }

  lemma LaunchedAnd(s: State, rest: seq<Action>)
    requires s.point == Idle && s.found.None? && !s.pending && Unknown(s.known)
    ensures After(Step, s, [Begin] + ([Launch] + rest)) == After(Step, Launched(s), rest)
    ensures Launched(s).known == Some(WantedKeys(s.devices)) && Launched(s).point == Waiting
    ensures Launched(s).adds == s.adds + 1 && Launched(s).found.None?
  {
    Cons(Step, Step(s, Begin), Launch, rest);
    Cons(Step, s, Begin, [Launch] + rest);
  }

  /** An attempt whose wait gives up or raises the task's error. */
  lemma AbandonedAttempt(s: State, waited: Waited, during: seq<Action>)
    requires s.point == Idle && s.found.None? && !s.pending && Unknown(s.known) && Outside(during)
    requires waited != Returned && MayEnd(After(Step, Launched(s), during), waited)
    ensures After(Step, s, [Begin] + ([Launch] + (during + [WaitAction(waited)])))
         == After(Step, Launched(s), during).(point := Idle)
    ensures SameAttempt(Launched(s), After(Step, Launched(s), during))
  {
    var t := After(Step, Launched(s), during);
    LaunchedAnd(s, during + [WaitAction(waited)]);
    OutsideKeepsAttempt(Launched(s), during);
    Append(Step, Launched(s), during, [WaitAction(waited)]);
    Cons(Step, t, WaitAction(waited), []);
  }

  /** An attempt whose wait returns. */
  lemma FirstAttempt(s: State, during: seq<Action>, then_: seq<Action>)
    requires s.point == Idle && s.found.None? && !s.pending && Unknown(s.known) && Outside(during) && Outside(then_)
    requires MayEnd(After(Step, Launched(s), during), Returned)
    ensures var t := After(Step, After(Step, Launched(s), during).(point := Looking), then_);
            && SameAttempt(Launched(s).(point := Looking), t)
            && After(Step, s, [Begin] + ([Launch] + (during + ([WaitReturns] + (then_ + [Look]))))) == Step(t, Look)
  {
    var t := After(Step, Launched(s), during);
    LaunchedAnd(s, during + ([WaitReturns] + (then_ + [Look])));
    OutsideKeepsAttempt(Launched(s), during);
    Append(Step, Launched(s), during, [WaitReturns] + (then_ + [Look]));
    Cons(Step, t, WaitReturns, then_ + [Look]);
    LookEnds(t.(point := Looking), then_);
  }

  /** Whatever the wait comes to, and whatever happens outside meanwhile: what an
      attempt does in one go is what the steps do. */
  lemma AttemptIsARun(s: State, waited: Waited, during: seq<Action>, then_: seq<Action>,
                      known': Option<seq<int>>, adds: nat, r: Result<Device, Failed>)
    requires s.point == Idle && s.found.None? && !s.pending && Outside(during) && Outside(then_)
    requires Unknown(s.known) ==> MayEnd(After(Step, Launched(s), during), waited)
    requires IsAttempt(s.known, s.devices, waited, Before(s, waited, during, then_).devices, known', adds, r)
    ensures var t := After(Step, s, AttemptActions(s.known, waited, during, then_));
            && t.point == Idle && t.known == known' && t.adds == s.adds + adds
            && t.found == if r.Success? then Some(r.value.key) else None
  {
    if !Unknown(s.known) {
      LaterAttempt(s, then_);
    } else if waited == Returned {
      FirstAttempt(s, during, then_);
    } else {
      AbandonedAttempt(s, waited, during);
    }
  }

  /******* The second add *******/

  lemma {:induction false} FreshKey(devices: seq<Device>) returns (key: int)
    ensures forall d <- devices :: d.key < key
  {
    if devices == [] {
      key := 0;
    } else {
      key := FreshKey(devices[1..]);
      if key <= devices[0].key {
        key := devices[0].key + 1;
      }
      assert forall d <- devices :: d == devices[0] || d in devices[1..];
    }
  }

  lemma {:induction false} OnlyNewIsFound(devices: seq<Device>, known: seq<int>, device: Device)
    requires forall d <- devices :: d.wanted ==> d.key in known
    requires device.wanted && device.key !in known
    ensures FirstNew(devices + [device], known) == Some(device)
  {
    if devices == [] {
      assert (devices + [device])[0] == device;
    } else {
      assert (devices + [device])[1..] == devices[1..] + [device];
      OnlyNewIsFound(devices[1..], known, device);
    }
  }

  /** The first attempt, whose wait gives up before its task is done. */
  lemma GivesUp(devices: seq<Device>, key: int) returns (actions: seq<Action>)
    requires WantedKeys(devices) == [] && forall d <- devices :: d.key != key
    ensures Quiet(actions)
    ensures var t := After(Step, Fresh(devices), actions);
            && t.point == Idle && t.known == Some([]) && t.found.None? && !t.pending && !t.failed && t.adds == 1
            && t.devices == devices + [Device(key, true, None)]
  {
    var s := Fresh(devices);
    var done := TaskDone(key, None);
    LaunchedAnd(s, [WaitRetries] + [done]);
    var t := Step(Launched(s), WaitRetries);
    Cons(Step, Launched(s), WaitRetries, [done]);
    Cons(Step, t, done, []);
    actions := [Begin] + ([Launch] + ([WaitRetries] + [done]));
  }

  lemma DoneDuringWait(s: State, key: int)
    requires s.point == Idle && s.found.None? && !s.pending && Unknown(s.known)
    requires forall d <- s.devices :: d.key != key
    ensures var t := After(Step, Launched(s), [TaskDone(key, None)]);
            && t.devices == s.devices + [Device(key, true, None)] && t.known == Some(WantedKeys(s.devices))
            && !t.pending && !t.failed
  {
    Cons(Step, Launched(s), TaskDone(key, None), []);
    assert [TaskDone(key, None)] + [] == [TaskDone(key, None)];
  }

  lemma QuietAttempt(known: Option<seq<int>>, during: seq<Action>)
    requires Quiet(during)
    ensures Quiet(AttemptActions(known, Returned, during, []))
  {
  }

  lemma OnlyWantedIsFirst(devices: seq<Device>, key: int)
    requires WantedKeys(devices) == [key]
    ensures forall d <- devices :: d.wanted ==> d.key in [key]
  {
    forall d | d in devices && d.wanted ensures d.key in [key] {
      assert d.key in WantedKeys(devices);
    }
  }

  /** The retry: no keys are known still. */
  lemma AddsAgain(s: State, first: int, second: int) returns (actions: seq<Action>)
    requires s.point == Idle && s.known == Some([]) && s.found.None? && !s.pending && !s.failed && s.adds == 1
    requires WantedKeys(s.devices) == [first] && second != first && forall d <- s.devices :: d.key != second
    ensures Quiet(actions)
    ensures After(Step, s, actions).adds == 2 && After(Step, s, actions).found == Some(second)
  {
    var during := [TaskDone(second, None)];
    var device := Device(second, true, None);
    DoneDuringWait(s, second);
    assert Before(s, Returned, during, []).devices == s.devices + [device];
    OnlyWantedIsFirst(s.devices, first);
    OnlyNewIsFound(s.devices, [first], device);
    AttemptIsARun(s, Returned, during, [], None, 1, Success(device));
    QuietAttempt(s.known, during);
    actions := AttemptActions(s.known, Returned, during, []);
  }

  /** On every machine without a controller of the type, whatever keys the
      platform gives out: a retry of the first wait adds a second controller, and
      it is the second that is found. */
  lemma SecondAddIfNoneKnown(devices: seq<Device>, first: int, second: int) returns (actions: seq<Action>)
    requires WantedKeys(devices) == [] && first != second && forall d <- devices :: d.key != first && d.key != second
    ensures Quiet(actions)
    ensures var s := After(Step, Fresh(devices), actions); s.adds == 2 && s.found == Some(second)
  {
    actions := GivesUp(devices, first);
    var t := After(Step, Fresh(devices), actions);
    assert t.devices[..|devices|] == devices && WantedKeys(t.devices) == [first];
    var rest := AddsAgain(t, first, second);
    Append(Step, Fresh(devices), actions, rest);
    actions := actions + rest;
  }

  /** Left alone, the retries of an attach can add a second controller exactly when
      the machine had none of the type to begin with. */
  lemma SecondAddIffNoneKnown(devices: seq<Device>)
    ensures (exists actions :: Quiet(actions) && After(Step, Fresh(devices), actions).adds > 1)
       <==> WantedKeys(devices) == []
  {
    if WantedKeys(devices) == [] {
      var key := FreshKey(devices);
      var actions := SecondAddIfNoneKnown(devices, key, key + 1);
    }
    if actions :| Quiet(actions) && After(Step, Fresh(devices), actions).adds > 1 {
      FoundWasMade(devices, actions);
    }
  }
}
