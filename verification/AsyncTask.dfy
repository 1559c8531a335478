/**
 Waiting for a platform task, saving it when the wait runs out, and resuming it
 before the next operation starts.
 */
module AsyncTask {
  import opened Results
  import opened Runs

  type TaskId = string

  datatype TaskState = Queued | Running | Succeeded | Errored

  predicate Active(s: TaskState) { s == Queued || s == Running }

  const TASK_CHECK_SLEEP := 15
  const DEFAULT_WAIT := 300

  /** An instance's runtime properties: the saved task id, the saved resource
      key (which may be saved as None), and every other property. */
  datatype Props = Props(taskId: Option<TaskId>, resourceKey: Option<Option<string>>, others: map<string, string>)

  /** A saved id that Python takes as true. */
  predicate HasTask(p: Props) { p.taskId.Some? && p.taskId.value != "" }

  /** Deleting the saved task is safe: its resource key is saved as well. */
  predicate Valid(p: Props) { HasTask(p) ==> p.resourceKey.Some? }

  /** What the platform answers during one wait: whether the task is still
      listed, its state at each poll, its state when read once more afterwards,
      and the id of its result. */
  datatype Reply = Reply(listed: bool, states: nat -> TaskState, final: TaskState, result: string)

  /******* The poll loop *******/

  datatype Polled = Polled(sleeps: nat, timedOut: bool)

  function Polls(states: nat -> TaskState, poll: nat, retries: int): Polled
    decreases if retries > 0 then retries else 0
  {
    if !Active(states(poll)) then Polled(poll, false)
    else if retries <= 0 then Polled(poll + 1, true)
    else Polls(states, poll + 1, retries - 1)
  }

  function Max(a: int, b: int): int { if a > b then a else b }

  /** The loop sleeps until the first reading that is not active, or gives up
      after a number of sleeps that depends on the allowance alone. */
  lemma {:induction false} PollsStopAtFirst(states: nat -> TaskState, poll: nat, retries: int)
    ensures var r := Polls(states, poll, retries);
            && poll <= r.sleeps <= poll + Max(0, retries) + 1
            && (forall i :: poll <= i < r.sleeps ==> Active(states(i)))
            && (!r.timedOut ==> !Active(states(r.sleeps)) && r.sleeps <= poll + Max(0, retries))
            && (r.timedOut ==> r.sleeps == poll + Max(0, retries) + 1)
    decreases if retries > 0 then retries else 0
  {
    if Active(states(poll)) && retries > 0 {
      PollsStopAtFirst(states, poll + 1, retries - 1);
    }
  }

  function Allowance(maxWait: Option<int>): int
  {
    (if maxWait.Some? then maxWait.value else DEFAULT_WAIT) / TASK_CHECK_SLEEP
  }

  /** The wait ends after at most max(0, maxWait // 15) + 1 sleeps, and it gives
      up on a non-negative allowance only after more than that many seconds and
      at most fifteen more. */
  lemma WaitIsBounded(states: nat -> TaskState, maxWait: int)
    ensures var r := Polls(states, 0, Allowance(Some(maxWait)));
            && r.sleeps <= Max(0, Allowance(Some(maxWait))) + 1
            && (r.timedOut && maxWait >= 0 ==>
                  maxWait < r.sleeps * TASK_CHECK_SLEEP <= maxWait + TASK_CHECK_SLEEP)
  {
    PollsStopAtFirst(states, 0, Allowance(Some(maxWait)));
  }

  /** With time enough for `n` sleeps, a task that is done by poll `n` is waited out. */
  lemma LongEnough(states: nat -> TaskState, maxWait: int, n: nat)
    requires !Active(states(n)) && n * TASK_CHECK_SLEEP <= maxWait
    ensures !Polls(states, 0, Allowance(Some(maxWait))).timedOut
  {
    PollsStopAtFirst(states, 0, Allowance(Some(maxWait)));
  }

  /******* One call of the wait *******/

  datatype Outcome = Returned | RetryRaised | ErrorRaised

  datatype Waited = Waited(outcome: Outcome, props: Props, sleeps: nat)

  function Wait(p: Props, task: Option<TaskId>, maxWait: Option<int>, resourceId: Option<string>, reply: Reply): Waited
  {
    if task.None? && !HasTask(p) then Waited(Returned, p, 0)
    else if task.None? && !reply.listed then Waited(Returned, p.(taskId := None), 0)
    else
      var saved := if task.Some? then p.(taskId := task, resourceKey := Some(resourceId)) else p;
      var polled := Polls(reply.states, 0, Allowance(maxWait));
      if polled.timedOut then Waited(RetryRaised, saved, polled.sleeps)
      else
        var cleared := saved.(taskId := None, resourceKey := None);
        var key := if task.Some? then resourceId else if p.resourceKey.Some? then p.resourceKey.value else None;
        if reply.final != Succeeded then Waited(ErrorRaised, cleared, polled.sleeps)
        else if key.Some? && key.value != "" then
          Waited(Returned, cleared.(others := p.others[key.value := reply.result]), polled.sleeps)
        else Waited(Returned, cleared, polled.sleeps)
  }

  /** A retry leaves the task and its resource key saved; any other end of a
      wait for a listed task clears both; the one other property that can change
      is the resource property, and it changes only on success. */
  lemma WaitLeaves(p: Props, task: Option<TaskId>, maxWait: Option<int>, resourceId: Option<string>, reply: Reply)
    requires Valid(p) && (task.Some? ==> task.value != "")
    ensures var w := Wait(p, task, maxWait, resourceId, reply);
            && Valid(w.props)
            && (w.outcome == RetryRaised ==>
                  HasTask(w.props) && w.props.taskId == (if task.Some? then task else p.taskId)
                  && w.props.resourceKey == (if task.Some? then Some(resourceId) else p.resourceKey)
                  && w.props.others == p.others)
            && (w.outcome != RetryRaised ==> !HasTask(w.props))
            && (w.outcome != RetryRaised && (task.Some? || (HasTask(p) && reply.listed)) ==>
                  w.props.taskId.None? && w.props.resourceKey.None?)
            && (w.props.others != p.others ==>
                  && w.outcome == Returned && reply.final == Succeeded
                  && exists key :: (if task.Some? then Some(resourceId) else p.resourceKey) == Some(Some(key))
                                   && w.props.others == p.others[key := reply.result])
  {
    var w := Wait(p, task, maxWait, resourceId, reply);
    if w.props.others != p.others {
      var key := if task.Some? then resourceId else p.resourceKey.value;
      assert w.props.others == p.others[key.value := reply.result];
    }
  }

  /** A wait lets go of the task only on seeing its end: some reading of its state
      was not active, or the platform did not list it any more. */
  lemma ReleasedWasSeen(p: Props, task: Option<TaskId>, maxWait: Option<int>, resourceId: Option<string>, reply: Reply)
    requires (task.Some? && task.value != "") || (task.None? && HasTask(p))
    requires !HasTask(Wait(p, task, maxWait, resourceId, reply).props)
    ensures (task.None? && !reply.listed) || !Active(reply.states(Wait(p, task, maxWait, resourceId, reply).sleeps))
  {
    PollsStopAtFirst(reply.states, 0, Allowance(maxWait));
  }

  /** The runtime properties in memory, and as last stored with the manager. */
  class Instance {
    var props: Props
    var stored: Props

    constructor (p: Props)
      ensures props == p && stored == p
    {
      props, stored := p, p;
    }

    method Update()
      modifies this`stored
      ensures stored == props
    {
      stored := props;
    }

    /** Some task is waited for: the one given, or the one saved if it is listed. */
    ghost predicate IsWatched(task: Option<TaskId>, reply: Reply)
      reads this
    {
      task.Some? || (props.taskId.Some? && props.taskId.value != "" && reply.listed)
    }

    /** The resource key of that task. */
    ghost function KeyOf(task: Option<TaskId>, resource: Option<string>): Option<string>
      reads this
    {
      if task.Some? then resource else if props.resourceKey.Some? then props.resourceKey.value else None
    }

    /** `_wait_for_task`. With no task to wait for it returns at once. Otherwise it
        raises a retry exactly when every reading within the allowance is active,
        and leaves task and key saved; else it sleeps until the first reading that
        is not, clears both, and raises an error exactly when the task did not
        succeed; where it did, its result is under its resource key if it has one.
        What the manager has stored is never behind. */
    method WaitForTask(task: Option<TaskId>, maxWait: Option<int>, resource: Option<string>, reply: Reply)
      returns (outcome: Outcome, sleeps: nat)
      requires Valid(props) && (task.Some? ==> task.value != "")
      modifies this
      ensures !old(IsWatched(task, reply)) ==>
                && outcome == Returned && sleeps == 0
                && props == if old(props.taskId.Some? && props.taskId.value != "") then old(props).(taskId := None)
                            else old(props)
      ensures outcome == RetryRaised <==>
                && old(IsWatched(task, reply))
                && forall i :: 0 <= i <= (if maxWait.Some? then maxWait.value else 300) / 15 || i == 0 ==>
                     reply.states(i) == Queued || reply.states(i) == Running
      ensures outcome == ErrorRaised <==>
                old(IsWatched(task, reply)) && outcome != RetryRaised && reply.final != Succeeded
      ensures outcome != RetryRaised && old(IsWatched(task, reply)) ==>
                && reply.states(sleeps) != Queued && reply.states(sleeps) != Running
                && forall i :: 0 <= i < sleeps ==> reply.states(i) == Queued || reply.states(i) == Running
      ensures outcome == RetryRaised ==>
                && props.taskId == (if task.Some? then task else old(props.taskId))
                && props.resourceKey == (if task.Some? then Some(resource) else old(props.resourceKey))
                && props.others == old(props.others)
      ensures old(IsWatched(task, reply)) && outcome != RetryRaised ==>
                props.taskId.None? && props.resourceKey.None?
      ensures old(IsWatched(task, reply)) && outcome != RetryRaised ==>
                var key := old(KeyOf(task, resource));
                props.others == if outcome == Returned && key.Some? && key.value != ""
                                then old(props.others)[key.value := reply.result]
                                else old(props.others)
      ensures var w := Wait(old(props), task, maxWait, resource, reply);
              outcome == w.outcome && props == w.props && sleeps == w.sleeps
      ensures task.Some? || old(stored == props) ==> stored == props
    {
      sleeps := 0;
      PollsStopAtFirst(reply.states, 0, Allowance(maxWait));
      var resourceId := resource;
      if task.None? {
        if !HasTask(props) {
          return Returned, 0;
        }
        resourceId := props.resourceKey.value;
        if !reply.listed {
          props := props.(taskId := None);
          Update();
          return Returned, 0;
        }
      } else {
        props := props.(taskId := task, resourceKey := Some(resourceId));
        Update();
      }
      var saved := props;
      var retryCount := Allowance(maxWait);
      while Active(reply.states(sleeps))
        invariant props == saved && (task.Some? || old(stored == props) ==> stored == props)
        invariant Polls(reply.states, sleeps, retryCount) == Polls(reply.states, 0, Allowance(maxWait))
        decreases retryCount
      {
        sleeps := sleeps + 1;
        if retryCount <= 0 {
          return RetryRaised, sleeps;
        }
        retryCount := retryCount - 1;
      }
      props := props.(taskId := None, resourceKey := None);
      Update();
      if reply.final != Succeeded {
        return ErrorRaised, sleeps;
      }
      if resourceId.Some? && resourceId.value != "" {
        props := props.(others := props.others[resourceId.value := reply.result]);
        Update();
      }
      return Returned, sleeps;
    }

    /** `run_deferred_task`, before every wrapped operation. */
    method RunDeferredTask(reply: Reply) returns (outcome: Outcome)
      requires Valid(props)
      modifies this
      ensures var w := Wait(old(props), None, None, None, reply); outcome == w.outcome && props == w.props
      ensures outcome == RetryRaised <==>
                && old(IsWatched(None, reply))
                && forall i :: 0 <= i <= 20 ==> reply.states(i) == Queued || reply.states(i) == Running
      ensures outcome == ErrorRaised <==>
                old(IsWatched(None, reply)) && outcome != RetryRaised && reply.final != Succeeded
      ensures outcome == Returned ==> !HasTask(props)
      ensures old(stored == props) ==> stored == props
    {
      outcome := Returned;
      WaitLeaves(props, None, None, None, reply);
      if HasTask(props) {
        var sleeps;
        outcome, sleeps := WaitForTask(None, None, None, reply);
      }
    }
  }

  /******* Runs of operations *******/

  /** A task on the platform: its state while it is among the recent tasks. */
  datatype Status = Listed(state: TaskState) | Gone

  predicate IsRunning(status: Status) { status.Listed? && Active(status.state) }

  /** A task that is done stays as it is, and one that is gone does not come back. */
  predicate CanBecome(from: Status, to: Status)
  {
    match from
    case Gone => to.Gone?
    case Listed(state) => to.Gone? || Active(state) || to == from
  }

  /** The answers during a wait are those of a task that is in the status at its
      start. */
  ghost predicate Fits(reply: Reply, status: Status)
  {
    && (reply.listed <==> status.Listed?)
    && (status.Listed? ==>
          && CanBecome(status, Listed(reply.states(0)))
          && (forall i: nat :: !Active(reply.states(i)) ==> reply.states(i + 1) == reply.states(i))
          && (forall i: nat :: !Active(reply.states(i)) ==> reply.final == reply.states(i)))
  }

  datatype Phase = Idle | InBody

  /** `keys`: every task submitted so far, with the resource key it was submitted
      with; `tasks`: what they are on the platform. */
  datatype State = State(props: Props, phase: Phase, keys: map<TaskId, Option<string>>, tasks: map<TaskId, Status>)

  datatype Action =
    | Begin(reply: Reply)
    | Submit(id: TaskId, key: Option<string>, maxWait: Option<int>, wait: Reply)
    | Write(name: string, value: string)
    | End
    | EndDelete
    | Moves(id: TaskId, status: Status)

  /** A task id is new when the platform hands it out. */
  ghost predicate Enabled(s: State, a: Action)
  {
    match a
    case Begin(reply) =>
      && s.phase == Idle
      && (HasTask(s.props) ==> s.props.taskId.value in s.tasks && Fits(reply, s.tasks[s.props.taskId.value]))
    case Submit(id, _, _, reply) => s.phase == InBody && id != "" && id !in s.tasks && Fits(reply, Listed(Queued))
    case Write(_, _) => s.phase == InBody
    case End => s.phase == InBody
    case EndDelete => s.phase == InBody
    case Moves(id, status) => id in s.tasks && CanBecome(s.tasks[id], status)
  }

  /** Begin is what the wrapper does before the body, Submit a platform call in
      the body with the wait that follows it, and EndDelete the clean-up after a
      delete; Moves is the platform at work at any other time. An exception out of
      a wait ends the operation. */
  ghost function Step(s: State, a: Action): State
  {
    if !Enabled(s, a) then s
    else match a
      case Begin(reply) =>
        var w := Wait(s.props, None, None, None, reply);
        State(w.props, if w.outcome == Returned then InBody else Idle, s.keys,
              if HasTask(s.props) && reply.listed then s.tasks[s.props.taskId.value := Listed(reply.states(w.sleeps))]
              else s.tasks)
      case Submit(id, key, maxWait, reply) =>
        var w := Wait(s.props, Some(id), maxWait, key, reply);
        State(w.props, if w.outcome == Returned then InBody else Idle, s.keys[id := key],
              s.tasks[id := Listed(reply.states(w.sleeps))])
      case Write(name, value) => s.(props := s.props.(others := s.props.others[name := value]))
      case End => s.(phase := Idle)
      case EndDelete =>
        s.(phase := Idle, props := if HasTask(s.props) then s.props else Props(None, None, map[]))
      case Moves(id, status) => s.(tasks := s.tasks[id := status])
  }

  /** Every submitted task that is listed and queued or running is the one saved,
      with its own resource key, and no body is under way while a task is saved. */
  ghost predicate Inv(s: State)
  {
    && Valid(s.props)
    && s.tasks.Keys == s.keys.Keys
    && (HasTask(s.props) ==>
          s.props.taskId.value in s.keys && s.props.resourceKey == Some(s.keys[s.props.taskId.value]))
    && (forall id <- s.tasks :: IsRunning(s.tasks[id]) ==> HasTask(s.props) && s.props.taskId == Some(id))
    && (s.phase == InBody ==> !HasTask(s.props))
  }

  lemma BeginKeepsInv(s: State, reply: Reply)
    requires Inv(s)
    ensures Inv(Step(s, Begin(reply)))
  {
    WaitLeaves(s.props, None, None, None, reply);
    if HasTask(s.props) && !HasTask(Wait(s.props, None, None, None, reply).props) {
      ReleasedWasSeen(s.props, None, None, None, reply);
    }
  }

  lemma SubmitKeepsInv(s: State, id: TaskId, key: Option<string>, maxWait: Option<int>, reply: Reply)
    requires Inv(s)
    ensures Inv(Step(s, Submit(id, key, maxWait, reply)))
  {
    if Enabled(s, Submit(id, key, maxWait, reply)) {
      WaitLeaves(s.props, Some(id), maxWait, key, reply);
      if !HasTask(Wait(s.props, Some(id), maxWait, key, reply).props) {
        ReleasedWasSeen(s.props, Some(id), maxWait, key, reply);
      }
    }
  }

  lemma StepKeepsInv(s: State, a: Action)
    requires Inv(s)
    ensures Inv(Step(s, a))
  {
    match a
    case Begin(reply) => BeginKeepsInv(s, reply);
    case Submit(id, key, maxWait, reply) => SubmitKeepsInv(s, id, key, maxWait, reply);
    case _ =>
  }

  const FRESH := State(Props(None, None, map[]), Idle, map[], map[])

  lemma RunKeepsInv(actions: seq<Action>)
    ensures Inv(After(Step, FRESH, actions))
  {
    forall s, a | Inv(s) ensures Inv(Step(s, a)) {
      StepKeepsInv(s, a);
    }
    Keeps(Step, Inv, a => true, FRESH, actions);
  }

  /** In every run, whatever the platform answers and whenever its tasks move on:
      the body of an operation is only ever under way when no task submitted so far
      is listed as queued or running; and at most one ever is, the saved one. */
  lemma NoBodyWithTaskInFlight(actions: seq<Action>)
    ensures var s := After(Step, FRESH, actions);
            && s.tasks.Keys == s.keys.Keys
            && (s.phase == InBody ==> forall id <- s.tasks :: !IsRunning(s.tasks[id]))
            && (forall id <- s.tasks :: IsRunning(s.tasks[id]) ==> s.props.taskId == Some(id))
  {
    RunKeepsInv(actions);
  }

  /** In every run, a delete that comes to its end leaves no property behind. */
  lemma DeleteLeavesNothing(actions: seq<Action>)
    requires After(Step, FRESH, actions).phase == InBody
    ensures var s := Step(After(Step, FRESH, actions), EndDelete);
            s.phase == Idle && s.props.taskId.None? && s.props.resourceKey.None? && s.props.others == map[]
  {
    RunKeepsInv(actions);
  }

  /** A task that ends well on a later attempt: its result goes under the very key
      that was given when it was submitted, nothing else changes, and the platform
      has the task as succeeded. */
  lemma ResumedResultUnderItsKey(actions: seq<Action>, reply: Reply)
    requires var s := After(Step, FRESH, actions);
             && HasTask(s.props) && Enabled(s, Begin(reply))
             && reply.listed && reply.final == Succeeded && !Polls(reply.states, 0, Allowance(None)).timedOut
    ensures var s := After(Step, FRESH, actions);
            && s.props.taskId.value in s.keys
            && var id, t := s.props.taskId.value, Step(s, Begin(reply));
            t.phase == InBody && id in t.tasks && t.tasks[id] == Listed(Succeeded)
            && t.props.others == if s.keys[id].Some? && s.keys[id].value != ""
                                 then s.props.others[s.keys[id].value := reply.result]
                                 else s.props.others
  {
    RunKeepsInv(actions);
    PollsStopAtFirst(reply.states, 0, Allowance(None));
  }
}
