/**
 Rolling a standard port group out to every host, one host at a time, in a way
 that survives a stop at any point.
 */
module PortGroups {
  import opened Lists
  import opened Results
  import opened Runs

  type HostName = string

  datatype Status = Preparing | Creating | Created

  /** The runtime properties `status` and `created_on`. */
  datatype Saved = Saved(status: Option<Status>, createdOn: Option<seq<HostName>>)

  function Recorded(p: Saved): seq<HostName>
  {
    if p.createdOn.Some? then p.createdOn.value else []
  }

  /** Where an attempt is: `Added` is between the platform call for the first
      host of `todo` and the note that it was made. */
  datatype Point = Idle | Ready | Checked | AtHost | Added

  /** `memory` and `stored`: the runtime properties in the running attempt and
      with the manager. `carriers`: the hosts that carry the port group.
      `listed` and `seen`: the hosts, and the hosts of each port group of that
      name, as the attempt read them at its start and keeps them cached;
      `before`: who carried it at that moment. `promised`: the hosts listed by the
      attempt that set the status to created. `calls`: the hosts that own calls were
      made for since the last stop. */
  datatype State = State(
    memory: Saved, stored: Saved, carriers: set<HostName>, point: Point,
    listed: seq<HostName>, seen: seq<set<HostName>>, before: set<HostName>, todo: seq<HostName>,
    resumed: bool, promised: set<HostName>, calls: seq<HostName>)

  datatype Action =
    | Lookup(listed: seq<HostName>, seen: seq<set<HostName>>)
    | Prepare
    | Check(valid: bool)
    | Enter
    | Add
    | Record
    | Count
    | Stop
    | OutsiderAdds(host: HostName)
    | OutsiderRemoves(host: HostName)

  /** The port groups of one name, with the hosts each is on: a host carries at
      most one of them. */
  ghost predicate ViewOf(seen: seq<set<HostName>>, carriers: set<HostName>)
  {
    && (forall i, j :: 0 <= i < j < |seen| ==> seen[i] !! seen[j])
    && (forall h :: h in carriers <==> exists i :: 0 <= i < |seen| && h in seen[i])
  }

  /** The sum of the host counts, as the check adds them up. */
  function Total(seen: seq<set<HostName>>): nat
  {
    if seen == [] then 0 else |seen[0]| + Total(seen[1..])
  }

  function NotRecorded(hosts: seq<HostName>, done: seq<HostName>): (r: seq<HostName>)
    ensures forall h :: h in r <==> h in hosts && h !in done
  {
    if hosts == [] then []
    else (if hosts[0] in done then [] else [hosts[0]]) + NotRecorded(hosts[1..], done)
  }

  ghost predicate Enabled(s: State, a: Action)
  {
    match a
    case Lookup(listed, seen) => s.point == Idle && Distinct(listed) && ViewOf(seen, s.carriers)
    case Prepare => s.point == Ready && s.memory.status.None?
    case Check(_) => s.point == Ready && s.memory.status == Some(Preparing)
    case Enter => s.point == Checked || (s.point == Ready && s.memory.status == Some(Creating))
    case Add => s.point == AtHost && s.todo != []
    case Record => s.point == Added && s.todo != []
    case Count => s.point == AtHost && s.todo == []
    case _ => true
  }

  /** What the operation does after looking the name up: it is finished, it
      refuses a name that is taken, or it goes on. */
  datatype Verdict = Finished | Taken | GoOn

  function Judge(status: Option<Status>, present: bool): Verdict
  {
    if present && status == Some(Created) then Finished
    else if present && status != Some(Creating) then Taken
    else if status == Some(Created) then Finished
    else GoOn
  }

  ghost function Step(s: State, a: Action): State
  {
    if !Enabled(s, a) then s
    else match a
      case Lookup(listed, seen) =>
        var begun := s.(memory := s.stored, listed := listed, seen := seen, before := s.carriers, todo := [],
                        resumed := s.stored.status == Some(Creating));
        if Judge(s.stored.status, seen != []) == GoOn then begun.(point := Ready) else begun
      case Prepare => Store(s, s.memory.(status := Some(Preparing)))
      case Check(valid) => s.(point := if valid then Checked else Idle)
      case Enter =>
        var t := Store(s, s.memory.(status := Some(Creating)));
        t.(memory := t.memory.(createdOn := Some(Recorded(t.memory))),
           todo := NotRecorded(s.listed, Recorded(t.memory)), point := AtHost)
      case Add => s.(carriers := s.carriers + {s.todo[0]}, calls := s.calls + [s.todo[0]], point := Added)
      case Record =>
        Store(s, s.memory.(createdOn := Some(Recorded(s.memory) + [s.todo[0]]))).(todo := s.todo[1..], point := AtHost)
      case Count =>
        if Total(s.seen) == |s.listed|
        then Store(s, s.memory.(status := Some(Created))).(point := Idle, promised := AsSet(s.listed))
        else s.(point := Idle)
      case Stop => s.(memory := s.stored, calls := [], point := Idle)
      case OutsiderAdds(h) => s.(carriers := s.carriers + {h})
      case OutsiderRemoves(h) => s.(carriers := s.carriers - {h})
  }

  /** Set the properties in memory and store them. */
  function Store(s: State, p: Saved): State
  {
    s.(memory := p, stored := p)
  }

  /******* Runs *******/

  predicate IsNoRemoval(a: Action) { !a.OutsiderRemoves? }

  ghost predicate NoRemovals(actions: seq<Action>)
  {
    forall a <- actions :: IsNoRemoval(a)
  }

  const BLANK := Saved(None, None)

  ghost function Fresh(carriers: set<HostName>): State
  {
    State(BLANK, BLANK, carriers, Idle, [], [], {}, [], false, {}, [])
  }

  /** What every step keeps, whoever removes what. */
  ghost predicate Inv(s: State)
  {
    && s.memory.status == s.stored.status
    && (s.memory.createdOn == s.stored.createdOn || (s.stored.createdOn.None? && Recorded(s.memory) == []))
    && (s.point == Ready ==> s.memory.status != Some(Created))
    && (s.point == Checked ==> s.memory.status == Some(Preparing))
    && (s.point == AtHost || s.point == Added ==>
          && s.memory.status == Some(Creating)
          && AsSet(s.listed) <= AsSet(Recorded(s.memory)) + AsSet(s.todo))
    && (s.point == Added ==> s.todo != [])
    && (s.point != Idle ==> Distinct(s.listed) && ViewOf(s.seen, s.before) && (s.resumed || s.seen == []))
    && (s.stored.status == Some(Created) ==> s.promised <= AsSet(Recorded(s.stored)))
  }

  /** What every step keeps as long as no outsider removes the port group. */
  ghost predicate Carried(s: State)
  {
    && AsSet(Recorded(s.memory)) <= s.carriers
    && (s.point == Added && s.todo != [] ==> s.todo[0] in s.carriers)
  }

  lemma StepKeepsInv(s: State, a: Action)
    requires Inv(s)
    ensures Inv(Step(s, a))
  {
    if a.Record? && Enabled(s, a) {
      var t := Step(s, a);
      assert s.todo == [s.todo[0]] + s.todo[1..];
      assert AsSet(s.listed) <= AsSet(Recorded(t.memory)) + AsSet(t.todo);
    }
  }

  lemma StepKeepsCarried(s: State, a: Action)
    requires Inv(s) && Carried(s) && IsNoRemoval(a)
    ensures Carried(Step(s, a)) && s.carriers <= Step(s, a).carriers
  {
  }

  function Rank(status: Option<Status>): nat
  {
    match status
    case None => 0 case Some(Preparing) => 1 case Some(Creating) => 2 case Some(Created) => 3
  }

  /** The stored status never goes back, never skips a stage, and once created
      stays so. */
  lemma StatusMovesForward(s: State, a: Action)
    requires Inv(s)
    ensures Rank(s.stored.status) <= Rank(Step(s, a).stored.status) <= Rank(s.stored.status) + 1
  {
  }

  lemma RunKeepsInv(carriers: set<HostName>, actions: seq<Action>)
    ensures Inv(After(Step, Fresh(carriers), actions))
  {
    forall s, a | Inv(s) ensures Inv(Step(s, a)) {
      StepKeepsInv(s, a);
    }
    Keeps(Step, Inv, a => true, Fresh(carriers), actions);
  }

  ghost predicate InvAndCarried(s: State) { Inv(s) && Carried(s) }

  lemma RunKeepsCarried(carriers: set<HostName>, actions: seq<Action>)
    requires NoRemovals(actions)
    ensures InvAndCarried(After(Step, Fresh(carriers), actions))
  {
    forall s, a | InvAndCarried(s) && IsNoRemoval(a) ensures InvAndCarried(Step(s, a)) {
      StepKeepsInv(s, a);
      StepKeepsCarried(s, a);
    }
    Keeps(Step, InvAndCarried, IsNoRemoval, Fresh(carriers), actions);
  }

  /** In every run in which no outsider removes the port group, with stops
      anywhere: every recorded host carries it, and once the status is created
      every host listed by the attempt that set it does, however stale the
      counts were. */
  lemma CreatedMeansCarried(carriers: set<HostName>, actions: seq<Action>)
    requires NoRemovals(actions)
    ensures var s := After(Step, Fresh(carriers), actions);
            && AsSet(Recorded(s.stored)) <= s.carriers
            && (s.stored.status == Some(Created) ==> s.promised <= s.carriers)
  {
    RunKeepsCarried(carriers, actions);
  }

  /** What every step keeps of the own calls, whoever adds or removes what. */
  ghost predicate CalledOnce(s: State)
  {
    && Distinct(Recorded(s.memory)) && Distinct(s.calls)
    && (s.point == AtHost || s.point == Added ==> Distinct(s.todo) && AsSet(s.todo) !! AsSet(Recorded(s.memory)))
    && (s.point != Added ==> AsSet(s.calls) <= AsSet(Recorded(s.memory)))
    && (s.point == Added && s.todo != [] ==> AsSet(s.calls) <= AsSet(Recorded(s.memory)) + {s.todo[0]})
  }

  lemma {:induction false} NotRecordedIsDistinct(hosts: seq<HostName>, done: seq<HostName>)
    requires Distinct(hosts)
    ensures Distinct(NotRecorded(hosts, done))
  {
    if hosts != [] {
      NotRecordedIsDistinct(hosts[1..], done);
    }
  }

  lemma DistinctWithOneMore(hosts: seq<HostName>, h: HostName)
    requires Distinct(hosts) && h !in hosts
    ensures Distinct(hosts + [h]) && AsSet(hosts + [h]) == AsSet(hosts) + {h}
  {
  }

  lemma RestOfDistinct(hosts: seq<HostName>)
    requires Distinct(hosts) && hosts != []
    ensures Distinct(hosts[1..]) && AsSet(hosts) == {hosts[0]} + AsSet(hosts[1..]) && hosts[0] !in hosts[1..]
  {
  }

  lemma StepKeepsCalledOnce(s: State, a: Action)
    requires Inv(s) && CalledOnce(s)
    ensures CalledOnce(Step(s, a))
  {
    if Enabled(s, a) {
      match a
      case Enter => NotRecordedIsDistinct(s.listed, Recorded(s.memory));
      case Add =>
        assert s.todo[0] in AsSet(s.todo);
        DistinctWithOneMore(s.calls, s.todo[0]);
      case Record =>
        assert s.todo[0] in AsSet(s.todo);
        DistinctWithOneMore(Recorded(s.memory), s.todo[0]);
        RestOfDistinct(s.todo);
      case _ =>
    }
  }

  ghost predicate InvAndCalledOnce(s: State) { Inv(s) && CalledOnce(s) }

  /** In every run, the recorded hosts are without repeats, and between two stops
      the port group is added to no host more than once by own calls. */
  lemma NoHostTwice(carriers: set<HostName>, actions: seq<Action>)
    ensures var s := After(Step, Fresh(carriers), actions); Distinct(Recorded(s.stored)) && Distinct(s.calls)
  {
    forall s, a | InvAndCalledOnce(s) ensures InvAndCalledOnce(Step(s, a)) {
      StepKeepsInv(s, a);
      StepKeepsCalledOnce(s, a);
    }
    Keeps(Step, InvAndCalledOnce, a => true, Fresh(carriers), actions);
  }

  /******* What the count itself tells *******/

  function Union(seen: seq<set<HostName>>): set<HostName>
  {
    if seen == [] then {} else seen[0] + Union(seen[1..])
  }

  lemma {:induction false} TotalOfDisjoint(seen: seq<set<HostName>>)
    requires forall i, j :: 0 <= i < j < |seen| ==> seen[i] !! seen[j]
    ensures Total(seen) == |Union(seen)|
    ensures forall h :: h in Union(seen) <==> exists i :: 0 <= i < |seen| && h in seen[i]
  {
    if seen != [] {
      TotalOfDisjoint(seen[1..]);
      forall h ensures h in Union(seen) <==> exists i :: 0 <= i < |seen| && h in seen[i] {
        if h in Union(seen[1..]) {
          var i :| 0 <= i < |seen[1..]| && h in seen[1..][i];
          assert h in seen[i + 1];
        }
        if i :| 0 <= i < |seen| && h in seen[i] && i > 0 {
          assert seen[1..][i - 1] == seen[i];
        }
      }
      assert seen[0] !! Union(seen[1..]);
    }
  }

  lemma SizeOfParts(a: set<HostName>, b: set<HostName>)
    ensures |a| == |a * b| + |a - b|
  {
    assert a == a * b + (a - b);
  }

  /** The count is the number of hosts that carried the port group at the lookup.
      So it passes exactly when as many hosts carried it without being listed as
      were listed without carrying it. */
  lemma CountIsExact(listed: seq<HostName>, seen: seq<set<HostName>>, before: set<HostName>)
    requires Distinct(listed) && ViewOf(seen, before)
    ensures Total(seen) == |before|
    ensures Total(seen) == |listed| <==> |before - AsSet(listed)| == |AsSet(listed) - before|
  {
    TotalOfDisjoint(seen);
    assert Union(seen) == before;
    SizeOfDistinct(listed);
    SizeOfParts(before, AsSet(listed));
    SizeOfParts(AsSet(listed), before);
    assert before * AsSet(listed) == AsSet(listed) * before;
  }

  /** It tells whether every listed host carried it exactly when that is so: where
      some did not, the unlisted hosts that did must not be as many as these; where
      all did, no unlisted one may have. */
  lemma CountIsRight(listed: seq<HostName>, seen: seq<set<HostName>>, before: set<HostName>)
    requires Distinct(listed) && ViewOf(seen, before)
    ensures (Total(seen) == |listed| <==> AsSet(listed) <= before)
       <==> if AsSet(listed) <= before then before <= AsSet(listed)
            else |before - AsSet(listed)| != |AsSet(listed) - before|
  {
    CountIsExact(listed, seen, before);
    var extra, missing := before - AsSet(listed), AsSet(listed) - before;
    if AsSet(listed) <= before {
      assert missing == {};
      assert before <= AsSet(listed) <==> extra == {};
    }
  }

  /** With no port group on an unlisted host, the count is right. */
  lemma CountIsRightWithin(listed: seq<HostName>, seen: seq<set<HostName>>, before: set<HostName>)
    requires Distinct(listed) && ViewOf(seen, before) && before <= AsSet(listed)
    ensures Total(seen) == |listed| <==> AsSet(listed) <= before
  {
    CountIsExact(listed, seen, before);
    assert before - AsSet(listed) == {};
    assert AsSet(listed) <= before <==> AsSet(listed) - before == {};
  }

  /** Whatever hosts are listed, and whichever of them lacks the port group: one
      carrier that is not listed stands in for it. */
  lemma CountCanBeFooled(listed: seq<HostName>, lacking: HostName, unlisted: HostName)
    requires Distinct(listed) && lacking in listed && unlisted !in listed
    ensures var before := AsSet(listed) - {lacking} + {unlisted};
            && ViewOf([before], before) && Total([before]) == |listed| && !(AsSet(listed) <= before)
  {
    var before := AsSet(listed) - {lacking} + {unlisted};
    assert forall h :: h in before <==> h in [before][0];
    assert ViewOf([before], before);
    assert before - AsSet(listed) == {unlisted} && AsSet(listed) - before == {lacking};
    CountIsExact(listed, [before], before);
  }

  /** Where every listed host carried the port group at the lookup, the attempt
      ends as created exactly when no other host did: with one host too many it
      ends in a retry, though there is nothing left to do. */
  lemma CountNeedsNoOthers(s: State)
    requires Inv(s) && Enabled(s, Count) && AsSet(s.listed) <= s.before
    ensures Step(s, Count).stored.status == Some(Created) <==> s.before <= AsSet(s.listed)
  {
    CountIsRight(s.listed, s.seen, s.before);
  }

  /** The attempt that begins the rollout cannot finish it: its counts were read
      before it added anything, so it ends in a retry exactly when there are hosts. */
  lemma FirstAttemptRetries(carriers: set<HostName>, actions: seq<Action>)
    requires Enabled(After(Step, Fresh(carriers), actions), Count)
    requires !After(Step, Fresh(carriers), actions).resumed
    ensures var s := After(Step, Fresh(carriers), actions);
            && Step(s, Count).point == Idle
            && Step(s, Count).stored.status == if s.listed == [] then Some(Created) else Some(Creating)
  {
    RunKeepsInv(carriers, actions);
  }

  /******* The attempt itself *******/

  lemma Extend(s: State, actions: seq<Action>, a: Action)
    ensures After(Step, s, actions + [a]) == Step(After(Step, s, actions), a)
  {
    Append(Step, s, actions, [a]);
    Cons(Step, After(Step, s, actions), a, []);
    assert [a] + [] == [a];
  }

  /** A run may be stopped after any number of its actions; what it leaves is what
      was stored and who carries the port group by then. */
  lemma StopAnywhere(s: State, actions: seq<Action>, k: nat)
    requires k <= |actions|
    ensures var t := After(Step, s, actions[..k]);
            After(Step, s, actions[..k] + [Stop]) == t.(memory := t.stored, calls := [], point := Idle)
  {
    Extend(s, actions[..k], Stop);
  }

  datatype Outcome = Done | Retry | BadSwitch | NameTaken

  /** One network node: its runtime properties, and the hosts that carry its
      port group. */
  class Rollout {
    var props: Saved
    var stored: Saved
    var carriers: set<HostName>

    constructor (p: Saved, carriers: set<HostName>)
      ensures props == p && stored == p && this.carriers == carriers
    {
      props, stored, this.carriers := p, p, carriers;
    }

    /** The fields are those of the state. */
    ghost predicate In(s: State)
      reads this
    {
      props == s.memory && stored == s.stored && carriers == s.carriers
    }

    static lemma StatusCases(status: Option<Status>)
      ensures status.None? || status == Some(Preparing) || status == Some(Creating) || status == Some(Created)
    {
      match status
      case None =>
      case Some(Preparing) =>
      case Some(Creating) =>
      case Some(Created) =>
    }

    /** A run of actions, none of them a removal, led from `s` to `t`. */
    ghost predicate Led(s: State, actions: seq<Action>, t: State)
    {
      NoRemovals(actions) && After(Step, s, actions) == t
    }

    lemma Then(s: State, actions: seq<Action>, t: State, a: Action)
      requires Led(s, actions, t) && Enabled(t, a) && IsNoRemoval(a)
      ensures Led(s, actions + [a], Step(t, a))
    {
      Extend(s, actions, a);
    }

    /** The network node's `create` for a new standard network: the lookup of the
        name in the port groups just read, and then the rollout where it is called
        for. A new attempt starts from the stored properties. */
    method Create(listed: seq<HostName>, seen: seq<set<HostName>>, validSwitch: bool, ghost s: State)
      returns (outcome: Outcome, ghost actions: seq<Action>)
      requires Inv(s) && In(s) && Enabled(s, Lookup(listed, seen))
      modifies this
      ensures var begun := Step(s, Lookup(listed, seen));
              NoRemovals(actions) && In(After(Step, begun, actions)) && After(Step, begun, actions).point == Idle
      ensures outcome == Done <==> stored.status == Some(Created)
      ensures outcome == NameTaken <==>
                seen != [] && (old(stored.status).None? || old(stored.status) == Some(Preparing))
      ensures outcome == NameTaken || outcome == BadSwitch || old(stored.status) == Some(Created) ==>
                carriers == old(carriers) && props.createdOn == old(stored.createdOn)
      ensures outcome == Retry || (outcome == Done && old(stored.status) != Some(Created)) ==>
                && carriers == old(carriers) + (AsSet(listed) - AsSet(Recorded(old(stored))))
                && AsSet(Recorded(props)) == AsSet(Recorded(old(stored))) + AsSet(listed)
                && (outcome == Done <==> Total(seen) == |listed|)
    {
      props := stored;
      ghost var begun := Step(s, Lookup(listed, seen));
      actions := [];
      StepKeepsInv(s, Lookup(listed, seen));
      StatusCases(props.status);
      var creating := props.status == Some(Creating);
      var created := props.status == Some(Created);
      if seen != [] && created {
        return Done, actions;
      }
      if seen != [] && !creating {
        return NameTaken, actions;
      }
      if created {
        return Done, actions;
      }
      outcome, actions := CreatePortGroup(listed, seen, validSwitch, begun);
    }

    /** `create_port_group`, with the host list and the counts that the client
        has cached: it takes exactly a run of the protocol's actions. */
    method CreatePortGroup(listed: seq<HostName>, seen: seq<set<HostName>>, validSwitch: bool, ghost s: State)
      returns (outcome: Outcome, ghost actions: seq<Action>)
      requires Inv(s) && In(s) && s.point == Ready && s.listed == listed && s.seen == seen
      modifies this
      ensures NoRemovals(actions) && In(After(Step, s, actions))
      ensures After(Step, s, actions).point == Idle
      ensures outcome == Done <==> stored.status == Some(Created)
      ensures outcome == Done ==> AsSet(listed) == After(Step, s, actions).promised
      ensures outcome != NameTaken
      ensures outcome == BadSwitch <==> !validSwitch && (old(props.status).None? || old(props.status) == Some(Preparing))
      ensures outcome == BadSwitch ==> carriers == old(carriers) && props.createdOn == old(props.createdOn)
      ensures outcome != BadSwitch ==>
                && carriers == old(carriers) + (AsSet(listed) - AsSet(Recorded(old(props))))
                && AsSet(Recorded(props)) == AsSet(Recorded(old(props))) + AsSet(listed)
                && (outcome == Done <==> Total(seen) == |listed|)
    {
      ghost var t := s;
      StatusCases(props.status);
      var go;
      go, actions, t := CheckSwitch(validSwitch, s);
      if !go {
        return BadSwitch, actions;
      }
      actions, t := Roll(listed, s, actions, t);
      Then(s, actions, t, Count);
      actions, t := actions + [Count], Step(t, Count);
      var total := CountHosts(seen);
      if total == |listed| {
        props := props.(status := Some(Created));
        Update();
        return Done, actions;
      }
      return Retry, actions;
    }

    /** The first part: note the preparation, and check the switch while it lasts. */
    method CheckSwitch(validSwitch: bool, ghost s: State) returns (go: bool, ghost actions: seq<Action>, ghost t: State)
      requires Inv(s) && In(s) && s.point == Ready
      modifies this
      ensures Led(s, actions, t) && In(t) && t.listed == s.listed && t.seen == s.seen
      ensures go <==> validSwitch || old(props.status) == Some(Creating)
      ensures go ==> Enabled(t, Enter)
      ensures !go ==> t.point == Idle && stored.status == Some(Preparing)
      ensures carriers == old(carriers) && props.createdOn == old(props.createdOn)
    {
      actions, t := [], s;
      StatusCases(props.status);
      if props.status.None? {
        Then(s, actions, t, Prepare);
        actions, t := actions + [Prepare], Step(t, Prepare);
        props := props.(status := Some(Preparing));
        Update();
      }
      if props.status == Some(Preparing) {
        Then(s, actions, t, Check(validSwitch));
        actions, t := actions + [Check(validSwitch)], Step(t, Check(validSwitch));
        return validSwitch, actions, t;
      }
      return true, actions, t;
    }

    /** The second part: note that the rollout begins, and add the port group to the
        hosts that are not recorded. */
    method Roll(listed: seq<HostName>, ghost s: State, ghost before: seq<Action>, ghost from: State)
      returns (ghost actions: seq<Action>, ghost t: State)
      requires Led(s, before, from) && In(from) && Enabled(from, Enter) && from.listed == listed
      modifies this
      ensures Led(s, actions, t) && In(t) && t.point == AtHost && t.todo == []
      ensures t.listed == from.listed && t.seen == from.seen
      ensures stored.status == Some(Creating) && props.status == Some(Creating)
      ensures carriers == old(carriers) + (AsSet(listed) - AsSet(Recorded(old(props))))
      ensures AsSet(Recorded(props)) == AsSet(Recorded(old(props))) + AsSet(listed)
    {
      Then(s, before, from, Enter);
      actions, t := before + [Enter], Step(from, Enter);
      props := props.(status := Some(Creating));
      Update();
      if props.createdOn.None? {
        props := props.(createdOn := Some([]));
      }
      var hosts := NotRecorded(listed, props.createdOn.value);
      actions, t := AddToHosts(hosts, s, actions, t);
      assert AsSet(hosts) == AsSet(listed) - AsSet(Recorded(old(props)));
      assert AsSet(Recorded(props)) == AsSet(Recorded(old(props))) + AsSet(hosts);
    }

    /** The loop over the hosts: add on the platform, then note it. */
    method AddToHosts(hosts: seq<HostName>, ghost s: State, ghost before: seq<Action>, ghost from: State)
      returns (ghost actions: seq<Action>, ghost t: State)
      requires Led(s, before, from) && In(from) && from.point == AtHost && from.todo == hosts
      requires props.createdOn.Some? && props.status == Some(Creating) && stored.status == Some(Creating)
      modifies this
      ensures Led(s, actions, t) && In(t) && t.point == AtHost && t.todo == []
      ensures t.listed == from.listed && t.seen == from.seen
      ensures stored.status == Some(Creating) && props.status == Some(Creating)
      ensures carriers == old(carriers) + AsSet(hosts)
      ensures props.createdOn == Some(old(props.createdOn.value) + hosts)
    {
      actions, t := before, from;
      for i := 0 to |hosts|
        invariant Led(s, actions, t) && In(t) && t.point == AtHost && t.todo == hosts[i..]
        invariant t.listed == from.listed && t.seen == from.seen
        invariant props.createdOn.Some? && props.status == Some(Creating) && stored.status == Some(Creating)
        invariant carriers == old(carriers) + AsSet(hosts[..i])
        invariant props.createdOn.value == old(props.createdOn.value) + hosts[..i]
      {
        assert AsSet(hosts[..i + 1]) == AsSet(hosts[..i]) + {hosts[i]};
        assert hosts[..i + 1] == hosts[..i] + [hosts[i]];
        Then(s, actions, t, Add);
        actions, t := actions + [Add], Step(t, Add);
        carriers := carriers + {hosts[i]};
        Then(s, actions, t, Record);
        actions, t := actions + [Record], Step(t, Record);
        props := props.(createdOn := Some(props.createdOn.value + [hosts[i]]));
        Update();
      }
      assert hosts[..|hosts|] == hosts;
    }

    method Update()
      modifies this`stored
      ensures stored == props
    {
      stored := props;
    }
  }

  /** `_get_port_group_host_count`: the host counts of the port groups, added up. */
  method CountHosts(seen: seq<set<HostName>>) returns (total: nat)
    ensures total == Total(seen)
  {
    total := 0;
    for i := 0 to |seen|
      invariant total + Total(seen[i..]) == Total(seen)
    {
      assert seen[i..][1..] == seen[i + 1..];
      total := total + |seen[i]|;
    }
  }
}
