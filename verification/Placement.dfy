/**
 Choosing a host, a datastore and a resource pool for a new virtual machine.
 */
module Placement {
  import opened Lists
  import opened Results
  import opened Ranking

  /******* The inventory *******/

  datatype Status = Gray | Green | Yellow | Red

  datatype Pool = Pool(name: string, id: string, children: seq<Pool>)

  /** A cluster, or the compute resource of a host outside any cluster. */
  datatype Parent = Parent(isCluster: bool, name: string, pool: Pool)

  /** None stands for a value that `int` refuses. */
  datatype Vm = Vm(template: bool, memoryMB: Option<int>, cpus: Option<int>)

  datatype Network = Network(name: string, id: string)

  datatype Datastore = Datastore(name: string, status: Status, accessible: bool, freeSpace: int)

  type Positive = n: nat | n > 0 witness 1

  datatype Host = Host(name: string, status: Status, connectionState: string, inMaintenanceMode: bool,
                       parent: Parent, memoryBytes: nat, cpuThreads: Positive, vms: seq<Vm>,
                       networks: seq<Network>, datastores: seq<Datastore>)

  /** Empty lists of allowed names stand for no restriction. */
  datatype Request = Request(pool: string, cpus: int, memoryMB: int, networks: seq<(string, bool)>,
                             allowedHosts: seq<string>, allowedClusters: seq<string>, allowedDatastores: seq<string>,
                             committed: int, uncommitted: int)

  /******* Resource pools *******/

  function PoolsBelow(pools: seq<Pool>): seq<Pool>
  {
    if pools == [] then [] else [pools[0]] + PoolsBelow(pools[0].children) + PoolsBelow(pools[1..])
  }

  /** The pool and everything below it, each before its own children. */
  function PoolTree(pool: Pool): seq<Pool> { [pool] + PoolsBelow(pool.children) }

  /** A pool is listed when some way down from the root, child by child, ends at it. */
  ghost predicate Reached(root: Pool, pool: Pool, way: seq<nat>)
  {
    if way == [] then root == pool
    else way[0] < |root.children| && Reached(root.children[way[0]], pool, way[1..])
  }

  ghost predicate Reachable(root: Pool, pool: Pool)
  {
    exists way :: Reached(root, pool, way)
  }

  lemma {:induction false} PoolTreeIsReachable(root: Pool, pool: Pool)
    ensures pool in PoolTree(root) <==> Reachable(root, pool)
    decreases root
  {
    if pool == root {
      assert Reached(root, pool, []);
    }
    PoolsBelowReachable(root.children, pool);
    if i: nat :| i < |root.children| && Reachable(root.children[i], pool) {
      var way :| Reached(root.children[i], pool, way);
      assert ([i] + way)[1..] == way;
      assert Reached(root, pool, [i] + way);
    }
    if way :| Reached(root, pool, way) {
      if way != [] {
        assert Reached(root.children[way[0]], pool, way[1..]);
        assert Reachable(root.children[way[0]], pool);
      }
    }
  }

  lemma {:induction false} PoolsBelowReachable(pools: seq<Pool>, pool: Pool)
    ensures pool in PoolsBelow(pools) <==> exists i: nat :: i < |pools| && Reachable(pools[i], pool)
    decreases pools
  {
    if pools != [] {
      PoolTreeIsReachable(pools[0], pool);
      PoolsBelowReachable(pools[1..], pool);
      assert PoolTree(pools[0]) == [pools[0]] + PoolsBelow(pools[0].children);
      if pool in PoolsBelow(pools[1..]) {
        var i: nat :| i < |pools[1..]| && Reachable(pools[1..][i], pool);
        assert pools[1..][i] == pools[i + 1];
      }
      if i: nat :| i < |pools| && i > 0 && Reachable(pools[i], pool) {
        assert pools[1..][i - 1] == pools[i];
      }
    }
  }

  /** A pool is listed right before what is below it, and what is below the pools of
      a list stands in the order of the list. */
  lemma {:induction false} PoolsInOrder(a: seq<Pool>, b: seq<Pool>, pool: Pool)
    ensures PoolTree(pool) == [pool] + PoolsBelow(pool.children)
    ensures PoolsBelow([]) == [] && PoolsBelow([pool]) == PoolTree(pool)
    ensures PoolsBelow(a + b) == PoolsBelow(a) + PoolsBelow(b)
  {
    assert [pool][1..] == [];
    if a == [] {
      assert a + b == b;
    } else {
      assert (a + b)[1..] == a[1..] + b;
      PoolsInOrder(a[1..], b, pool);
    }
  }

  lemma PoolsBelowStep(pools: seq<Pool>, i: nat, before: seq<Pool>)
    requires i < |pools|
    ensures before + PoolsBelow(pools[i..])
         == before + [pools[i]] + PoolsBelow(pools[i].children) + PoolsBelow(pools[i + 1..])
  {
    assert pools[i..][1..] == pools[i + 1..];
  }

  /** `recurse_resource_pools`: one child, then everything below it, then the next. */
  method RecurseResourcePools(pool: Pool) returns (pools: seq<Pool>)
    ensures pools == PoolsBelow(pool.children)
    decreases pool
  {
    pools := [];
    for i := 0 to |pool.children|
      invariant pools + PoolsBelow(pool.children[i..]) == PoolsBelow(pool.children)
    {
      var below := RecurseResourcePools(pool.children[i]);
      PoolsBelowStep(pool.children, i, pools);
      pools := pools + [pool.children[i]] + below;
    }
  }

  method GetHostResourcePools(h: Host) returns (pools: seq<Pool>)
    ensures pools == PoolTree(h.parent.pool)
  {
    var below := RecurseResourcePools(h.parent.pool);
    pools := [h.parent.pool] + below;
  }

  predicate HasPool(h: Host, name: string)
  {
    exists pool <- PoolTree(h.parent.pool) :: pool.name == name
  }

  /** The first pool of that name in the host's list. */
  ghost predicate IsFirstPool(h: Host, name: string, pool: Pool)
  {
    var pools := PoolTree(h.parent.pool);
    exists i :: 0 <= i < |pools| && pools[i] == pool && pool.name == name
                && forall j :: 0 <= j < i ==> pools[j].name != name
  }

  /** `get_resource_pool`; None for the error. */
  method GetResourcePool(h: Host, name: string) returns (r: Option<Pool>)
    ensures r.Some? <==> HasPool(h, name)
    ensures r.Some? ==> IsFirstPool(h, name, r.value)
  {
    var pools := GetHostResourcePools(h);
    for i := 0 to |pools|
      invariant forall j :: 0 <= j < i ==> pools[j].name != name
    {
      if pools[i].name == name {
        return Some(pools[i]);
      }
    }
    return None;
  }

  /******* Which hosts are eligible *******/

  predicate Healthy(s: Status) { s == Green || s == Yellow }

  predicate HostIsUsable(h: Host)
  {
    Healthy(h.status) && h.connectionState == "connected" && !h.inMaintenanceMode
  }

  predicate IsDistributed(n: Network) { "dvportgroup" <= n.id }

  predicate ClusterAllowed(h: Host, rq: Request)
  {
    rq.allowedClusters != [] ==> h.parent.isCluster && h.parent.name in rq.allowedClusters
  }

  predicate HasNetworks(h: Host, rq: Request, norm: string -> string)
  {
    forall n <- rq.networks :: exists m <- h.networks :: norm(m.name) == norm(n.0) && IsDistributed(m) == n.1
  }

  predicate Eligible(h: Host, rq: Request, norm: string -> string)
  {
    && HostIsUsable(h)
    && (rq.allowedHosts != [] ==> h.name in rq.allowedHosts)
    && ClusterAllowed(h, rq)
    && HasPool(h, rq.pool)
    && HasNetworks(h, rq, norm)
  }

  /** The tests, in the numbers and names of the inventory: healthy, connected and
      not under maintenance; among the allowed hosts and clusters, if there are
      any; with a pool of the name somewhere below; and with each network asked
      for, under its normal form and of the same kind. */
  lemma EligibleMeans(h: Host, rq: Request, norm: string -> string)
    ensures Eligible(h, rq, norm) <==>
              && (h.status == Green || h.status == Yellow) && h.connectionState == "connected" && !h.inMaintenanceMode
              && (rq.allowedHosts == [] || h.name in rq.allowedHosts)
              && (rq.allowedClusters == [] || (h.parent.isCluster && h.parent.name in rq.allowedClusters))
              && (exists pool :: Reachable(h.parent.pool, pool) && pool.name == rq.pool)
              && forall n <- rq.networks :: exists m <- h.networks ::
                   norm(m.name) == norm(n.0) && (n.1 <==> "dvportgroup" <= m.id)
  {
    forall pool ensures pool in PoolTree(h.parent.pool) <==> Reachable(h.parent.pool, pool) {
      PoolTreeIsReachable(h.parent.pool, pool);
    }
  }

  /******* Ratios *******/

  /** What the code needs of the numbers: it divides by the host's memory in MB. */
  predicate HasMemory(h: Host) { TotalMemory(h) > 0 }

  /** And it divides by the assigned threads, which are not negative. */
  predicate Measurable(h: Host, rq: Request)
  {
    HasMemory(h) && rq.cpus + AssignedThreads(h.vms) > 0
  }

  function UsedMemory(vms: seq<Vm>): int
  {
    if vms == [] then 0
    else UsedMemory(vms[..|vms| - 1]) +
         var vm := vms[|vms| - 1]; if !vm.template && vm.memoryMB.Some? then vm.memoryMB.value else 0
  }

  function AssignedThreads(vms: seq<Vm>): int
  {
    if vms == [] then 0
    else AssignedThreads(vms[..|vms| - 1]) +
         var vm := vms[|vms| - 1]; if vm.cpus.Some? then vm.cpus.value else 0
  }

  /** One machine more adds its memory; a template and an unreadable value add nothing. */
  lemma UsedMemoryGrows(vms: seq<Vm>, vm: Vm)
    ensures UsedMemory([]) == 0
    ensures vm.template || vm.memoryMB.None? ==> UsedMemory(vms + [vm]) == UsedMemory(vms)
    ensures !vm.template && vm.memoryMB.Some? ==> UsedMemory(vms + [vm]) == UsedMemory(vms) + vm.memoryMB.value
  {
    assert (vms + [vm])[..|vms|] == vms;
  }

  /** One machine more adds its threads, also if it is a template; an unreadable
      value adds nothing. */
  lemma AssignedThreadsGrow(vms: seq<Vm>, vm: Vm)
    ensures AssignedThreads([]) == 0
    ensures vm.cpus.None? ==> AssignedThreads(vms + [vm]) == AssignedThreads(vms)
    ensures vm.cpus.Some? ==> AssignedThreads(vms + [vm]) == AssignedThreads(vms) + vm.cpus.value
  {
    assert (vms + [vm])[..|vms|] == vms;
  }

  lemma {:induction false} ThreadsNotNegative(vms: seq<Vm>)
    requires forall vm <- vms :: vm.cpus.Some? ==> vm.cpus.value >= 0
    ensures AssignedThreads(vms) >= 0
  {
    if vms != [] { ThreadsNotNegative(vms[..|vms| - 1]); }
  }

  /** For one processor or more asked for, every host with memory can be measured
      where no machine has less than none. */
  lemma OneProcessorIsEnough(h: Host, rq: Request)
    requires rq.cpus > 0 && HasMemory(h) && forall vm <- h.vms :: vm.cpus.Some? ==> vm.cpus.value >= 0
    ensures Measurable(h, rq) && CpuRatio(h, rq) > 0.0
  {
    ThreadsNotNegative(h.vms);
  }

  function TotalMemory(h: Host): int { h.memoryBytes / 1024 / 1024 }

  function MemoryRatio(h: Host, rq: Request): real
    requires HasMemory(h)
  {
    (TotalMemory(h) - UsedMemory(h.vms) - rq.memoryMB) as real / TotalMemory(h) as real
  }

  function CpuRatio(h: Host, rq: Request): (r: real)
    requires Measurable(h, rq)
    ensures r > 0.0
    ensures r * (rq.cpus + AssignedThreads(h.vms)) as real == h.cpuThreads as real
  {
    h.cpuThreads as real / (rq.cpus + AssignedThreads(h.vms)) as real
  }

  lemma QuotientGrows(x: real, y: real, c: real, d: real, p: real, q: real)
    requires c > 0.0 && d > 0.0 && p * c == x && q * d == y && x > 0.0 && y > 0.0
    requires x <= y && c >= d && (x < y || c > d)
    ensures p < q
  {
    if p >= q {
      assert q > 0.0 by {
        if q <= 0.0 { ProductNotNegative(-q, d); }
      }
      ProductNotNegative(p - q, c);
      ProductNotNegative(q, c - d);
      assert p * c - q * d == (p - q) * c + q * (c - d);
      if c > d { ProductPositive(q, c - d); }
    }
  }

  /** More threads on the host raise the ratio, and more of them assigned lower it. */
  lemma CpuRatioIsFair(a: Host, b: Host, rq: Request)
    requires Measurable(a, rq) && Measurable(b, rq)
    requires a.cpuThreads <= b.cpuThreads && AssignedThreads(a.vms) >= AssignedThreads(b.vms)
    requires a.cpuThreads < b.cpuThreads || AssignedThreads(a.vms) > AssignedThreads(b.vms)
    ensures CpuRatio(a, rq) < CpuRatio(b, rq)
  {
    QuotientGrows(a.cpuThreads as real, b.cpuThreads as real,
                  (rq.cpus + AssignedThreads(a.vms)) as real, (rq.cpus + AssignedThreads(b.vms)) as real,
                  CpuRatio(a, rq), CpuRatio(b, rq));
  }

  /** A host is overcommitted on memory exactly when the machines that may run
      on it, with the new one, claim more than it has. */
  lemma MemoryRatioSign(h: Host, rq: Request)
    requires HasMemory(h)
    ensures MemoryRatio(h, rq) < 0.0 <==> UsedMemory(h.vms) + rq.memoryMB > h.memoryBytes / 1024 / 1024
  {
    var left, total := (TotalMemory(h) - UsedMemory(h.vms) - rq.memoryMB) as real, TotalMemory(h) as real;
    assert left == MemoryRatio(h, rq) * total;
    if MemoryRatio(h, rq) < 0.0 {
      ProductPositive(-MemoryRatio(h, rq), total);
    } else {
      ProductNotNegative(MemoryRatio(h, rq), total);
    }
  }

  method GetHostFreeMemory(h: Host) returns (free: int)
    ensures free == h.memoryBytes / 1024 / 1024 - UsedMemory(h.vms)
  {
    var used := 0;
    for i := 0 to |h.vms|
      invariant used == UsedMemory(h.vms[..i])
    {
      assert h.vms[..i + 1][..i] == h.vms[..i];
      if !h.vms[i].template && h.vms[i].memoryMB.Some? {
        used := used + h.vms[i].memoryMB.value;
      }
    }
    assert h.vms[..|h.vms|] == h.vms;
    free := h.memoryBytes / 1024 / 1024 - used;
  }

  method HostMemoryUsageRatio(h: Host, rq: Request) returns (weight: real)
    requires HasMemory(h)
    ensures weight == MemoryRatio(h, rq)
    ensures weight * (h.memoryBytes / 1024 / 1024) as real
         == (h.memoryBytes / 1024 / 1024 - UsedMemory(h.vms) - rq.memoryMB) as real
  {
    var free := GetHostFreeMemory(h);
    weight := (free - rq.memoryMB) as real / TotalMemory(h) as real;
  }

  method HostCpuThreadUsageRatio(h: Host, rq: Request) returns (ratio: real)
    requires Measurable(h, rq)
    ensures ratio == CpuRatio(h, rq)
    ensures ratio * (rq.cpus + AssignedThreads(h.vms)) as real == h.cpuThreads as real
  {
    var threads := rq.cpus;
    for i := 0 to |h.vms|
      invariant threads == rq.cpus + AssignedThreads(h.vms[..i])
    {
      assert h.vms[..i + 1][..i] == h.vms[..i];
      if h.vms[i].cpus.Some? {
        threads := threads + h.vms[i].cpus.value;
      }
    }
    assert h.vms[..|h.vms|] == h.vms;
    ratio := h.cpuThreads as real / threads as real;
  }

  /******* Ranking *******/

  /** A host with its two ratios. */
  datatype Candidate = Candidate(host: Host, cpu: real, memory: real)

  function Rating(c: Candidate): real { c.cpu * c.memory }

  /** With positive processor ratios, no host that memory is overcommitted on
      comes before one that it is not. */
  lemma OvercommittedLast(s: seq<Candidate>, i: nat, j: nat)
    requires forall c <- s :: c.cpu > 0.0
    requires i < j < |s|
    ensures Sort(s, Rating)[i].memory < 0.0 ==> Sort(s, Rating)[j].memory < 0.0
  {
    SortDescending(s, Rating);
    var a, b := Sort(s, Rating)[i], Sort(s, Rating)[j];
    SortMembers(s, Rating, a);
    SortMembers(s, Rating, b);
    SignOfRating(a);
    SignOfRating(b);
  }

  lemma SignOfRating(c: Candidate)
    requires c.cpu > 0.0
    ensures Rating(c) < 0.0 <==> c.memory < 0.0
  {
    if c.memory >= 0.0 { ProductNotNegative(c.cpu, c.memory); } else { ProductPositive(c.cpu, -c.memory); }
  }

  lemma ProductNotNegative(x: real, y: real)
    requires x >= 0.0 && y >= 0.0
    ensures x * y >= 0.0
  {
  }

  lemma ProductPositive(x: real, y: real)
    requires x > 0.0 && y > 0.0
    ensures x * y > 0.0
  {
  }

  /** Among hosts with memory to spare, being at least as good on both ratios
      never lowers the rating. */
  lemma BetterIsNotLower(a: Candidate, b: Candidate)
    requires a.cpu >= b.cpu > 0.0 && a.memory >= b.memory >= 0.0
    ensures Rating(a) >= Rating(b)
  {
    ProductNotNegative(a.cpu, a.memory - b.memory);
    ProductNotNegative(a.cpu - b.cpu, b.memory);
  }

  /** A better processor ratio alone raises the rating exactly when memory is
      left over, and lowers it exactly when memory is overcommitted. */
  lemma ProcessorRatioCounts(a: Candidate, b: Candidate)
    requires a.cpu > b.cpu && a.memory == b.memory
    ensures Rating(a) > Rating(b) <==> a.memory > 0.0
    ensures Rating(a) < Rating(b) <==> a.memory < 0.0
  {
    assert Rating(a) - Rating(b) == (a.cpu - b.cpu) * a.memory;
    if a.memory > 0.0 { ProductPositive(a.cpu - b.cpu, a.memory); }
    if a.memory < 0.0 { ProductPositive(a.cpu - b.cpu, -a.memory); }
  }

  /** The host passes the tests that come before its memory is looked at. */
  predicate Considered(h: Host, rq: Request)
  {
    HostIsUsable(h) && (rq.allowedHosts != [] ==> h.name in rq.allowedHosts) && ClusterAllowed(h, rq)
  }

  /** The memory ratio is taken of the hosts considered, the processor ratio of
      those that pass the other tests as well. */
  ghost predicate Measured(hosts: seq<Host>, rq: Request, norm: string -> string)
  {
    && (forall h <- hosts :: Considered(h, rq) ==> HasMemory(h))
    && (forall h <- hosts :: Eligible(h, rq, norm) ==> Measurable(h, rq))
  }

  /** The eligible hosts with their ratios, in the order they are known. */
  ghost function Candidates(hosts: seq<Host>, rq: Request, norm: string -> string): (r: seq<Candidate>)
    requires Measured(hosts, rq, norm)
    ensures forall c <- r :: c.host in hosts && Eligible(c.host, rq, norm) && c.cpu > 0.0
    ensures forall c <- r :: Measurable(c.host, rq) && c.memory == MemoryRatio(c.host, rq) && c.cpu == CpuRatio(c.host, rq)
    ensures forall h <- hosts :: Eligible(h, rq, norm) ==> Candidate(h, CpuRatio(h, rq), MemoryRatio(h, rq)) in r
  {
    if hosts == [] then []
    else
      var h := hosts[|hosts| - 1];
      Candidates(hosts[..|hosts| - 1], rq, norm) +
      if Eligible(h, rq, norm) then [Candidate(h, CpuRatio(h, rq), MemoryRatio(h, rq))] else []
  }

  function HostsOf(cs: seq<Candidate>): (r: seq<Host>)
    ensures |r| == |cs| && forall i :: 0 <= i < |r| ==> r[i] == cs[i].host
  {
    if cs == [] then [] else HostsOf(cs[..|cs| - 1]) + [cs[|cs| - 1].host]
  }

  lemma HostsOfMore(cs: seq<Candidate>, c: Candidate)
    ensures HostsOf(cs + [c]) == HostsOf(cs) + [c.host]
  {
    assert (cs + [c])[..|cs|] == cs;
  }

  lemma CandidatesStep(hosts: seq<Host>, rq: Request, norm: string -> string)
    requires hosts != [] && Measured(hosts, rq, norm)
    ensures Measured(hosts[..|hosts| - 1], rq, norm)
    ensures var init, h := Candidates(hosts[..|hosts| - 1], rq, norm), hosts[|hosts| - 1];
            HostsOf(Candidates(hosts, rq, norm)) == if Eligible(h, rq, norm) then HostsOf(init) + [h] else HostsOf(init)
  {
    var init, h := Candidates(hosts[..|hosts| - 1], rq, norm), hosts[|hosts| - 1];
    if Eligible(h, rq, norm) {
      HostsOfMore(init, Candidate(h, CpuRatio(h, rq), MemoryRatio(h, rq)));
    } else {
      assert init + [] == init;
    }
  }

  /** The hosts are the eligible ones of the list, each as often as it stands there
      and in their order. */
  ghost predicate AreEligible(hosts: seq<Host>, rq: Request, norm: string -> string, cs: seq<Host>)
  {
    IsSublist(hosts, h => Eligible(h, rq, norm), cs)
  }

  lemma NoneIsEligible(rq: Request, norm: string -> string)
    ensures AreEligible([], rq, norm, [])
  {
    EmptySublist(h => Eligible(h, rq, norm));
  }

  lemma OneMoreEligible(hosts: seq<Host>, rq: Request, norm: string -> string, cs: seq<Host>, more: seq<Host>)
    requires hosts != [] && AreEligible(hosts[..|hosts| - 1], rq, norm, cs)
    requires var h := hosts[|hosts| - 1]; more == if Eligible(h, rq, norm) then cs + [h] else cs
    ensures AreEligible(hosts, rq, norm, more)
  {
    SublistOfMore(hosts, h => Eligible(h, rq, norm), cs, more);
  }

  /** There are candidates for exactly the eligible hosts, in their order. */
  lemma {:induction false} CandidatesInOrder(hosts: seq<Host>, rq: Request, norm: string -> string)
    requires Measured(hosts, rq, norm)
    ensures AreEligible(hosts, rq, norm, HostsOf(Candidates(hosts, rq, norm)))
  {
    if hosts == [] {
      NoneIsEligible(rq, norm);
    } else {
      var init := hosts[..|hosts| - 1];
      CandidatesStep(hosts, rq, norm);
      CandidatesInOrder(init, rq, norm);
      OneMoreEligible(hosts, rq, norm, HostsOf(Candidates(init, rq, norm)), HostsOf(Candidates(hosts, rq, norm)));
    }
  }

  function NetworkNames(h: Host, norm: string -> string): set<(string, bool)>
  {
    set n | n in h.networks :: (norm(n.name), IsDistributed(n))
  }

  /** `find_candidate_hosts`; None for the error that no host is suitable. */
  method FindCandidateHosts(hosts: seq<Host>, rq: Request, norm: string -> string) returns (r: Option<seq<Candidate>>)
    requires Measured(hosts, rq, norm)
    ensures r.None? <==> forall h <- hosts :: !Eligible(h, rq, norm)
    ensures r.Some? ==> r.value == Sort(Candidates(hosts, rq, norm), Rating)
    ensures r.Some? ==> Ordered(r.value) && forall c <- r.value :: AreItsRatios(c, rq)
  {
    var candidates: seq<Candidate> := [];
    for i := 0 to |hosts|
      invariant candidates == Candidates(hosts[..i], rq, norm)
    {
      var h := hosts[i];
      assert hosts[..i + 1][..i] == hosts[..i];
      if rq.allowedHosts != [] && h.name !in rq.allowedHosts { continue; }
      if !HostIsUsable(h) { continue; }
      if rq.allowedClusters != [] {
        var cluster := if h.parent.isCluster then Some(h.parent.name) else None;
        if cluster.None? || cluster.value !in rq.allowedClusters { continue; }
      }
      var memory := HostMemoryUsageRatio(h, rq);
      var pools := GetHostResourcePools(h);
      if forall pool <- pools :: pool.name != rq.pool { continue; }
      var wanted := set n | n in rq.networks :: (norm(n.0), n.1);
      var missing := wanted - NetworkNames(h, norm);
      NetworksCovered(h, rq, norm);
      if missing != {} { continue; }
      var cpu := HostCpuThreadUsageRatio(h, rq);
      candidates := candidates + [Candidate(h, cpu, memory)];
    }
    assert hosts[..|hosts|] == hosts;
    if candidates == [] {
      return None;
    }
    assert Eligible(candidates[0].host, rq, norm);
    RankedRatios(candidates, rq);
    return Some(Sort(candidates, Rating));
  }

  /** What the two ratios of a candidate are: threads over threads assigned with
      the new ones, and memory left with the new machine over memory. */
  ghost predicate AreItsRatios(c: Candidate, rq: Request)
  {
    && c.cpu * (rq.cpus + AssignedThreads(c.host.vms)) as real == c.host.cpuThreads as real
    && c.memory * (c.host.memoryBytes / 1024 / 1024) as real
       == (c.host.memoryBytes / 1024 / 1024 - UsedMemory(c.host.vms) - rq.memoryMB) as real
  }

  /** The products of the ratios do not rise along the list. */
  predicate Ordered(s: seq<Candidate>)
  {
    forall i, j :: 0 <= i < j < |s| ==> s[i].cpu * s[i].memory >= s[j].cpu * s[j].memory
  }

  lemma RatioOf(c: Candidate, rq: Request)
    requires Measurable(c.host, rq) && c.memory == MemoryRatio(c.host, rq) && c.cpu == CpuRatio(c.host, rq)
    ensures AreItsRatios(c, rq)
  {
  }

  lemma RankedRatios(cs: seq<Candidate>, rq: Request)
    requires forall c <- cs ::
               Measurable(c.host, rq) && c.memory == MemoryRatio(c.host, rq) && c.cpu == CpuRatio(c.host, rq)
    ensures forall c <- Sort(cs, Rating) :: AreItsRatios(c, rq)
    ensures Ordered(Sort(cs, Rating))
  {
    var s := Sort(cs, Rating);
    forall c | c in s ensures AreItsRatios(c, rq) {
      SortMembers(cs, Rating, c);
      RatioOf(c, rq);
    }
    SortDescending(cs, Rating);
    forall i, j | 0 <= i < j < |s| ensures s[i].cpu * s[i].memory >= s[j].cpu * s[j].memory {
      assert Rating(s[i]) >= Rating(s[j]);
    }
  }

  lemma NetworksCovered(h: Host, rq: Request, norm: string -> string)
    ensures HasNetworks(h, rq, norm)
       <==> (set n | n in rq.networks :: (norm(n.0), n.1)) - NetworkNames(h, norm) == {}
  {
    var wanted := set n | n in rq.networks :: (norm(n.0), n.1);
    if HasNetworks(h, rq, norm) {
      forall w | w in wanted ensures w in NetworkNames(h, norm) {
        var n :| n in rq.networks && w == (norm(n.0), n.1);
        var m :| m in h.networks && norm(m.name) == norm(n.0) && IsDistributed(m) == n.1;
        assert (norm(m.name), IsDistributed(m)) == w;
      }
    }
    if wanted - NetworkNames(h, norm) == {} {
      forall n | n in rq.networks
        ensures exists m <- h.networks :: norm(m.name) == norm(n.0) && IsDistributed(m) == n.1
      {
        var w := (norm(n.0), n.1);
        assert w in wanted && w !in wanted - NetworkNames(h, norm);
        var m :| m in h.networks && w == (norm(m.name), IsDistributed(m));
      }
    }
  }

  /******* Datastores *******/

  predicate DatastoreIsUsable(ds: Datastore) { Healthy(ds.status) && ds.accessible }

  predicate DatastoreAllowed(ds: Datastore, rq: Request)
  {
    rq.allowedDatastores != [] ==> ds.name in rq.allowedDatastores
  }

  /** Bytes that are written at once: the template's own and the memory file. */
  function MinimumUsed(rq: Request): int { rq.committed + rq.memoryMB * 1024 * 1024 }

  /** Bytes when the disk has grown to its full size. */
  function MaximumUsed(rq: Request): int { MinimumUsed(rq) + rq.uncommitted }

  predicate Feasible(ds: Datastore, rq: Request)
  {
    DatastoreAllowed(ds, rq) && DatastoreIsUsable(ds) && MinimumUsed(rq) <= ds.freeSpace
  }

  /** The tests of a datastore, in the numbers of the inventory: allowed, healthy,
      accessible, and with space for the template and the memory at once. */
  lemma FeasibleMeans(ds: Datastore, rq: Request)
    ensures Feasible(ds, rq) <==>
              && (rq.allowedDatastores == [] || ds.name in rq.allowedDatastores)
              && (ds.status == Green || ds.status == Yellow) && ds.accessible
              && rq.committed + rq.memoryMB * 1048576 <= ds.freeSpace
  {
  }

  /** `calculate_datastore_weighting`: what is left when the disk is filled up. */
  function Weighting(ds: Datastore, rq: Request): (w: Option<int>)
    ensures w.Some? <==> rq.committed + rq.memoryMB * 1048576 <= ds.freeSpace
    ensures w.Some? ==> ds.freeSpace == w.value + rq.committed + rq.memoryMB * 1048576 + rq.uncommitted
  {
    if ds.freeSpace - MinimumUsed(rq) < 0 then None else Some(ds.freeSpace - MaximumUsed(rq))
  }

  /** The position of the first feasible datastore with the most free space. */
  predicate IsBest(h: Host, rq: Request, d: nat)
  {
    && d < |h.datastores| && Feasible(h.datastores[d], rq)
    && (forall i :: 0 <= i < |h.datastores| && Feasible(h.datastores[i], rq) ==>
          h.datastores[i].freeSpace <= h.datastores[d].freeSpace)
    && (forall i :: 0 <= i < d && Feasible(h.datastores[i], rq) ==>
          h.datastores[i].freeSpace < h.datastores[d].freeSpace)
  }

  predicate HasFeasible(h: Host, rq: Request)
  {
    exists ds <- h.datastores :: Feasible(ds, rq)
  }

  /** Some feasible datastore could house the machine with its disk filled up. */
  predicate Roomy(h: Host, rq: Request)
  {
    exists ds <- h.datastores :: Feasible(ds, rq) && MaximumUsed(rq) <= ds.freeSpace
  }

  lemma BestIsRoomy(h: Host, rq: Request, d: nat)
    requires IsBest(h, rq, d)
    ensures HasFeasible(h, rq)
    ensures Roomy(h, rq) <==> rq.committed + rq.memoryMB * 1048576 + rq.uncommitted <= h.datastores[d].freeSpace
  {
    assert h.datastores[d] in h.datastores;
  }

  /** The datastore loop of one host: filter by name, by health and by space,
      then take the first maximum. */
  method BestDatastore(h: Host, rq: Request) returns (best: Option<(nat, int)>)
    ensures best.Some? <==> HasFeasible(h, rq)
    ensures best.Some? ==> IsBest(h, rq, best.value.0)
    ensures best.Some? ==> best.value.1 == h.datastores[best.value.0].freeSpace - MaximumUsed(rq)
  {
    best := None;
    for i := 0 to |h.datastores|
      invariant best.None? ==> forall j :: 0 <= j < i ==> !Feasible(h.datastores[j], rq)
      invariant best.Some? ==> best.value.0 < i && Feasible(h.datastores[best.value.0], rq)
      invariant best.Some? ==> best.value.1 == h.datastores[best.value.0].freeSpace - MaximumUsed(rq)
      invariant best.Some? ==> forall j :: 0 <= j < i && Feasible(h.datastores[j], rq) ==>
                                 h.datastores[j].freeSpace <= h.datastores[best.value.0].freeSpace
      invariant best.Some? ==> forall j :: 0 <= j < best.value.0 && Feasible(h.datastores[j], rq) ==>
                                 h.datastores[j].freeSpace < h.datastores[best.value.0].freeSpace
    {
      var ds := h.datastores[i];
      if rq.allowedDatastores != [] && ds.name !in rq.allowedDatastores { continue; }
      if !DatastoreIsUsable(ds) { continue; }
      var weighting := Weighting(ds, rq);
      if weighting.Some? && (best.None? || weighting.value > best.value.1) {
        best := Some((i, weighting.value));
      }
    }
    if best.Some? {
      assert h.datastores[best.value.0] in h.datastores;
    }
  }

  /******* The scan over the ranked hosts *******/

  /** The rule the scan follows: the first host that could house the machine
      filled up, and if there is none the first with any feasible datastore. */
  predicate IsChoice(hosts: seq<Candidate>, rq: Request, k: nat)
  {
    && k < |hosts| && HasFeasible(hosts[k].host, rq)
    && (Roomy(hosts[k].host, rq) ==> forall i :: 0 <= i < k ==> !Roomy(hosts[i].host, rq))
    && (!Roomy(hosts[k].host, rq) ==>
          && (forall i :: 0 <= i < |hosts| ==> !Roomy(hosts[i].host, rq))
          && (forall i :: 0 <= i < k ==> !HasFeasible(hosts[i].host, rq)))
  }

  lemma ChoiceIsUnique(hosts: seq<Candidate>, rq: Request, k: nat, k': nat, d: nat, d': nat)
    requires IsChoice(hosts, rq, k) && IsChoice(hosts, rq, k')
    requires IsBest(hosts[k].host, rq, d) && IsBest(hosts[k'].host, rq, d')
    ensures k == k' && d == d'
  {
  }

  /** `select_host_and_datastore`: positions of the host and of its datastore,
      None for the error. The best host and weighting so far are updated as the
      scan goes down the list. */
  method SelectHostAndDatastore(hosts: seq<Candidate>, rq: Request) returns (r: Option<(nat, nat)>)
    ensures r.None? <==> forall i :: 0 <= i < |hosts| ==> !HasFeasible(hosts[i].host, rq)
    ensures r.Some? ==> IsChoice(hosts, rq, r.value.0) && IsBest(hosts[r.value.0].host, rq, r.value.1)
  {
    r := None;
    var bestWeighting := 0;
    for i := 0 to |hosts|
      invariant r.None? ==> forall j :: 0 <= j < i ==> !HasFeasible(hosts[j].host, rq)
      invariant r.Some? ==> r.value.0 < i && IsChoice(hosts[..i], rq, r.value.0)
      invariant r.Some? ==> IsBest(hosts[r.value.0].host, rq, r.value.1)
      invariant r.Some? ==> (bestWeighting >= 0 <==> Roomy(hosts[r.value.0].host, rq))
    {
      var best := BestDatastore(hosts[i].host, rq);
      if best.Some? {
        BestIsRoomy(hosts[i].host, rq, best.value.0);
        if r.None? {
          r, bestWeighting := Some((i, best.value.0)), best.value.1;
        } else if bestWeighting < 0 {
          if best.value.1 >= 0 {
            r, bestWeighting := Some((i, best.value.0)), best.value.1;
          }
        }
      }
      assert Roomy(hosts[i].host, rq) ==> HasFeasible(hosts[i].host, rq);
    }
    assert hosts[..|hosts|] == hosts;
  }

  /******* The whole placement *******/

  datatype PlacementError = NoHost | NoDatastore | NoPool

  datatype Placed = Placed(host: Host, datastore: Datastore, pool: Pool)

  /** The host and the datastore that the scan's rule picks from the ranked list. */
  ghost predicate Chosen(ranked: seq<Candidate>, rq: Request, h: Host, ds: Datastore)
  {
    exists k: nat, d: nat :: IsChoice(ranked, rq, k) && IsBest(ranked[k].host, rq, d)
                             && h == ranked[k].host && ds == h.datastores[d]
  }

  /** What `create_server` does with the three steps. */
  method Place(hosts: seq<Host>, rq: Request, norm: string -> string) returns (r: Result<Placed, PlacementError>)
    requires Measured(hosts, rq, norm)
    ensures r.Success? ==>
              && r.value.host in hosts && Eligible(r.value.host, rq, norm)
              && r.value.datastore in r.value.host.datastores && Feasible(r.value.datastore, rq)
              && IsFirstPool(r.value.host, rq.pool, r.value.pool)
    ensures r.Success? ==>
              && (r.value.host.status == Green || r.value.host.status == Yellow)
              && r.value.host.connectionState == "connected" && !r.value.host.inMaintenanceMode
              && (rq.allowedHosts == [] || r.value.host.name in rq.allowedHosts)
              && (rq.allowedClusters == [] || r.value.host.parent.name in rq.allowedClusters)
              && (rq.allowedDatastores == [] || r.value.datastore.name in rq.allowedDatastores)
              && (r.value.datastore.status == Green || r.value.datastore.status == Yellow) && r.value.datastore.accessible
              && rq.committed + rq.memoryMB * 1048576 <= r.value.datastore.freeSpace
              && r.value.pool.name == rq.pool
    ensures r.Failure? <==> forall h <- hosts :: Eligible(h, rq, norm) ==> forall ds <- h.datastores :: !Feasible(ds, rq)
    ensures r == Failure(NoHost) <==> forall h <- hosts :: !Eligible(h, rq, norm)
    ensures r != Failure(NoPool)
    ensures r.Success? ==> Chosen(Sort(Candidates(hosts, rq, norm), Rating), rq, r.value.host, r.value.datastore)
  {
    var found := FindCandidateHosts(hosts, rq, norm);
    if found.None? {
      return Failure(NoHost);
    }
    var ranked := found.value;
    RankedHosts(hosts, rq, norm);
    var picked := SelectHostAndDatastore(ranked, rq);
    if picked.None? {
      NothingFeasible(hosts, rq, norm, ranked);
      return Failure(NoDatastore);
    }
    var (k, d) := picked.value;
    assert ranked[k] in ranked;
    var h := ranked[k].host;
    assert h.datastores[d] in h.datastores;
    var pool := GetResourcePool(h, rq.pool);
    if pool.None? {
      return Failure(NoPool);
    }
    return Success(Placed(h, h.datastores[d], pool.value));
  }

  lemma RankedHosts(hosts: seq<Host>, rq: Request, norm: string -> string)
    requires Measured(hosts, rq, norm)
    ensures forall c <- Sort(Candidates(hosts, rq, norm), Rating) :: c.host in hosts && Eligible(c.host, rq, norm)
  {
    forall c | c in Sort(Candidates(hosts, rq, norm), Rating) ensures c in Candidates(hosts, rq, norm) {
      SortMembers(Candidates(hosts, rq, norm), Rating, c);
    }
  }

  lemma NothingFeasible(hosts: seq<Host>, rq: Request, norm: string -> string, ranked: seq<Candidate>)
    requires Measured(hosts, rq, norm) && ranked == Sort(Candidates(hosts, rq, norm), Rating)
    requires forall i :: 0 <= i < |ranked| ==> !HasFeasible(ranked[i].host, rq)
    ensures forall h <- hosts :: Eligible(h, rq, norm) ==> forall ds <- h.datastores :: !Feasible(ds, rq)
  {
    forall h | h in hosts && Eligible(h, rq, norm) ensures !HasFeasible(h, rq) {
      EligibleIsRanked(hosts, rq, norm, h);
    }
    forall h, ds | h in hosts && Eligible(h, rq, norm) && ds in h.datastores ensures !Feasible(ds, rq) {
      assert !HasFeasible(h, rq);
    }
  }

  lemma EligibleIsRanked(hosts: seq<Host>, rq: Request, norm: string -> string, h: Host)
    requires Measured(hosts, rq, norm) && h in hosts && Eligible(h, rq, norm)
    ensures exists i :: 0 <= i < |Candidates(hosts, rq, norm)| && Sort(Candidates(hosts, rq, norm), Rating)[i].host == h
  {
    var c := Candidate(h, CpuRatio(h, rq), MemoryRatio(h, rq));
    SortMembers(Candidates(hosts, rq, norm), Rating, c);
    var i :| 0 <= i < |Candidates(hosts, rq, norm)| && Sort(Candidates(hosts, rq, norm), Rating)[i] == c;
  }
}
