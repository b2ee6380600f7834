/**
 Reservations written into Pod requests and read back (internal/k8s/job.go, extractPodResources and
 countUsedResources in internal/k8s/capacity.go, the release loop of internal/k8s/expiration.go).
 */
module PodResources {
  import opened Outcomes
  import opened Capacity

  const MEBIBYTE: int := 1024 * 1024
  const GIBIBYTE: int := 1024 * MEBIBYTE

  // A container's requests: GPUs if any were asked for, CPU in thousandths of a core, memory in bytes.
  datatype Requests = Requests(gpus: Option<int>, cpuMillis: int, memoryBytes: int)

  datatype Pod = Pod(sessionId: string, node: string, running: bool, finished: bool, expiresAt: Option<int>, containers: seq<Requests>)

  // Half a core and half a gibibyte are kept back for system pods; GPUs are requested as they are.
  function BuildRequests(gpuCount: int, cpuCores: int, memoryGB: int): Requests {
    var millis := cpuCores * 1000 - 500;
    var mib := memoryGB * 1024 - 512;
    Requests(
      if gpuCount > 0 then Some(gpuCount) else None,
      if millis < 500 then 500 else millis,
      (if mib < 512 then 512 else mib) * MEBIBYTE)
  }

  // Quantity.Value() of a CPU quantity rounds up to whole cores.
  function CoresOf(millis: int): int { (millis + 999) / 1000 }

  lemma WholeCores(millis: int)
    ensures (CoresOf(millis) - 1) * 1000 < millis <= CoresOf(millis) * 1000
  {
  }

  // The Pod of a session of at least one core and one gigabyte asks for half of each less.
  lemma RequestsInNumbers(gpuCount: int, cpuCores: int, memoryGB: int)
    requires cpuCores >= 1 && memoryGB >= 1
    ensures var r := BuildRequests(gpuCount, cpuCores, memoryGB);
      && r.gpus == (if gpuCount > 0 then Some(gpuCount) else None)
      && r.cpuMillis == cpuCores * 1000 - 500
      && r.memoryBytes == memoryGB * 1_073_741_824 - 536_870_912
  {
  }

  datatype Usage = Usage(gpus: int, cpuCores: int, memoryGB: int)

  function Plus(a: Usage, b: Usage): Usage { Usage(a.gpus + b.gpus, a.cpuCores + b.cpuCores, a.memoryGB + b.memoryGB) }

  function ContainerUsage(r: Requests): Usage {
    Usage(if r.gpus.Some? then r.gpus.value else 0, CoresOf(r.cpuMillis), r.memoryBytes / GIBIBYTE)
  }

  function SumUsage(us: seq<Usage>): Usage {
    if us == [] then Usage(0, 0, 0) else Plus(SumUsage(us[..|us| - 1]), us[|us| - 1])
  }

  lemma SumSnoc(us: seq<Usage>, u: Usage)
    ensures SumUsage(us + [u]) == Plus(SumUsage(us), u)
  {
    assert (us + [u])[..|us|] == us;
  }

  function Usages(containers: seq<Requests>): (us: seq<Usage>)
    ensures |us| == |containers| && forall i :: 0 <= i < |us| ==> us[i] == ContainerUsage(containers[i])
  {
    seq(|containers|, i requires 0 <= i < |containers| => ContainerUsage(containers[i]))
  }

  function PodUsage(pod: Pod): Usage { SumUsage(Usages(pod.containers)) }

  // What the containers request, added up.
  lemma UsageAdds(pod: Pod, r: Requests)
    ensures PodUsage(pod.(containers := [])) == Usage(0, 0, 0)
    ensures var one, sum := PodUsage(pod), PodUsage(pod.(containers := pod.containers + [r]));
      && sum.gpus == one.gpus + (if r.gpus != None then r.gpus.value else 0)
      && sum.cpuCores == one.cpuCores + CoresOf(r.cpuMillis)
      && sum.memoryGB == one.memoryGB + r.memoryBytes / 1_073_741_824
  {
    assert Usages(pod.containers + [r]) == Usages(pod.containers) + [ContainerUsage(r)];
    SumSnoc(Usages(pod.containers), ContainerUsage(r));
  }

  method ExtractPodResources(pod: Pod) returns (gpus: int, cpuCores: int, memoryGB: int)
    ensures Usage(gpus, cpuCores, memoryGB) == PodUsage(pod)
  {
    gpus, cpuCores, memoryGB := 0, 0, 0;
    ghost var usages := Usages(pod.containers);
    for i := 0 to |pod.containers|
      invariant Usage(gpus, cpuCores, memoryGB) == SumUsage(usages[..i])
    {
      var r := pod.containers[i];
      if r.gpus.Some? { gpus := gpus + r.gpus.value; }
      cpuCores := cpuCores + CoresOf(r.cpuMillis);
      memoryGB := memoryGB + r.memoryBytes / GIBIBYTE;
      assert usages[..i + 1][..i] == usages[..i];
    }
    assert usages[..|usages|] == usages;
  }

  // A session's Pod: one container with the requests of its reservation.
  predicate PodOf(pod: Pod, a: ResourceAllocation) {
    pod.containers == [BuildRequests(a.gpuCount, a.cpuCores, a.memoryGB)] && pod.sessionId == a.sessionId
  }

  predicate Sized(a: ResourceAllocation) { a.gpuCount >= 0 && a.cpuCores >= 1 && a.memoryGB >= 1 }

  // Reading back is exact for GPUs and cores and one gigabyte low in memory, for every size.
  lemma ReadBack(pod: Pod, a: ResourceAllocation)
    requires Sized(a) && PodOf(pod, a)
    ensures PodUsage(pod) == Usage(a.gpuCount, a.cpuCores, a.memoryGB - 1)
  {
    var r := BuildRequests(a.gpuCount, a.cpuCores, a.memoryGB);
    assert CoresOf(r.cpuMillis) == a.cpuCores;
    assert r.memoryBytes / GIBIBYTE == a.memoryGB - 1;
    assert Usages(pod.containers) == [] + [ContainerUsage(r)];
    SumSnoc([], ContainerUsage(r));
  }

  function Counted(pods: seq<Pod>, node: string): seq<Usage> {
    if pods == [] then []
    else
      var last := pods[|pods| - 1];
      Counted(pods[..|pods| - 1], node) + (if last.node == node && last.running then [PodUsage(last)] else [])
  }

  // Pods of other nodes, and Pods that do not run, add nothing.
  lemma {:induction false} CountedElsewhere(pods: seq<Pod>, more: seq<Pod>, node: string)
    requires forall i :: 0 <= i < |more| ==> more[i].node != node || !more[i].running
    ensures Counted(pods + more, node) == Counted(pods, node)
    decreases |more|
  {
    if more == [] {
      assert pods + more == pods;
    } else {
      var k := |more| - 1;
      CountedElsewhere(pods, more[..k], node);
      assert (pods + more)[..|pods + more| - 1] == pods + more[..k];
      assert Counted(pods, node) + [] == Counted(pods, node);
    }
  }

  // Usage of the running rental Pods on a node.
  method CountUsedResources(pods: seq<Pod>, node: string) returns (gpus: int, cpuCores: int, memoryGB: int)
    ensures Usage(gpus, cpuCores, memoryGB) == SumUsage(Counted(pods, node))
  {
    gpus, cpuCores, memoryGB := 0, 0, 0;
    for i := 0 to |pods|
      invariant Usage(gpus, cpuCores, memoryGB) == SumUsage(Counted(pods[..i], node))
    {
      assert pods[..i + 1][..i] == pods[..i];
      if pods[i].node == node && pods[i].running {
        var g, c, m := ExtractPodResources(pods[i]);
        gpus, cpuCores, memoryGB := gpus + g, cpuCores + c, memoryGB + m;
        SumSnoc(Counted(pods[..i], node), PodUsage(pods[i]));
      } else {
        assert Counted(pods[..i + 1], node) == Counted(pods[..i], node) + [] == Counted(pods[..i], node);
      }
    }
    assert pods[..|pods|] == pods;
  }

  function SumAllocations(held: seq<ResourceAllocation>): Usage {
    if held == [] then Usage(0, 0, 0)
    else Plus(SumAllocations(held[..|held| - 1]), Usage(held[|held| - 1].gpuCount, held[|held| - 1].cpuCores, held[|held| - 1].memoryGB))
  }

  // Summed over a node's Pods: GPUs and cores exact, memory short by one gigabyte per Pod, so a
  // refresh never reports more used than the live reservations hold.
  lemma {:induction false} CountedUsage(pods: seq<Pod>, live: seq<ResourceAllocation>, node: string)
    requires |pods| == |live|
    requires forall i :: 0 <= i < |pods| ==> Sized(live[i]) && PodOf(pods[i], live[i]) && pods[i].node == node && pods[i].running
    ensures var used, held := SumUsage(Counted(pods, node)), SumAllocations(live);
            used.gpus == held.gpus && used.cpuCores == held.cpuCores && used.memoryGB == held.memoryGB - |pods|
  {
    if pods != [] {
      var n := |pods| - 1;
      CountedUsage(pods[..n], live[..n], node);
      ReadBack(pods[n], live[n]);
      SumSnoc(Counted(pods[..n], node), PodUsage(pods[n]));
    }
  }

  // ---- The monitor's release from the Pod spec ----

  function MonitorAllocation(pod: Pod): ResourceAllocation {
    var u := PodUsage(pod);
    ResourceAllocation(pod.sessionId, "", u.gpus, u.cpuCores, u.memoryGB)
  }

  predicate Due(pod: Pod, now: int) { pod.finished || (pod.expiresAt.Some? && now > pod.expiresAt.value) }

  // What one listed Pod does to a node's record, its deletion succeeding or not.
  function AfterPod(c: Ledger, node: string, pod: Pod, now: int): (c': Ledger)
    requires Tracked(c)
    ensures Tracked(c')
  {
    var u := PodUsage(pod);
    if Due(pod, now) && pod.node == node && (u.gpus > 0 || u.cpuCores > 0 || u.memoryGB > 0)
    then Released(c, MonitorAllocation(pod)) else c
  }

  // In the Pod's own fields: what its requests add up to is given back on its node, once it has finished
  // or its time is past.
  lemma PodGivesBack(c: Ledger, node: string, pod: Pod, now: int)
    requires Tracked(c)
    ensures var u := PodUsage(pod);
      AfterPod(c, node, pod, now) ==
        if node == pod.node && (pod.finished || (pod.expiresAt != None && now > pod.expiresAt.value))
           && (u.gpus > 0 || u.cpuCores > 0 || u.memoryGB > 0)
        then Released(c, ResourceAllocation(pod.sessionId, "", u.gpus, u.cpuCores, u.memoryGB)) else c
  {
  }

  function AfterMonitor(c: Ledger, node: string, pods: seq<Pod>, now: int): (c': Ledger)
    requires Tracked(c)
    ensures Tracked(c')
  {
    if pods == [] then c else AfterPod(AfterMonitor(c, node, pods[..|pods| - 1], now), node, pods[|pods| - 1], now)
  }

  // A provider's nodes are tracked by records of their own.
  predicate Separate(tracker: CapacityTracker, provider: string)
    reads tracker, if provider in tracker.capacity then tracker.capacity[provider].Values else {}
  {
    && provider in tracker.capacity
    && var nodes := tracker.capacity[provider];
    && (forall n :: n in nodes ==> nodes[n].Valid())
    && (forall m, n :: m in nodes && n in nodes && m != n ==> nodes[m] != nodes[n])
  }

  // Releases to one node leave the provider's other records alone.
  method ReleaseOn(tracker: CapacityTracker, provider: string, node: string, a: ResourceAllocation)
    requires Separate(tracker, provider)
    modifies tracker.capacity[provider].Values
    ensures Separate(tracker, provider)
    ensures forall n :: n in tracker.capacity[provider] ==>
      unchanged(tracker.capacity[provider][n]) || n == node
    ensures node in tracker.capacity[provider] ==>
      tracker.capacity[provider][node].Record() == Released(old(tracker.capacity[provider][node].Record()), a)
  {
    tracker.ReleaseResources(provider, node, a);
  }

  method CheckPod(tracker: CapacityTracker, provider: string, pod: Pod, now: int)
    requires Separate(tracker, provider)
    modifies tracker.capacity[provider].Values
    ensures Separate(tracker, provider)
    ensures forall n :: n in tracker.capacity[provider] && n != "" ==>
      tracker.capacity[provider][n].Record() == AfterPod(old(tracker.capacity[provider][n].Record()), n, pod, now)
  {
    var shouldDelete := false;
    if pod.expiresAt.Some? && now > pod.expiresAt.value { shouldDelete := true; }
    if pod.finished { shouldDelete := true; }
    if shouldDelete && pod.node != "" {
      var gpus, cpuCores, memoryGB := ExtractPodResources(pod);
      if gpus > 0 || cpuCores > 0 || memoryGB > 0 {
        var a := ResourceAllocation(pod.sessionId, "", gpus, cpuCores, memoryGB);
        assert a == MonitorAllocation(pod) && Due(pod, now);
        ReleaseOn(tracker, provider, pod.node, a);
      }
    }
  }

  method CheckCluster(tracker: CapacityTracker, provider: string, pods: seq<Pod>, now: int)
    requires Separate(tracker, provider)
    modifies tracker.capacity[provider].Values
    ensures Separate(tracker, provider)
    ensures forall n :: n in tracker.capacity[provider] && n != "" ==>
      tracker.capacity[provider][n].Record() == AfterMonitor(old(tracker.capacity[provider][n].Record()), n, pods, now)
  {
    ghost var nodes := tracker.capacity[provider];
    ghost var before := map n | n in nodes :: nodes[n].Record();
    for i := 0 to |pods|
      invariant Separate(tracker, provider)
      invariant forall n :: n in nodes && n != "" ==> nodes[n].Record() == AfterMonitor(before[n], n, pods[..i], now)
    {
      assert pods[..i + 1][..i] == pods[..i];
      CheckPod(tracker, provider, pods[i], now);
    }
    assert pods[..|pods|] == pods;
  }

  // What the monitor releases for a Pod never exceeds its reservation, and leaves exactly the one
  // gigabyte the reading lost, on a node that tracks a single GPU type.
  lemma MonitorReleasesLess(c: Ledger, pod: Pod, a: ResourceAllocation)
    requires Restorable(c) && c.gpus.Keys == {c.gpuModel} && Sized(a) && PodOf(pod, a) && Enough(c, a)
    ensures var c' := Released(Reserved(c, a), MonitorAllocation(pod));
            c' == c.(memory := Shift(c.memory, 1))
  {
    ReadBack(pod, a);
    var m := MonitorAllocation(pod);
    var r := Reserved(c, a);
    var c' := Released(r, m);
    assert ChargedType(c, a.gpuType) == c.gpuModel == ChargedType(r, m.gpuType);
    assert CounterRestorable(c.gpus[c.gpuModel]);
    assert c'.gpus[c.gpuModel] == c.gpus[c.gpuModel];
    assert c'.gpus == c.gpus;
  }
}
