/**
 The capacity tracker (internal/k8s/capacity.go): per node, GPUs by type, CPU cores and memory,
 each split into in use and available; staged reservation with rollback and clamped release.
 */
module Capacity {
  import opened Outcomes

  datatype Counter = Counter(total: int, inUse: int, available: int)

  // The value of one node's record.
  datatype Ledger = Ledger(gpuModel: string, gpus: map<string, Counter>, cpu: Counter, memory: Counter)

  datatype ResourceAllocation = ResourceAllocation(
    sessionId: string, gpuType: string, gpuCount: int, cpuCores: int, memoryGB: int)

  datatype AllocateError = NoProvider | NoNode | InsufficientGPU | InsufficientCPU | InsufficientMemory

  // The node's primary model is a tracked type.
  predicate Tracked(c: Ledger) { c.gpuModel in c.gpus }

  predicate CounterBalanced(k: Counter) { k.inUse >= 0 && k.available >= 0 && k.inUse + k.available == k.total }

  // Available plus in use is the total, per resource, and neither is negative.
  predicate Balanced(c: Ledger) {
    && Tracked(c)
    && (forall t :: t in c.gpus ==> CounterBalanced(c.gpus[t]))
    && CounterBalanced(c.cpu) && CounterBalanced(c.memory)
  }

  // The clamps of a release leave such a record alone: nothing negative in use, no more available than
  // there is. Every discovered record is like that, also one that reports more used than there is.
  predicate Restorable(c: Ledger) {
    && Tracked(c)
    && (forall t :: t in c.gpus ==> CounterRestorable(c.gpus[t]))
    && CounterRestorable(c.cpu) && CounterRestorable(c.memory)
  }

  predicate CounterRestorable(k: Counter) { k.inUse >= 0 && k.available <= k.total }

  // The type charged: an empty or untracked type falls back to the node's primary model.
  function ChargedType(c: Ledger, requested: string): (t: string)
    ensures Tracked(c) ==> t in c.gpus
  {
    if requested != "" && requested in c.gpus then requested else c.gpuModel
  }

  predicate Has(k: Counter, n: int) { n > 0 ==> k.available >= n }

  predicate GpuShort(c: Ledger, a: ResourceAllocation)
    requires Tracked(c)
  {
    !Has(c.gpus[ChargedType(c, a.gpuType)], a.gpuCount)
  }

  predicate Enough(c: Ledger, a: ResourceAllocation)
    requires Tracked(c)
  {
    !GpuShort(c, a) && Has(c.cpu, a.cpuCores) && Has(c.memory, a.memoryGB)
  }

  // Moves n units from available to in use, or back when n is negative.
  function Shift(k: Counter, n: int): Counter {
    k.(inUse := k.inUse + n, available := k.available - n)
  }

  function Take(k: Counter, n: int): Counter { Shift(k, Max(n, 0)) }

  // Both clamps of a release: in use not below zero, available not above the total.
  function Give(k: Counter, n: int): Counter {
    k.(inUse := Max(k.inUse - n, 0), available := Min(k.available + n, k.total))
  }

  function Reserved(c: Ledger, a: ResourceAllocation): (c': Ledger)
    requires Tracked(c)
    ensures Tracked(c') && c'.gpus.Keys == c.gpus.Keys && c'.gpuModel == c.gpuModel
  {
    var t := ChargedType(c, a.gpuType);
    c.(gpus := c.gpus[t := Take(c.gpus[t], a.gpuCount)], cpu := Take(c.cpu, a.cpuCores), memory := Take(c.memory, a.memoryGB))
  }

  function Released(c: Ledger, a: ResourceAllocation): (c': Ledger)
    requires Tracked(c)
    ensures Tracked(c') && c'.gpus.Keys == c.gpus.Keys && c'.gpuModel == c.gpuModel
  {
    var t := ChargedType(c, a.gpuType);
    c.(gpus := c.gpus[t := Give(c.gpus[t], a.gpuCount)], cpu := Give(c.cpu, a.cpuCores), memory := Give(c.memory, a.memoryGB))
  }

  // What a staged reservation leaves behind, and its error.
  datatype Staged = Staged(gpus: map<string, Counter>, cpu: Counter, memory: Counter, err: Option<AllocateError>)

  // GPU, then CPU, then memory; a later shortage gives back what the earlier stages took.
  function Stages(gpus: map<string, Counter>, cpu: Counter, memory: Counter, t: string, a: ResourceAllocation): Staged
    requires t in gpus
  {
    if !Has(gpus[t], a.gpuCount) then Staged(gpus, cpu, memory, Some(InsufficientGPU))
    else HostStages(gpus[t := Take(gpus[t], a.gpuCount)], cpu, memory, t, a)
  }

  function HostStages(gpus: map<string, Counter>, cpu: Counter, memory: Counter, t: string, a: ResourceAllocation): Staged
    requires t in gpus
  {
    var undone := gpus[t := Shift(gpus[t], -a.gpuCount)];
    if !Has(cpu, a.cpuCores) then Staged(undone, cpu, memory, Some(InsufficientCPU))
    else if !Has(memory, a.memoryGB) then
      Staged(undone, Shift(Take(cpu, a.cpuCores), -a.cpuCores), memory, Some(InsufficientMemory))
    else Staged(gpus, Take(cpu, a.cpuCores), Take(memory, a.memoryGB), None)
  }

  function StagedLedger(c: Ledger, r: Staged): Ledger { c.(gpus := r.gpus, cpu := r.cpu, memory := r.memory) }

  // Success exactly when every stage fits, and then every stage is taken. A refused request leaves
  // the record alone, except after a negative count: that stage was never taken but is rolled back.
  predicate AllocateOutcome(c: Ledger, a: ResourceAllocation, err: Option<AllocateError>, c': Ledger)
    requires Tracked(c)
  {
    && (err.None? <==> Enough(c, a))
    && (err.None? ==> c' == Reserved(c, a))
    && (err == Some(InsufficientGPU) <==> GpuShort(c, a))
    && (err.Some? ==> (c' == c <==> GpuShort(c, a) || (a.gpuCount >= 0 && a.cpuCores >= 0)))
  }

  lemma UpdatedTwice(m: map<string, Counter>, t: string, x: Counter, y: Counter)
    ensures m[t := x][t := y] == m[t := y]
  {
  }

  class NodeCapacity {
    var gpuModel: string
    var totalGPUs: map<string, int>
    var totalCPUCores: int
    var totalMemoryGB: int
    var inUseGPUs: map<string, int>
    var inUseCPUCores: int
    var inUseMemoryGB: int
    var availableGPUs: map<string, int>
    var availableCPUCores: int
    var availableMemoryGB: int

    // The three GPU maps track the same types, the primary model among them.
    predicate Valid()
      reads `gpuModel, `totalGPUs, `inUseGPUs, `availableGPUs
    {
      gpuModel in totalGPUs && inUseGPUs.Keys == totalGPUs.Keys && availableGPUs.Keys == totalGPUs.Keys
    }

    function Gpus(): (m: map<string, Counter>)
      requires Valid()
      reads `gpuModel, `totalGPUs, `inUseGPUs, `availableGPUs
      ensures m.Keys == totalGPUs.Keys
    {
      map t | t in totalGPUs :: Counter(totalGPUs[t], inUseGPUs[t], availableGPUs[t])
    }

    function Record(): (c: Ledger)
      requires Valid()
      reads this
      ensures Tracked(c) && c.gpus.Keys == totalGPUs.Keys
    {
      Ledger(gpuModel, Gpus(), Cpu(), Memory())
    }

    function Cpu(): Counter
      reads `totalCPUCores, `inUseCPUCores, `availableCPUCores
    {
      Counter(totalCPUCores, inUseCPUCores, availableCPUCores)
    }

    function Memory(): Counter
      reads `totalMemoryGB, `inUseMemoryGB, `availableMemoryGB
    {
      Counter(totalMemoryGB, inUseMemoryGB, availableMemoryGB)
    }

    ghost function Contents(): (c: Option<Ledger>)
      reads this
      ensures c.Some? <==> Valid()
      ensures c.Some? ==> Tracked(c.value)
    {
      if Valid() then Some(Record()) else None
    }

    // A freshly discovered node: one GPU type, availability floored at zero.
    constructor (model: string, gpus: int, cpuCores: int, memoryGB: int, usedGPUs: int, usedCPU: int, usedMemory: int)
      ensures Valid() && Record() == DiscoveredRecord(model, gpus, cpuCores, memoryGB, usedGPUs, usedCPU, usedMemory)
    {
      var availGPUs := gpus - usedGPUs;
      if availGPUs < 0 { availGPUs := 0; }
      var availCPU := cpuCores - usedCPU;
      if availCPU < 0 { availCPU := 0; }
      var availMem := memoryGB - usedMemory;
      if availMem < 0 { availMem := 0; }
      gpuModel := model;
      totalGPUs, totalCPUCores, totalMemoryGB := map[model := gpus], cpuCores, memoryGB;
      inUseGPUs, inUseCPUCores, inUseMemoryGB := map[model := usedGPUs], usedCPU, usedMemory;
      availableGPUs, availableCPUCores, availableMemoryGB := map[model := availGPUs], availCPU, availMem;
    }

    // A stage and its rollback on the GPU maps.
    method ShiftGPUs(t: string, n: int)
      requires Valid() && t in totalGPUs
      modifies `inUseGPUs, `availableGPUs
      ensures Valid() && Gpus() == old(Gpus())[t := Shift(old(Gpus())[t], n)]
    {
      availableGPUs := availableGPUs[t := availableGPUs[t] - n];
      inUseGPUs := inUseGPUs[t := inUseGPUs[t] + n];
    }

    method ShiftCPU(n: int)
      modifies `inUseCPUCores, `availableCPUCores
      ensures Cpu() == Shift(old(Cpu()), n)
    {
      availableCPUCores := availableCPUCores - n;
      inUseCPUCores := inUseCPUCores + n;
    }

    method ShiftMemory(n: int)
      modifies `inUseMemoryGB, `availableMemoryGB
      ensures Memory() == Shift(old(Memory()), n)
    {
      availableMemoryGB := availableMemoryGB - n;
      inUseMemoryGB := inUseMemoryGB + n;
    }

    // Step 1: the GPU stage.
    method AllocateGPU(t: string, a: ResourceAllocation) returns (ok: bool)
      requires Valid() && t in totalGPUs
      modifies `inUseGPUs, `availableGPUs
      ensures Valid() && (ok <==> Has(old(Gpus())[t], a.gpuCount))
      ensures Gpus() == if ok then old(Gpus())[t := Take(old(Gpus())[t], a.gpuCount)] else old(Gpus())
    {
      if a.gpuCount > 0 {
        if availableGPUs[t] < a.gpuCount { return false; }
        ShiftGPUs(t, a.gpuCount);
      }
      ok := true;
    }

    // Step 2: the CPU stage; on shortage it rolls back the GPU stage.
    method AllocateCPU(t: string, a: ResourceAllocation) returns (ok: bool)
      requires Valid() && t in totalGPUs
      modifies `inUseGPUs, `availableGPUs, `inUseCPUCores, `availableCPUCores
      ensures Valid() && (ok <==> Has(old(Cpu()), a.cpuCores))
      ensures Cpu() == if ok then Take(old(Cpu()), a.cpuCores) else old(Cpu())
      ensures Gpus() == if ok then old(Gpus()) else old(Gpus())[t := Shift(old(Gpus())[t], -a.gpuCount)]
    {
      if a.cpuCores > 0 {
        if availableCPUCores < a.cpuCores {
          ShiftGPUs(t, -a.gpuCount);
          return false;
        }
        ShiftCPU(a.cpuCores);
      }
      ok := true;
    }

    // Step 3: the memory stage; on shortage it rolls back both earlier stages.
    method AllocateMemory(t: string, a: ResourceAllocation) returns (ok: bool)
      requires Valid() && t in totalGPUs
      modifies this
      ensures Valid() && gpuModel == old(gpuModel) && (ok <==> Has(old(Memory()), a.memoryGB))
      ensures Memory() == if ok then Take(old(Memory()), a.memoryGB) else old(Memory())
      ensures Cpu() == if ok then old(Cpu()) else Shift(old(Cpu()), -a.cpuCores)
      ensures Gpus() == if ok then old(Gpus()) else old(Gpus())[t := Shift(old(Gpus())[t], -a.gpuCount)]
    {
      if a.memoryGB > 0 {
        if availableMemoryGB < a.memoryGB {
          ShiftGPUs(t, -a.gpuCount);
          ShiftCPU(-a.cpuCores);
          return false;
        }
        ShiftMemory(a.memoryGB);
      }
      ok := true;
    }

    method Allocate(a: ResourceAllocation) returns (err: Option<AllocateError>)
      requires Valid()
      modifies this
      ensures Valid() && gpuModel == old(gpuModel)
      ensures Staged(Gpus(), Cpu(), Memory(), err)
           == Stages(old(Gpus()), old(Cpu()), old(Memory()), ChargedType(old(Record()), a.gpuType), a)
    {
      var t := ResolveType(a.gpuType);
      ghost var gpus := Gpus();
      var ok := AllocateGPU(t, a);
      if !ok { return Some(InsufficientGPU); }
      UpdatedTwice(gpus, t, Gpus()[t], Shift(Gpus()[t], -a.gpuCount));
      err := AllocateHost(t, a);
    }

    // Steps 2 and 3, after the GPU stage was taken.
    method AllocateHost(t: string, a: ResourceAllocation) returns (err: Option<AllocateError>)
      requires Valid() && t in totalGPUs
      modifies this
      ensures Valid() && gpuModel == old(gpuModel)
      ensures Staged(Gpus(), Cpu(), Memory(), err) == HostStages(old(Gpus()), old(Cpu()), old(Memory()), t, a)
    {
      var ok := AllocateCPU(t, a);
      if !ok { return Some(InsufficientCPU); }
      ok := AllocateMemory(t, a);
      if !ok { return Some(InsufficientMemory); }
      err := None;
    }

    // An empty or untracked type falls back to the primary model.
    method ResolveType(requested: string) returns (t: string)
      requires Valid()
      ensures t == ChargedType(Record(), requested) && t in totalGPUs
      ensures availableGPUs[t] == Gpus()[t].available
    {
      t := requested;
      if t == "" { t := gpuModel; }
      if t !in totalGPUs { t := gpuModel; }
    }

    method ReleaseGPUs(t: string, n: int)
      requires Valid() && t in totalGPUs
      modifies `inUseGPUs, `availableGPUs
      ensures Valid() && Gpus() == old(Gpus())[t := Give(old(Gpus())[t], n)]
    {
      var available, inUse := availableGPUs[t] + n, inUseGPUs[t] - n;
      if inUse < 0 { inUse := 0; }
      if available > totalGPUs[t] { available := totalGPUs[t]; }
      availableGPUs, inUseGPUs := availableGPUs[t := available], inUseGPUs[t := inUse];
    }

    method Release(a: ResourceAllocation)
      requires Valid()
      modifies this
      ensures Valid() && Record() == Released(old(Record()), a)
    {
      ghost var c := Record();
      var t := ResolveType(a.gpuType);
      ReleaseGPUs(t, a.gpuCount);
      assert Gpus() == Released(c, a).gpus;
      ReleaseCPU(a.cpuCores);
      ReleaseMemory(a.memoryGB);
      assert Record().gpus == Released(c, a).gpus;
    }

    method ReleaseCPU(n: int)
      modifies `inUseCPUCores, `availableCPUCores
      ensures Cpu() == Give(old(Cpu()), n)
    {
      availableCPUCores := availableCPUCores + n;
      inUseCPUCores := inUseCPUCores - n;
      if inUseCPUCores < 0 { inUseCPUCores := 0; }
      if availableCPUCores > totalCPUCores { availableCPUCores := totalCPUCores; }
    }

    method ReleaseMemory(n: int)
      modifies `inUseMemoryGB, `availableMemoryGB
      ensures Memory() == Give(old(Memory()), n)
    {
      availableMemoryGB := availableMemoryGB + n;
      inUseMemoryGB := inUseMemoryGB - n;
      if inUseMemoryGB < 0 { inUseMemoryGB := 0; }
      if availableMemoryGB > totalMemoryGB { availableMemoryGB := totalMemoryGB; }
    }
  }

  lemma StagesAreAllOrNothing(c: Ledger, a: ResourceAllocation)
    requires Tracked(c)
    ensures var r := Stages(c.gpus, c.cpu, c.memory, ChargedType(c, a.gpuType), a);
            AllocateOutcome(c, a, r.err, StagedLedger(c, r))
  {
    var t := ChargedType(c, a.gpuType);
    var r := Stages(c.gpus, c.cpu, c.memory, t, a);
    var c', err := StagedLedger(c, r), r.err;
    if err.Some? && !GpuShort(c, a) {
      if a.gpuCount >= 0 {
        assert c'.gpus[t] == c.gpus[t];
        assert c'.gpus == c.gpus;
      } else {
        assert c'.gpus[t] != c.gpus[t];
      }
    }
  }

  // A reservation in numbers: granted exactly when each resource asked for is available, on the type
  // asked for if the node has it and on its own model otherwise; the first that falls short is reported.
  lemma AllocationInNumbers(c: Ledger, a: ResourceAllocation)
    requires Tracked(c) && NonNegative(a)
    ensures var t := if a.gpuType != "" && a.gpuType in c.gpus then a.gpuType else c.gpuModel;
      var r := Stages(c.gpus, c.cpu, c.memory, ChargedType(c, a.gpuType), a);
      && t in c.gpus
      && r.err == (if a.gpuCount > 0 && c.gpus[t].available < a.gpuCount then Some(InsufficientGPU)
                   else if a.cpuCores > 0 && c.cpu.available < a.cpuCores then Some(InsufficientCPU)
                   else if a.memoryGB > 0 && c.memory.available < a.memoryGB then Some(InsufficientMemory)
                   else None)
      && (r.err != None ==> r.gpus == c.gpus && r.cpu == c.cpu && r.memory == c.memory)
      && (r.err == None ==>
            && r.gpus == c.gpus[t := Counter(c.gpus[t].total, c.gpus[t].inUse + a.gpuCount, c.gpus[t].available - a.gpuCount)]
            && r.cpu == Counter(c.cpu.total, c.cpu.inUse + a.cpuCores, c.cpu.available - a.cpuCores)
            && r.memory == Counter(c.memory.total, c.memory.inUse + a.memoryGB, c.memory.available - a.memoryGB)
            && Reserved(c, a) == Ledger(c.gpuModel, r.gpus, r.cpu, r.memory))
  {
    var t := ChargedType(c, a.gpuType);
    assert c.gpus[t := c.gpus[t]] == c.gpus;
  }

  // A release in numbers: in use not below zero, available not above the total, each by itself.
  lemma ReleaseInNumbers(c: Ledger, a: ResourceAllocation)
    requires Tracked(c)
    ensures var t := if a.gpuType != "" && a.gpuType in c.gpus then a.gpuType else c.gpuModel;
      var c' := Released(c, a);
      && t in c.gpus && c'.gpuModel == c.gpuModel && c'.gpus.Keys == c.gpus.Keys
      && (forall k :: k in c.gpus && k != t ==> c'.gpus[k] == c.gpus[k])
      && GivenBack(c.gpus[t], a.gpuCount, c'.gpus[t]) && GivenBack(c.cpu, a.cpuCores, c'.cpu)
      && GivenBack(c.memory, a.memoryGB, c'.memory)
  {
  }

  predicate GivenBack(k: Counter, n: int, k': Counter) {
    && k'.total == k.total
    && (k.inUse >= n ==> k'.inUse == k.inUse - n) && (k.inUse < n ==> k'.inUse == 0)
    && (k.available + n <= k.total ==> k'.available == k.available + n) && (k.available + n > k.total ==> k'.available == k.total)
  }

  // A node as the cluster lists it, with what its running rental Pods use (nothing, if counting failed).
  datatype ClusterNode = ClusterNode(
    name: string, controlPlane: bool, ready: bool, model: string, gpus: int, cpuCores: int, memoryGB: int,
    usedGPUs: int, usedCPU: int, usedMemory: int)

  predicate Eligible(n: ClusterNode) { !n.controlPlane && n.ready }

  predicate DistinctNames(nodes: seq<ClusterNode>) {
    forall i, j :: 0 <= i < j < |nodes| ==> nodes[i].name != nodes[j].name
  }

  predicate Lists(nodes: seq<ClusterNode>, k: nat, name: string)
    requires k <= |nodes|
  {
    exists i :: 0 <= i < k && Eligible(nodes[i]) && nodes[i].name == name
  }

  function NodeRecord(n: ClusterNode): Ledger {
    DiscoveredRecord(n.model, n.gpus, n.cpuCores, n.memoryGB, n.usedGPUs, n.usedCPU, n.usedMemory)
  }

  // Names are distinct, so a control-plane node, or one that is not ready, is not listed as another.
  lemma SkippedNodes(nodes: seq<ClusterNode>)
    requires DistinctNames(nodes)
    ensures forall i :: 0 <= i < |nodes| && (nodes[i].controlPlane || !nodes[i].ready) ==> !Lists(nodes, |nodes|, nodes[i].name)
  {
  }

  // What a fresh record shows: the node's totals, what its Pods use, and the rest as available, if any.
  lemma NodeInNumbers(n: ClusterNode)
    ensures var c := NodeRecord(n);
      && c.gpuModel == n.model && c.gpus.Keys == {n.model}
      && c.gpus[n.model] == Counter(n.gpus, n.usedGPUs, if n.usedGPUs < n.gpus then n.gpus - n.usedGPUs else 0)
      && c.cpu == Counter(n.cpuCores, n.usedCPU, if n.usedCPU < n.cpuCores then n.cpuCores - n.usedCPU else 0)
      && c.memory == Counter(n.memoryGB, n.usedMemory, if n.usedMemory < n.memoryGB then n.memoryGB - n.usedMemory else 0)
  {
  }

  class CapacityTracker {
    var capacity: map<string, map<string, NodeCapacity>>

    constructor ()
      ensures capacity == map[]
    {
      capacity := map[];
    }

    predicate Knows(provider: string, node: string)
      reads this
    {
      provider in capacity && node in capacity[provider]
    }

    // The record of a node, or null.
    function GetCapacity(provider: string, node: string): (cap: NodeCapacity?)
      reads this
      ensures cap != null <==> Knows(provider, node)
    {
      if Knows(provider, node) then capacity[provider][node] else null
    }

    // Replaces one node's record by a fresh one, as each refresh of a provider does.
    method Discover(provider: string, node: string, model: string, gpus: int, cpuCores: int, memoryGB: int,
                    usedGPUs: int, usedCPU: int, usedMemory: int)
      modifies this
      ensures Knows(provider, node) && fresh(capacity[provider][node])
      ensures capacity[provider][node].Contents()
           == Some(DiscoveredRecord(model, gpus, cpuCores, memoryGB, usedGPUs, usedCPU, usedMemory))
      ensures forall p, n :: !(p == provider && n == node) ==>
        (Knows(p, n) <==> old(Knows(p, n))) && (Knows(p, n) ==> capacity[p][n] == old(capacity[p][n]))
    {
      var cap := new NodeCapacity(model, gpus, cpuCores, memoryGB, usedGPUs, usedCPU, usedMemory);
      var nodes: map<string, NodeCapacity> := if provider in capacity then capacity[provider] else map[];
      nodes := nodes[node := cap];
      capacity := capacity[provider := nodes];
    }

    ghost predicate Shows(provider: string, n: ClusterNode)
      reads this, GetCapacity(provider, n.name)
    {
      Knows(provider, n.name) && capacity[provider][n.name].Contents() == Some(NodeRecord(n))
    }

    // A refresh: every ready worker node that the cluster lists gets a fresh record, and all other
    // records, those of nodes that are gone or not ready among them, stay. Nothing changes without a list.
    method DiscoverCapacity(provider: string, listed: Option<seq<ClusterNode>>) returns (ok: bool)
      requires listed.Some? ==> DistinctNames(listed.value)
      modifies this
      ensures ok == listed.Some?
      ensures !ok ==> capacity == old(capacity)
      ensures ok ==> forall i :: 0 <= i < |listed.value| && !listed.value[i].controlPlane && listed.value[i].ready ==>
        && Knows(provider, listed.value[i].name)
        && fresh(capacity[provider][listed.value[i].name])
        && capacity[provider][listed.value[i].name].Contents() == Some(NodeRecord(listed.value[i]))
      ensures ok ==> forall i :: 0 <= i < |listed.value| && (listed.value[i].controlPlane || !listed.value[i].ready) ==>
        && (Knows(provider, listed.value[i].name) <==> old(Knows(provider, listed.value[i].name)))
        && (Knows(provider, listed.value[i].name) ==>
              capacity[provider][listed.value[i].name] == old(capacity[provider][listed.value[i].name]))
      ensures ok ==> forall p, n :: !(p == provider && Lists(listed.value, |listed.value|, n)) ==>
        (Knows(p, n) <==> old(Knows(p, n))) && (Knows(p, n) ==> capacity[p][n] == old(capacity[p][n]))
    {
      if listed.None? { return false; }
      var nodes := listed.value;
      if provider !in capacity { capacity := capacity[provider := map[]]; }
      for i := 0 to |nodes|
        invariant forall j :: 0 <= j < i && Eligible(nodes[j]) ==>
          Shows(provider, nodes[j]) && fresh(capacity[provider][nodes[j].name])
        invariant forall p, n :: !(p == provider && Lists(nodes, i, n)) ==>
          (Knows(p, n) <==> old(Knows(p, n))) && (Knows(p, n) ==> capacity[p][n] == old(capacity[p][n]))
      {
        var n := nodes[i];
        if n.controlPlane { continue; }
        if !n.ready { continue; }
        Discover(provider, n.name, n.model, n.gpus, n.cpuCores, n.memoryGB, n.usedGPUs, n.usedCPU, n.usedMemory);
      }
      SkippedNodes(nodes);
      ok := true;
    }

    method AllocateResources(provider: string, node: string, a: ResourceAllocation) returns (err: Option<AllocateError>)
      requires GetCapacity(provider, node) != null ==> GetCapacity(provider, node).Valid()
      modifies GetCapacity(provider, node)
      ensures GetCapacity(provider, node) == null ==> err == Some(if provider in capacity then NoNode else NoProvider)
      ensures var cap := GetCapacity(provider, node);
              cap != null ==> cap.Valid() && AllocateOutcome(old(cap.Record()), a, err, cap.Record())
    {
      if provider !in capacity { return Some(NoProvider); }
      if node !in capacity[provider] { return Some(NoNode); }
      var cap := capacity[provider][node];
      ghost var c := cap.Record();
      err := cap.Allocate(a);
      StagesAreAllOrNothing(c, a);
    }

    method ReleaseResources(provider: string, node: string, a: ResourceAllocation)
      requires GetCapacity(provider, node) != null ==> GetCapacity(provider, node).Valid()
      modifies GetCapacity(provider, node)
      ensures var cap := GetCapacity(provider, node);
              cap != null ==> cap.Valid() && cap.Record() == Released(old(cap.Record()), a)
    {
      if provider in capacity && node in capacity[provider] {
        capacity[provider][node].Release(a);
      }
    }
  }

  // ---- Discovery ----

  function Discovered(total: int, used: int): Counter { Counter(total, used, Max(total - used, 0)) }

  function DiscoveredRecord(model: string, gpus: int, cpuCores: int, memoryGB: int, usedGPUs: int, usedCPU: int, usedMemory: int): (c: Ledger)
    ensures Tracked(c) && c.gpus.Keys == {model}
  {
    Ledger(model, map[model := Discovered(gpus, usedGPUs)], Discovered(cpuCores, usedCPU), Discovered(memoryGB, usedMemory))
  }

  // A refresh starts balanced exactly when nothing is reported more used than there is.
  lemma DiscoveryBalanced(model: string, gpus: int, cpu: int, mem: int, usedGPUs: int, usedCPU: int, usedMem: int)
    requires usedGPUs >= 0 && usedCPU >= 0 && usedMem >= 0
    ensures Balanced(DiscoveredRecord(model, gpus, cpu, mem, usedGPUs, usedCPU, usedMem))
       <==> usedGPUs <= gpus && usedCPU <= cpu && usedMem <= mem
  {
    var c := DiscoveredRecord(model, gpus, cpu, mem, usedGPUs, usedCPU, usedMem);
    assert model in c.gpus && c.gpus[model] == Discovered(gpus, usedGPUs);
  }

  lemma DiscoveryRestorable(model: string, gpus: int, cpu: int, mem: int, usedGPUs: int, usedCPU: int, usedMem: int)
    requires gpus >= 0 && cpu >= 0 && mem >= 0 && usedGPUs >= 0 && usedCPU >= 0 && usedMem >= 0
    ensures Restorable(DiscoveredRecord(model, gpus, cpu, mem, usedGPUs, usedCPU, usedMem))
  {
  }

  // ---- Balance over every run ----

  predicate NonNegative(a: ResourceAllocation) { a.gpuCount >= 0 && a.cpuCores >= 0 && a.memoryGB >= 0 }

  predicate SameTotals(c: Ledger, c': Ledger) {
    && c'.gpuModel == c.gpuModel && c'.gpus.Keys == c.gpus.Keys
    && c'.cpu.total == c.cpu.total && c'.memory.total == c.memory.total
    && forall t :: t in c.gpus ==> c'.gpus[t].total == c.gpus[t].total
  }

  lemma ReserveKeepsBalance(c: Ledger, a: ResourceAllocation)
    requires Balanced(c) && Enough(c, a)
    ensures Balanced(Reserved(c, a)) && SameTotals(c, Reserved(c, a))
  {
  }

  // A release keeps the balance, however much is given back too often; only a negative release can
  // break it, and exactly when it takes more than is available.
  lemma ReleaseKeepsBalance(c: Ledger, a: ResourceAllocation)
    requires Balanced(c)
    ensures Balanced(Released(c, a)) <==>
            && -a.gpuCount <= c.gpus[ChargedType(c, a.gpuType)].available
            && -a.cpuCores <= c.cpu.available
            && -a.memoryGB <= c.memory.available
    ensures SameTotals(c, Released(c, a))
  {
    var t, c' := ChargedType(c, a.gpuType), Released(c, a);
    assert c'.gpus[t] == Give(c.gpus[t], a.gpuCount);
    assert CounterBalanced(c.gpus[t]);
  }

  // Releasing what was just reserved restores the record exactly.
  lemma ReleaseInvertsReserve(c: Ledger, a: ResourceAllocation)
    requires Restorable(c) && Enough(c, a) && NonNegative(a)
    ensures Released(Reserved(c, a), a) == c
  {
    var t := ChargedType(c, a.gpuType);
    assert CounterRestorable(c.gpus[t]);
    var c' := Released(Reserved(c, a), a);
    assert ChargedType(Reserved(c, a), a.gpuType) == t;
    assert c'.gpus == c.gpus;
  }

  datatype Request = Reserve(alloc: ResourceAllocation) | GiveBack(alloc: ResourceAllocation)

  function AfterRequest(c: Ledger, q: Request): (c': Ledger)
    requires Tracked(c)
    ensures Tracked(c')
  {
    match q
    case Reserve(a) => if Enough(c, a) then Reserved(c, a) else c
    case GiveBack(a) => Released(c, a)
  }

  function AfterRequests(c: Ledger, qs: seq<Request>): Ledger
    requires Tracked(c)
    decreases |qs|
  {
    if qs == [] then c else AfterRequests(AfterRequest(c, qs[0]), qs[1..])
  }

  // Any run of reservations and (even excessive) releases keeps Available + InUse = Total.
  lemma {:induction false} RunKeepsBalance(c: Ledger, qs: seq<Request>)
    requires Balanced(c)
    requires forall i :: 0 <= i < |qs| && qs[i].GiveBack? ==> NonNegative(qs[i].alloc)
    ensures Balanced(AfterRequests(c, qs)) && SameTotals(c, AfterRequests(c, qs))
    decreases |qs|
  {
    if qs != [] {
      match qs[0] {
        case Reserve(a) => if Enough(c, a) { ReserveKeepsBalance(c, a); }
        case GiveBack(a) =>
          assert CounterBalanced(c.gpus[ChargedType(c, a.gpuType)]);
          ReleaseKeepsBalance(c, a);
      }
      RunKeepsBalance(AfterRequest(c, qs[0]), qs[1..]);
    }
  }
}
