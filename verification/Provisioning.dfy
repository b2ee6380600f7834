/**
 Turning a confirmed transaction into a running session: reserve, create the Pod, transition, and
 undo on failure (internal/k8s/job_executor.go, internal/sessions/confirmation_worker.go).
 The cluster's answers are parameters.
 */
module Provisioning {
  import opened Outcomes
  import opened Rental
  import opened SessionTable
  import opened SessionManagement
  import opened Interleaving
  import opened Capacity
  import opened ChainEvents

  // What the cluster and the node lookup answer during one call. An empty node name is an
  // unresolved node: nothing is reserved or released for it.
  datatype Cluster = Cluster(registered: bool, tenantReady: bool, nodeName: string, podCreated: bool, podDeleted: bool)

  datatype JobSpec = JobSpec(
    sessionId: string, providerId: string, gpuCount: int, gpuModel: string, cpuCores: int, memoryGB: int, storageGB: int)

  datatype ExecutorError = NoCluster | TenantFailed | InsufficientCapacity | PodFailed | DeleteFailed

  function SpecAllocation(spec: JobSpec): ResourceAllocation {
    ResourceAllocation(spec.sessionId, spec.gpuModel, spec.gpuCount,
      if spec.cpuCores <= 0 then 4 else spec.cpuCores, if spec.memoryGB <= 0 then 16 else spec.memoryGB)
  }

  // What a deletion releases: the session's sizes, again with defaults, and no GPU type.
  function SessionAllocation(s: Session): ResourceAllocation {
    ResourceAllocation(s.id, "", if s.gpuCount <= 0 then 1 else s.gpuCount,
      if s.cpuCores <= 0 then 4 else s.cpuCores, if s.memoryGB <= 0 then 16 else s.memoryGB)
  }

  predicate AfterCreate(c: Ledger, spec: JobSpec, env: Cluster, ok: bool, c': Ledger)
    requires Tracked(c)
  {
    if ok && env.nodeName != "" then Enough(c, SpecAllocation(spec)) && c' == Reserved(c, SpecAllocation(spec))
    else c' == c
  }

  function AfterDelete(c: Ledger, s: Session, env: Cluster): Ledger
    requires Tracked(c)
  {
    if env.registered && env.podDeleted && env.nodeName != "" then Released(c, SessionAllocation(s)) else c
  }

  // When a creation succeeds: the cluster cooperates, and a resolved node has room.
  predicate Creatable(c: Option<Ledger>, a: ResourceAllocation, env: Cluster) {
    && env.registered && env.tenantReady && env.podCreated
    && (env.nodeName == "" || (c.Some? && Tracked(c.value) && Enough(c.value, a)))
  }

  function RecordOf(cap: NodeCapacity?): (c: Option<Ledger>)
    requires cap != null ==> cap.Valid()
    reads cap
    ensures c.Some? <==> cap != null
  {
    if cap == null then None else Some(cap.Record())
  }

  class K8sJobExecutor {
    const tracker: CapacityTracker

    constructor (tracker: CapacityTracker)
      ensures this.tracker == tracker
    {
      this.tracker := tracker;
    }

    // On success exactly the reservation is added; on any failure the record is as before.
    method CreateGPUSession(spec: JobSpec, env: Cluster) returns (r: Result<(), ExecutorError>)
      requires var cap := tracker.GetCapacity(spec.providerId, env.nodeName);
               cap != null ==> cap.Valid() && Restorable(cap.Record())
      requires spec.gpuCount >= 0
      modifies tracker.GetCapacity(spec.providerId, env.nodeName)
      ensures var cap := tracker.GetCapacity(spec.providerId, env.nodeName);
              cap != null ==> cap.Valid() && AfterCreate(old(cap.Record()), spec, env, r.Ok?, cap.Record())
      ensures r.Ok? <==> Creatable(old(RecordOf(tracker.GetCapacity(spec.providerId, env.nodeName))), SpecAllocation(spec), env)
      ensures r.Ok? ==> env.registered && env.tenantReady && env.podCreated
      ensures env.registered && env.tenantReady && env.podCreated && env.nodeName == "" ==> r.Ok?
      ensures r.Ok? && env.nodeName != "" ==> tracker.GetCapacity(spec.providerId, env.nodeName) != null
      ensures var cap := tracker.GetCapacity(spec.providerId, env.nodeName);
              cap != null ==> cap.Record() == if r.Ok? && env.nodeName != ""
                then Reserved(old(cap.Record()), ResourceAllocation(spec.sessionId, spec.gpuModel, spec.gpuCount,
                       if spec.cpuCores > 0 then spec.cpuCores else 4, if spec.memoryGB > 0 then spec.memoryGB else 16))
                else old(cap.Record())
    {
      if !env.registered { return Err(NoCluster); }
      if !env.tenantReady { return Err(TenantFailed); }
      var cpuCores := spec.cpuCores;
      if cpuCores <= 0 { cpuCores := 4; }
      var memoryGB := spec.memoryGB;
      if memoryGB <= 0 { memoryGB := 16; }
      var alloc := ResourceAllocation(spec.sessionId, spec.gpuModel, spec.gpuCount, cpuCores, memoryGB);
      if env.nodeName != "" {
        var err := tracker.AllocateResources(spec.providerId, env.nodeName, alloc);
        if err.Some? { return Err(InsufficientCapacity); }
      }
      if !env.podCreated {
        if env.nodeName != "" {
          ReleaseInvertsReserve(old(tracker.GetCapacity(spec.providerId, env.nodeName).Record()), alloc);
          tracker.ReleaseResources(spec.providerId, env.nodeName, alloc);
        }
        return Err(PodFailed);
      }
      r := Ok(());
    }

    // A missing cluster counts as deleted, and then nothing is released.
    method DeleteGPUSession(s: Session, providerId: string, env: Cluster) returns (r: Result<(), ExecutorError>)
      requires var cap := tracker.GetCapacity(providerId, env.nodeName); cap != null ==> cap.Valid()
      modifies tracker.GetCapacity(providerId, env.nodeName)
      ensures r.Err? <==> env.registered && !env.podDeleted
      ensures var cap := tracker.GetCapacity(providerId, env.nodeName);
              cap != null ==> cap.Valid() && cap.Record() == AfterDelete(old(cap.Record()), s, env)
      ensures var cap := tracker.GetCapacity(providerId, env.nodeName);
              cap != null ==> cap.Record() == if env.registered && env.podDeleted && env.nodeName != ""
                then Released(old(cap.Record()), ResourceAllocation(s.id, "", if s.gpuCount > 0 then s.gpuCount else 1,
                       if s.cpuCores > 0 then s.cpuCores else 4, if s.memoryGB > 0 then s.memoryGB else 16))
                else old(cap.Record())
    {
      if !env.registered { return Ok(()); }
      if !env.podDeleted { return Err(DeleteFailed); }
      if env.nodeName != "" {
        var gpuCount := s.gpuCount;
        if gpuCount <= 0 { gpuCount := 1; }
        var cpuCores := s.cpuCores;
        if cpuCores <= 0 { cpuCores := 4; }
        var memoryGB := s.memoryGB;
        if memoryGB <= 0 { memoryGB := 16; }
        tracker.ReleaseResources(providerId, env.nodeName, ResourceAllocation(s.id, "", gpuCount, cpuCores, memoryGB));
      }
      r := Ok(());
    }
  }

  // The capacity record a deletion may touch, if there is one.
  function RecordFor(executor: K8sJobExecutor?, provider: string, env: Cluster): NodeCapacity?
    reads if executor != null then {executor.tracker} else {}
  {
    if executor != null then executor.tracker.GetCapacity(provider, env.nodeName) else null
  }

  // The sizes a session was created with, on a node whose totals have not changed since.
  predicate SizedFor(s: Session, node: Node) {
    && s.gpuCount >= 0 && s.cpuCores >= 1 && s.memoryGB >= 1 && s.storageGB >= 1
    && (s.gpuCount == 0 <==> node.totalGPUs <= 0)
    && (node.totalGPUs > 0 ==> s.gpuCount <= node.totalGPUs)
    && (node.totalCPUCores > 0 ==> s.cpuCores <= node.totalCPUCores)
    && (node.totalMemoryGB > 0 ==> s.memoryGB <= node.totalMemoryGB)
  }

  // The tracker's view of that node: one GPU type, as discovery makes it, and no GPUs, none of them in
  // use either, where the node has none.
  predicate MatchesNode(c: Ledger, node: Node) {
    Restorable(c) && c.gpus.Keys == {c.gpuModel} && (node.totalGPUs <= 0 ==> c.gpus[c.gpuModel] == Counter(0, 0, 0))
  }

  // The worker's defaults and caps, from the session's columns.
  function WorkerSpec(s: Session, node: Node): JobSpec {
    var gpu := if s.gpuCount <= 0 then 1 else s.gpuCount;
    var cpu := if s.cpuCores <= 0 then 4 else s.cpuCores;
    var mem := if s.memoryGB <= 0 then 16 else s.memoryGB;
    JobSpec(s.id, node.providerId, if node.totalGPUs <= 0 then 0 else Min(gpu, node.totalGPUs), node.gpuType,
      if node.totalCPUCores > 0 then Min(cpu, node.totalCPUCores) else cpu,
      if node.totalMemoryGB > 0 then Min(mem, node.totalMemoryGB) else mem,
      if s.storageGB <= 0 then 50 else s.storageGB)
  }

  // The reservation of a session: its own columns.
  function Reservation(s: Session, node: Node): ResourceAllocation {
    ResourceAllocation(s.id, node.gpuType, s.gpuCount, s.cpuCores, s.memoryGB)
  }

  lemma CreationSizes(request: Option<ResourceSpec>, node: Node, s: Session)
    requires SizesOf(s) == Sized(request, node)
    ensures SizedFor(s, node)
  {
  }

  // A session keeps the sizes it was created with, so whenever the worker finds it they suit the node.
  lemma CreatedStaysSized(s: Sys, steps: seq<Step>, id: string, request: Option<ResourceSpec>, node: Node)
    requires Inv(s) && id in s.rows && SizesOf(s.rows[id]) == Sized(request, node)
    ensures id in Run(s, steps).rows && SizedFor(Run(s, steps).rows[id], node)
  {
    RunInv(s, steps);
    assert RowStep(s.rows[id], Run(s, steps).rows[id]);
    CreationSizes(request, node, Run(s, steps).rows[id]);
  }

  // Neither a worker's reservation nor a deletion's release ever asks for a negative count.
  lemma NeverNegative(s: Session, node: Node)
    ensures NonNegative(SpecAllocation(WorkerSpec(s, node))) && NonNegative(SessionAllocation(s))
  {
  }

  // Defaulting and capping in manager, worker and executor agree: what is reserved is what was asked for.
  lemma WorkerReservesSession(s: Session, node: Node)
    requires SizedFor(s, node)
    ensures SpecAllocation(WorkerSpec(s, node)) == Reservation(s, node)
    ensures WorkerSpec(s, node)
         == JobSpec(s.id, node.providerId, s.gpuCount, node.gpuType, s.cpuCores, s.memoryGB, s.storageGB)
  {
  }

  // Deleting inverts the reservation although it names no GPU type and turns zero GPUs into one: on
  // a single-type node the types agree, and where there are no GPUs the clamps absorb the extra one.
  lemma DeletionInvertsReservation(c: Ledger, s: Session, node: Node)
    requires SizedFor(s, node) && MatchesNode(c, node) && Enough(c, Reservation(s, node))
    ensures Released(Reserved(c, Reservation(s, node)), SessionAllocation(s)) == c
  {
    var a := Reservation(s, node);
    var c' := Released(Reserved(c, a), SessionAllocation(s));
    assert ChargedType(c, a.gpuType) in c.gpus.Keys;
    assert ChargedType(c, a.gpuType) == c.gpuModel;
    assert CounterRestorable(c.gpus[c.gpuModel]);
    assert c'.gpus[c.gpuModel] == c.gpus[c.gpuModel];
    assert c'.gpus == c.gpus;
  }

  // The extra GPU is absorbed exactly because the node has none in use or missing: had the node gained a GPU
  // since, deleting a session that holds none would free one that is not its own.
  lemma ZeroBecomesOne(c: Ledger, s: Session)
    requires Restorable(c) && s.gpuCount == 0 && s.cpuCores >= 1 && s.memoryGB >= 1
    ensures Released(c, SessionAllocation(s)).gpus == c.gpus
       <==> c.gpus[c.gpuModel].inUse == 0 && c.gpus[c.gpuModel].available == c.gpus[c.gpuModel].total
  {
    var c' := Released(c, SessionAllocation(s));
    assert CounterRestorable(c.gpus[c.gpuModel]);
    assert c'.gpus[c.gpuModel] == Give(c.gpus[c.gpuModel], 1);
    if c.gpus[c.gpuModel].inUse == 0 && c.gpus[c.gpuModel].available == c.gpus[c.gpuModel].total {
      assert c'.gpus == c.gpus;
    } else {
      assert c'.gpus[c.gpuModel] != c.gpus[c.gpuModel];
    }
  }

  function StartOf(s: Session, v: Verification): Op
    requires s.txHash.Some? && v.Confirmed?
  {
    ToRunning(v.rentalId, v.block, s.txHash.value, v.startTime)
  }

  // The record when the reservation is made, c being the record before it.
  predicate Holding(c: Ledger, s: Session, n: Node, env: Cluster, c': Ledger)
    requires Tracked(c)
  {
    if env.nodeName != "" then Enough(c, Reservation(s, n)) && c' == Reserved(c, Reservation(s, n)) else c' == c
  }

  // The session is failed, if the manager still can.
  predicate FailAttempted(t: Table, id: string, now: Time, t': Table)
    requires Keyed(t)
  {
    match TransitionRow(t, id, ToFailed(now), now)
    case Ok(failed) => t' == failed
    case Err(_) => t' == t
  }

  // What becomes of the session: started when the Pod could be made and the manager accepts the
  // start; failed when the Pod could not be made; left to the other workers otherwise.
  predicate Provisioned(c: Option<Ledger>, s: Session, v: Verification, n: Node, env: Cluster,
                        t: Table, now: Time, started: bool, t': Table)
    requires s.txHash.Some? && v.Confirmed? && Keyed(t)
  {
    if Creatable(c, Reservation(s, n), env) then
      match TransitionRow(t, s.id, StartOf(s, v), now)
      case Ok(running) => started && t' == running
      case Err(_) => !started && t' == t
    else !started && FailAttempted(t, s.id, now, t')
  }

  // What becomes of the capacity: the reservation is held exactly when a Pod was made, on a confirmed
  // transaction, and stays: the session started, or its start was refused and the cleanup delete failed.
  predicate CapacityOutcome(c: Ledger, s: Session, n: Node, env: Cluster, confirmed: bool, started: bool, c': Ledger)
    requires Tracked(c)
  {
    if started || (confirmed && Creatable(Some(c), Reservation(s, n), env) && !env.podDeleted)
    then Holding(c, s, n, env, c') else c' == c
  }

  lemma CleanUpOutcome(c: Ledger, s: Session, n: Node, env: Cluster, held: Ledger, started: bool, c': Ledger)
    requires SizedFor(s, n) && MatchesNode(c, n) && Creatable(Some(c), Reservation(s, n), env)
    requires Holding(c, s, n, env, held)
    requires c' == if started then held else AfterDelete(held, s, env)
    ensures CapacityOutcome(c, s, n, env, true, started, c')
  {
    if env.nodeName != "" {
      DeletionInvertsReservation(c, s, n);
    }
  }

  lemma CreationOutcome(c: Ledger, s: Session, n: Node, env: Cluster, created: bool, c': Ledger)
    requires SizedFor(s, n) && Tracked(c) && AfterCreate(c, WorkerSpec(s, n), env, created, c')
    requires created <==> Creatable(Some(c), Reservation(s, n), env)
    ensures created ==> Holding(c, s, n, env, c')
    ensures !created ==> CapacityOutcome(c, s, n, env, true, false, c')
  {
    WorkerReservesSession(s, n);
  }

  class ConfirmationWorker {
    const repo: RentalSessionRepository
    const manager: SessionManager
    const executor: K8sJobExecutor?
    const contract: Address
    const sigs: Signatures

    constructor (manager: SessionManager, executor: K8sJobExecutor?, contract: Address, sigs: Signatures)
      ensures this.manager == manager && this.repo == manager.repo && this.executor == executor
      ensures this.contract == contract && this.sigs == sigs
    {
      this.manager, this.repo, this.executor := manager, manager.repo, executor;
      this.contract, this.sigs := contract, sigs;
    }

    // The tracker record a call may touch, if there is one.
    function Touched(node: Option<Node>, env: Cluster): NodeCapacity?
      reads this, if executor != null then {executor.tracker} else {}
    {
      if executor != null && node.Some? then executor.tracker.GetCapacity(node.value.providerId, env.nodeName) else null
    }

    // What discovery and creation established before the worker runs.
    ghost predicate Ready(s: Session, node: Option<Node>, env: Cluster)
      reads this, if executor != null then {executor.tracker} else {}, Touched(node, env)
    {
      && manager.repo == repo
      && (node.Some? ==> SizedFor(s, node.value))
      && var cap := Touched(node, env);
         cap != null ==> cap.Valid() && MatchesNode(cap.Record(), node.value)
    }

    // The capacity afterwards, `before` being the record before the call.
    ghost predicate CapacityIs(before: Option<Ledger>, s: Session, node: Option<Node>, env: Cluster, confirmed: bool, started: bool)
      reads this, if executor != null then {executor.tracker} else {}, Touched(node, env)
    {
      var cap := Touched(node, env);
      cap != null ==>
        && cap.Valid()
        && before.Some? && Tracked(before.value)
        && CapacityOutcome(before.value, s, node.value, env, confirmed, started, cap.Record())
    }

    // `others` is the table as the other workers leave it while the Pod starts: anything at all.
    method HandleConfirmedTransaction(s: Session, v: Verification, node: Option<Node>, env: Cluster, others: Table, now: Time)
      returns (started: bool)
      requires s.txHash.Some? && v.Confirmed? && Keyed(others)
      requires Ready(s, node, env)
      modifies repo, Touched(node, env)
      ensures executor == null || node.None? ==> !started && FailAttempted(others, s.id, now, repo.rows)
      ensures executor != null && node.Some? ==>
        Provisioned(old(RecordOf(Touched(node, env))), s, v, node.value, env, others, now, started, repo.rows)
      ensures CapacityIs(old(RecordOf(Touched(node, env))), s, node, env, true, started)
      ensures s.id in others && others[s.id].deletedAt == None && others[s.id].state == Pending && UniqueIndexes(others) ==>
        && s.id in repo.rows
        && (executor == null || node == None || !env.registered || !env.tenantReady || !env.podCreated ==>
              repo.rows == others[s.id := others[s.id].(state := Failed, endTime := Some(now), updatedAt := now)])
        && (started ==> repo.rows == others[s.id := others[s.id].(state := Running, rentalId := Some(v.rentalId),
              blockNumber := Some(v.block), txHash := s.txHash, startTime := Some(v.startTime), updatedAt := now)])
    {
      EndedColumns(others, s.id, false, now, now);
      RunningColumns(others, s.id, v.rentalId, v.block, s.txHash.value, v.startTime, now);
      repo.rows := others;
      started := false;
      if node.None? {
        var failed := manager.TransitionToFailed(s.id, now);
        return;
      }
      if executor == null {
        var failed := manager.TransitionToFailed(s.id, now);
        return;
      }
      started := CreateAndStart(s, v, node.value, env, now);
    }

    method CreateAndStart(s: Session, v: Verification, n: Node, env: Cluster, now: Time) returns (started: bool)
      requires s.txHash.Some? && v.Confirmed? && Keyed(repo.rows)
      requires executor != null && Ready(s, Some(n), env)
      modifies repo, Touched(Some(n), env)
      ensures Provisioned(old(RecordOf(Touched(Some(n), env))), s, v, n, env, old(repo.rows), now, started, repo.rows)
      ensures CapacityIs(old(RecordOf(Touched(Some(n), env))), s, Some(n), env, true, started)
    {
      ghost var cap := Touched(Some(n), env);
      ghost var before := RecordOf(cap);
      var spec := BuildSpec(s, n);
      WorkerReservesSession(s, n);
      var created := executor.CreateGPUSession(spec, env);
      if cap != null {
        CreationOutcome(before.value, s, n, env, created.Ok?, cap.Record());
      }
      if created.Err? {
        var failed := manager.TransitionToFailed(s.id, now);
        return false;
      }
      started := StartOrCleanUp(s, v, n, env, now, before);
    }

    method BuildSpec(s: Session, n: Node) returns (spec: JobSpec)
      ensures spec == WorkerSpec(s, n)
    {
      var gpuCount := s.gpuCount;
      if gpuCount <= 0 { gpuCount := 1; }
      if n.totalGPUs <= 0 {
        gpuCount := 0;
      } else if gpuCount > n.totalGPUs {
        gpuCount := n.totalGPUs;
      }
      var cpuCores := s.cpuCores;
      if cpuCores <= 0 { cpuCores := 4; }
      var memoryGB := s.memoryGB;
      if memoryGB <= 0 { memoryGB := 16; }
      var storageGB := s.storageGB;
      if storageGB <= 0 { storageGB := 50; }
      if n.totalCPUCores > 0 && cpuCores > n.totalCPUCores { cpuCores := n.totalCPUCores; }
      if n.totalMemoryGB > 0 && memoryGB > n.totalMemoryGB { memoryGB := n.totalMemoryGB; }
      spec := JobSpec(s.id, n.providerId, gpuCount, n.gpuType, cpuCores, memoryGB, storageGB);
    }

    // The reservation is made, `before` being the record before it.
    ghost predicate HasReserved(before: Option<Ledger>, s: Session, n: Node, env: Cluster)
      reads this, if executor != null then {executor.tracker} else {}, Touched(Some(n), env)
    {
      var cap := Touched(Some(n), env);
      cap != null ==>
        && cap.Valid()
        && before.Some? && MatchesNode(before.value, n) && Creatable(before, Reservation(s, n), env)
        && Holding(before.value, s, n, env, cap.Record())
    }

    // With the reservation made: start, or delete the Pod again.
    method StartOrCleanUp(s: Session, v: Verification, n: Node, env: Cluster, now: Time, ghost before: Option<Ledger>)
      returns (started: bool)
      requires executor != null && manager.repo == repo && Keyed(repo.rows)
      requires s.txHash.Some? && v.Confirmed? && SizedFor(s, n)
      requires HasReserved(before, s, n, env)
      modifies repo, Touched(Some(n), env)
      ensures var expected := TransitionRow(old(repo.rows), s.id, StartOf(s, v), now);
              (started <==> expected.Ok?) && repo.rows == (if started then expected.value else old(repo.rows))
      ensures CapacityIs(before, s, Some(n), env, true, started)
    {
      ghost var cap := Touched(Some(n), env);
      ghost var held := RecordOf(cap);
      var r := manager.TransitionToRunning(s.id, v.rentalId, v.block, s.txHash.value, v.startTime, now);
      if r.Err? {
        var deleted := executor.DeleteGPUSession(s, n.providerId, env);
        started := false;
      } else {
        started := true;
      }
      if cap != null {
        CleanUpOutcome(before.value, s, n, env, held.value, started, cap.Record());
      }
    }

    // A session becomes RUNNING here only with the rental id and start time of the first start log
    // of the contract in a mined, successful receipt that names its user and provider.
    method ProcessSession(s: Session, lookup: Lookup, node: Option<Node>, env: Cluster, others: Table, now: Time)
      requires s.id in others && Keyed(others) && WellKept(s, others[s.id])
      requires Ready(s, node, env)
      modifies repo, Touched(node, env)
      ensures OneRowMoved(others, repo.rows, s.id)
      ensures Started(others, repo.rows, s.id) ==> ConfirmedBy(sigs, contract, lookup, s, repo.rows[s.id])
      ensures Started(others, repo.rows, s.id) ==> StartsAsEmitted(sigs, contract, lookup, s, repo.rows[s.id])
      ensures s.txHash.None? || Undecided(lookup) ==> repo.rows == others
      ensures s.txHash.Some? && Refuted(sigs, contract, lookup, s) ==> FailAttempted(others, s.id, now, repo.rows)
      ensures forall v :: s.txHash.Some? && Confirms(sigs, contract, lookup, s.user, s.provider, v) ==>
        Concluded(old(RecordOf(Touched(node, env))), s, v, node, env, others, now, repo.rows)
      ensures CapacityIs(old(RecordOf(Touched(node, env))), s, node, env, IsConfirmed(lookup, s), Started(others, repo.rows, s.id))
    {
      repo.rows := others;
      if s.txHash.None? { return; }
      var result := Verify(s, lookup);
      if result.Err? { return; }
      assert result.value.Confirmed? <==> IsConfirmed(lookup, s);
      ActOn(s, lookup, result.value, node, env, others, now);
    }

    // The lookup confirms the transaction the session was submitted with.
    ghost predicate IsConfirmed(lookup: Lookup, s: Session) {
      s.txHash.Some? && exists v :: Confirms(sigs, contract, lookup, s.user, s.provider, v)
    }

    // What a confirmed transaction leads to.
    predicate Concluded(before: Option<Ledger>, s: Session, v: Verification, node: Option<Node>, env: Cluster,
                        t: Table, now: Time, t': Table)
      requires s.txHash.Some? && v.Confirmed? && Keyed(t) && s.id in t
    {
      if executor == null || node.None? then FailAttempted(t, s.id, now, t')
      else Provisioned(before, s, v, node.value, env, t, now, Started(t, t', s.id), t')
    }

    // What follows from the verdict.
    method ActOn(s: Session, ghost lookup: Lookup, v: Verification, node: Option<Node>, env: Cluster, others: Table, now: Time)
      requires s.txHash.Some? && s.id in others && Keyed(others) && repo.rows == others && WellKept(s, others[s.id])
      requires v.Confirmed? ==> Confirms(sigs, contract, lookup, s.user, s.provider, v)
      requires v.Confirmed? <==> IsConfirmed(lookup, s)
      requires Ready(s, node, env)
      modifies repo, Touched(node, env)
      ensures OneRowMoved(others, repo.rows, s.id)
      ensures v.TxPending? ==> repo.rows == others
      ensures v.TxFailed? || v.TxInvalid? ==> FailAttempted(others, s.id, now, repo.rows)
      ensures v.Confirmed? ==> Concluded(old(RecordOf(Touched(node, env))), s, v, node, env, others, now, repo.rows)
      ensures Started(others, repo.rows, s.id) ==>
        && v.Confirmed? && ConfirmedBy(sigs, contract, lookup, s, repo.rows[s.id])
        && StartsAsEmitted(sigs, contract, lookup, s, repo.rows[s.id])
      ensures CapacityIs(old(RecordOf(Touched(node, env))), s, node, env, IsConfirmed(lookup, s), Started(others, repo.rows, s.id))
    {
      match v {
        case TxPending =>
        case TxFailed => FailSession(s.id, now);
        case TxInvalid => FailSession(s.id, now);
        case Confirmed(_, _, _) =>
          ProcessConfirmed(s, v, node, env, others, now);
          if Started(others, repo.rows, s.id) {
            StartsFromEvents(sigs, contract, lookup, s, repo.rows[s.id]);
          }
      }
    }

    method Verify(s: Session, lookup: Lookup) returns (r: Result<Verification, VerifyError>)
      ensures r.Ok? && r.value.Confirmed? ==> Confirms(sigs, contract, lookup, s.user, s.provider, r.value)
      ensures forall v :: Confirms(sigs, contract, lookup, s.user, s.provider, v) ==> r == Ok(v)
      ensures Undecided(lookup) ==> r.Err? || r.value.TxPending?
      ensures Refuted(sigs, contract, lookup, s) ==> r.Ok? && (r.value.TxFailed? || r.value.TxInvalid?)
    {
      r := VerifyTransaction(sigs, contract, lookup, s.user, s.provider);
    }

    method ProcessConfirmed(s: Session, v: Verification, node: Option<Node>, env: Cluster, others: Table, now: Time)
      requires s.txHash.Some? && v.Confirmed? && s.id in others && Keyed(others) && WellKept(s, others[s.id])
      requires Ready(s, node, env)
      modifies repo, Touched(node, env)
      ensures OneRowMoved(others, repo.rows, s.id)
      ensures Started(others, repo.rows, s.id) ==> CarriesStart(repo.rows[s.id], s, v)
      ensures Concluded(old(RecordOf(Touched(node, env))), s, v, node, env, others, now, repo.rows)
      ensures CapacityIs(old(RecordOf(Touched(node, env))), s, node, env, true, Started(others, repo.rows, s.id))
    {
      var started := HandleConfirmedTransaction(s, v, node, env, others, now);
      TransitionMovesOneRow(others, s.id, StartOf(s, v), now);
      TransitionMovesOneRow(others, s.id, ToFailed(now), now);
      assert started == Started(others, repo.rows, s.id);
    }

    method FailSession(id: string, now: Time)
      requires manager.repo == repo && Keyed(repo.rows) && id in repo.rows
      modifies repo
      ensures FailAttempted(old(repo.rows), id, now, repo.rows)
      ensures OneRowMoved(old(repo.rows), repo.rows, id) && !Started(old(repo.rows), repo.rows, id)
    {
      TransitionMovesOneRow(repo.rows, id, ToFailed(now), now);
      var failed := manager.TransitionToFailed(id, now);
    }
  }

  // A listed snapshot and the row it came from agree on the columns that never change.
  predicate WellKept(s: Session, row: Session) { row.id == s.id && row.user == s.user && row.provider == s.provider }

  predicate OneRowMoved(t: Table, t': Table, id: string) {
    t'.Keys == t.Keys && forall k :: k in t && k != id ==> t'[k] == t[k]
  }

  predicate Started(t: Table, t': Table, id: string)
    requires id in t
  {
    id in t' && t'[id].state == Running && t[id].state != Running
  }

  // The receipt is not there yet, or could not be had.
  predicate Undecided(lookup: Lookup) { lookup.NotMined? || lookup.RpcFailure? || !Mined(lookup.receipt) }

  predicate CarriesStart(row: Session, s: Session, v: Verification)
    requires v.Confirmed?
  {
    && row.rentalId == Some(v.rentalId) && row.startTime == Some(v.startTime)
    && row.blockNumber == Some(v.block) && row.txHash == s.txHash
    && row.user == s.user && row.provider == s.provider
  }

  // The receipt is there, can be read, and does not confirm the session: reverted, or without a start
  // log of the contract that names both parties.
  ghost predicate Refuted(sigs: Signatures, contract: Address, lookup: Lookup, s: Session) {
    && lookup.Found? && Mined(lookup.receipt)
    && !(Succeeded(lookup) && FirstStartBroken(sigs, contract, lookup.receipt.logs))
    && !(exists v :: Confirms(sigs, contract, lookup, s.user, s.provider, v))
  }

  ghost predicate ConfirmedBy(sigs: Signatures, contract: Address, lookup: Lookup, s: Session, row: Session) {
    && row.rentalId.Some? && row.startTime.Some? && row.blockNumber.Some? && row.txHash == s.txHash
    && Confirms(sigs, contract, lookup, s.user, s.provider,
         Confirmed(row.rentalId.value, row.startTime.value, row.blockNumber.value))
  }

  // The transaction's receipt carries an encoded start event as the first of the contract.
  predicate EmittedIn(sigs: Signatures, contract: Address, lookup: Lookup, i: nat, e: RentalStarted) {
    && lookup.Found? && lookup.receipt.success && lookup.receipt.block != None && 0 < lookup.receipt.block.value < TWO_64
    && FirstEncodes(sigs, contract, lookup.receipt.logs, i, e)
  }

  // The session started with the event's rental, the second it names, and the block of the receipt.
  predicate StartedBy(row: Session, s: Session, e: RentalStarted, receipt: Receipt)
    requires receipt.block != None
  {
    && e.user == row.user && e.provider == row.provider && row.txHash == s.txHash && row.blockNumber == Some(receipt.block.value)
    && (row.rentalId == Some(e.rentalId) <==> e.rentalId < 0x1_0000_0000_0000_0000)
    && (row.startTime == Some(e.startTime * 1_000_000_000) <==> e.startTime < 0x8000_0000_0000_0000)
  }

  ghost predicate StartsAsEmitted(sigs: Signatures, contract: Address, lookup: Lookup, s: Session, row: Session) {
    forall i: nat, e :: EmittedIn(sigs, contract, lookup, i, e) ==> StartedBy(row, s, e, lookup.receipt)
  }

  lemma StartsFromEvents(sigs: Signatures, contract: Address, lookup: Lookup, s: Session, row: Session)
    requires ConfirmedBy(sigs, contract, lookup, s, row) && row.user == s.user && row.provider == s.provider
    ensures StartsAsEmitted(sigs, contract, lookup, s, row)
  {
    var v := Confirmed(row.rentalId.value, row.startTime.value, row.blockNumber.value);
    forall i: nat, e | EmittedIn(sigs, contract, lookup, i, e)
      ensures StartedBy(row, s, e, lookup.receipt)
    {
      EmittedStartConfirms(sigs, contract, lookup.receipt, i, e, s.user, s.provider);
      assert Confirms(sigs, contract, Found(lookup.receipt), s.user, s.provider, v);
    }
  }

  lemma TransitionMovesOneRow(t: Table, id: string, op: Op, now: Time)
    requires Keyed(t) && id in t
    ensures TransitionRow(t, id, op, now).Ok? ==>
      var t' := TransitionRow(t, id, op, now).value;
      && OneRowMoved(t, t', id)
      && t'[id].user == t[id].user && t'[id].provider == t[id].provider
      && t'[id].state == Target(op) && (t[id].state == Running ==> !op.ToRunning?)
      && (op.ToRunning? ==> t'[id].rentalId == Some(op.rentalId) && t'[id].startTime == Some(op.startTime)
                            && t'[id].blockNumber == Some(op.startBlock) && t'[id].txHash == Some(op.startTx))
  {
    TransitionTable(t[id].state, Target(op));
  }
}
