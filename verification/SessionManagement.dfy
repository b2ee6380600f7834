/**
 The session manager (internal/sessions/manager.go): creation with defaults and caps, the four
 transitions (load, validate, assign, full-row write) and extensions.
 */
module SessionManagement {
  import opened Outcomes
  import opened Rental
  import opened SessionTable
  import Decimal

  const MIN_EXTENSION_MINUTES: int := 30
  const MAX_EXTENSIONS: int := 10

  datatype Node = Node(
    id: string,
    providerId: string,
    gpuType: string,
    totalGPUs: int,
    totalCPUCores: int,
    totalMemoryGB: int)

  datatype ResourceSpec = ResourceSpec(gpuCount: int, cpuCores: int, memoryGB: int, storageGB: int)

  datatype CreateError = InvalidImage | NodeNotFound | ProviderNotFound | InsertFailed

  // ---- Transitions ----

  datatype Op =
    | ToRunning(rentalId: nat, startBlock: nat, startTx: string, startTime: Time)
    | ToStopped(stoppedAt: Time, totalCost: int, stopTx: string, stopBlock: nat)
    | ToFailed(failedAt: Time)
    | ToCancelled(cancelledAt: Time)

  function Target(op: Op): State {
    match op
    case ToRunning(_, _, _, _) => Running
    case ToStopped(_, _, _, _) => Stopped
    case ToFailed(_) => Failed
    case ToCancelled(_) => Cancelled
  }

  // The loaded snapshot after the manager's field assignments.
  function Moved(s: Session, op: Op): Session {
    match op
    case ToRunning(rentalId, block, tx, start) =>
      s.(state := Running, rentalId := Some(rentalId), blockNumber := Some(block), txHash := Some(tx),
         startTime := Some(start))
    case ToStopped(end, cost, tx, block) =>
      s.(state := Stopped, endTime := Some(end), txHash := Some(tx), blockNumber := Some(block),
         settledAmount := Some(cost))
    case ToFailed(at) => s.(state := Failed, endTime := Some(at))
    case ToCancelled(at) => s.(state := Cancelled, endTime := Some(at))
  }

  datatype TransitionError = SessionNotFound | InvalidTransition | UpdateFailed

  // One whole manager call, nothing else running in between.
  function TransitionRow(t: Table, id: string, op: Op, now: Time): Result<Table, TransitionError>
    requires Keyed(t)
  {
    if !Live(t, id) then Err(SessionNotFound)
    else if !CanTransition(t[id].state, Target(op)) then Err(InvalidTransition)
    else match UpdateRow(t, Moved(t[id], op), now)
      case Some(t') => Ok(t')
      case None => Err(UpdateFailed)
  }

  // The cost in a stop request is assigned to the snapshot but is not among the columns written,
  // so the stored amount never changes here, whatever the chain reports.
  lemma StopDoesNotRecordCost(t: Table, id: string, op: Op, now: Time)
    requires Keyed(t) && op.ToStopped?
    requires TransitionRow(t, id, op, now).Ok?
    ensures var t' := TransitionRow(t, id, op, now).value;
            t'[id].state == Stopped && t'[id].settledAmount == t[id].settledAmount && t'[id].settledAt == t[id].settledAt
  {
    assert Moved(t[id], op).id == id;
  }

  // In columns: a start writes state, rental, block, hash and start; it is written exactly when the
  // session is PENDING and neither its rental nor its hash is another's.
  lemma RunningColumns(t: Table, id: string, rentalId: nat, block: nat, tx: string, start: Time, now: Time)
    requires Keyed(t)
    ensures var r := TransitionRow(t, id, ToRunning(rentalId, block, tx, start), now);
      && (r.Ok? ==> id in t && r.value == t[id := t[id].(state := Running, rentalId := Some(rentalId),
            blockNumber := Some(block), txHash := Some(tx), startTime := Some(start), updatedAt := now)])
      && (r == Err(SessionNotFound) <==> id !in t || t[id].deletedAt != None)
      && (r == Err(InvalidTransition) <==> id in t && t[id].deletedAt == None && t[id].state != Pending)
      && (r.Ok? <==>
            && id in t && t[id].deletedAt == None && t[id].state == Pending
            && forall k | k in t && k != id ::
                 t[k].rentalId != Some(rentalId) && (t[k].deletedAt == None ==> t[k].txHash != Some(tx)))
  {
    TransitionTable(if id in t then t[id].state else Pending, Running);
  }

  // A stop writes state, end, hash and block; with the indexes in place it is written exactly when the
  // session is RUNNING and its hash is no other's.
  lemma StoppedColumns(t: Table, id: string, end: Time, cost: int, tx: string, block: nat, now: Time)
    requires Keyed(t)
    ensures var r := TransitionRow(t, id, ToStopped(end, cost, tx, block), now);
      && (r.Ok? ==> id in t && r.value == t[id := t[id].(state := Stopped, endTime := Some(end), txHash := Some(tx),
            blockNumber := Some(block), updatedAt := now)])
      && (r == Err(SessionNotFound) <==> id !in t || t[id].deletedAt != None)
      && (r == Err(InvalidTransition) <==> id in t && t[id].deletedAt == None && t[id].state != Running)
      && (UniqueIndexes(t) ==>
           (r.Ok? <==>
              && id in t && t[id].deletedAt == None && t[id].state == Running
              && forall k | k in t && k != id :: t[k].deletedAt == None ==> t[k].txHash != Some(tx)))
  {
    TransitionTable(if id in t then t[id].state else Pending, Stopped);
    if UniqueIndexes(t) && Live(t, id) {
      var row := Overwritten(t[id], Moved(t[id], ToStopped(end, cost, tx, block)), now);
      forall k | k in t && k != id
        ensures Compatible(row, t[k]) <==> (t[k].deletedAt == None ==> t[k].txHash != Some(tx))
      {
        assert Compatible(t[id], t[k]);
      }
    }
  }

  // A failure or a cancellation writes state and end, and no index refuses it.
  lemma EndedColumns(t: Table, id: string, cancel: bool, at: Time, now: Time)
    requires Keyed(t)
    ensures var r := TransitionRow(t, id, if cancel then ToCancelled(at) else ToFailed(at), now);
      && (r.Ok? ==>
            && id in t
            && r.value == t[id := t[id].(state := if cancel then Cancelled else Failed, endTime := Some(at), updatedAt := now)])
      && (r == Err(SessionNotFound) <==> id !in t || t[id].deletedAt != None)
      && (r == Err(InvalidTransition) <==>
            id in t && t[id].deletedAt == None && t[id].state != Pending && (t[id].state != Running || cancel))
      && (UniqueIndexes(t) ==>
           (r.Ok? <==> id in t && t[id].deletedAt == None && (t[id].state == Pending || (t[id].state == Running && !cancel))))
  {
    TransitionTable(if id in t then t[id].state else Pending, if cancel then Cancelled else Failed);
    if UniqueIndexes(t) && Live(t, id) {
      assert forall k | k in t && k != id :: Compatible(t[id], t[k]);
    }
  }

  // ---- Creation ----

  // Sizes a new session gets: defaults for non-positive requests, then caps from the node's totals.
  function Sized(request: Option<ResourceSpec>, node: Node): (r: ResourceSpec)
    ensures r.gpuCount >= 0 && r.cpuCores >= 1 && r.memoryGB >= 1 && r.storageGB >= 1
    ensures r.gpuCount == 0 <==> node.totalGPUs <= 0
    ensures node.totalGPUs > 0 ==> r.gpuCount <= node.totalGPUs
    ensures node.totalCPUCores > 0 ==> r.cpuCores <= node.totalCPUCores
    ensures node.totalMemoryGB > 0 ==> r.memoryGB <= node.totalMemoryGB
  {
    var asked := if request.Some? then request.value else ResourceSpec(0, 0, 0, 0);
    var gpu := if asked.gpuCount <= 0 then 1 else asked.gpuCount;
    var cpu := if asked.cpuCores <= 0 then 4 else asked.cpuCores;
    var mem := if asked.memoryGB <= 0 then 16 else asked.memoryGB;
    var storage := if asked.storageGB <= 0 then 50 else asked.storageGB;
    ResourceSpec(
      if node.totalGPUs <= 0 then 0 else Min(gpu, node.totalGPUs),
      if node.totalCPUCores > 0 then Min(cpu, node.totalCPUCores) else cpu,
      if node.totalMemoryGB > 0 then Min(mem, node.totalMemoryGB) else mem,
      storage)
  }

  // Each size by itself: what was asked for, or its default, but never more than a known node total;
  // GPUs exactly on nodes that have some.
  lemma SizedExactly(request: Option<ResourceSpec>, node: Node)
    ensures var r := Sized(request, node);
      && (node.totalGPUs <= 0 ==> r.gpuCount == 0)
      && (request == None ==>
            && (node.totalGPUs > 0 ==> r.gpuCount == 1)
            && r.cpuCores == (if 0 < node.totalCPUCores < 4 then node.totalCPUCores else 4)
            && r.memoryGB == (if 0 < node.totalMemoryGB < 16 then node.totalMemoryGB else 16)
            && r.storageGB == 50)
    ensures request != None ==>
      var asked, r := request.value, Sized(request, node);
      && (node.totalGPUs > 0 && asked.gpuCount <= 0 ==> r.gpuCount == 1)
      && (0 < asked.gpuCount <= node.totalGPUs ==> r.gpuCount == asked.gpuCount)
      && (0 < node.totalGPUs < asked.gpuCount ==> r.gpuCount == node.totalGPUs)
      && (asked.cpuCores <= 0 ==> r.cpuCores == if 0 < node.totalCPUCores < 4 then node.totalCPUCores else 4)
      && (0 < asked.cpuCores && (node.totalCPUCores <= 0 || asked.cpuCores <= node.totalCPUCores) ==> r.cpuCores == asked.cpuCores)
      && (0 < node.totalCPUCores < asked.cpuCores ==> r.cpuCores == node.totalCPUCores)
      && (asked.memoryGB <= 0 ==> r.memoryGB == if 0 < node.totalMemoryGB < 16 then node.totalMemoryGB else 16)
      && (0 < asked.memoryGB && (node.totalMemoryGB <= 0 || asked.memoryGB <= node.totalMemoryGB) ==> r.memoryGB == asked.memoryGB)
      && (0 < node.totalMemoryGB < asked.memoryGB ==> r.memoryGB == node.totalMemoryGB)
      && r.storageGB == (if asked.storageGB > 0 then asked.storageGB else 50)
  {
  }

  function SizesOf(s: Session): ResourceSpec { ResourceSpec(s.gpuCount, s.cpuCores, s.memoryGB, s.storageGB) }

  // What every session looks like when it is inserted.
  predicate NewSession(s: Session) {
    && s.state == Pending && s.rentalId.None? && s.startTime.None? && s.endTime.None? && s.txHash.None?
    && s.blockNumber.None? && s.settledAt.None? && s.settledAmount.None? && s.deletedAt.None?
    && s.extendedUntil.None? && s.extensionCount == 0 && s.totalExtendedMinutes == 0
  }

  // ---- Extension ----

  // A missing validator skips the check; a present one answers with a balance or an error.
  datatype BalanceCheck = NoValidator | CheckFailed | Balance(amount: int)

  datatype ExtensionResult = ExtensionResult(
    newExpiration: Time, minutes: int, cost: int, remaining: Option<int>, count: int)

  datatype ExtendError =
    | MinimumDuration | ExtendNotFound | NotRunning | LimitReached | InvalidPrice | BalanceUnknown
    | InsufficientBalance(shortfall: int) | ExtensionNotWritten

  // int64(d.Seconds()): whole seconds, rounded toward zero.
  function WholeSeconds(d: Time): int { if d >= 0 then d / SECOND else -((-d) / SECOND) }

  function CostSoFar(s: Session, price: int, now: Time): int {
    if s.startTime.Some? then price * WholeSeconds(now - s.startTime.value) else 0
  }

  // Whole seconds of either sign, the rest cut off.
  lemma WholeSecondsAre(seconds: nat, rest: nat)
    requires rest < 1_000_000_000
    ensures WholeSeconds(seconds * 1_000_000_000 + rest) == seconds
    ensures WholeSeconds(0 - (seconds * 1_000_000_000 + rest)) == 0 - seconds
  {
  }

  // What a session that runs at a price has cost so far, to the whole second.
  lemma CostSoFarIs(s: Session, price: int, seconds: nat, rest: nat)
    requires rest < 1_000_000_000
    ensures s.startTime != None ==> CostSoFar(s, price, s.startTime.value + seconds * 1_000_000_000 + rest) == price * seconds
    ensures s.startTime == None ==> forall now: Time :: CostSoFar(s, price, now) == 0
  {
    if s.startTime != None {
      WholeSecondsAre(seconds, rest);
      assert s.startTime.value + seconds * 1_000_000_000 + rest - s.startTime.value == seconds * 1_000_000_000 + rest;
    }
  }

  // Extensions add to a still-future expiry, not to the current time.
  function NewExpiration(s: Session, minutes: int, now: Time): Time {
    (if s.extendedUntil.Some? && ExpiryOf(s) > now then ExpiryOf(s) else now) + minutes * MINUTE
  }

  predicate ExtensionAllowed(s: Session, minutes: int, check: BalanceCheck, now: Time) {
    && minutes >= MIN_EXTENSION_MINUTES
    && s.state == Running
    && s.extensionCount < MAX_EXTENSIONS
    && var price := Decimal.PriceOf(s.price);
    && price.Some?
    && !check.CheckFailed?
    && (check.Balance? ==> check.amount >= CostSoFar(s, price.value, now) + price.value * (minutes * 60))
  }

  // The first check that an extension fails.
  function ExtensionRefusal(t: Table, id: string, minutes: int, check: BalanceCheck, now: Time): Option<ExtendError> {
    if minutes < MIN_EXTENSION_MINUTES then Some(MinimumDuration)
    else if !Live(t, id) then Some(ExtendNotFound)
    else if t[id].state != Running then Some(NotRunning)
    else if t[id].extensionCount >= MAX_EXTENSIONS then Some(LimitReached)
    else if Decimal.PriceOf(t[id].price).None? then Some(InvalidPrice)
    else
      var price := Decimal.PriceOf(t[id].price).value;
      var required := CostSoFar(t[id], price, now) + price * (minutes * 60);
      match check
      case NoValidator => None
      case CheckFailed => Some(BalanceUnknown)
      case Balance(amount) => if amount < required then Some(InsufficientBalance(required - amount)) else None
  }

  function Extended(s: Session, minutes: int, now: Time): Session {
    s.(extendedUntil := Some(NewExpiration(s, minutes, now)), extensionCount := s.extensionCount + 1,
      totalExtendedMinutes := s.totalExtendedMinutes + minutes, updatedAt := now)
  }

  class SessionManager {
    const repo: RentalSessionRepository

    constructor (repo: RentalSessionRepository)
      ensures this.repo == repo
    {
      this.repo := repo;
    }

    method CreateSession(id: string, user: Address, nodeId: string, price: string, image: Option<string>,
                         node: Option<Node>, provider: Option<Address>, resources: Option<ResourceSpec>, now: Time)
      returns (r: Result<Session, CreateError>)
      modifies repo
      ensures r.Ok? <==> image != None && node != None && provider != None && id !in old(repo.rows)
      ensures r.Ok? ==> repo.rows == old(repo.rows)[id := r.value]
      ensures r.Ok? ==> NewSession(r.value) && SizesOf(r.value) == Sized(resources, node.value)
      ensures r.Ok? ==> r.value == Session(id, user, provider.value, nodeId, None, Pending, price, None, None, None, None, None,
        None, None, None, 0, 0, image.value, r.value.gpuCount, r.value.cpuCores, r.value.memoryGB, r.value.storageGB, now, now)
      ensures r.Ok? && node.value.totalGPUs <= 0 ==> r.value.gpuCount == 0
      ensures r.Ok? && resources == None ==>
        && (node.value.totalGPUs > 0 ==> r.value.gpuCount == 1)
        && r.value.cpuCores == (if 0 < node.value.totalCPUCores < 4 then node.value.totalCPUCores else 4)
        && r.value.memoryGB == (if 0 < node.value.totalMemoryGB < 16 then node.value.totalMemoryGB else 16)
        && r.value.storageGB == 50
      ensures r.Ok? && resources != None ==>
        var asked, s, n := resources.value, r.value, node.value;
        && (n.totalGPUs > 0 && asked.gpuCount <= 0 ==> s.gpuCount == 1)
        && (0 < asked.gpuCount <= n.totalGPUs ==> s.gpuCount == asked.gpuCount)
        && (0 < n.totalGPUs < asked.gpuCount ==> s.gpuCount == n.totalGPUs)
        && (asked.cpuCores <= 0 ==> s.cpuCores == if 0 < n.totalCPUCores < 4 then n.totalCPUCores else 4)
        && (0 < asked.cpuCores && (n.totalCPUCores <= 0 || asked.cpuCores <= n.totalCPUCores) ==> s.cpuCores == asked.cpuCores)
        && (0 < n.totalCPUCores < asked.cpuCores ==> s.cpuCores == n.totalCPUCores)
        && (asked.memoryGB <= 0 ==> s.memoryGB == if 0 < n.totalMemoryGB < 16 then n.totalMemoryGB else 16)
        && (0 < asked.memoryGB && (n.totalMemoryGB <= 0 || asked.memoryGB <= n.totalMemoryGB) ==> s.memoryGB == asked.memoryGB)
        && (0 < n.totalMemoryGB < asked.memoryGB ==> s.memoryGB == n.totalMemoryGB)
        && s.storageGB == (if asked.storageGB > 0 then asked.storageGB else 50)
      ensures r.Err? ==> repo.rows == old(repo.rows)
      ensures r == Err(InvalidImage) <==> image == None
      ensures r == Err(NodeNotFound) <==> image != None && node == None
      ensures r == Err(ProviderNotFound) <==> image != None && node != None && provider == None
    {
      if image.None? { return Err(InvalidImage); }
      if node.None? { return Err(NodeNotFound); }
      if provider.None? { return Err(ProviderNotFound); }
      var n := node.value;
      var gpu, cpu, mem, storage := 0, 0, 0, 0;
      if resources.Some? {
        gpu, cpu := resources.value.gpuCount, resources.value.cpuCores;
        mem, storage := resources.value.memoryGB, resources.value.storageGB;
      }
      gpu, cpu, mem, storage := DefaultAndCap(gpu, cpu, mem, storage, n);
      SizedExactly(resources, n);
      var s := Session(id, user, provider.value, nodeId, None, Pending, price, None, None, None, None, None, None, None,
                       None, 0, 0, image.value, gpu, cpu, mem, storage, now, now);
      var ok := repo.Create(s);
      if !ok { return Err(InsertFailed); }
      r := Ok(s);
    }

    // Defaults for non-positive sizes, then caps from the node's totals.
    method DefaultAndCap(gpuCount: int, cpuCores: int, memoryGB: int, storageGB: int, n: Node)
      returns (gpu: int, cpu: int, mem: int, storage: int)
      ensures ResourceSpec(gpu, cpu, mem, storage) == Sized(Some(ResourceSpec(gpuCount, cpuCores, memoryGB, storageGB)), n)
    {
      gpu, cpu, mem, storage := gpuCount, cpuCores, memoryGB, storageGB;
      if gpu <= 0 { gpu := 1; }
      if cpu <= 0 { cpu := 4; }
      if mem <= 0 { mem := 16; }
      if storage <= 0 { storage := 50; }
      if n.totalGPUs <= 0 {
        gpu := 0;
      } else if gpu > n.totalGPUs {
        gpu := n.totalGPUs;
      }
      if n.totalCPUCores > 0 && cpu > n.totalCPUCores { cpu := n.totalCPUCores; }
      if n.totalMemoryGB > 0 && mem > n.totalMemoryGB { mem := n.totalMemoryGB; }
    }

    method LoadAndValidate(id: string, target: State) returns (r: Result<Session, TransitionError>)
      ensures r.Ok? <==> Live(repo.rows, id) && CanTransition(repo.rows[id].state, target)
      ensures r.Ok? ==> r.value == repo.rows[id]
      ensures r == Err(SessionNotFound) <==> !Live(repo.rows, id)
      ensures r.Err? ==> r.error != UpdateFailed
    {
      var s := repo.GetByID(id);
      if s.None? { return Err(SessionNotFound); }
      if !CanTransition(s.value.state, target) { return Err(InvalidTransition); }
      r := Ok(s.value);
    }

    method TransitionToRunning(id: string, rentalId: nat, block: nat, tx: string, start: Time, now: Time)
      returns (r: Result<(), TransitionError>)
      requires Keyed(repo.rows)
      modifies repo
      ensures Reported(old(repo.rows), TransitionRow(old(repo.rows), id, ToRunning(rentalId, block, tx, start), now), r, repo.rows)
      ensures r.Ok? ==> id in old(repo.rows) && repo.rows == old(repo.rows)[id := old(repo.rows)[id].(state := Running,
        rentalId := Some(rentalId), blockNumber := Some(block), txHash := Some(tx), startTime := Some(start), updatedAt := now)]
      ensures r.Err? ==> repo.rows == old(repo.rows)
      ensures r == Err(SessionNotFound) <==> id !in old(repo.rows) || old(repo.rows)[id].deletedAt != None
      ensures r == Err(InvalidTransition) <==>
        id in old(repo.rows) && old(repo.rows)[id].deletedAt == None && old(repo.rows)[id].state != Pending
    {
      RunningColumns(repo.rows, id, rentalId, block, tx, start, now);
      var loaded := LoadAndValidate(id, Running);
      if loaded.Err? { return Err(loaded.error); }
      var s := loaded.value;
      s := s.(state := Running);
      s := s.(rentalId := Some(rentalId));
      s := s.(blockNumber := Some(block));
      s := s.(txHash := Some(tx));
      s := s.(startTime := Some(start));
      var ok := repo.Update(s, now);
      r := if ok then Ok(()) else Err(UpdateFailed);
    }

    method TransitionToStopped(id: string, end: Time, totalCost: int, tx: string, block: nat, now: Time)
      returns (r: Result<(), TransitionError>)
      requires Keyed(repo.rows)
      modifies repo
      ensures Reported(old(repo.rows), TransitionRow(old(repo.rows), id, ToStopped(end, totalCost, tx, block), now), r, repo.rows)
      ensures r.Ok? ==> id in old(repo.rows) && repo.rows == old(repo.rows)[id := old(repo.rows)[id].(state := Stopped,
        endTime := Some(end), txHash := Some(tx), blockNumber := Some(block), updatedAt := now)]
      ensures r.Err? ==> repo.rows == old(repo.rows)
      ensures r == Err(SessionNotFound) <==> id !in old(repo.rows) || old(repo.rows)[id].deletedAt != None
      ensures r == Err(InvalidTransition) <==>
        id in old(repo.rows) && old(repo.rows)[id].deletedAt == None && old(repo.rows)[id].state != Running
    {
      StoppedColumns(repo.rows, id, end, totalCost, tx, block, now);
      var loaded := LoadAndValidate(id, Stopped);
      if loaded.Err? { return Err(loaded.error); }
      var s := loaded.value;
      s := s.(state := Stopped);
      s := s.(endTime := Some(end));
      s := s.(txHash := Some(tx));
      s := s.(blockNumber := Some(block));
      s := s.(settledAmount := Some(totalCost));
      var ok := repo.Update(s, now);
      r := if ok then Ok(()) else Err(UpdateFailed);
    }

    method TransitionToFailed(id: string, now: Time) returns (r: Result<(), TransitionError>)
      requires Keyed(repo.rows)
      modifies repo
      ensures Reported(old(repo.rows), TransitionRow(old(repo.rows), id, ToFailed(now), now), r, repo.rows)
      ensures r.Ok? ==> id in old(repo.rows) && repo.rows == old(repo.rows)[id := old(repo.rows)[id].(state := Failed,
        endTime := Some(now), updatedAt := now)]
      ensures r.Err? ==> repo.rows == old(repo.rows)
      ensures r == Err(SessionNotFound) <==> id !in old(repo.rows) || old(repo.rows)[id].deletedAt != None
      ensures r == Err(InvalidTransition) <==>
        id in old(repo.rows) && old(repo.rows)[id].deletedAt == None && old(repo.rows)[id].state != Pending && old(repo.rows)[id].state != Running
    {
      EndedColumns(repo.rows, id, false, now, now);
      var loaded := LoadAndValidate(id, Failed);
      if loaded.Err? { return Err(loaded.error); }
      var s := loaded.value;
      s := s.(state := Failed);
      s := s.(endTime := Some(now));
      var ok := repo.Update(s, now);
      r := if ok then Ok(()) else Err(UpdateFailed);
    }

    method TransitionToCancelled(id: string, now: Time) returns (r: Result<(), TransitionError>)
      requires Keyed(repo.rows)
      modifies repo
      ensures Reported(old(repo.rows), TransitionRow(old(repo.rows), id, ToCancelled(now), now), r, repo.rows)
      ensures r.Ok? ==> id in old(repo.rows) && repo.rows == old(repo.rows)[id := old(repo.rows)[id].(state := Cancelled,
        endTime := Some(now), updatedAt := now)]
      ensures r.Err? ==> repo.rows == old(repo.rows)
      ensures r == Err(SessionNotFound) <==> id !in old(repo.rows) || old(repo.rows)[id].deletedAt != None
      ensures r == Err(InvalidTransition) <==>
        id in old(repo.rows) && old(repo.rows)[id].deletedAt == None && old(repo.rows)[id].state != Pending
    {
      EndedColumns(repo.rows, id, true, now, now);
      var loaded := LoadAndValidate(id, Cancelled);
      if loaded.Err? { return Err(loaded.error); }
      var s := loaded.value;
      s := s.(state := Cancelled);
      s := s.(endTime := Some(now));
      var ok := repo.Update(s, now);
      r := if ok then Ok(()) else Err(UpdateFailed);
    }

    method ExtendSession(id: string, minutes: int, check: BalanceCheck, now: Time)
      returns (r: Result<ExtensionResult, ExtendError>)
      modifies repo
      ensures r.Ok? <==> Live(old(repo.rows), id) && ExtensionAllowed(old(repo.rows)[id], minutes, check, now)
      ensures r.Ok? ==>
        var s := old(repo.rows)[id];
        && repo.rows == old(repo.rows)[id := Extended(s, minutes, now)]
        && r.value.newExpiration == NewExpiration(s, minutes, now)
        && r.value.minutes == minutes && r.value.count == s.extensionCount + 1
        && r.value.cost == Decimal.PriceOf(s.price).value * (minutes * 60)
        && r.value.remaining == (if check.Balance? then Some(check.amount) else None)
      ensures r.Ok? ==>
        var s := old(repo.rows)[id];
        && s.state == Running && minutes >= 30 && s.extensionCount < 10 && Decimal.PriceOf(s.price) != None && check != CheckFailed
        && (check.Balance? ==> check.amount >= CostSoFar(s, Decimal.PriceOf(s.price).value, now) + r.value.cost)
        && r.value.newExpiration == minutes * 60_000_000_000
             + (if s.extendedUntil != None && s.extendedUntil.value > now then s.extendedUntil.value else now)
        && repo.rows == old(repo.rows)[id := s.(extendedUntil := Some(r.value.newExpiration),
             extensionCount := s.extensionCount + 1, totalExtendedMinutes := s.totalExtendedMinutes + minutes, updatedAt := now)]
      ensures r.Err? ==> repo.rows == old(repo.rows)
      ensures r.Err? ==> Some(r.error) == ExtensionRefusal(old(repo.rows), id, minutes, check, now)
      ensures r == Err(MinimumDuration) <==> minutes < 30
      ensures r == Err(ExtendNotFound) <==>
        minutes >= 30 && (id !in old(repo.rows) || old(repo.rows)[id].deletedAt != None)
      ensures r.Err? && r.error != MinimumDuration && r.error != ExtendNotFound ==>
        var s := old(repo.rows)[id];
        && (r.error == NotRunning <==> s.state != Running)
        && (r.error == LimitReached <==> s.state == Running && s.extensionCount >= 10)
        && (r.error == InvalidPrice <==> s.state == Running && s.extensionCount < 10 && Decimal.PriceOf(s.price) == None)
        && (r.error == BalanceUnknown ==> check == CheckFailed)
        && (r.error.InsufficientBalance? ==>
              && check.Balance? && r.error.shortfall > 0 && Decimal.PriceOf(s.price) != None
              && check.amount + r.error.shortfall
                 == CostSoFar(s, Decimal.PriceOf(s.price).value, now) + Decimal.PriceOf(s.price).value * (minutes * 60))
        && r.error != ExtensionNotWritten
    {
      if minutes < MIN_EXTENSION_MINUTES { return Err(MinimumDuration); }
      var found := repo.GetByID(id);
      if found.None? { return Err(ExtendNotFound); }
      var s := found.value;
      if s.state != Running { return Err(NotRunning); }
      if s.extensionCount >= MAX_EXTENSIONS { return Err(LimitReached); }
      var price := Decimal.PriceOf(s.price);
      if price.None? { return Err(InvalidPrice); }
      var cost := price.value * (minutes * 60);
      var currentCost := 0;
      if s.startTime.Some? { currentCost := price.value * WholeSeconds(now - s.startTime.value); }
      var totalRequired := currentCost + cost;
      var remaining := None;
      match check {
        case NoValidator =>
        case CheckFailed => return Err(BalanceUnknown);
        case Balance(amount) =>
          remaining := Some(amount);
          if amount < totalRequired { return Err(InsufficientBalance(totalRequired - amount)); }
      }
      var baseTime := now;
      if s.extendedUntil.Some? && ExpiryOf(s) > baseTime { baseTime := ExpiryOf(s); }
      var until := baseTime + minutes * MINUTE;
      var ok := repo.UpdateExtension(id, until, minutes, now);
      if !ok { return Err(ExtensionNotWritten); }
      r := Ok(ExtensionResult(until, minutes, cost, remaining, s.extensionCount + 1));
    }
  }

  // The outcome of a manager call, and the table it leaves behind.
  predicate Reported(before: Table, expected: Result<Table, TransitionError>, r: Result<(), TransitionError>, after: Table) {
    match expected
    case Ok(t) => r.Ok? && after == t
    case Err(e) => r == Err(e) && after == before
  }
}
