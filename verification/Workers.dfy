/**
 The workers that drive sessions through the manager: pod events (internal/sessions/k8s_handler.go),
 timeouts (internal/sessions/timeouts.go) and chain stops (internal/blockchain/processor.go). Each
 handler runs alone here; the interleaving model takes their manager calls apart.
 */
module Workers {
  import opened Outcomes
  import opened Rental
  import opened SessionTable
  import opened SessionManagement
  import opened Billing
  import opened Interleaving
  import opened Capacity
  import opened Provisioning
  import Decimal

  const PENDING_TIMEOUT: Time := 10 * MINUTE
  const RUNNING_TIMEOUT: Time := 24 * 60 * MINUTE

  // ---- What a pod event does to the table ----

  datatype PodEvent = PodRunning | PodFailed | PodSucceeded | PodDeleted

  // The manager call an event makes, if any, for the session it finds.
  function Reaction(event: PodEvent, s: Session, now: Time): Option<Op> {
    match event
    case PodRunning => None
    case PodFailed => if IsTerminal(s.state) then None else Some(ToFailed(now))
    case PodSucceeded => if IsTerminal(s.state) then None else Some(ToStopped(now, SecondsAmount(s, now), "", 0))
    case PodDeleted => if s.state == Running then Some(ToStopped(now, SecondsAmount(s, now), "", 0)) else None
  }

  function AfterEvent(t: Table, id: string, event: PodEvent, now: Time): Table
    requires Keyed(t)
  {
    if !Live(t, id) then t
    else if event.PodRunning? then (if t[id].state == Running then t[id := t[id].(updatedAt := now)] else t)
    else
      match Reaction(event, t[id], now)
      case None => t
      case Some(op) => OrElse(Applied(TransitionRow(t, id, op, now)), t)
  }

  // Whether the handler reports success: an event that needs no call always does.
  predicate EventHandled(t: Table, id: string, event: PodEvent, now: Time)
    requires Keyed(t)
  {
    if !Live(t, id) then event.PodDeleted?
    else
      match Reaction(event, t[id], now)
      case None => true
      case Some(op) => TransitionRow(t, id, op, now).Ok?
  }

  function Applied(r: Result<Table, TransitionError>): Option<Table> { if r.Ok? then Some(r.value) else None }

  class K8sStateHandler {
    const repo: RentalSessionRepository
    const manager: SessionManager
    const executor: K8sJobExecutor?

    constructor (manager: SessionManager, executor: K8sJobExecutor?)
      ensures this.manager == manager && this.repo == manager.repo && this.executor == executor
    {
      this.manager, this.repo, this.executor := manager, manager.repo, executor;
    }

    method CalculateSettlementAmount(s: Session, end: Time) returns (amount: int)
      ensures amount == SecondsAmount(s, end)
      ensures s.startTime == None || end <= s.startTime.value || Decimal.PriceOf(s.price) == None ==> amount == 0
      ensures s.startTime != None && end > s.startTime.value && Decimal.PriceOf(s.price) != None ==>
        amount == Decimal.PriceOf(s.price).value * ((end - s.startTime.value) / 1_000_000_000)
    {
      if s.startTime.None? { return 0; }
      var duration := end - s.startTime.value;
      if duration <= 0 { return 0; }
      var price := Decimal.PriceOf(s.price);
      if price.None? { return 0; }
      amount := price.value * WholeSeconds(duration);
    }

    method OnPodRunning(id: string, now: Time) returns (ok: bool)
      requires manager.repo == repo && Keyed(repo.rows)
      modifies repo
      ensures repo.rows == AfterEvent(old(repo.rows), id, PodRunning, now)
      ensures ok == EventHandled(old(repo.rows), id, PodRunning, now)
      ensures ok <==> id in old(repo.rows) && old(repo.rows)[id].deletedAt == None
      ensures ok && old(repo.rows)[id].state == Running ==>
        repo.rows == old(repo.rows)[id := old(repo.rows)[id].(updatedAt := now)]
      ensures !ok || old(repo.rows)[id].state != Running ==> repo.rows == old(repo.rows)
    {
      var s := repo.GetByID(id);
      if s.None? { return false; }
      if s.value.state == Running {
        var touched := repo.TouchSession(id, now);
      }
      ok := true;
    }

    // A failed session's Pod is deleted and what it held is released.
    method OnPodFailed(id: string, provider: string, env: Cluster, now: Time) returns (ok: bool)
      requires manager.repo == repo && Keyed(repo.rows)
      requires var cap := RecordFor(executor, provider, env); cap != null ==> cap.Valid()
      modifies repo, RecordFor(executor, provider, env)
      ensures repo.rows == AfterEvent(old(repo.rows), id, PodEvent.PodFailed, now)
      ensures ok == EventHandled(old(repo.rows), id, PodEvent.PodFailed, now)
      ensures id !in old(repo.rows) || old(repo.rows)[id].deletedAt != None ==> !ok && repo.rows == old(repo.rows)
      ensures id in old(repo.rows) && old(repo.rows)[id].deletedAt == None ==>
        var s := old(repo.rows)[id];
        if s.state == Pending || s.state == Running
        then repo.rows == (if ok then old(repo.rows)[id := s.(state := Failed, endTime := Some(now), updatedAt := now)] else old(repo.rows))
             && (UniqueIndexes(old(repo.rows)) ==> ok)
        else ok && repo.rows == old(repo.rows)
      ensures var cap := RecordFor(executor, provider, env);
              cap != null ==>
                && cap.Valid()
                && cap.Record() == if ok && (old(repo.rows)[id].state == Pending || old(repo.rows)[id].state == Running)
                                   then AfterDelete(old(cap.Record()), old(repo.rows)[id], env) else old(cap.Record())
    {
      var s := repo.GetByID(id);
      if s.None? { return false; }
      if IsTerminal(s.value.state) { return true; }
      EndedColumns(repo.rows, id, false, now, now);
      var r := manager.TransitionToFailed(id, now);
      if r.Err? { return false; }
      if executor != null {
        var deleted := executor.DeleteGPUSession(s.value, provider, env);
      }
      ok := true;
    }

    method OnPodSucceeded(id: string, now: Time) returns (ok: bool)
      requires manager.repo == repo && Keyed(repo.rows)
      modifies repo
      ensures repo.rows == AfterEvent(old(repo.rows), id, PodSucceeded, now)
      ensures ok == EventHandled(old(repo.rows), id, PodSucceeded, now)
      ensures id !in old(repo.rows) || old(repo.rows)[id].deletedAt != None ==> !ok && repo.rows == old(repo.rows)
      ensures id in old(repo.rows) && old(repo.rows)[id].deletedAt == None ==>
        var s := old(repo.rows)[id];
        if s.state == Running
        then repo.rows == (if ok then old(repo.rows)[id := s.(state := Stopped, endTime := Some(now), txHash := Some(""),
                             blockNumber := Some(0), updatedAt := now)] else old(repo.rows))
             && (UniqueIndexes(old(repo.rows)) ==>
                  (ok <==> forall k | k in old(repo.rows) && k != id ::
                     old(repo.rows)[k].deletedAt == None ==> old(repo.rows)[k].txHash != Some("")))
        else repo.rows == old(repo.rows) && (ok <==> s.state != Pending)
    {
      StoppedColumns(repo.rows, id, now, if Live(repo.rows, id) then SecondsAmount(repo.rows[id], now) else 0, "", 0, now);
      var s := repo.GetByID(id);
      if s.None? { return false; }
      if IsTerminal(s.value.state) { return true; }
      var amount := CalculateSettlementAmount(s.value, now);
      var r := manager.TransitionToStopped(id, now, amount, "", 0, now);
      ok := r.Ok?;
    }

    // A deleted Pod without a session is fine.
    method OnPodDeleted(id: string, now: Time) returns (ok: bool)
      requires manager.repo == repo && Keyed(repo.rows)
      modifies repo
      ensures repo.rows == AfterEvent(old(repo.rows), id, PodDeleted, now)
      ensures ok == EventHandled(old(repo.rows), id, PodDeleted, now)
      ensures id !in old(repo.rows) || old(repo.rows)[id].deletedAt != None ==> ok && repo.rows == old(repo.rows)
      ensures id in old(repo.rows) && old(repo.rows)[id].deletedAt == None ==>
        var s := old(repo.rows)[id];
        if s.state == Running
        then repo.rows == (if ok then old(repo.rows)[id := s.(state := Stopped, endTime := Some(now), txHash := Some(""),
                             blockNumber := Some(0), updatedAt := now)] else old(repo.rows))
             && (UniqueIndexes(old(repo.rows)) ==>
                  (ok <==> forall k | k in old(repo.rows) && k != id ::
                     old(repo.rows)[k].deletedAt == None ==> old(repo.rows)[k].txHash != Some("")))
        else ok && repo.rows == old(repo.rows)
    {
      StoppedColumns(repo.rows, id, now, if Live(repo.rows, id) then SecondsAmount(repo.rows[id], now) else 0, "", 0, now);
      var s := repo.GetByID(id);
      if s.None? || s.value.state != Running { return true; }
      var amount := CalculateSettlementAmount(s.value, now);
      var r := manager.TransitionToStopped(id, now, amount, "", 0, now);
      ok := r.Ok?;
    }
  }

  // Informers repeat events. Failed, succeeded and deleted change a session at most once: a repeat
  // finds a terminal row, or is refused as the first one was.
  lemma RepeatedEventIsIdle(t: Table, id: string, event: PodEvent, now: Time, later: Time)
    requires Keyed(t) && !event.PodRunning? && Keyed(AfterEvent(t, id, event, now))
    ensures var once := AfterEvent(t, id, event, now); AfterEvent(once, id, event, later) == once
  {
    if Live(t, id) && Reaction(event, t[id], now).Some? {
      RefusedAgain(t, id, Reaction(event, t[id], now).value, Reaction(event, t[id], later).value, now, later);
    }
  }

  lemma RefusedAgain(t: Table, id: string, op: Op, op': Op, now: Time, later: Time)
    requires Keyed(t) && Live(t, id) && Target(op) == Target(op') && !op.ToRunning? && !op.ToCancelled?
    requires op.ToStopped? ==> op.stopTx == op'.stopTx
    ensures TransitionRow(t, id, op, now).Ok? <==> TransitionRow(t, id, op', later).Ok?
  {
    SameFit(t, Overwritten(t[id], Moved(t[id], op), now), Overwritten(t[id], Moved(t[id], op'), later));
  }

  lemma SameFit(t: Table, a: Session, b: Session)
    requires a.id == b.id && a.rentalId == b.rentalId && a.txHash == b.txHash && a.deletedAt == b.deletedAt
    ensures Fits(t, a) <==> Fits(t, b)
  {
    assert forall k :: k in t ==> (Compatible(a, t[k]) <==> Compatible(b, t[k]));
  }

  // ---- Timeouts ----

  // A stale RUNNING row after its turn: failed and ended then, everything else kept.
  predicate TimedOut(s: Session, s': Session, at: Time) {
    s' == s.(state := Failed, endTime := Some(at), updatedAt := at)
  }

  // Failing a session changes no indexed column, so the write is never refused.
  lemma FailingFits(t: Table, id: string, at: Time, now: Time)
    requires Keyed(t) && UniqueIndexes(t) && Live(t, id) && t[id].state == Running
    ensures var row := Overwritten(t[id], Moved(t[id], ToFailed(at)), now);
      TransitionRow(t, id, ToFailed(at), now) == Ok(t[id := row]) && UniqueIndexes(t[id := row])
      && (at == now ==> TimedOut(t[id], row, at))
  {
    var row := Overwritten(t[id], Moved(t[id], ToFailed(at)), now);
    assert forall k :: k in t && k != id ==> Compatible(t[id], t[k]);
    FitsKeepsUnique(t, row);
  }

  class TimeoutEnforcer {
    const repo: RentalSessionRepository
    const failer: SessionManager

    constructor (failer: SessionManager)
      ensures this.failer == failer && this.repo == failer.repo
    {
      this.failer, this.repo := failer, failer.repo;
    }

    method EnforcePendingTimeouts(now: Time)
      modifies repo
      ensures repo.rows == SoftDeleteRows(old(repo.rows), now - PENDING_TIMEOUT, now)
      ensures repo.rows.Keys == old(repo.rows).Keys
      ensures forall id :: id in repo.rows ==>
        var r := old(repo.rows)[id];
        repo.rows[id] == if r.state == Pending && r.txHash == None && r.deletedAt == None && now - r.createdAt > 600_000_000_000
                         then r.(deletedAt := Some(now), updatedAt := now) else r
    {
      var count := repo.SoftDeletePendingBefore(now - PENDING_TIMEOUT, now);
    }

    // Every RUNNING session without an update for 24 hours is failed, the longest silent first, each at
    // the time of its turn, and no other row is touched.
    method EnforceRunningTimeouts(now: Time, clock: nat -> Time) returns (ghost stale: seq<Session>)
      requires failer.repo == repo && Keyed(repo.rows) && UniqueIndexes(repo.rows)
      modifies repo
      ensures Keyed(repo.rows) && UniqueIndexes(repo.rows) && repo.rows.Keys == old(repo.rows).Keys
      ensures forall i, j :: 0 <= i < j < |stale| ==> stale[i].updatedAt <= stale[j].updatedAt
      ensures forall id :: id in old(repo.rows) ==> (old(repo.rows)[id] in stale <==>
        old(repo.rows)[id].state == Running && old(repo.rows)[id].updatedAt < now - 86_400_000_000_000
        && old(repo.rows)[id].deletedAt == None)
      ensures forall i :: 0 <= i < |stale| ==>
        && stale[i].id in repo.rows
        && repo.rows[stale[i].id] == stale[i].(state := Failed, endTime := Some(clock(i)), updatedAt := clock(i))
      ensures forall id :: id in repo.rows && old(repo.rows)[id] !in stale ==> repo.rows[id] == old(repo.rows)[id]
    {
      ghost var before := repo.rows;
      var listed := repo.FindStale(Running, RUNNING_TIMEOUT, now);
      stale := listed;
      assert RUNNING_TIMEOUT == 86_400_000_000_000;
      for i := 0 to |listed|
        invariant repo.rows.Keys == before.Keys && Keyed(repo.rows) && UniqueIndexes(repo.rows)
        invariant SweptTo(before, repo.rows, listed, clock, i)
      {
        assert Stale(listed[i], Running, now - RUNNING_TIMEOUT);
        FailStale(before, listed, clock, i, clock(i));
      }
      SweepDone(before, repo.rows, listed, clock);
    }

    method FailStale(ghost before: Table, stale: seq<Session>, ghost clock: nat -> Time, i: nat, at: Time)
      requires failer.repo == repo && Keyed(repo.rows) && UniqueIndexes(repo.rows) && repo.rows.Keys == before.Keys
      requires i < |stale| && SweptTo(before, repo.rows, stale, clock, i) && at == clock(i)
      requires stale[i].state == Running && stale[i].deletedAt.None?
      requires forall j, k :: 0 <= j < k < |stale| ==> stale[j].id != stale[k].id
      modifies repo
      ensures Keyed(repo.rows) && UniqueIndexes(repo.rows) && repo.rows.Keys == before.Keys
      ensures SweptTo(before, repo.rows, stale, clock, i + 1)
    {
      assert repo.rows[stale[i].id] == stale[i];
      FailingFits(repo.rows, stale[i].id, at, at);
      SweepOne(before, repo.rows, stale, clock, i, Overwritten(stale[i], Moved(stale[i], ToFailed(at)), at));
      var r := failer.TransitionToFailed(stale[i].id, at);
    }
  }

  // The first n listed rows have timed out; the others are as listed or as they were.
  predicate SweptTo(before: Table, t: Table, stale: seq<Session>, clock: nat -> Time, n: nat)
    requires n <= |stale| && t.Keys == before.Keys
  {
    && (forall j :: 0 <= j < n ==> stale[j].id in t && TimedOut(stale[j], t[stale[j].id], clock(j)))
    && (forall j :: n <= j < |stale| ==> stale[j].id in t && t[stale[j].id] == stale[j])
    && (forall id :: id in t && (forall j :: 0 <= j < |stale| ==> stale[j].id != id) ==> t[id] == before[id])
  }

  lemma SweepOne(before: Table, t: Table, stale: seq<Session>, clock: nat -> Time, n: nat, row: Session)
    requires n < |stale| && t.Keys == before.Keys && SweptTo(before, t, stale, clock, n)
    requires forall i, j :: 0 <= i < j < |stale| ==> stale[i].id != stale[j].id
    requires row.id == stale[n].id && TimedOut(stale[n], row, clock(n))
    ensures t[row.id := row].Keys == before.Keys && SweptTo(before, t[row.id := row], stale, clock, n + 1)
  {
    var t' := t[row.id := row];
    assert stale[n].id in t;
    forall j | n < j < |stale|
      ensures t'[stale[j].id] == stale[j]
    {
      assert stale[j].id != stale[n].id;
    }
  }

  lemma SweepDone(before: Table, t: Table, stale: seq<Session>, clock: nat -> Time)
    requires t.Keys == before.Keys && SweptTo(before, t, stale, clock, |stale|) && Keyed(before)
    requires forall i :: 0 <= i < |stale| ==> stale[i].id in before && before[stale[i].id] == stale[i]
    ensures forall id :: id in t && before[id] !in stale ==> t[id] == before[id]
  {
    forall id | id in t && before[id] !in stale
      ensures t[id] == before[id]
    {
      assert forall j :: 0 <= j < |stale| ==> stale[j].id != id;
    }
  }

  // ---- Chain stops ----

  class EventProcessor {
    const repo: RentalSessionRepository
    const manager: SessionManager
    const cleanup: K8sJobExecutor?

    constructor (manager: SessionManager, cleanup: K8sJobExecutor?)
      ensures this.manager == manager && this.repo == manager.repo && this.cleanup == cleanup
    {
      this.manager, this.repo, this.cleanup := manager, manager.repo, cleanup;
    }

    // An unknown rental is skipped; otherwise its session is stopped with the event's time, hash and
    // block, and once that is written its container is deleted and what it held is released.
    method HandleRentalStopped(rentalId: nat, end: Time, cost: int, txHash: string, block: nat,
                               provider: string, env: Cluster, now: Time)
      returns (ok: bool, ghost found: Option<string>)
      requires manager.repo == repo && Keyed(repo.rows)
      requires var cap := RecordFor(cleanup, provider, env); cap != null ==> cap.Valid()
      modifies repo, RecordFor(cleanup, provider, env)
      ensures found.None? ==> ok && repo.rows == old(repo.rows)
      ensures found.None? ==> forall id :: id in old(repo.rows) ==> !HoldsRental(old(repo.rows)[id], rentalId)
      ensures found.Some? ==>
        StopsRental(repo.rows, old(repo.rows), found.value, rentalId, ToStopped(end, cost, txHash, block), now, ok)
      ensures found.Some? ==>
        && found.value in old(repo.rows)
        && old(repo.rows)[found.value].rentalId == Some(rentalId) && old(repo.rows)[found.value].deletedAt == None
        && (ok ==> old(repo.rows)[found.value].state == Running)
        && repo.rows == (if ok then old(repo.rows)[found.value := old(repo.rows)[found.value].(state := Stopped,
             endTime := Some(end), txHash := Some(txHash), blockNumber := Some(block), updatedAt := now)] else old(repo.rows))
      ensures var cap := RecordFor(cleanup, provider, env);
              cap != null ==>
                && cap.Valid()
                && cap.Record() == if found.Some? && ok then AfterDelete(old(cap.Record()), old(repo.rows)[found.value], env)
                                   else old(cap.Record())
    {
      found := None;
      var s := repo.GetByRentalID(rentalId);
      if s.None? { return true, None; }
      found := Some(s.value.id);
      var r := manager.TransitionToStopped(s.value.id, end, cost, txHash, block, now);
      if r.Err? { return false, found; }
      if cleanup != null {
        var deleted := cleanup.DeleteGPUSession(s.value, provider, env);
      }
      ok := true;
    }
  }

  // The manager's stop of one session that holds the rental, and its outcome.
  predicate StopsRental(t': Table, t: Table, id: string, rentalId: nat, op: Op, now: Time, ok: bool)
    requires Keyed(t)
  {
    && id in t && HoldsRental(t[id], rentalId)
    && match TransitionRow(t, id, op, now)
       case Ok(after) => ok && t' == after
       case Err(_) => !ok && t' == t
  }

  // A stop that was carried out is refused when it is delivered again, and changes nothing more.
  lemma RepeatedStopIsRefused(t: Table, id: string, op: Op, now: Time, later: Time)
    requires Keyed(t) && op.ToStopped? && TransitionRow(t, id, op, now).Ok?
    ensures TransitionRow(t, id, op, now).value.Keys == t.Keys
    ensures Keyed(TransitionRow(t, id, op, now).value)
    ensures TransitionRow(TransitionRow(t, id, op, now).value, id, op, later) == Err(InvalidTransition)
  {
  }
}
