/** Batch settlement (internal/settlement/processor.go): every write may fail, money must not. */
module Settlement {
  import opened Outcomes
  import opened Rental
  import opened SessionTable
  import opened SessionManagement
  import opened Interleaving
  import opened Totals
  import opened Billing
  import Decimal

  // A row after one batch: settled at its full cost if it was due, priced and its write succeeded.
  function AfterBatch(s: Session, failing: set<string>, now: Time): Session {
    if PendingSettlement(s) && Priced(s) && s.id !in failing
    then s.(settledAmount := Some(FullCost(s)), settledAt := Some(now), updatedAt := now)
    else s
  }

  predicate IsBatchOf(t: Table, t': Table, failing: set<string>, now: Time) {
    t'.Keys == t.Keys && forall id :: id in t ==> t'[id] == AfterBatch(t[id], failing, now)
  }

  ghost function Unsettled(t: Table): map<string, int> { Amounts(t, PendingSettlement, FullCost) }

  predicate NewlySettled(s: Session, s': Session) { s.settledAt.None? && s'.settledAt.Some? }

  function RecordedAmount(s: Session): int { if s.settledAmount.Some? then s.settledAmount.value else 0 }

  // The amounts written to the table between two states of it.
  ghost function Recorded(t: Table, t': Table): map<string, int>
    requires t'.Keys == t.Keys
  {
    map id | id in t && NewlySettled(t[id], t'[id]) :: RecordedAmount(t'[id])
  }

  class BatchProcessor {
    const repo: RentalSessionRepository

    constructor (repo: RentalSessionRepository)
      ensures this.repo == repo
    {
      this.repo := repo;
    }

    // The cost is stored first; the on-chain transfer that follows is best effort and changes no row.
    method SettleSession(s: Session, fails: bool, now: Time) returns (ok: bool)
      requires Keyed(repo.rows) && s.id in repo.rows && repo.rows[s.id] == s && PendingSettlement(s)
      modifies repo
      ensures repo.rows == old(repo.rows)[s.id := AfterBatch(s, if fails then {s.id} else {}, now)]
      ensures !ok <==> fails && Priced(s)
    {
      if s.startTime.None? || s.endTime.None? {
        assert repo.rows[s.id := s] == repo.rows;
        return true;
      }
      var price := Decimal.PriceOf(s.price);
      if price.None? {
        assert repo.rows[s.id := s] == repo.rows;
        return true;
      }
      var cost := Cost(s.startTime.value, s.endTime.value, price.value);
      if fails {
        assert repo.rows[s.id := s] == repo.rows;
        return false;
      }
      ok := repo.UpdateSettlement(s.id, cost, now, now);
    }

    method ProcessBatch(failing: set<string>, now: Time)
      requires Keyed(repo.rows)
      modifies repo
      ensures IsBatchOf(old(repo.rows), repo.rows, failing, now)
      ensures repo.rows.Keys == old(repo.rows).Keys
      ensures forall id :: id in repo.rows ==>
        var r := old(repo.rows)[id];
        repo.rows[id] ==
          if r.state == Stopped && r.settledAt == None && r.deletedAt == None && id !in failing
             && r.startTime != None && r.endTime != None && Decimal.PriceOf(r.price) != None
          then r.(settledAmount := Some(Cost(r.startTime.value, r.endTime.value, Decimal.PriceOf(r.price).value)),
                  settledAt := Some(now), updatedAt := now)
          else r
    {
      ghost var before := repo.rows;
      var sessions := repo.FindAllPendingSettlement();
      var settled, failed := 0, 0;
      for i := 0 to |sessions|
        invariant BatchedTo(before, repo.rows, sessions, failing, now, i)
      {
        var s := sessions[i];
        ghost var t := repo.rows;
        BatchTurn(before, t, sessions, failing, now, i);
        var ok := SettleSession(s, s.id in failing, now);
        BatchOne(before, t, sessions, failing, now, i);
        if ok { settled := settled + 1; } else { failed := failed + 1; }
      }
      BatchDone(before, repo.rows, sessions, failing, now);
    }
  }

  // The table after the first n listed sessions.
  predicate BatchedTo(before: Table, t: Table, listed: seq<Session>, failing: set<string>, now: Time, n: nat)
    requires n <= |listed|
  {
    && t.Keys == before.Keys
    && forall id :: id in before ==> t[id] == if Taken(listed, n, id) then AfterBatch(before[id], failing, now) else before[id]
  }

  predicate Taken(listed: seq<Session>, n: nat, id: string)
    requires n <= |listed|
  {
    exists j :: 0 <= j < n && listed[j].id == id
  }

  lemma BatchTurn(before: Table, t: Table, listed: seq<Session>, failing: set<string>, now: Time, n: nat)
    requires Keyed(before) && IsListing(before, PendingSettlement, listed)
    requires n < |listed| && BatchedTo(before, t, listed, failing, now, n)
    ensures Keyed(t) && listed[n].id in t && t[listed[n].id] == listed[n] && PendingSettlement(listed[n])
  {
    assert !Taken(listed, n, listed[n].id);
  }

  lemma BatchOne(before: Table, t: Table, listed: seq<Session>, failing: set<string>, now: Time, n: nat)
    requires Keyed(before) && IsListing(before, PendingSettlement, listed)
    requires n < |listed| && BatchedTo(before, t, listed, failing, now, n)
    ensures var s := listed[n];
      BatchedTo(before, t[s.id := AfterBatch(s, if s.id in failing then {s.id} else {}, now)], listed, failing, now, n + 1)
  {
    forall id | id in before
      ensures Taken(listed, n + 1, id) <==> Taken(listed, n, id) || id == listed[n].id
    {
      if id == listed[n].id { assert Taken(listed, n + 1, id); }
    }
  }

  lemma BatchDone(before: Table, t: Table, listed: seq<Session>, failing: set<string>, now: Time)
    requires Keyed(before) && IsListing(before, PendingSettlement, listed)
    requires BatchedTo(before, t, listed, failing, now, |listed|)
    ensures IsBatchOf(before, t, failing, now)
  {
    forall id | id in before && PendingSettlement(before[id])
      ensures Taken(listed, |listed|, id)
    {
      var j :| 0 <= j < |listed| && listed[j] == before[id];
      assert listed[j].id == id;
    }
  }

  lemma RowAfterBatch(t: Table, t': Table, failing: set<string>, now: Time, id: string)
    requires Keyed(t) && IsBatchOf(t, t', failing, now) && id in t
    ensures NewlySettled(t[id], t'[id]) <==> PendingSettlement(t[id]) && Priced(t[id]) && id !in failing
    ensures NewlySettled(t[id], t'[id]) ==> RecordedAmount(t'[id]) == FullCost(t[id]) && !PendingSettlement(t'[id])
    ensures !NewlySettled(t[id], t'[id]) ==> t'[id] == t[id]
  {
    assert t'[id] == AfterBatch(t[id], failing, now) && t[id].id == id;
  }

  lemma RecordedWasUnsettled(t: Table, t': Table, failing: set<string>, now: Time)
    requires Keyed(t) && IsBatchOf(t, t', failing, now)
    ensures Restrict(Unsettled(t), Recorded(t, t').Keys) == Recorded(t, t')
  {
    forall id | id in t && NewlySettled(t[id], t'[id])
      ensures PendingSettlement(t[id]) && RecordedAmount(t'[id]) == FullCost(t[id])
    {
      RowAfterBatch(t, t', failing, now, id);
    }
  }

  lemma RestIsUnsettled(t: Table, t': Table, failing: set<string>, now: Time)
    requires Keyed(t) && IsBatchOf(t, t', failing, now)
    ensures Unsettled(t') == Unsettled(t) - Recorded(t, t').Keys
  {
    forall id | id in t
      ensures PendingSettlement(t'[id]) <==> PendingSettlement(t[id]) && !NewlySettled(t[id], t'[id])
      ensures PendingSettlement(t'[id]) ==> t'[id] == t[id]
    {
      RowAfterBatch(t, t', failing, now, id);
    }
  }

  // Money is conserved whatever subset of the writes fails: what was unsettled before is what the
  // batch recorded plus what is still unsettled.
  lemma BatchConserves(t: Table, t': Table, failing: set<string>, now: Time)
    requires Keyed(t) && IsBatchOf(t, t', failing, now)
    ensures Total(Unsettled(t)) == Total(Recorded(t, t')) + Total(Unsettled(t'))
  {
    RecordedWasUnsettled(t, t', failing, now);
    RestIsUnsettled(t, t', failing, now);
    TotalSplit(Unsettled(t), Recorded(t, t').Keys);
  }

  // After a batch nothing that could be settled is left, except where the write failed.
  lemma NothingSkipped(t: Table, t': Table, failing: set<string>, now: Time, id: string)
    requires Keyed(t) && IsBatchOf(t, t', failing, now) && id in t
    ensures PendingSettlement(t'[id]) <==> PendingSettlement(t[id]) && (id in failing || !Priced(t[id]))
    ensures PendingSettlement(t[id]) && !PendingSettlement(t'[id]) ==> t'[id].settledAmount == Some(FullCost(t[id]))
  {
    assert t'[id] == AfterBatch(t[id], failing, now);
  }

  // A run of batches, each with its own failures and time.
  ghost predicate BatchRun(ts: seq<Table>, failing: seq<set<string>>, times: seq<Time>) {
    && |ts| == |failing| + 1 == |times| + 1
    && forall i :: 0 <= i < |failing| ==> IsBatchOf(ts[i], ts[i + 1], failing[i], times[i])
  }

  lemma BatchKeepsKeyed(t: Table, t': Table, failing: set<string>, now: Time)
    requires Keyed(t) && IsBatchOf(t, t', failing, now)
    ensures Keyed(t')
  {
    forall id | id in t'
      ensures t'[id].id == id
    {
      assert t'[id] == AfterBatch(t[id], failing, now);
    }
  }

  // The rows of a later table are those of an earlier one, settled rows untouched, nothing but the
  // settlement columns moved.
  predicate OnlySettles(t: Table, t': Table) {
    && t'.Keys == t.Keys
    && forall id :: id in t ==> RowSettles(t[id], t'[id])
  }

  predicate RowSettles(s: Session, s': Session) {
    && (s.settledAt.Some? ==> s' == s)
    && s' == s.(settledAmount := s'.settledAmount, settledAt := s'.settledAt, updatedAt := s'.updatedAt)
  }

  ghost predicate Conserves(t: Table, t': Table) {
    OnlySettles(t, t') && Total(Unsettled(t)) == Total(Recorded(t, t')) + Total(Unsettled(t'))
  }

  lemma RecordedChain(a: Table, b: Table, c: Table, id: string)
    requires OnlySettles(a, b) && OnlySettles(b, c) && id in a
    ensures RowSettles(a[id], c[id])
    ensures NewlySettled(a[id], c[id]) <==> NewlySettled(a[id], b[id]) || NewlySettled(b[id], c[id])
    ensures NewlySettled(a[id], b[id]) ==> c[id] == b[id]
  {
    assert RowSettles(a[id], b[id]) && RowSettles(b[id], c[id]);
  }

  lemma RecordedSplits(a: Table, b: Table, c: Table)
    requires OnlySettles(a, b) && OnlySettles(b, c)
    ensures OnlySettles(a, c)
    ensures Recorded(a, b).Keys <= Recorded(a, c).Keys
    ensures Restrict(Recorded(a, c), Recorded(a, b).Keys) == Recorded(a, b)
    ensures Recorded(a, c) - Recorded(a, b).Keys == Recorded(b, c)
  {
    forall id | id in a
      ensures RowSettles(a[id], c[id])
      ensures NewlySettled(a[id], c[id]) <==> NewlySettled(a[id], b[id]) || NewlySettled(b[id], c[id])
      ensures NewlySettled(a[id], b[id]) ==> c[id] == b[id]
    {
      RecordedChain(a, b, c, id);
    }
  }

  lemma ConservesTransitive(a: Table, b: Table, c: Table)
    requires Conserves(a, b) && Conserves(b, c)
    ensures Conserves(a, c)
  {
    RecordedSplits(a, b, c);
    TotalSplit(Recorded(a, c), Recorded(a, b).Keys);
  }

  // Over any number of batches: money is conserved in total, a recorded amount never changes again,
  // and nothing outside the settlement columns moves.
  lemma {:induction false} RunConserves(ts: seq<Table>, failing: seq<set<string>>, times: seq<Time>)
    requires BatchRun(ts, failing, times) && Keyed(ts[0])
    ensures Conserves(ts[0], ts[|ts| - 1]) && Keyed(ts[|ts| - 1])
    decreases |failing|
  {
    var n := |failing|;
    if n == 0 {
      assert Recorded(ts[0], ts[0]) == map[];
    } else {
      var mid, last := ts[n - 1], ts[n];
      RunConserves(ts[..n], failing[..n - 1], times[..n - 1]);
      assert Conserves(ts[0], mid);
      assert IsBatchOf(mid, last, failing[n - 1], times[n - 1]);
      BatchConserves(mid, last, failing[n - 1], times[n - 1]);
      BatchKeepsKeyed(mid, last, failing[n - 1], times[n - 1]);
      ConservesTransitive(ts[0], mid, last);
    }
  }

  // ---- Between batches: any interleaving of the other workers ----

  // The minutes a session is billed for.
  function BilledMinutes(s: Session): int {
    if !Priced(s) || s.endTime.value <= s.startTime.value then 0 else MinutesRoundedUp(s.endTime.value - s.startTime.value)
  }

  lemma CostOfMinutes(s: Session)
    ensures FullCost(s) == BilledMinutes(s) * 60 * (if Decimal.PriceOf(s.price).Some? then Decimal.PriceOf(s.price).value else 0)
  {
  }

  predicate NoSettlement(steps: seq<Step>, id: string) { forall i :: 0 <= i < |steps| && steps[i].Settle? ==> steps[i].id != id }

  lemma StepKeepsRecord(s: Sys, step: Step, id: string)
    requires TasksOk(s) && id in s.rows && (step.Settle? ==> step.id != id)
    ensures id in Next(s, step).rows
    ensures var r, r' := s.rows[id], Next(s, step).rows[id];
      r'.settledAmount == r.settledAmount && r'.settledAt == r.settledAt && r'.price == r.price
  {
    if step.Commit? {
      CommitRow(s, step, id);
    } else {
      StatementRow(s, step, id);
    }
  }

  // A recorded amount survives every interleaving of loads, stale commits and other statements, until
  // the session is settled again.
  lemma {:induction false} RecordSurvives(s: Sys, steps: seq<Step>, id: string)
    requires Inv(s) && id in s.rows && NoSettlement(steps, id)
    ensures id in Run(s, steps).rows
    ensures var r, r' := s.rows[id], Run(s, steps).rows[id];
      r'.settledAmount == r.settledAmount && r'.settledAt == r.settledAt && r'.price == r.price
    decreases |steps|
  {
    if steps != [] {
      StepKeepsRecord(s, steps[0], id);
      StepRows(s, steps[0]);
      StepTasks(s, steps[0]);
      StepUnique(s, steps[0]);
      RecordSurvives(Next(s, steps[0]), steps[1..], id);
    }
  }

  lemma SameProduct(m: int, n: int, price: int)
    ensures m * 60 * price == n * 60 * price <==> m == n || price == 0
  {
    assert (m - n) * 60 * price == m * 60 * price - n * 60 * price;
    if m != n && price != 0 {
      assert (m - n) * 60 != 0;
      assert (m - n) * 60 * price != 0;
    }
  }

  // What the last accepted commit of a session along a run wrote, as the manager assigned it.
  function LastWrite(s: Sys, steps: seq<Step>, id: string): Option<Session>
    requires Keyed(s.rows)
    decreases |steps|
  {
    if steps == [] then None
    else
      var later := LastWrite(Next(s, steps[0]), steps[1..], id);
      if later.Some? then later else Write(s, steps[0], id)
  }

  // The row with the times of a write, if there was one.
  function WithTimes(r: Session, w: Option<Session>): Session {
    match w
    case None => r
    case Some(x) => r.(startTime := x.startTime, endTime := x.endTime)
  }

  lemma TimesStep(s: Sys, step: Step, id: string)
    requires TasksOk(s) && id in s.rows
    ensures id in Next(s, step).rows
    ensures var r' := Next(s, step).rows[id];
      var expected := WithTimes(s.rows[id], Write(s, step, id));
      r'.startTime == expected.startTime && r'.endTime == expected.endTime
  {
    if step.Commit? {
      CommitRow(s, step, id);
    } else {
      StatementRow(s, step, id);
    }
  }

  lemma {:induction false} TimesFollowWrites(s: Sys, steps: seq<Step>, id: string)
    requires Inv(s) && id in s.rows
    ensures id in Run(s, steps).rows
    ensures var r' := Run(s, steps).rows[id];
      var expected := WithTimes(s.rows[id], LastWrite(s, steps, id));
      r'.startTime == expected.startTime && r'.endTime == expected.endTime
    decreases |steps|
  {
    if steps != [] {
      TimesStep(s, steps[0], id);
      StepRows(s, steps[0]);
      StepTasks(s, steps[0]);
      StepUnique(s, steps[0]);
      TimesFollowWrites(Next(s, steps[0]), steps[1..], id);
    }
  }

  // The last commit of the session, if any, bills the same minutes as the row that was settled.
  predicate BillsTheSame(r: Session, w: Option<Session>) {
    w.None? || Decimal.PriceOf(r.price) == Some(0) || BilledMinutes(WithTimes(r, w)) == BilledMinutes(r)
  }

  // After a settlement and any interleaving without another one, the recorded amount is still the
  // session's cost exactly when no commit of the session was written since, or the session is free, or
  // the times the last such commit wrote bill the same minutes.
  lemma RecordIsCostExactly(s: Sys, steps: seq<Step>, id: string)
    requires Inv(s) && id in s.rows && NoSettlement(steps, id)
    requires s.rows[id].settledAmount == Some(FullCost(s.rows[id]))
    ensures id in Run(s, steps).rows
    ensures var r' := Run(s, steps).rows[id];
      r'.settledAmount == Some(FullCost(r')) <==> BillsTheSame(s.rows[id], LastWrite(s, steps, id))
  {
    RecordSurvives(s, steps, id);
    TimesFollowWrites(s, steps, id);
    SameCostExactly(s.rows[id], Run(s, steps).rows[id], LastWrite(s, steps, id));
  }

  lemma SameCostExactly(r: Session, r': Session, w: Option<Session>)
    requires r'.price == r.price
    requires r'.startTime == WithTimes(r, w).startTime && r'.endTime == WithTimes(r, w).endTime
    ensures FullCost(r') == FullCost(r) <==> BillsTheSame(r, w)
  {
    CostOfMinutes(r);
    CostOfMinutes(r');
    assert BilledMinutes(r') == BilledMinutes(WithTimes(r, w));
    SameProduct(BilledMinutes(r), BilledMinutes(r'), if Decimal.PriceOf(r.price).Some? then Decimal.PriceOf(r.price).value else 0);
  }

  // Once a session is STOPPED, only a stale commit rewrites its times: one whose snapshot was loaded
  // before the stop.
  lemma OnlyStaleCommitsRewrite(s: Sys, step: Step, id: string)
    requires TasksOk(s) && id in s.rows && s.rows[id].state == Stopped
    ensures id in Next(s, step).rows
    ensures var r, r' := s.rows[id], Next(s, step).rows[id];
      r'.startTime != r.startTime || r'.endTime != r.endTime ==>
        step.Commit? && step.task in s.tasks && s.tasks[step.task].snapshot.id == id
        && s.tasks[step.task].snapshot.state != Stopped
  {
    if step.Commit? {
      CommitRow(s, step, id);
      if step.task in s.tasks && s.tasks[step.task].snapshot.state == Stopped {
        assert TaskOk(s.rows, s.tasks[step.task]);
        TransitionTable(Stopped, Target(s.tasks[step.task].op));
      }
    } else {
      StatementRow(s, step, id);
    }
  }

  // It happens: two stops of a RUNNING session are loaded, the first is written and settled, and the
  // second then moves the end under the recorded amount.
  lemma LateStopMovesCost(s: Sys, x: nat, y: nat, id: string, first: Op, second: Op, now: Time)
    requires TasksOk(s) && UniqueIndexes(s.rows) && Live(s.rows, id) && s.rows[id].state == Running && x != y
    requires x in s.tasks && s.tasks[x] == Task(s.rows[id], first) && y in s.tasks && s.tasks[y] == Task(s.rows[id], second)
    requires first.ToStopped? && second.ToStopped?
    requires Fits(s.rows, Moved(s.rows[id], first)) && Fits(s.rows, Moved(s.rows[id], second))
    requires FullCost(Moved(s.rows[id], first)) != FullCost(Moved(s.rows[id], second))
    ensures var t := Run(s, [Commit(x, now), Settle(id, FullCost(Moved(s.rows[id], first)), now, now), Commit(y, now)]).rows;
      id in t && t[id].state == Stopped && t[id].settledAmount != Some(FullCost(t[id]))
  {
    var t, row, amount := s.rows, s.rows[id], FullCost(Moved(s.rows[id], first));
    RunOfThree(s, Commit(x, now), Settle(id, amount, now, now), Commit(y, now));
    assert t == t[id := row];
    CommitWrites(s, t, x, row, row, first, now);
    var s1 := Next(s, Commit(x, now));
    var one := Overwritten(row, Moved(row, first), now);
    SettleWrites(s1, t, one, amount, now);
    var s2 := Next(s1, Settle(id, amount, now, now));
    var settled := one.(settledAmount := Some(amount), settledAt := Some(now), updatedAt := now);
    CommitWrites(s2, t, y, settled, row, second, now);
    MovedCost(settled, row, first, second, now);
  }

  lemma CommitWrites(s: Sys, t: Table, x: nat, stored: Session, loaded: Session, op: Op, now: Time)
    requires Keyed(s.rows) && Keyed(t) && s.rows == t[stored.id := stored] && stored.id == loaded.id && stored.deletedAt.None?
    requires x in s.tasks && s.tasks[x] == Task(loaded, op) && loaded.deletedAt.None? && Fits(t, Moved(loaded, op))
    ensures var s' := Next(s, Commit(x, now));
      s'.rows == t[stored.id := Overwritten(stored, Moved(loaded, op), now)] && s'.tasks == s.tasks - {x}
  {
    assert Fits(s.rows, Overwritten(stored, Moved(loaded, op), now)) by {
      assert forall k :: k in t && k != stored.id ==> Compatible(Moved(loaded, op), t[k]);
    }
    CommitFits(s, x, now);
  }

  lemma SettleWrites(s: Sys, t: Table, stored: Session, amount: int, now: Time)
    requires Keyed(s.rows) && s.rows == t[stored.id := stored]
    ensures var s' := Next(s, Settle(stored.id, amount, now, now));
      && s'.rows == t[stored.id := stored.(settledAmount := Some(amount), settledAt := Some(now), updatedAt := now)]
      && s'.tasks == s.tasks
  {
  }

  lemma MovedCost(stored: Session, loaded: Session, first: Op, second: Op, now: Time)
    requires first.ToStopped? && second.ToStopped? && stored.price == loaded.price
    requires stored.settledAmount == Some(FullCost(Moved(loaded, first)))
    requires FullCost(Moved(loaded, first)) != FullCost(Moved(loaded, second))
    ensures var row := Overwritten(stored, Moved(loaded, second), now);
      row.state == Stopped && row.settledAmount != Some(FullCost(row))
  {
    var row := Overwritten(stored, Moved(loaded, second), now);
    assert FullCost(row) == FullCost(Moved(loaded, second));
  }
}
