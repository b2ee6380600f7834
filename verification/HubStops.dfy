/**
 Stops that the hub makes itself (pod events, expiry), over whole interleavings: they all write the
 empty transaction hash, and they work from a listed snapshot.
 */
module HubStops {
  import opened Outcomes
  import opened Rental
  import opened SessionTable
  import opened SessionManagement
  import opened Interleaving

  predicate IsHubStop(op: Op) { op.ToStopped? && op.stopTx == "" }

  // ---- The empty hash blocks later stops ----

  // An undeleted row with the empty hash, as an accepted hub stop leaves it.
  predicate HoldsEmptyHash(t: Table, id: string) { id in t && t[id].deletedAt.None? && t[id].txHash == Some("") }

  // The step writes another hash over a row: recording one, or a commit of that session.
  predicate Overwrites(s: Sys, step: Step, id: string)
    requires Keyed(s.rows)
  {
    match step
    case SetTx(key, txHash, now) => key == id && txHash != "" && SetTxHashRow(s.rows, key, txHash, now).Some?
    case Commit(task, now) => Write(s, step, id).Some? && Write(s, step, id).value.txHash != Some("")
    case _ => false
  }

  predicate NeverOverwritten(s: Sys, steps: seq<Step>, id: string)
    requires Keyed(s.rows)
    decreases |steps|
  {
    steps == [] || (!Overwrites(s, steps[0], id) && NeverOverwritten(Next(s, steps[0]), steps[1..], id))
  }

  // The row keeps the empty hash exactly until a step overwrites it; nothing deletes the row.
  lemma EmptyHashStep(s: Sys, step: Step, id: string)
    requires TasksOk(s) && HoldsEmptyHash(s.rows, id)
    ensures HoldsEmptyHash(Next(s, step).rows, id) <==> !Overwrites(s, step, id)
  {
    StepRow(s, step, id);
    if step.Commit? {
      CommitRow(s, step, id);
    } else {
      RowAfterStatement(s, step, id);
      StatementColumns(s.rows, step, id);
    }
  }

  predicate StopsAnother(s: Sys, task: nat, holder: string) {
    task in s.tasks && IsHubStop(s.tasks[task].op) && s.tasks[task].snapshot.id != holder
  }

  lemma HubStopRefused(s: Sys, task: nat, now: Time, holder: string)
    requires TasksOk(s) && HoldsEmptyHash(s.rows, holder)
    requires StopsAnother(s, task, holder)
    ensures Next(s, Commit(task, now)).rows == s.rows
  {
    var w := s.tasks[task];
    assert TaskOk(s.rows, w);
    var row := Overwritten(s.rows[w.snapshot.id], Moved(w.snapshot, w.op), now);
    assert !Compatible(row, s.rows[holder]);
  }

  // One accepted hub stop blocks every later hub stop of another session, in every interleaving, for
  // as long as nothing overwrites its hash.
  lemma {:induction false} HubStopBlocks(s: Sys, steps: seq<Step>, holder: string, task: nat, now: Time)
    requires Inv(s) && HoldsEmptyHash(s.rows, holder) && NeverOverwritten(s, steps, holder)
    ensures var s' := Run(s, steps);
      && HoldsEmptyHash(s'.rows, holder)
      && (StopsAnother(s', task, holder) ==> Next(s', Commit(task, now)).rows == s'.rows)
    decreases |steps|
  {
    if steps == [] {
      if StopsAnother(s, task, holder) {
        HubStopRefused(s, task, now, holder);
      }
    } else {
      EmptyHashStep(s, steps[0], holder);
      StepRows(s, steps[0]);
      StepTasks(s, steps[0]);
      StepUnique(s, steps[0]);
      HubStopBlocks(Next(s, steps[0]), steps[1..], holder, task, now);
    }
  }

  // ---- A run in which a second hub stop is refused ----

  // A session from its creation to RUNNING, with nothing in between.
  function Bring(row: Session, op: Op, now: Time): seq<Step>
    requires op.ToRunning?
  {
    Create(0, row) + Confirm(row, op, now) + [Commit(0, now)]
  }

  function Confirm(row: Session, op: Op, now: Time): seq<Step>
    requires op.ToRunning?
  {
    [SetTx(row.id, op.startTx, now), ListConfirmations, Load(0, row.id, op)]
  }

  function RunningRow(row: Session, op: Op, now: Time): Session
    requires op.ToRunning?
  {
    Overwritten(WithTxHash(row, op.startTx, now), Moved(WithTxHash(row, op.startTx, now), op), now)
  }

  function HubStop(id: string, cost: int, at: Time): seq<Step> { [Load(0, id, ToStopped(at, cost, "", 0)), Commit(0, at)] }

  predicate Quiet(s: Sys) { Keyed(s.rows) && s.tasks == map[] && s.requests == map[] }

  lemma RunOfTwo(s: Sys, x: Step, y: Step)
    requires Keyed(s.rows)
    ensures Run(s, [x, y]) == Next(Next(s, x), y)
  {
    var steps := [x, y];
    assert steps[1..] == [y] && steps[1..][1..] == [];
    assert Run(s, steps) == Run(Next(s, x), steps[1..]) == Run(Next(Next(s, x), y), []);
  }

  lemma RunOfOne(s: Sys, x: Step)
    requires Keyed(s.rows)
    ensures Run(s, [x]) == Next(s, x)
  {
    assert [x][1..] == [];
    assert Run(s, [x]) == Run(Next(s, x), []);
  }

  lemma ConfirmLoads(s: Sys, row: Session, op: Op, now: Time)
    requires Quiet(s) && op.ToRunning? && NewSession(row) && row.id in s.rows && s.rows[row.id] == row
    requires Fits(s.rows, WithTxHash(row, op.startTx, now))
    ensures var s' := Run(s, Confirm(row, op, now));
      && s'.rows == s.rows[row.id := WithTxHash(row, op.startTx, now)]
      && s'.tasks == map[0 := Task(WithTxHash(row, op.startTx, now), op)] && s'.requests == map[]
  {
    RunOfThree(s, SetTx(row.id, op.startTx, now), ListConfirmations, Load(0, row.id, op));
    var s1 := Next(s, SetTx(row.id, op.startTx, now));
    assert s1.rows == s.rows[row.id := WithTxHash(row, op.startTx, now)];
    var s2 := Next(s1, ListConfirmations);
    assert row.id in s2.listed && s2.rows == s1.rows;
    assert CanTransition(Pending, Running);
  }

  lemma CommitStarts(s: Sys, t: Table, row: Session, op: Op, now: Time)
    requires Keyed(t) && op.ToRunning? && Fits(t, RunningRow(row, op, now))
    requires s.rows == t[row.id := WithTxHash(row, op.startTx, now)]
    requires s.tasks == map[0 := Task(WithTxHash(row, op.startTx, now), op)] && s.requests == map[]
    ensures Keyed(s.rows)
    ensures var s' := Next(s, Commit(0, now)); Quiet(s') && s'.rows == t[row.id := RunningRow(row, op, now)]
  {
    assert Fits(s.rows, RunningRow(row, op, now)) by {
      assert forall k :: k in t && k != row.id ==> Compatible(RunningRow(row, op, now), t[k]);
    }
    assert s.tasks - {0} == map[];
  }

  lemma RunInParts(s: Sys, a: seq<Step>, b: seq<Step>, x: Step)
    requires Keyed(s.rows)
    ensures Run(s, a + b + [x]) == Next(Run(Run(s, a), b), x)
  {
    RunAppend(s, a, b);
    RunAppend(s, a + b, [x]);
    RunOfOne(Run(s, a + b), x);
  }

  lemma Replaced(t: Table, id: string, x: Session, y: Session)
    ensures t[id := x][id := y] == t[id := y]
  {
  }

  lemma Created(s: Sys, row: Session)
    requires Quiet(s) && NewSession(row) && row.id !in s.rows && !HasActive(s.rows, row.user)
    ensures Quiet(Run(s, Create(0, row))) && Run(s, Create(0, row)).rows == s.rows[row.id := row]
  {
    CreateInserts(s, 0, row);
  }

  lemma CreatedAndConfirmed(s: Sys, row: Session, op: Op, now: Time)
    requires Quiet(s) && op.ToRunning? && NewSession(row) && row.id !in s.rows && !HasActive(s.rows, row.user)
    requires Fits(s.rows, RunningRow(row, op, now))
    ensures var s' := Run(Run(s, Create(0, row)), Confirm(row, op, now));
      && s'.rows == s.rows[row.id := WithTxHash(row, op.startTx, now)]
      && s'.tasks == map[0 := Task(WithTxHash(row, op.startTx, now), op)] && s'.requests == map[]
  {
    Created(s, row);
    HashFits(s.rows, row, op, now);
    ConfirmLoads(Run(s, Create(0, row)), row, op, now);
    Replaced(s.rows, row.id, row, WithTxHash(row, op.startTx, now));
  }

  lemma BringsRunning(s: Sys, row: Session, op: Op, now: Time)
    requires Quiet(s) && op.ToRunning? && NewSession(row) && row.id !in s.rows && !HasActive(s.rows, row.user)
    requires Fits(s.rows, RunningRow(row, op, now))
    ensures var s' := Run(s, Bring(row, op, now));
      Quiet(s') && s'.rows == s.rows[row.id := RunningRow(row, op, now)]
  {
    CreatedAndConfirmed(s, row, op, now);
    CommitStarts(Run(Run(s, Create(0, row)), Confirm(row, op, now)), s.rows, row, op, now);
    RunInParts(s, Create(0, row), Confirm(row, op, now), Commit(0, now));
  }

  lemma HashFits(t: Table, row: Session, op: Op, now: Time)
    requires op.ToRunning? && NewSession(row) && Fits(t, RunningRow(row, op, now))
    ensures Fits(t[row.id := row], WithTxHash(row, op.startTx, now))
  {
    assert forall k :: k in t && k != row.id ==> Compatible(RunningRow(row, op, now), t[k]);
  }

  lemma HubStopIsOneCall(s: Sys, id: string, cost: int, at: Time)
    requires Quiet(s)
    ensures var r := TransitionRow(s.rows, id, ToStopped(at, cost, "", 0), at);
      var s' := Run(s, HubStop(id, cost, at));
      Quiet(s') && s'.rows == (if r.Ok? then r.value else s.rows)
  {
    LoadThenCommitIsOneCall(s, 0, id, ToStopped(at, cost, "", 0), at);
    RunOfTwo(s, Load(0, id, ToStopped(at, cost, "", 0)), Commit(0, at));
  }

  lemma HubStopStops(t: Table, id: string, cost: int, at: Time)
    requires Keyed(t) && UniqueIndexes(t) && Live(t, id) && t[id].state == Running
    requires forall k :: k in t && k != id && t[k].deletedAt.None? ==> t[k].txHash != Some("")
    ensures TransitionRow(t, id, ToStopped(at, cost, "", 0), at)
         == Ok(t[id := Overwritten(t[id], Moved(t[id], ToStopped(at, cost, "", 0)), at)])
  {
    assert CanTransition(Running, Stopped);
    var row := Overwritten(t[id], Moved(t[id], ToStopped(at, cost, "", 0)), at);
    assert Fits(t, row) by { assert forall k :: k in t && k != id ==> Compatible(t[id], t[k]); }
  }

  lemma HubStopFails(t: Table, id: string, holder: string, cost: int, at: Time)
    requires Keyed(t) && Live(t, id) && id != holder && HoldsEmptyHash(t, holder)
    ensures TransitionRow(t, id, ToStopped(at, cost, "", 0), at).Err?
  {
    assert !Compatible(Overwritten(t[id], Moved(t[id], ToStopped(at, cost, "", 0)), at), t[holder]);
  }

  // Two RUNNING sessions of which the hub stops one and then the other: the second stop is refused.
  lemma SecondHubStop(s: Sys, a: string, b: string, cost: int, at: Time)
    requires Quiet(s) && UniqueIndexes(s.rows) && a != b && Live(s.rows, a) && Live(s.rows, b)
    requires s.rows[a].state == Running && s.rows[b].state == Running
    requires forall k :: k in s.rows ==> s.rows[k].txHash != Some("")
    ensures var t := Run(Run(s, HubStop(a, cost, at)), HubStop(b, cost, at)).rows;
      a in t && b in t && t[a].state == Stopped && t[b] == s.rows[b]
  {
    HubStopIsOneCall(s, a, cost, at);
    HubStopStops(s.rows, a, cost, at);
    var s1 := Run(s, HubStop(a, cost, at));
    HubStopIsOneCall(s1, b, cost, at);
    HubStopFails(s1.rows, b, a, cost, at);
  }

  lemma BothRunning(a: Session, b: Session, opA: Op, opB: Op, now: Time)
    requires NewSession(a) && NewSession(b) && a.id != b.id && a.user != b.user
    requires opA.ToRunning? && opB.ToRunning? && opA.rentalId != opB.rentalId && opA.startTx != opB.startTx
    ensures var s := Run(EMPTY, Bring(a, opA, now) + Bring(b, opB, now));
      Quiet(s) && s.rows == map[a.id := RunningRow(a, opA, now), b.id := RunningRow(b, opB, now)]
  {
    BringsRunning(EMPTY, a, opA, now);
    var s1 := Run(EMPTY, Bring(a, opA, now));
    assert s1.rows == map[a.id := RunningRow(a, opA, now)];
    BringsRunning(s1, b, opB, now);
    RunAppend(EMPTY, Bring(a, opA, now), Bring(b, opB, now));
  }

  // Such a run, from the empty table: two users, two sessions, and the second is never stopped.
  lemma SecondHubStopIsRefused(a: Session, b: Session, opA: Op, opB: Op, cost: int, now: Time, at: Time)
    requires NewSession(a) && NewSession(b) && a.id != b.id && a.user != b.user
    requires opA.ToRunning? && opB.ToRunning? && opA.rentalId != opB.rentalId
    requires opA.startTx != opB.startTx && opA.startTx != "" && opB.startTx != ""
    ensures var t := Run(EMPTY, Bring(a, opA, now) + Bring(b, opB, now) + HubStop(a.id, cost, at) + HubStop(b.id, cost, at)).rows;
      a.id in t && b.id in t && t[a.id].state == Stopped && t[b.id].state == Running
  {
    var both := Bring(a, opA, now) + Bring(b, opB, now);
    BothRunning(a, b, opA, opB, now);
    SecondHubStop(Run(EMPTY, both), a.id, b.id, cost, at);
    RunAppend(EMPTY, both, HubStop(a.id, cost, at));
    RunAppend(EMPTY, both + HubStop(a.id, cost, at), HubStop(b.id, cost, at));
  }

  // ---- Ending before the expiry ----

  // The expiry that the last accepted extension of a session along a run wrote.
  function LastExtension(s: Sys, steps: seq<Step>, id: string): Option<Time>
    requires Keyed(s.rows)
    decreases |steps|
  {
    if steps == [] then None
    else
      var later := LastExtension(Next(s, steps[0]), steps[1..], id);
      if later.Some? then later else Extension(s, steps[0], id)
  }

  function Extension(s: Sys, step: Step, id: string): Option<Time> {
    if step.Extend? && step.id == id && id in s.rows && Extendable(s.rows[id]) then Some(step.until) else None
  }

  lemma ExpiryStep(s: Sys, step: Step, id: string)
    requires TasksOk(s) && id in s.rows
    ensures id in Next(s, step).rows
    ensures Next(s, step).rows[id].extendedUntil
         == if Extension(s, step, id).Some? then Extension(s, step, id) else s.rows[id].extendedUntil
  {
    if step.Commit? {
      CommitRow(s, step, id);
    } else {
      RowAfterStatement(s, step, id);
      StatementColumns(s.rows, step, id);
    }
  }

  lemma {:induction false} ExpiryFollowsExtensions(s: Sys, steps: seq<Step>, id: string)
    requires Inv(s) && id in s.rows
    ensures id in Run(s, steps).rows
    ensures Run(s, steps).rows[id].extendedUntil
         == if LastExtension(s, steps, id).Some? then LastExtension(s, steps, id) else s.rows[id].extendedUntil
    decreases |steps|
  {
    if steps != [] {
      ExpiryStep(s, steps[0], id);
      StepRows(s, steps[0]);
      StepTasks(s, steps[0]);
      StepUnique(s, steps[0]);
      ExpiryFollowsExtensions(Next(s, steps[0]), steps[1..], id);
    }
  }

  predicate EndsEarly(s: Session) { s.endTime.Some? && s.extendedUntil.Some? && s.endTime.value < ExpiryOf(s) }

  // A session listed as due at the cutoff, then anything, then the worker's stop at a later time. If
  // the stop is written, the session ends before its expiry exactly when it was extended since the
  // listing, the last time to beyond the stop.
  lemma StopIsEarlyExactly(s: Sys, steps: seq<Step>, id: string, cutoff: Time, task: nat, now: Time)
    requires Inv(s) && id in s.rows && Expiring(s.rows[id], cutoff)
    requires var s' := Run(s, steps);
      && task in s'.tasks && s'.tasks[task].snapshot.id == id
      && s'.tasks[task].op.ToStopped? && s'.tasks[task].op.stoppedAt >= cutoff
      && UpdateRow(s'.rows, Moved(s'.tasks[task].snapshot, s'.tasks[task].op), now).Some?
    ensures var s' := Run(s, steps);
      var row := Next(s', Commit(task, now)).rows[id];
      EndsEarly(row) <==> LastExtension(s, steps, id).Some? && LastExtension(s, steps, id).value > s'.tasks[task].op.stoppedAt
  {
    RunInv(s, steps);
    ExpiryFollowsExtensions(s, steps, id);
    var s' := Run(s, steps);
    assert TaskOk(s'.rows, s'.tasks[task]);
  }

  // It happens: an extension between the load and the write of the stop.
  lemma ExtendedWhileStopping(s: Sys, id: string, until: Time, minutes: int, cost: int, at: Time, now: Time)
    requires Quiet(s) && UniqueIndexes(s.rows) && Live(s.rows, id) && s.rows[id].state == Running && until > at
    requires forall k :: k in s.rows && k != id && s.rows[k].deletedAt.None? ==> s.rows[k].txHash != Some("")
    ensures var t := Run(s, [Load(0, id, ToStopped(at, cost, "", 0)), Extend(id, until, minutes, now), Commit(0, now)]).rows;
      id in t && t[id].state == Stopped && EndsEarly(t[id])
  {
    var op := ToStopped(at, cost, "", 0);
    RunOfThree(s, Load(0, id, op), Extend(id, until, minutes, now), Commit(0, now));
    LoadedThenExtended(s, id, op, until, minutes, now);
    var s2 := Next(Next(s, Load(0, id, op)), Extend(id, until, minutes, now));
    var row := Overwritten(s2.rows[id], Moved(s.rows[id], op), now);
    assert Fits(s2.rows, row) by { assert forall k :: k in s.rows && k != id ==> Compatible(s.rows[id], s.rows[k]); }
    CommitFits(s2, 0, now);
  }

  lemma LoadedThenExtended(s: Sys, id: string, op: Op, until: Time, minutes: int, now: Time)
    requires Quiet(s) && Live(s.rows, id) && s.rows[id].state == Running && op.ToStopped?
    ensures var s' := Next(Next(s, Load(0, id, op)), Extend(id, until, minutes, now));
      && s'.tasks == map[0 := Task(s.rows[id], op)]
      && id in s'.rows && s'.rows == s.rows[id := s'.rows[id]] && SameKeys(s.rows[id], s'.rows[id])
      && s'.rows[id].id == id && s'.rows[id].deletedAt.None? && s'.rows[id].extendedUntil == Some(until)
  {
    assert CanTransition(Running, Stopped);
    var s1 := Next(s, Load(0, id, op));
    assert s1.tasks == map[0 := Task(s.rows[id], op)] && s1.rows == s.rows;
  }
}
