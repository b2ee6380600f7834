/**
 All workers at once. The state is the table, the loaded snapshots that managers still hold, and
 the sessions the confirmation worker has listed. Every SQL statement is one atomic step; a
 manager's load and its later full-row write are two steps, with anything in between.
 Handlers and workers map to steps: HTTP create, confirm and cancel, ProcessSession,
 HandleRentalStopped, the pod events, expiry, both timeouts, extension and settlement.
 */
module Interleaving {
  import opened Outcomes
  import opened Rental
  import opened SessionTable
  import opened SessionManagement

  datatype Task = Task(snapshot: Session, op: Op)

  // A creation request that passed the first check, or both: the handler remembers only that.
  datatype Creation = Creation(user: Address, cleared: bool)

  datatype Sys = Sys(rows: Table, tasks: map<nat, Task>, listed: set<string>, requests: map<nat, Creation>)

  datatype Step =
    | AskRunning(request: nat, user: Address, answered: bool)
    | AskPending(request: nat, answered: bool)
    | Insert(request: nat, row: Session)
    | ListConfirmations
    | Load(task: nat, id: string, op: Op)
    | Commit(task: nat, now: Time)
    | Abandon(task: nat)
    | SetTx(id: string, txHash: string, now: Time)
    | SoftDelete(cutoff: Time, now: Time)
    | Extend(id: string, until: Time, minutes: int, now: Time)
    | Settle(id: string, amount: int, at: Time, now: Time)
    | Touch(id: string, now: Time)

  predicate Active(s: Session) { s.deletedAt.None? && (s.state == Pending || s.state == Running) }

  predicate HasActive(t: Table, user: Address) { exists id :: id in t && t[id].user == user && Active(t[id]) }

  predicate HasInState(t: Table, user: Address, state: State) { exists id :: id in t && OwnedInState(t[id], user, state) }

  function OrElse(r: Option<Table>, t: Table): Table { if r.Some? then r.value else t }

  // An insert of a request that passed both checks, for its own user.
  predicate Permitted(s: Sys, request: nat, row: Session) {
    request in s.requests && s.requests[request] == Creation(row.user, true) && NewSession(row)
  }

  // A statement over the rows; one that is rejected changes nothing.
  function Statement(t: Table, step: Step): (t': Table)
    requires Keyed(t)
    ensures Keyed(t') && t'.Keys == t.Keys
  {
    match step
    case SetTx(id, txHash, now) => OrElse(SetTxHashRow(t, id, txHash, now), t)
    case SoftDelete(cutoff, now) => SoftDeleteRows(t, cutoff, now)
    case Extend(id, until, minutes, now) => OrElse(ExtendRow(t, id, until, minutes, now), t)
    case Settle(id, amount, at, now) => OrElse(SettleRow(t, id, amount, at, now), t)
    case Touch(id, now) => OrElse(TouchRow(t, id, now), t)
    case _ => t
  }

  // A creation asks for RUNNING and then for PENDING sessions of its user, each in a statement of its
  // own, and inserts later; a query that fails is not answered, and then its check is skipped.
  function Creating(s: Sys, step: Step): (s': Sys)
    requires Keyed(s.rows) && (step.AskRunning? || step.AskPending? || step.Insert?)
    ensures Keyed(s'.rows)
  {
    match step
    case AskRunning(request, user, answered) =>
      if request !in s.requests && !(answered && HasInState(s.rows, user, Running))
      then s.(requests := s.requests[request := Creation(user, false)]) else s
    case AskPending(request, answered) =>
      if request !in s.requests then s
      else if answered && HasInState(s.rows, s.requests[request].user, Pending) then s.(requests := s.requests - {request})
      else s.(requests := s.requests[request := s.requests[request].(cleared := true)])
    case Insert(request, row) =>
      if Permitted(s, request, row)
      then s.(rows := OrElse(InsertRow(s.rows, row), s.rows), requests := s.requests - {request})
      else s.(requests := s.requests - {request})
  }

  // A manager call: the load of a snapshot that passes its check, and the write or its failure later.
  function Managing(s: Sys, step: Step): (s': Sys)
    requires Keyed(s.rows) && (step.Load? || step.Commit? || step.Abandon?)
    ensures Keyed(s'.rows)
  {
    match step
    case Load(task, id, op) =>
      if task !in s.tasks && Live(s.rows, id) && CanTransition(s.rows[id].state, Target(op))
         && (op.ToRunning? ==> id in s.listed)
      then s.(tasks := s.tasks[task := Task(s.rows[id], op)]) else s
    case Commit(task, now) =>
      if task in s.tasks then
        var w := s.tasks[task];
        s.(rows := OrElse(UpdateRow(s.rows, Moved(w.snapshot, w.op), now), s.rows), tasks := s.tasks - {task})
      else s
    case Abandon(task) => s.(tasks := s.tasks - {task})
  }

  function Next(s: Sys, step: Step): Sys
    requires Keyed(s.rows)
    ensures Keyed(Next(s, step).rows)
  {
    if step.AskRunning? || step.AskPending? || step.Insert? then Creating(s, step)
    else if step.Load? || step.Commit? || step.Abandon? then Managing(s, step)
    else if step.ListConfirmations? then s.(listed := s.listed + set id | id in s.rows && AwaitingConfirmation(s.rows[id]))
    else s.(rows := Statement(s.rows, step))
  }

  function Run(s: Sys, steps: seq<Step>): Sys
    requires Keyed(s.rows)
    ensures Keyed(Run(s, steps).rows)
    decreases |steps|
  {
    if steps == [] then s else Run(Next(s, steps[0]), steps[1..])
  }

  const EMPTY: Sys := Sys(map[], map[], {}, map[])

  // ---- Invariants ----

  predicate WellFormed(s: Session) {
    match s.state
    case Pending => s.rentalId.None? && s.startTime.None? && s.endTime.None? && s.blockNumber.None?
    case Running => s.rentalId.Some? && s.startTime.Some? && s.txHash.Some? && s.blockNumber.Some? && s.endTime.None?
    case Stopped => s.rentalId.Some? && s.startTime.Some? && s.endTime.Some?
    case _ => s.endTime.Some?
  }

  // The stable predicate: once true of a row it stays true, and it shields the row from soft deletion.
  predicate Shielded(s: Session) { s.deletedAt.None? && (s.txHash.Some? || s.state != Pending) }

  predicate RowOk(s: Session) {
    && WellFormed(s)
    && (s.deletedAt.Some? ==> s.txHash.None? && s.state != Running && s.state != Stopped)
  }

  predicate TaskOk(t: Table, w: Task) {
    && w.snapshot.id in t
    && WellFormed(w.snapshot)
    && CanTransition(w.snapshot.state, Target(w.op))
    && (w.snapshot.txHash.Some? || w.op.ToRunning? || w.op.ToStopped? ==> Shielded(t[w.snapshot.id]))
  }

  predicate TasksOk(s: Sys) {
    && Keyed(s.rows)
    && (forall k :: k in s.tasks ==> TaskOk(s.rows, s.tasks[k]))
    && (forall id :: id in s.listed ==> id in s.rows && Shielded(s.rows[id]))
  }

  predicate RowsOk(t: Table) { forall id :: id in t ==> RowOk(t[id]) }

  predicate Inv(s: Sys) { TasksOk(s) && RowsOk(s.rows) && UniqueIndexes(s.rows) }

  // What one step may do to a row that exists: identity and request columns are fixed, a shielded
  // row stays shielded, PENDING is never re-entered, deletion is final.
  predicate RowStep(a: Session, b: Session) {
    && b.id == a.id && b.user == a.user && b.provider == a.provider && b.nodeId == a.nodeId && b.price == a.price
    && b.image == a.image && SizesOf(b) == SizesOf(a) && b.createdAt == a.createdAt
    && (Shielded(a) ==> Shielded(b))
    && (a.state != Pending ==> b.state != Pending)
    && (a.deletedAt.Some? ==> b.deletedAt == a.deletedAt)
  }

  predicate TableStep(t: Table, t': Table) {
    forall id :: id in t ==> id in t' && RowStep(t[id], t'[id])
  }

  // One row before and after a statement.
  predicate RowKept(a: Session, b: Session) { RowStep(a, b) && (RowOk(a) ==> RowOk(b)) }

  lemma OverwrittenKeeps(stored: Session, w: Task, now: Time)
    requires w.snapshot.id == stored.id && WellFormed(w.snapshot) && CanTransition(w.snapshot.state, Target(w.op))
    requires w.snapshot.txHash.Some? || w.op.ToRunning? || w.op.ToStopped? ==> Shielded(stored)
    ensures RowKept(stored, Overwritten(stored, Moved(w.snapshot, w.op), now))
  {
    TransitionTable(w.snapshot.state, Target(w.op));
  }

  lemma CommitKeeps(t: Table, w: Task, now: Time, id: string)
    requires Keyed(t) && TaskOk(t, w) && id in t
    ensures var t' := OrElse(UpdateRow(t, Moved(w.snapshot, w.op), now), t);
      id in t' && RowKept(t[id], t'[id])
  {
    OverwrittenKeeps(t[w.snapshot.id], w, now);
  }

  lemma ConfirmKeeps(t: Table, id: string, key: string, txHash: string, cutoff: Time, now: Time)
    requires Keyed(t) && id in t
    ensures var t' := OrElse(SetTxHashRow(t, key, txHash, now), t); id in t' && RowKept(t[id], t'[id])
    ensures var t' := SoftDeleteRows(t, cutoff, now); id in t' && RowKept(t[id], t'[id])
  {
  }

  lemma ExtendKeeps(t: Table, id: string, key: string, until: Time, minutes: int, now: Time)
    requires id in t
    ensures var t' := OrElse(ExtendRow(t, key, until, minutes, now), t); id in t' && RowKept(t[id], t'[id])
  {
  }

  lemma BookkeepingKeeps(t: Table, id: string, key: string, n: int, at: Time, now: Time)
    requires id in t
    ensures var t' := OrElse(SettleRow(t, key, n, at, now), t); id in t' && RowKept(t[id], t'[id])
    ensures var t' := OrElse(TouchRow(t, key, now), t); id in t' && RowKept(t[id], t'[id])
  {
  }

  lemma StatementKeeps(t: Table, step: Step, id: string)
    requires Keyed(t) && id in t
    ensures RowKept(t[id], Statement(t, step)[id])
  {
    match step
    case SetTx(key, txHash, now) => ConfirmKeeps(t, id, key, txHash, 0, now);
    case SoftDelete(cutoff, now) => ConfirmKeeps(t, id, "", "", cutoff, now);
    case Extend(key, until, minutes, now) => ExtendKeeps(t, id, key, until, minutes, now);
    case Settle(key, amount, at, now) => BookkeepingKeeps(t, id, key, amount, at, now);
    case Touch(key, now) => BookkeepingKeeps(t, id, key, 0, 0, now);
    case _ =>
  }

  // Each statement in the columns it writes.
  lemma BookkeepingInColumns(t: Table, id: string, amount: int, at: Time, now: Time)
    requires Keyed(t) && id in t
    ensures Statement(t, Touch(id, now)) == t[id := t[id].(updatedAt := now)]
    ensures Statement(t, Settle(id, amount, at, now))
         == t[id := t[id].(settledAmount := Some(amount), settledAt := Some(at), updatedAt := now)]
  {
  }

  lemma ExtensionInColumns(t: Table, id: string, until: Time, minutes: int, now: Time)
    requires Keyed(t) && id in t
    ensures t[id].state != Running || t[id].deletedAt != None ==> Statement(t, Extend(id, until, minutes, now)) == t
    ensures t[id].state == Running && t[id].deletedAt == None ==>
      Statement(t, Extend(id, until, minutes, now)) == t[id := t[id].(extendedUntil := Some(until),
        extensionCount := t[id].extensionCount + 1, totalExtendedMinutes := t[id].totalExtendedMinutes + minutes, updatedAt := now)]
  {
  }

  lemma DeletionInColumns(t: Table, id: string, cutoff: Time, now: Time)
    requires Keyed(t) && id in t
    ensures Statement(t, SoftDelete(cutoff, now))[id] ==
      if t[id].state == Pending && t[id].txHash == None && t[id].deletedAt == None && t[id].createdAt < cutoff
      then t[id].(deletedAt := Some(now), updatedAt := now) else t[id]
  {
  }

  lemma HashInColumns(t: Table, id: string, txHash: string, now: Time)
    requires Keyed(t) && id in t && UniqueIndexes(t)
    ensures Statement(t, SetTx(id, txHash, now)) ==
      if t[id].deletedAt == None && forall k :: k in t && k != id && t[k].deletedAt == None ==> t[k].txHash != Some(txHash)
      then t[id := t[id].(txHash := Some(txHash), updatedAt := now)] else t
  {
    HashIsFree(t, id, txHash, now);
  }

  // Besides commits only the statements write existing rows.
  lemma RowAfterStatement(s: Sys, step: Step, id: string)
    requires Keyed(s.rows) && id in s.rows && !step.Commit?
    ensures id in Next(s, step).rows && Next(s, step).rows[id] == Statement(s.rows, step)[id]
  {
  }

  lemma StepRow(s: Sys, step: Step, id: string)
    requires TasksOk(s) && id in s.rows
    ensures id in Next(s, step).rows && RowKept(s.rows[id], Next(s, step).rows[id])
  {
    if step.Commit? {
      if step.task in s.tasks { CommitKeeps(s.rows, s.tasks[step.task], step.now, id); }
    } else {
      RowAfterStatement(s, step, id);
      StatementKeeps(s.rows, step, id);
    }
  }

  // The manager's write is carried out.
  predicate Accepted(s: Sys, step: Step)
    requires Keyed(s.rows) && step.Commit?
  {
    step.task in s.tasks && UpdateRow(s.rows, Moved(s.tasks[step.task].snapshot, s.tasks[step.task].op), step.now).Some?
  }

  // What an accepted commit of a session writes, as the manager assigned it.
  function Write(s: Sys, step: Step, id: string): Option<Session>
    requires Keyed(s.rows)
  {
    if step.Commit? && Accepted(s, step) && s.tasks[step.task].snapshot.id == id
    then Some(Moved(s.tasks[step.task].snapshot, s.tasks[step.task].op)) else None
  }

  lemma CommitRow(s: Sys, step: Step, id: string)
    requires TasksOk(s) && id in s.rows && step.Commit?
    ensures id in Next(s, step).rows
    ensures Next(s, step).rows[id]
         == if Write(s, step, id).Some? then Overwritten(s.rows[id], Write(s, step, id).value, step.now) else s.rows[id]
  {
    if step.task in s.tasks {
      assert TaskOk(s.rows, s.tasks[step.task]);
    }
  }

  // The columns that one statement each writes, apart from commits.
  predicate StatementStep(a: Session, b: Session, step: Step) {
    && b.state == a.state && b.startTime == a.startTime && b.endTime == a.endTime && b.price == a.price
    && b.user == a.user
    && (!step.Extend? ==> b.extendedUntil == a.extendedUntil)
    && (!step.Settle? || step.id != a.id ==> b.settledAmount == a.settledAmount && b.settledAt == a.settledAt)
    && (!step.SetTx? || step.id != a.id ==> b.txHash == a.txHash)
    && (b.deletedAt.None? ==> a.deletedAt.None?)
  }

  lemma StatementColumns(t: Table, step: Step, id: string)
    requires Keyed(t) && id in t
    ensures StatementStep(t[id], Statement(t, step)[id], step)
  {
  }

  lemma StatementRow(s: Sys, step: Step, id: string)
    requires Keyed(s.rows) && id in s.rows && !step.Commit?
    ensures id in Next(s, step).rows && StatementStep(s.rows[id], Next(s, step).rows[id], step)
  {
    RowAfterStatement(s, step, id);
    StatementColumns(s.rows, step, id);
  }

  lemma NewRow(s: Sys, step: Step, id: string)
    requires Keyed(s.rows) && id !in s.rows && id in Next(s, step).rows
    ensures RowOk(Next(s, step).rows[id])
  {
    assert step.Insert? && NewSession(step.row);
  }

  lemma StepRows(s: Sys, step: Step)
    requires TasksOk(s) && RowsOk(s.rows)
    ensures TableStep(s.rows, Next(s, step).rows) && RowsOk(Next(s, step).rows)
  {
    var t := Next(s, step).rows;
    forall id | id in s.rows
      ensures id in t && RowStep(s.rows[id], t[id])
    {
      StepRow(s, step, id);
    }
    forall id | id in t
      ensures RowOk(t[id])
    {
      if id in s.rows {
        StepRow(s, step, id);
      } else {
        NewRow(s, step, id);
      }
    }
  }

  lemma TaskStays(t: Table, t': Table, w: Task)
    requires TaskOk(t, w) && w.snapshot.id in t' && RowStep(t[w.snapshot.id], t'[w.snapshot.id])
    ensures TaskOk(t', w)
  {
  }

  lemma TaskAfter(s: Sys, step: Step, k: nat)
    requires TasksOk(s) && RowsOk(s.rows) && k in Next(s, step).tasks
    ensures TaskOk(Next(s, step).rows, Next(s, step).tasks[k])
  {
    var s' := Next(s, step);
    if k in s.tasks {
      StepRow(s, step, s.tasks[k].snapshot.id);
      SameTask(s, step, k);
      TaskStays(s.rows, s'.rows, s.tasks[k]);
    } else {
      NewTask(s, step, k);
    }
  }

  lemma SameTask(s: Sys, step: Step, k: nat)
    requires Keyed(s.rows) && k in s.tasks && k in Next(s, step).tasks
    ensures Next(s, step).tasks[k] == s.tasks[k]
  {
  }

  lemma NewTask(s: Sys, step: Step, k: nat)
    requires TasksOk(s) && RowsOk(s.rows) && k !in s.tasks && k in Next(s, step).tasks
    ensures Next(s, step).rows == s.rows && TaskOk(s.rows, Next(s, step).tasks[k])
  {
    assert step.Load? && RowOk(s.rows[step.id]);
  }

  lemma ListedAfter(s: Sys, step: Step, id: string)
    requires TasksOk(s) && id in Next(s, step).listed
    ensures id in Next(s, step).rows && Shielded(Next(s, step).rows[id])
  {
    if id in s.listed {
      StepRow(s, step, id);
    }
  }

  lemma StepTasks(s: Sys, step: Step)
    requires TasksOk(s) && RowsOk(s.rows)
    ensures TasksOk(Next(s, step))
  {
    var s' := Next(s, step);
    forall k | k in s'.tasks
      ensures TaskOk(s'.rows, s'.tasks[k])
    {
      TaskAfter(s, step, k);
    }
    forall id | id in s'.listed
      ensures id in s'.rows && Shielded(s'.rows[id])
    {
      ListedAfter(s, step, id);
    }
  }

  // Replacing one row by one that fits keeps both indexes.
  lemma FitsKeepsUnique(t: Table, row: Session)
    requires UniqueIndexes(t) && Fits(t, row)
    ensures UniqueIndexes(t[row.id := row])
  {
    var t' := t[row.id := row];
    forall a, b | a in t' && b in t' && a != b
      ensures Compatible(t'[a], t'[b])
    {
      assert a != row.id && b != row.id ==> Compatible(t[a], t[b]);
      assert a == row.id ==> Compatible(row, t[b]);
      assert b == row.id ==> Compatible(row, t[a]);
    }
  }

  predicate SameKeys(a: Session, b: Session) {
    b.rentalId == a.rentalId && b.txHash == a.txHash && (b.deletedAt.None? ==> a.deletedAt.None?)
  }

  // Statements that touch neither indexed column cannot break an index, and deletion only relaxes it.
  lemma UnindexedKeepsUnique(t: Table, t': Table)
    requires UniqueIndexes(t) && t'.Keys == t.Keys
    requires forall id :: id in t ==> SameKeys(t[id], t'[id])
    ensures UniqueIndexes(t')
  {
    forall a, b | a in t' && b in t' && a != b
      ensures Compatible(t'[a], t'[b])
    {
      assert Compatible(t[a], t[b]) && SameKeys(t[a], t'[a]) && SameKeys(t[b], t'[b]);
    }
  }

  lemma ReplacedUnique(t: Table, row: Session)
    requires UniqueIndexes(t) && row.id in t
    ensures UniqueIndexes(if Fits(t, row) then t[row.id := row] else t)
  {
    if Fits(t, row) {
      FitsKeepsUnique(t, row);
    }
  }

  lemma CommitUnique(t: Table, w: Session, now: Time)
    requires Keyed(t) && UniqueIndexes(t)
    ensures UniqueIndexes(OrElse(UpdateRow(t, w, now), t))
  {
    if w.id in t {
      ReplacedUnique(t, Overwritten(t[w.id], w, now));
    }
  }

  lemma SetTxUnique(t: Table, id: string, txHash: string, now: Time)
    requires Keyed(t) && UniqueIndexes(t)
    ensures UniqueIndexes(OrElse(SetTxHashRow(t, id, txHash, now), t))
  {
    if Live(t, id) {
      ReplacedUnique(t, WithTxHash(t[id], txHash, now));
    }
  }

  lemma SoftDeleteUnique(t: Table, cutoff: Time, now: Time)
    requires UniqueIndexes(t)
    ensures UniqueIndexes(SoftDeleteRows(t, cutoff, now))
  {
    UnindexedKeepsUnique(t, SoftDeleteRows(t, cutoff, now));
  }

  lemma ExtendUnique(t: Table, key: string, until: Time, minutes: int, now: Time)
    requires UniqueIndexes(t)
    ensures UniqueIndexes(OrElse(ExtendRow(t, key, until, minutes, now), t))
  {
    UnindexedKeepsUnique(t, OrElse(ExtendRow(t, key, until, minutes, now), t));
  }

  lemma SettleUnique(t: Table, key: string, amount: int, at: Time, now: Time)
    requires UniqueIndexes(t)
    ensures UniqueIndexes(OrElse(SettleRow(t, key, amount, at, now), t))
  {
    UnindexedKeepsUnique(t, OrElse(SettleRow(t, key, amount, at, now), t));
  }

  lemma TouchUnique(t: Table, key: string, now: Time)
    requires UniqueIndexes(t)
    ensures UniqueIndexes(OrElse(TouchRow(t, key, now), t))
  {
    UnindexedKeepsUnique(t, OrElse(TouchRow(t, key, now), t));
  }

  lemma StatementUnique(t: Table, step: Step)
    requires Keyed(t) && UniqueIndexes(t)
    ensures UniqueIndexes(Statement(t, step))
  {
    match step
    case SetTx(id, txHash, now) => SetTxUnique(t, id, txHash, now);
    case SoftDelete(cutoff, now) => SoftDeleteUnique(t, cutoff, now);
    case Extend(id, until, minutes, now) => ExtendUnique(t, id, until, minutes, now);
    case Settle(id, amount, at, now) => SettleUnique(t, id, amount, at, now);
    case Touch(id, now) => TouchUnique(t, id, now);
    case _ =>
  }

  lemma InsertUnique(s: Sys, request: nat, row: Session)
    requires Keyed(s.rows) && UniqueIndexes(s.rows)
    ensures UniqueIndexes(Next(s, Insert(request, row)).rows)
  {
    if Fits(s.rows, row) {
      FitsKeepsUnique(s.rows, row);
    }
  }

  lemma RowsAfterStatement(s: Sys, step: Step)
    requires Keyed(s.rows) && !step.Commit? && !step.Insert?
    ensures Next(s, step).rows == Statement(s.rows, step)
  {
  }

  lemma RowsAfterCommit(s: Sys, task: nat, now: Time)
    requires Keyed(s.rows)
    ensures Next(s, Commit(task, now)).rows
         == if task in s.tasks then OrElse(UpdateRow(s.rows, Moved(s.tasks[task].snapshot, s.tasks[task].op), now), s.rows) else s.rows
  {
  }

  lemma StepUnique(s: Sys, step: Step)
    requires Keyed(s.rows) && UniqueIndexes(s.rows)
    ensures UniqueIndexes(Next(s, step).rows)
  {
    if step.Insert? {
      InsertUnique(s, step.request, step.row);
    } else if step.Commit? {
      RowsAfterCommit(s, step.task, step.now);
      if step.task in s.tasks {
        CommitUnique(s.rows, Moved(s.tasks[step.task].snapshot, s.tasks[step.task].op), step.now);
      }
    } else {
      RowsAfterStatement(s, step);
      StatementUnique(s.rows, step);
    }
  }

  // ---- Main results over every run ----

  // In every interleaving rows stay well formed, both indexes hold, and each row only makes allowed moves.
  lemma {:induction false} RunInv(s: Sys, steps: seq<Step>)
    requires Inv(s)
    ensures Inv(Run(s, steps)) && TableStep(s.rows, Run(s, steps).rows)
    decreases |steps|
  {
    if steps != [] {
      var mid := Next(s, steps[0]);
      StepRows(s, steps[0]);
      StepTasks(s, steps[0]);
      StepUnique(s, steps[0]);
      RunInv(mid, steps[1..]);
      forall id | id in s.rows
        ensures id in Run(s, steps).rows && RowStep(s.rows[id], Run(s, steps).rows[id])
      {
        assert id in mid.rows && RowStep(s.rows[id], mid.rows[id]);
        assert RowStep(mid.rows[id], Run(mid, steps[1..]).rows[id]);
      }
    }
  }

  // From the empty table: RUNNING has rental, start, hash and block and no end; STOPPED has rental,
  // start and end; FAILED and CANCELLED have an end; no two undeleted rows share a hash.
  lemma EveryRunWellFormed(steps: seq<Step>, id: string)
    requires id in Run(EMPTY, steps).rows
    ensures var r := Run(EMPTY, steps).rows[id];
            && r.id == id
            && (r.state == Running ==> r.rentalId.Some? && r.startTime.Some? && r.txHash.Some? && r.blockNumber.Some?
                                       && r.endTime.None?)
            && (r.state == Stopped ==> r.rentalId.Some? && r.startTime.Some? && r.endTime.Some?)
            && (r.state == Failed || r.state == Cancelled ==> r.endTime.Some?)
    ensures UniqueIndexes(Run(EMPTY, steps).rows)
  {
    RunInv(EMPTY, steps);
    assert RowOk(Run(EMPTY, steps).rows[id]);
  }

  // A soft-deleted session never gets a transaction hash and never becomes RUNNING or STOPPED.
  lemma DeletedStaysDead(before: seq<Step>, after: seq<Step>, id: string)
    requires id in Run(EMPTY, before).rows && Run(EMPTY, before).rows[id].deletedAt.Some?
    ensures var s := Run(EMPTY, before);
            var t := Run(s, after).rows;
            && id in t && t[id].deletedAt == s.rows[id].deletedAt
            && t[id].txHash.None? && t[id].state != Running && t[id].state != Stopped
  {
    RunInv(EMPTY, before);
    var s := Run(EMPTY, before);
    RunInv(s, after);
    assert RowStep(s.rows[id], Run(s, after).rows[id]) && RowOk(Run(s, after).rows[id]);
  }

  // A session with a transaction hash, or past PENDING, is never soft-deleted and never PENDING again
  // without a hash, whatever stale snapshots are written back.
  lemma ShieldedForever(before: seq<Step>, after: seq<Step>, id: string)
    requires var r := Run(EMPTY, before).rows; id in r && Shielded(r[id])
    ensures var r := Run(EMPTY, before).rows;
            var t := Run(Run(EMPTY, before), after).rows;
            id in t && t[id].deletedAt.None? && (t[id].state == Pending ==> t[id].txHash.Some? && r[id].state == Pending)
  {
    RunInv(EMPTY, before);
    var s := Run(EMPTY, before);
    RunInv(s, after);
    assert RowStep(s.rows[id], Run(s, after).rows[id]);
  }

  // No interleaving returns a row to PENDING.
  lemma NeverPendingAgain(before: seq<Step>, after: seq<Step>, id: string)
    requires var r := Run(EMPTY, before).rows; id in r && r[id].state != Pending
    ensures var t := Run(Run(EMPTY, before), after).rows; id in t && t[id].state != Pending
  {
    RunInv(EMPTY, before);
    var s := Run(EMPTY, before);
    RunInv(s, after);
    assert RowStep(s.rows[id], Run(s, after).rows[id]);
  }

  // With nothing in between, load and commit are exactly one manager call.
  lemma LoadThenCommitIsOneCall(s: Sys, task: nat, id: string, op: Op, now: Time)
    requires Keyed(s.rows) && task !in s.tasks && (op.ToRunning? ==> id in s.listed)
    ensures var r := TransitionRow(s.rows, id, op, now);
            var s' := Next(Next(s, Load(task, id, op)), Commit(task, now));
            s'.rows == (if r.Ok? then r.value else s.rows) && s'.tasks == s.tasks && s'.listed == s.listed
  {
    var mid := Next(s, Load(task, id, op));
    if task in mid.tasks {
      assert mid.tasks[task] == Task(s.rows[id], op);
      assert mid.tasks - {task} == s.tasks;
    } else {
      assert s.tasks - {task} == s.tasks;
    }
  }

  // ---- What does not hold ----

  // The creation of a session, from its checks to its insert, with nothing in between.
  function Create(request: nat, row: Session): seq<Step> {
    [AskRunning(request, row.user, true), AskPending(request, true), Insert(request, row)]
  }

  lemma {:induction false} RunAppend(s: Sys, a: seq<Step>, b: seq<Step>)
    requires Keyed(s.rows)
    ensures Run(s, a + b) == Run(Run(s, a), b)
    decreases |a|
  {
    if a == [] {
      assert a + b == b;
    } else {
      assert (a + b)[0] == a[0] && (a + b)[1..] == a[1..] + b;
      RunAppend(Next(s, a[0]), a[1..], b);
    }
  }

  lemma RunOfThree(s: Sys, x: Step, y: Step, z: Step)
    requires Keyed(s.rows)
    ensures Run(s, [x, y, z]) == Next(Next(Next(s, x), y), z)
  {
    var steps := [x, y, z];
    var s1 := Next(s, x);
    var s2 := Next(s1, y);
    assert steps[1..] == [y, z] && steps[1..][1..] == [z] && steps[1..][1..][1..] == [];
    assert Run(s, steps) == Run(s1, steps[1..]) == Run(s2, steps[1..][1..]) == Run(Next(s2, z), []);
  }

  lemma ChecksPass(s: Sys, request: nat, user: Address)
    requires Keyed(s.rows) && s.requests == map[] && !HasActive(s.rows, user)
    ensures Next(Next(s, AskRunning(request, user, true)), AskPending(request, true))
         == s.(requests := map[request := Creation(user, true)])
  {
    assert forall id :: id in s.rows && OwnedInState(s.rows[id], user, Running) ==> Active(s.rows[id]);
    assert forall id :: id in s.rows && OwnedInState(s.rows[id], user, Pending) ==> Active(s.rows[id]);
    var s1 := Next(s, AskRunning(request, user, true));
    assert s1 == s.(requests := map[request := Creation(user, false)]);
  }

  // An undisturbed creation for a user without an active session, in a state without requests.
  lemma CreateInserts(s: Sys, request: nat, row: Session)
    requires Keyed(s.rows) && s.requests == map[] && NewSession(row)
    requires !HasActive(s.rows, row.user) && row.id !in s.rows
    ensures Run(s, Create(request, row)) == s.(rows := s.rows[row.id := row])
  {
    ChecksPass(s, request, row.user);
    var s2 := s.(requests := map[request := Creation(row.user, true)]);
    assert Fits(s.rows, row);
    assert s2.requests - {request} == map[];
    RunOfThree(s, AskRunning(request, row.user, true), AskPending(request, true), Insert(request, row));
    assert Next(s2, Insert(request, row)) == s.(rows := s.rows[row.id := row]);
  }

  // A listed PENDING session, as the next lemma needs it, arises from nothing.
  lemma ListedPending(row: Session, txHash: string, now: Time)
    requires NewSession(row)
    ensures Run(EMPTY, Create(0, row) + [SetTx(row.id, txHash, now), ListConfirmations])
         == Sys(map[row.id := WithTxHash(row, txHash, now)], map[], {row.id}, map[])
  {
    var s1 := Sys(map[row.id := row], map[], {}, map[]);
    CreateInserts(EMPTY, 0, row);
    assert Run(EMPTY, Create(0, row)) == s1;
    var steps := [SetTx(row.id, txHash, now), ListConfirmations];
    var s2 := Next(s1, steps[0]);
    assert s2 == Sys(map[row.id := WithTxHash(row, txHash, now)], map[], {}, map[]);
    var s3 := Next(s2, steps[1]);
    assert s3.listed == {row.id};
    assert steps[1..][1..] == [];
    assert Run(s1, steps) == Run(s2, steps[1..]) == Run(s3, []);
    RunAppend(EMPTY, Create(0, row), steps);
  }

  // Terminal states are not absorbing here: a start that was loaded before a cancellation and is
  // written after it revives the session, whenever the start's identifiers are free.
  lemma StaleStartRevives(s: Sys, start: nat, cancel: nat, id: string, op: Op, at: Time, now: Time)
    requires TasksOk(s) && UniqueIndexes(s.rows)
    requires start !in s.tasks && cancel !in s.tasks && start != cancel
    requires op.ToRunning? && id in s.listed && s.rows[id].state == Pending
    requires Fits(s.rows, Moved(s.rows[id], op))
    ensures var s3 := Next(Next(s, Load(start, id, op)), Load(cancel, id, ToCancelled(at)));
            var s4 := Next(s3, Commit(cancel, now));
            var s5 := Next(s4, Commit(start, now));
            id in s5.rows && id in s4.rows && s4.rows[id].state == Cancelled && s5.rows[id].state == Running
  {
    var row := s.rows[id];
    var s3 := Next(Next(s, Load(start, id, op)), Load(cancel, id, ToCancelled(at)));
    TwoLoads(s, start, cancel, id, op, at);
    CancelFits(s.rows, id, at, now);
    var cancelled := Overwritten(row, Moved(row, ToCancelled(at)), now);
    CommitFits(s3, cancel, now);
    var s4 := Next(s3, Commit(cancel, now));
    assert s4.rows == s.rows[id := cancelled];
    StartStillFits(s.rows, id, cancelled, op, now);
    CommitFits(s4, start, now);
  }

  lemma TwoLoads(s: Sys, start: nat, cancel: nat, id: string, op: Op, at: Time)
    requires TasksOk(s) && start !in s.tasks && cancel !in s.tasks && start != cancel
    requires op.ToRunning? && id in s.listed && s.rows[id].state == Pending
    ensures var s' := Next(Next(s, Load(start, id, op)), Load(cancel, id, ToCancelled(at)));
      s'.rows == s.rows && s'.tasks == s.tasks[start := Task(s.rows[id], op)][cancel := Task(s.rows[id], ToCancelled(at))]
  {
    assert CanTransition(Pending, Running) && CanTransition(Pending, Cancelled);
  }

  // A commit that fits is carried out.
  lemma CommitFits(s: Sys, task: nat, now: Time)
    requires Keyed(s.rows) && task in s.tasks && s.tasks[task].snapshot.id in s.rows
    requires var w := s.tasks[task]; Fits(s.rows, Overwritten(s.rows[w.snapshot.id], Moved(w.snapshot, w.op), now))
    ensures var w := s.tasks[task]; var s' := Next(s, Commit(task, now));
      && s'.rows == s.rows[w.snapshot.id := Overwritten(s.rows[w.snapshot.id], Moved(w.snapshot, w.op), now)]
      && s'.tasks == s.tasks - {task} && s'.listed == s.listed && s'.requests == s.requests
  {
  }

  lemma CancelFits(t: Table, id: string, at: Time, now: Time)
    requires Keyed(t) && UniqueIndexes(t) && id in t
    ensures Fits(t, Overwritten(t[id], Moved(t[id], ToCancelled(at)), now))
  {
    assert forall k :: k in t && k != id ==> Compatible(t[id], t[k]);
  }

  lemma StartStillFits(t: Table, id: string, cancelled: Session, op: Op, now: Time)
    requires Keyed(t) && id in t && op.ToRunning? && Fits(t, Moved(t[id], op)) && cancelled.id == id
    requires cancelled.deletedAt == t[id].deletedAt
    ensures Fits(t[id := cancelled], Overwritten(cancelled, Moved(t[id], op), now))
  {
    assert forall k :: k in t && k != id ==> Compatible(Moved(t[id], op), t[k]);
  }

  // Stopping from the hub (pod events, expiry) writes the empty transaction hash, so with a free
  // rental id the write is accepted exactly when no other undeleted row already holds "": at most
  // one session at a time can be stopped this way, and a refused one stays as it was.
  lemma HubStopAccepted(s: Sys, task: nat, now: Time)
    requires TasksOk(s) && task in s.tasks
    requires s.tasks[task].op.ToStopped? && s.tasks[task].op.stopTx == ""
    requires forall k :: k in s.rows && k != s.tasks[task].snapshot.id ==> s.rows[k].rentalId != s.tasks[task].snapshot.rentalId
    ensures var w := s.tasks[task];
            var r := UpdateRow(s.rows, Moved(w.snapshot, w.op), now);
            && (r.Some? <==> forall k :: k in s.rows && k != w.snapshot.id && s.rows[k].deletedAt.None? ==>
                               s.rows[k].txHash != Some(""))
            && (r.Some? ==> r.value[w.snapshot.id].state == Stopped && r.value[w.snapshot.id].txHash == Some(""))
            && (r.None? ==> Next(s, Commit(task, now)).rows == s.rows)
  {
    var w := s.tasks[task];
    var id := w.snapshot.id;
    assert TaskOk(s.rows, w) && Shielded(s.rows[id]);
    var row := Overwritten(s.rows[id], Moved(w.snapshot, w.op), now);
    assert row.id == id && row.txHash == Some("") && row.deletedAt.None?;
    if forall k :: k in s.rows && k != id && s.rows[k].deletedAt.None? ==> s.rows[k].txHash != Some("") {
      assert Fits(s.rows, row);
    } else {
      var k :| k in s.rows && k != id && s.rows[k].deletedAt.None? && s.rows[k].txHash == Some("");
      assert !Compatible(row, s.rows[k]);
    }
  }
}
