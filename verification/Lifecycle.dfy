/**
 What the state machine keeps when no write is stale: every commit finds the row in the state its
 snapshot was loaded in. A manager call that runs alone is such a commit, so this covers the
 model in which each call is one atomic step. Creations still interleave: what their checks saw need
 not hold any more when they insert.
 */
module Lifecycle {
  import opened Rental
  import opened SessionTable
  import opened SessionManagement
  import opened Interleaving

  predicate Guarded(s: Sys, step: Step) {
    step.Commit? && step.task in s.tasks ==>
      var snapshot := s.tasks[step.task].snapshot;
      snapshot.id in s.rows && s.rows[snapshot.id].state == snapshot.state
  }

  predicate GuardedRun(s: Sys, steps: seq<Step>)
    requires Keyed(s.rows)
    decreases |steps|
  {
    steps == [] || (Guarded(s, steps[0]) && GuardedRun(Next(s, steps[0]), steps[1..]))
  }

  // How often a session changes state along a run.
  function Changes(s: Sys, steps: seq<Step>, id: string): nat
    requires Keyed(s.rows)
    decreases |steps|
  {
    if steps == [] then 0
    else
      var s' := Next(s, steps[0]);
      (if id in s.rows && id in s'.rows && s'.rows[id].state != s.rows[id].state then 1 else 0)
      + Changes(s', steps[1..], id)
  }

  predicate OneActivePerUser(t: Table) {
    forall a, b :: a in t && b in t && a != b && Active(t[a]) && Active(t[b]) ==> t[a].user != t[b].user
  }

  lemma GuardedStep(s: Sys, step: Step, id: string)
    requires TasksOk(s) && Guarded(s, step) && id in s.rows
    ensures var a, b := s.rows[id], Next(s, step).rows[id];
            && (b.state == a.state || CanTransition(a.state, b.state))
            && (Active(b) ==> Active(a))
    ensures id in Next(s, step).rows
  {
    if step.Commit? {
      CommitRow(s, step, id);
      if step.task in s.tasks {
        assert TaskOk(s.rows, s.tasks[step.task]);
        TransitionTable(s.tasks[step.task].snapshot.state, Target(s.tasks[step.task].op));
      }
    } else {
      StatementRow(s, step, id);
    }
  }

  // A session changes state at most twice, and never again once it is terminal.
  lemma {:induction false} GuardedRunsAreShort(s: Sys, steps: seq<Step>, id: string)
    requires Inv(s) && GuardedRun(s, steps)
    ensures id in s.rows ==> id in Run(s, steps).rows
    ensures id in s.rows ==> Changes(s, steps, id) + Remaining(Run(s, steps).rows[id].state) <= Remaining(s.rows[id].state)
    ensures Changes(s, steps, id) <= 2
    ensures id in s.rows && IsTerminal(s.rows[id].state) ==> Run(s, steps).rows[id].state == s.rows[id].state
    decreases |steps|
  {
    if steps != [] {
      var s' := Next(s, steps[0]);
      RunInv(s, [steps[0]]);
      assert Run(s, [steps[0]]) == Run(s', []) == s';
      if id in s.rows {
        GuardedStep(s, steps[0], id);
        TransitionTable(s.rows[id].state, s'.rows[id].state);
      }
      GuardedRunsAreShort(s', steps[1..], id);
    }
  }

  // ---- When a session keeps its state ----

  // An accepted commit of the session, to a state other than the stored one.
  predicate Moves(s: Sys, step: Step, id: string)
    requires Keyed(s.rows) && id in s.rows
  {
    && step.Commit? && Accepted(s, step)
    && s.tasks[step.task].snapshot.id == id && Target(s.tasks[step.task].op) != s.rows[id].state
  }

  lemma StepKeepsState(s: Sys, step: Step, id: string)
    requires TasksOk(s) && id in s.rows
    ensures id in Next(s, step).rows
    ensures Next(s, step).rows[id].state == s.rows[id].state <==> !Moves(s, step, id)
  {
    if step.Commit? {
      CommitRow(s, step, id);
    } else {
      StatementRow(s, step, id);
    }
  }

  ghost predicate StateKept(s: Sys, steps: seq<Step>, id: string)
    requires Inv(s) && id in s.rows
    decreases |steps|
  {
    steps == [] ||
    (NextIsInv(s, steps[0], id);
     Next(s, steps[0]).rows[id].state == s.rows[id].state && StateKept(Next(s, steps[0]), steps[1..], id))
  }

  ghost predicate NeverMoved(s: Sys, steps: seq<Step>, id: string)
    requires Inv(s) && id in s.rows
    decreases |steps|
  {
    steps == [] || (!Moves(s, steps[0], id) && (NextIsInv(s, steps[0], id); NeverMoved(Next(s, steps[0]), steps[1..], id)))
  }

  lemma NextIsInv(s: Sys, step: Step, id: string)
    requires Inv(s) && id in s.rows
    ensures Inv(Next(s, step)) && id in Next(s, step).rows
  {
    StepRows(s, step);
    StepTasks(s, step);
    StepUnique(s, step);
  }

  // Over every interleaving a session, in a terminal state or any other, keeps its state throughout
  // exactly when no accepted commit of it has another target.
  lemma {:induction false} StateKeptExactly(s: Sys, steps: seq<Step>, id: string)
    requires Inv(s) && id in s.rows
    ensures StateKept(s, steps, id) <==> NeverMoved(s, steps, id)
    decreases |steps|
  {
    if steps != [] {
      NextIsInv(s, steps[0], id);
      StepKeepsState(s, steps[0], id);
      StateKeptExactly(Next(s, steps[0]), steps[1..], id);
    }
  }

  // ---- How often a session ends ----

  // An accepted commit that ends the session. The workers that release a session's capacity after
  // failing or stopping it do so once for each of these.
  predicate Ends(s: Sys, step: Step, id: string)
    requires Keyed(s.rows)
  {
    && step.Commit? && Accepted(s, step)
    && s.tasks[step.task].snapshot.id == id && IsTerminal(Target(s.tasks[step.task].op))
  }

  function Endings(s: Sys, steps: seq<Step>, id: string): nat
    requires Keyed(s.rows)
    decreases |steps|
  {
    if steps == [] then 0 else (if Ends(s, steps[0], id) then 1 else 0) + Endings(Next(s, steps[0]), steps[1..], id)
  }

  lemma GuardedEnd(s: Sys, step: Step, id: string)
    requires TasksOk(s) && Guarded(s, step) && id in s.rows
    ensures id in Next(s, step).rows
    ensures Ends(s, step, id) ==> !IsTerminal(s.rows[id].state) && IsTerminal(Next(s, step).rows[id].state)
    ensures IsTerminal(s.rows[id].state) ==> IsTerminal(Next(s, step).rows[id].state)
  {
    StepKeepsState(s, step, id);
    if step.Commit? && step.task in s.tasks {
      var w := s.tasks[step.task];
      assert TaskOk(s.rows, w);
      TransitionTable(w.snapshot.state, Target(w.op));
    }
  }

  // Over any run without stale commits a session ends at most once, and not again once it has.
  lemma {:induction false} GuardedEndsOnce(s: Sys, steps: seq<Step>, id: string)
    requires Inv(s) && GuardedRun(s, steps) && id in s.rows
    ensures Endings(s, steps, id) <= if IsTerminal(s.rows[id].state) then 0 else 1
    decreases |steps|
  {
    if steps != [] {
      GuardedEnd(s, steps[0], id);
      NextIsInv(s, steps[0], id);
      GuardedEndsOnce(Next(s, steps[0]), steps[1..], id);
    }
  }

  // ---- One active session per user ----

  // What the checks of a creation promised still holds when its insert is written.
  predicate InsertFresh(s: Sys, step: Step)
    requires Keyed(s.rows)
  {
    step.Insert? && Permitted(s, step.request, step.row) && InsertRow(s.rows, step.row).Some? ==>
      !HasActive(s.rows, step.row.user)
  }

  // No accepted start revives an inactive session of a user who has an active one.
  predicate CommitFresh(s: Sys, step: Step)
    requires Keyed(s.rows)
  {
    step.Commit? && step.task in s.tasks && s.tasks[step.task].op.ToRunning? && Accepted(s, step) ==>
      var id := s.tasks[step.task].snapshot.id;
      id in s.rows && (Active(s.rows[id]) || !HasActive(s.rows, s.rows[id].user))
  }

  lemma OtherRowsStay(s: Sys, step: Step, id: string)
    requires TasksOk(s) && step.Commit? && step.task in s.tasks
    ensures s.tasks[step.task].snapshot.id in s.rows
    ensures id in Next(s, step).rows <==> id in s.rows
    ensures id in s.rows && id != s.tasks[step.task].snapshot.id ==> Next(s, step).rows[id] == s.rows[id]
  {
    assert TaskOk(s.rows, s.tasks[step.task]);
  }

  // A commit makes an inactive session active exactly when it is an accepted start.
  lemma CommitActivates(s: Sys, step: Step)
    requires TasksOk(s) && step.Commit? && step.task in s.tasks
    ensures var id := s.tasks[step.task].snapshot.id;
      && id in s.rows && id in Next(s, step).rows
      && Next(s, step).rows[id].user == s.rows[id].user
      && (!Active(s.rows[id]) ==> (Active(Next(s, step).rows[id]) <==> s.tasks[step.task].op.ToRunning? && Accepted(s, step)))
  {
    var w := s.tasks[step.task];
    assert TaskOk(s.rows, w);
    CommitRow(s, step, w.snapshot.id);
    TransitionTable(w.snapshot.state, Target(w.op));
  }

  // One row of a user changes.
  lemma OneRowActive(t: Table, t': Table, id: string)
    requires OneActivePerUser(t) && id in t && t'.Keys == t.Keys && t'[id].user == t[id].user
    requires forall k :: k in t && k != id ==> t'[k] == t[k]
    ensures OneActivePerUser(t') <==> (Active(t'[id]) && !Active(t[id]) ==> !HasActive(t, t[id].user))
  {
    if Active(t'[id]) && !Active(t[id]) && HasActive(t, t[id].user) {
      var k :| k in t && t[k].user == t[id].user && Active(t[k]);
      assert k != id && Active(t'[k]) && t'[k].user == t'[id].user;
    }
  }

  lemma CommitKeepsOneActive(s: Sys, step: Step)
    requires TasksOk(s) && OneActivePerUser(s.rows) && step.Commit?
    ensures OneActivePerUser(Next(s, step).rows) <==> CommitFresh(s, step)
  {
    RowsAfterCommit(s, step.task, step.now);
    if step.task in s.tasks {
      var t, t', id := s.rows, Next(s, step).rows, s.tasks[step.task].snapshot.id;
      CommitActivates(s, step);
      forall k: string
        ensures k in t' <==> k in t
        ensures k in t && k != id ==> t'[k] == t[k]
      {
        OtherRowsStay(s, step, k);
      }
      OneRowActive(t, t', id);
    }
  }

  lemma OtherStepsKeepOneActive(s: Sys, step: Step)
    requires TasksOk(s) && OneActivePerUser(s.rows) && !step.Insert? && !step.Commit?
    ensures OneActivePerUser(Next(s, step).rows)
  {
    RowsAfterStatement(s, step);
    var t, t' := s.rows, Statement(s.rows, step);
    forall a, b | a in t' && b in t' && a != b && Active(t'[a]) && Active(t'[b])
      ensures t'[a].user != t'[b].user
    {
      StatementColumns(t, step, a);
      StatementColumns(t, step, b);
    }
  }

  // One insert keeps it exactly when its user has no active session, or it is not accepted.
  lemma InsertKeepsOneActive(s: Sys, step: Step)
    requires Keyed(s.rows) && OneActivePerUser(s.rows) && step.Insert?
    ensures OneActivePerUser(Next(s, step).rows) <==> InsertFresh(s, step)
  {
    var t, t', row := s.rows, Next(s, step).rows, step.row;
    if Permitted(s, step.request, row) && InsertRow(t, row).Some? {
      assert t' == t[row.id := row] && Active(row);
      if k :| k in t && t[k].user == row.user && Active(t[k]) {
        assert k in t' && row.id in t' && k != row.id && t'[k] == t[k] && t'[row.id] == row;
      }
    }
  }

  predicate OneActiveThroughout(s: Sys, steps: seq<Step>)
    requires Keyed(s.rows)
    decreases |steps|
  {
    OneActivePerUser(s.rows) && (steps == [] || OneActiveThroughout(Next(s, steps[0]), steps[1..]))
  }

  predicate InsertsFresh(s: Sys, steps: seq<Step>)
    requires Keyed(s.rows)
    decreases |steps|
  {
    steps == [] || (InsertFresh(s, steps[0]) && InsertsFresh(Next(s, steps[0]), steps[1..]))
  }

  predicate CommitsFresh(s: Sys, steps: seq<Step>)
    requires Keyed(s.rows)
    decreases |steps|
  {
    steps == [] || (CommitFresh(s, steps[0]) && CommitsFresh(Next(s, steps[0]), steps[1..]))
  }

  lemma StepKeepsOneActive(s: Sys, step: Step)
    requires TasksOk(s) && OneActivePerUser(s.rows)
    ensures OneActivePerUser(Next(s, step).rows) <==> InsertFresh(s, step) && CommitFresh(s, step)
  {
    if step.Insert? {
      InsertKeepsOneActive(s, step);
    } else if step.Commit? {
      CommitKeepsOneActive(s, step);
    } else {
      OtherStepsKeepOneActive(s, step);
    }
  }

  // Over every interleaving, each user has at most one undeleted PENDING or RUNNING session
  // throughout, exactly when every accepted insert's check is still true when it is written and no
  // accepted start revives a session beside an active one.
  lemma {:induction false} OneActiveExactly(s: Sys, steps: seq<Step>)
    requires Inv(s) && OneActivePerUser(s.rows)
    ensures OneActiveThroughout(s, steps) <==> InsertsFresh(s, steps) && CommitsFresh(s, steps)
    decreases |steps|
  {
    if steps != [] {
      var s' := Next(s, steps[0]);
      StepKeepsOneActive(s, steps[0]);
      if OneActivePerUser(s'.rows) {
        StepRows(s, steps[0]);
        StepTasks(s, steps[0]);
        StepUnique(s, steps[0]);
        OneActiveExactly(s', steps[1..]);
      }
    }
  }

  // A commit that is not stale is always fresh, so without stale commits the inserts alone decide.
  lemma {:induction false} GuardedCommitsAreFresh(s: Sys, steps: seq<Step>)
    requires Inv(s) && GuardedRun(s, steps)
    ensures CommitsFresh(s, steps)
    decreases |steps|
  {
    if steps != [] {
      if steps[0].Commit? && steps[0].task in s.tasks {
        GuardedCommitIsFresh(s, steps[0]);
      }
      StepRows(s, steps[0]);
      StepTasks(s, steps[0]);
      StepUnique(s, steps[0]);
      GuardedCommitsAreFresh(Next(s, steps[0]), steps[1..]);
    }
  }

  lemma GuardedCommitIsFresh(s: Sys, step: Step)
    requires TasksOk(s) && Guarded(s, step) && step.Commit? && step.task in s.tasks
    ensures CommitFresh(s, step)
  {
    var w := s.tasks[step.task];
    assert TaskOk(s.rows, w);
    TransitionTable(w.snapshot.state, Target(w.op));
  }

  // Two requests of one user that both ask before either inserts: every query is answered, no commit
  // is stale (there is none), and the user ends with two active sessions.
  lemma CreationsRace(a: Session, b: Session)
    requires NewSession(a) && NewSession(b) && a.user == b.user && a.id != b.id
    ensures var race := [AskRunning(0, a.user, true), AskPending(0, true), AskRunning(1, b.user, true), AskPending(1, true)]
                      + [Insert(0, a), Insert(1, b)];
      GuardedRun(EMPTY, race) && !OneActivePerUser(Run(EMPTY, race).rows)
  {
    var asks := [AskRunning(0, a.user, true), AskPending(0, true), AskRunning(1, b.user, true), AskPending(1, true)];
    var inserts := [Insert(0, a), Insert(1, b)];
    var asked := EMPTY.(requests := map[0 := Creation(a.user, true), 1 := Creation(a.user, true)]);
    BothMayCreate(a.user);
    TwoInserts(asked, a, b);
    RunAppend(EMPTY, asks, inserts);
    NoCommitsNoStaleCommits(EMPTY, asks + inserts);
  }

  lemma {:induction false} NoCommitsNoStaleCommits(s: Sys, steps: seq<Step>)
    requires Keyed(s.rows) && forall i :: 0 <= i < |steps| ==> !steps[i].Commit?
    ensures GuardedRun(s, steps)
    decreases |steps|
  {
    if steps != [] {
      NoCommitsNoStaleCommits(Next(s, steps[0]), steps[1..]);
    }
  }

  lemma BothMayCreate(user: Address)
    ensures Run(EMPTY, [AskRunning(0, user, true), AskPending(0, true), AskRunning(1, user, true), AskPending(1, true)])
         == EMPTY.(requests := map[0 := Creation(user, true), 1 := Creation(user, true)])
  {
    var steps := [AskRunning(0, user, true), AskPending(0, true), AskRunning(1, user, true), AskPending(1, true)];
    var s1 := Next(EMPTY, steps[0]);
    assert s1 == EMPTY.(requests := map[0 := Creation(user, false)]);
    var s2 := Next(s1, steps[1]);
    assert s2 == EMPTY.(requests := map[0 := Creation(user, true)]);
    var s3 := Next(s2, steps[2]);
    assert s3 == EMPTY.(requests := map[0 := Creation(user, true), 1 := Creation(user, false)]);
    var s4 := Next(s3, steps[3]);
    assert s4 == EMPTY.(requests := map[0 := Creation(user, true), 1 := Creation(user, true)]);
    RunOfThree(EMPTY, steps[0], steps[1], steps[2]);
    assert steps == [steps[0], steps[1], steps[2]] + [steps[3]];
    RunAppend(EMPTY, [steps[0], steps[1], steps[2]], [steps[3]]);
    assert Run(s3, [steps[3]]) == Run(Next(s3, steps[3]), []);
  }

  lemma TwoInserts(s: Sys, a: Session, b: Session)
    requires s == EMPTY.(requests := map[0 := Creation(a.user, true), 1 := Creation(a.user, true)])
    requires NewSession(a) && NewSession(b) && a.user == b.user && a.id != b.id
    ensures !OneActivePerUser(Run(s, [Insert(0, a), Insert(1, b)]).rows)
  {
    var steps := [Insert(0, a), Insert(1, b)];
    var s1 := Next(s, steps[0]);
    assert s1.rows == map[a.id := a] && s1.requests[1] == Creation(b.user, true);
    assert Fits(s1.rows, b);
    var t := Next(s1, steps[1]).rows;
    assert t == map[a.id := a, b.id := b];
    assert a.id in t && b.id in t && Active(t[a.id]) && Active(t[b.id]);
    assert steps[1..][1..] == [];
    assert Run(s, steps) == Run(s1, steps[1..]) == Run(Next(s1, steps[1]), []);
  }

  // Creations whose checks are all answered and that nothing interrupts.
  predicate Serial(steps: seq<Step>)
    decreases |steps|
  {
    || steps == []
    || (!steps[0].AskRunning? && !steps[0].AskPending? && !steps[0].Insert? && Serial(steps[1..]))
    || (|steps| >= 3 && steps[2].Insert? && steps[..3] == Create(steps[2].request, steps[2].row) && Serial(steps[3..]))
  }

  lemma SerialCreationIsFresh(s: Sys, request: nat, row: Session)
    requires Keyed(s.rows) && s.requests == map[]
    ensures var s1 := Next(s, AskRunning(request, row.user, true));
      var s2 := Next(s1, AskPending(request, true));
      var s3 := Next(s2, Insert(request, row));
      InsertFresh(s2, Insert(request, row)) && s3.requests == map[]
  {
    var s2 := Next(Next(s, AskRunning(request, row.user, true)), AskPending(request, true));
    if HasActive(s.rows, row.user) {
      var id :| id in s.rows && s.rows[id].user == row.user && Active(s.rows[id]);
      assert OwnedInState(s.rows[id], row.user, Running) || OwnedInState(s.rows[id], row.user, Pending);
    }
    assert s2.rows == s.rows && s2.requests - {request} == map[];
  }

  // In the atomic model, in which checks and insert are one step, the promise holds over every run.
  lemma {:induction false} SerialKeepsOneActive(s: Sys, steps: seq<Step>)
    requires Keyed(s.rows) && s.requests == map[] && Serial(steps)
    ensures InsertsFresh(s, steps)
    decreases |steps|
  {
    if steps != [] {
      if !steps[0].AskRunning? && !steps[0].AskPending? && !steps[0].Insert? {
        SerialKeepsOneActive(Next(s, steps[0]), steps[1..]);
      } else {
        var request, row := steps[2].request, steps[2].row;
        var s1 := Next(s, steps[0]);
        var s2 := Next(s1, steps[1]);
        assert steps[0] == steps[..3][0] && steps[1] == steps[..3][1];
        SerialCreationIsFresh(s, request, row);
        assert steps[1..][1..] == steps[2..] && steps[2..][1..] == steps[3..];
        SerialKeepsOneActive(Next(s2, steps[2]), steps[3..]);
        assert InsertsFresh(s2, steps[2..]);
        assert InsertsFresh(s1, steps[1..]);
      }
    }
  }

  lemma OneActiveInTheAtomicModel(s: Sys, steps: seq<Step>)
    requires Inv(s) && OneActivePerUser(s.rows) && s.requests == map[] && GuardedRun(s, steps) && Serial(steps)
    ensures OneActiveThroughout(s, steps)
  {
    SerialKeepsOneActive(s, steps);
    GuardedCommitsAreFresh(s, steps);
    OneActiveExactly(s, steps);
  }

  // Why the guard is the missing check: a written commit always takes its row to the target state.
  // From the state of its snapshot the table allows that; from a terminal state it never does, so a
  // commit that changes a terminal row is one the guard would have refused.
  lemma CommitFollowsTable(s: Sys, task: nat, now: Time)
    requires TasksOk(s) && task in s.tasks
    requires UpdateRow(s.rows, Moved(s.tasks[task].snapshot, s.tasks[task].op), now).Some?
    ensures var w := s.tasks[task];
            var a, b := s.rows[w.snapshot.id].state, Next(s, Commit(task, now)).rows[w.snapshot.id].state;
            && b == Target(w.op)
            && (a == w.snapshot.state ==> CanTransition(a, b))
            && (IsTerminal(a) && b != a ==> a != w.snapshot.state && !CanTransition(a, b))
    ensures s.tasks[task].snapshot.id in Next(s, Commit(task, now)).rows
  {
    var w := s.tasks[task];
    assert TaskOk(s.rows, w);
    TransitionTable(s.rows[w.snapshot.id].state, Target(w.op));
  }

  // A query that fails skips its check, so an undisturbed creation then inserts whatever else the user
  // has: exactly when the user has an active session, that makes two.
  lemma UncheckedInsert(s: Sys, request: nat, row: Session)
    requires Keyed(s.rows) && OneActivePerUser(s.rows) && s.requests == map[]
    requires NewSession(row) && row.id !in s.rows
    ensures var asked := Next(Next(s, AskRunning(request, row.user, false)), AskPending(request, false));
      OneActivePerUser(Next(asked, Insert(request, row)).rows) <==> !HasActive(s.rows, row.user)
  {
    var asked := Next(Next(s, AskRunning(request, row.user, false)), AskPending(request, false));
    assert asked.rows == s.rows && asked.requests[request] == Creation(row.user, true);
    assert Fits(s.rows, row);
    InsertKeepsOneActive(asked, Insert(request, row));
  }
}
