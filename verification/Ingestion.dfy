/**
 Batched backfill, the checkpoint, deduplication by transaction hash and the dead-letter queue
 (internal/blockchain/listener.go, internal/blockchain/checkpoint.go). Store writes succeed; the
 handler may fail on any log.
 */
module Ingestion {
  import opened Outcomes

  const BATCH: nat := 1000
  const MAX_UINT64: nat := 0xFFFF_FFFF_FFFF_FFFF

  // A log as ingestion sees it: where it is, its transaction, and whether its event type is known.
  datatype Log = Log(txHash: string, block: nat, index: nat, known: bool)

  // The store's tables, and the history of logs whose handler ran successfully.
  datatype Store = Store(last: nat, processed: set<string>, failed: seq<Log>, handled: seq<Log>)

  type Handler = Log -> bool

  // One log: duplicates and unknown events are skipped, failures are dead-lettered without moving the
  // checkpoint, successes are marked and advance it, never backwards.
  function Process(st: Store, log: Log, handler: Handler): Store {
    if log.txHash in st.processed || !log.known then st
    else if !handler(log) then st.(failed := st.failed + [log])
    else Store(Max(st.last, log.block), st.processed + {log.txHash}, st.failed, st.handled + [log])
  }

  function ProcessAll(st: Store, logs: seq<Log>, handler: Handler): Store {
    if logs == [] then st else Process(ProcessAll(st, logs[..|logs| - 1], handler), logs[|logs| - 1], handler)
  }

  predicate InBlockOrder(chain: seq<Log>) { forall i, j :: 0 <= i < j < |chain| ==> chain[i].block <= chain[j].block }

  // eth_getLogs over a block range, in chain order.
  function LogsIn(chain: seq<Log>, from: int, to: int): seq<Log> {
    if chain == [] then []
    else
      var last := chain[|chain| - 1];
      LogsIn(chain[..|chain| - 1], from, to) + (if from <= last.block <= to then [last] else [])
  }

  lemma {:induction false} LogsInMembers(chain: seq<Log>, from: int, to: int, log: Log)
    ensures log in LogsIn(chain, from, to) <==> log in chain && from <= log.block <= to
  {
    if chain != [] {
      LogsInMembers(chain[..|chain| - 1], from, to, log);
      assert chain == chain[..|chain| - 1] + [chain[|chain| - 1]];
    }
  }

  lemma {:induction false} NothingAfter(chain: seq<Log>, top: int, from: int, to: int)
    requires forall i :: 0 <= i < |chain| ==> chain[i].block <= top
    requires top < from
    ensures LogsIn(chain, from, to) == []
  {
    if chain != [] {
      NothingAfter(chain[..|chain| - 1], top, from, to);
    }
  }

  // Consecutive windows read the same logs, in the same order, as one window over both.
  lemma {:induction false} WindowsJoin(chain: seq<Log>, from: int, mid: int, to: int)
    requires InBlockOrder(chain) && from <= mid + 1 && mid <= to
    ensures LogsIn(chain, from, mid) + LogsIn(chain, mid + 1, to) == LogsIn(chain, from, to)
  {
    if chain != [] {
      var front, last := chain[..|chain| - 1], chain[|chain| - 1];
      WindowsJoin(front, from, mid, to);
      if last.block <= mid {
        NothingAfter(front, last.block, mid + 1, to);
      }
    }
  }

  lemma {:induction false} EmptyWindow(chain: seq<Log>, from: int, to: int)
    requires to < from
    ensures LogsIn(chain, from, to) == []
  {
    if chain != [] {
      EmptyWindow(chain[..|chain| - 1], from, to);
    }
  }

  lemma {:induction false} ProcessAllAppend(st: Store, a: seq<Log>, b: seq<Log>, handler: Handler)
    ensures ProcessAll(st, a + b, handler) == ProcessAll(ProcessAll(st, a, handler), b, handler)
    decreases |b|
  {
    if b == [] {
      assert a + b == a;
    } else {
      var front := b[..|b| - 1];
      ProcessAllAppend(st, a, front, handler);
      assert (a + b)[..|a + b| - 1] == a + front;
    }
  }

  lemma ReadTwoWindows(st: Store, chain: seq<Log>, from: int, mid: int, to: int, handler: Handler)
    requires InBlockOrder(chain) && from <= mid + 1 && mid <= to
    ensures ProcessAll(ProcessAll(st, LogsIn(chain, from, mid), handler), LogsIn(chain, mid + 1, to), handler)
         == ProcessAll(st, LogsIn(chain, from, to), handler)
  {
    WindowsJoin(chain, from, mid, to);
    ProcessAllAppend(st, LogsIn(chain, from, mid), LogsIn(chain, mid + 1, to), handler);
  }

  datatype Window = Window(from: nat, to: nat)

  // Non-empty windows of at most one batch that follow one another without gap or overlap.
  predicate Tiles(ws: seq<Window>, from: nat, to: int) {
    && (forall i :: 0 <= i < |ws| ==> ws[i].from <= ws[i].to < ws[i].from + BATCH)
    && (forall i :: 0 <= i < |ws| - 1 ==> ws[i + 1].from == ws[i].to + 1)
    && (if ws == [] then to == from - 1 else ws[0].from == from && ws[|ws| - 1].to == to)
  }

  lemma OneMoreTile(ws: seq<Window>, from: nat, w: Window)
    requires Tiles(ws, from, w.from - 1) && w.from <= w.to < w.from + BATCH
    ensures Tiles(ws + [w], from, w.to)
  {
  }

  // Where the k-th window starts, in exact arithmetic.
  function WindowStart(start: nat, k: nat): nat { start + 1 + k * BATCH }

  // While the loop runs, the next window's start still fits 64 bits.
  ghost predicate NoWrap(start: nat, current: nat) {
    forall k: nat :: WindowStart(start, k) <= current ==> WindowStart(start, k + 1) <= MAX_UINT64
  }

  // The loop's arithmetic never wraps exactly when the first start past the current block fits. When it
  // does wrap, the loop goes on from a block below one batch, as if nothing had been read.
  lemma NoWrapExactly(start: nat, current: nat)
    requires current <= MAX_UINT64
    ensures NoWrap(start, current) <==> start >= current || WindowStart(start, (current - start - 1) / BATCH + 1) <= MAX_UINT64
    ensures forall k: nat :: WindowStart(start, k) <= current && WindowStart(start, k + 1) > MAX_UINT64 ==>
      WindowStart(start, k + 1) % (MAX_UINT64 + 1) < BATCH
  {
    if start < current {
      var last := (current - start - 1) / BATCH;
      assert WindowStart(start, last) <= current < WindowStart(start, last + 1);
      forall k: nat | WindowStart(start, k) <= current
        ensures k <= last
      {
      }
    }
    forall k: nat | WindowStart(start, k) <= current && WindowStart(start, k + 1) > MAX_UINT64
      ensures WindowStart(start, k + 1) % (MAX_UINT64 + 1) < BATCH
    {
      assert WindowStart(start, k + 1) - (MAX_UINT64 + 1) < BATCH;
    }
  }

  class CheckpointStore {
    var last: nat
    var processed: set<string>
    var failed: seq<Log>
    ghost var handled: seq<Log>

    ghost function View(): Store
      reads this
    {
      Store(last, processed, failed, handled)
    }

    constructor (deployment: nat)
      ensures View() == Store(deployment, {}, [], [])
    {
      last, processed, failed := deployment, {}, [];
      handled := [];
    }

    // WHERE block_number < $1: the checkpoint never regresses.
    method UpdateCheckpoint(block: nat)
      modifies `last
      ensures last == Max(old(last), block)
    {
      if last < block { last := block; }
    }

    method MarkProcessed(txHash: string)
      modifies `processed
      ensures processed == old(processed) + {txHash}
    {
      processed := processed + {txHash};
    }

    method SaveFailedEvent(log: Log)
      modifies `failed
      ensures failed == old(failed) + [log]
    {
      failed := failed + [log];
    }
  }

  class EventListener {
    const checkpoint: CheckpointStore

    constructor (checkpoint: CheckpointStore)
      ensures this.checkpoint == checkpoint
    {
      this.checkpoint := checkpoint;
    }

    method ProcessLog(log: Log, handler: Handler) returns (ok: bool)
      modifies checkpoint
      ensures checkpoint.View() == Process(old(checkpoint.View()), log, handler)
      ensures ok <==> log.txHash in old(checkpoint.processed) || !log.known || handler(log)
    {
      if log.txHash in checkpoint.processed { return true; }
      if !log.known { return true; }
      if !handler(log) {
        checkpoint.SaveFailedEvent(log);
        return false;
      }
      checkpoint.handled := checkpoint.handled + [log];
      checkpoint.MarkProcessed(log.txHash);
      checkpoint.UpdateCheckpoint(log.block);
      ok := true;
    }

    method ProcessWindow(chain: seq<Log>, w: Window, handler: Handler)
      modifies checkpoint
      ensures checkpoint.View() == ProcessAll(old(checkpoint.View()), LogsIn(chain, w.from, w.to), handler)
    {
      var logs := LogsIn(chain, w.from, w.to);
      for i := 0 to |logs|
        invariant checkpoint.View() == ProcessAll(old(checkpoint.View()), logs[..i], handler)
      {
        assert logs[..i + 1][..i] == logs[..i];
        var ok := ProcessLog(logs[i], handler);
      }
      assert logs[..|logs|] == logs;
    }

    // The windows tile the range from the checkpoint, and exactly the logs in it have been processed.
    ghost predicate ReadTo(st: Store, chain: seq<Log>, windows: seq<Window>, reached: nat, handler: Handler)
      reads checkpoint
    {
      && st.last <= reached
      && Tiles(windows, st.last + 1, reached)
      && checkpoint.View() == ProcessAll(st, LogsIn(chain, st.last + 1, reached), handler)
    }

    lemma ReadNothing(st: Store, chain: seq<Log>, handler: Handler)
      requires checkpoint.View() == st
      ensures ReadTo(st, chain, [], st.last, handler)
    {
      EmptyWindow(chain, st.last + 1, st.last);
    }

    method ReadWindow(ghost st: Store, chain: seq<Log>, ghost windows: seq<Window>, from: nat, to: nat, handler: Handler)
      requires InBlockOrder(chain) && 0 < from <= to < from + BATCH
      requires ReadTo(st, chain, windows, from - 1, handler)
      modifies checkpoint
      ensures ReadTo(st, chain, windows + [Window(from, to)], to, handler)
    {
      ReadTwoWindows(st, chain, st.last + 1, from - 1, to, handler);
      OneMoreTile(windows, st.last + 1, Window(from, to));
      ProcessWindow(chain, Window(from, to), handler);
    }

    // Reads windows until the current block, or until the query number `failsAt` fails: the whole range
    // exactly when no query fails.
    method Backfill(chain: seq<Log>, current: nat, failsAt: Option<nat>, handler: Handler)
      returns (windows: seq<Window>, reached: nat, ok: bool)
      requires InBlockOrder(chain)
      requires NoWrap(checkpoint.last, current)
      modifies checkpoint
      ensures ReadTo(old(checkpoint.View()), chain, windows, reached, handler)
      ensures reached <= Max(old(checkpoint.last), current)
      ensures ok ==> reached == Max(old(checkpoint.last), current)
      ensures !ok <==> failsAt == Some(|windows|) && old(checkpoint.last) < current && reached < current
    {
      var start := checkpoint.last;
      ghost var st := checkpoint.View();
      windows, reached, ok := [], start, true;
      ReadNothing(st, chain, handler);
      if start >= current { return; }
      var from := start + 1;
      ghost var k: nat := 0;
      while from <= current
        invariant from == WindowStart(start, k) && start < from && reached == Min(from - 1, current)
        invariant ReadTo(st, chain, windows, reached, handler)
        decreases current + BATCH - from
      {
        var to := from + BATCH - 1;
        if to > current { to := current; }
        if failsAt == Some(|windows|) {
          ok := false;
          return;
        }
        ReadWindow(st, chain, windows, from, to, handler);
        windows := windows + [Window(from, to)];
        reached := to;
        assert WindowStart(start, k + 1) <= MAX_UINT64;
        from := from + BATCH;
        k := k + 1;
      }
    }
  }

  // ---- Coverage ----

  // A log the system owes nothing for: its transaction is marked, or it is in the dead-letter queue.
  predicate Accounted(st: Store, log: Log) { log.txHash in st.processed || log in st.failed }

  lemma {:induction false} ProcessAllGrows(st: Store, logs: seq<Log>, handler: Handler)
    ensures st.last <= ProcessAll(st, logs, handler).last
    ensures st.processed <= ProcessAll(st, logs, handler).processed
    ensures st.failed <= ProcessAll(st, logs, handler).failed
  {
    if logs != [] {
      ProcessAllGrows(st, logs[..|logs| - 1], handler);
    }
  }

  lemma {:induction false} ProcessAllStaysBelow(st: Store, logs: seq<Log>, handler: Handler, height: nat)
    requires forall i :: 0 <= i < |logs| ==> logs[i].block <= height
    ensures ProcessAll(st, logs, handler).last <= Max(st.last, height)
  {
    if logs != [] {
      ProcessAllStaysBelow(st, logs[..|logs| - 1], handler, height);
    }
  }

  lemma {:induction false} ProcessAllAccounts(st: Store, logs: seq<Log>, handler: Handler, log: Log)
    requires log in logs && log.known
    ensures Accounted(ProcessAll(st, logs, handler), log)
  {
    var front, last := logs[..|logs| - 1], logs[|logs| - 1];
    assert logs == front + [last];
    if log in front {
      ProcessAllAccounts(st, front, handler, log);
    }
  }

  // One backfill up to any height: completed, cut short by a failing query, or crashed between blocks.
  function BackfillTo(st: Store, chain: seq<Log>, height: nat, handler: Handler): Store {
    if st.last >= height then st else ProcessAll(st, LogsIn(chain, st.last + 1, height), handler)
  }

  // Every known log of the chain at or below a height is accounted for.
  predicate CoveredTo(st: Store, chain: seq<Log>, height: int) {
    forall log :: log in chain && log.known && log.block <= height ==> Accounted(st, log)
  }

  lemma BackfillKeeps(st: Store, chain: seq<Log>, height: nat, handler: Handler, log: Log)
    requires Accounted(st, log)
    ensures Accounted(BackfillTo(st, chain, height, handler), log)
  {
    ProcessAllGrows(st, LogsIn(chain, st.last + 1, height), handler);
  }

  lemma NewlyAccounted(st: Store, chain: seq<Log>, height: nat, handler: Handler, log: Log)
    requires log in chain && log.known && st.last < log.block <= height
    ensures Accounted(BackfillTo(st, chain, height, handler), log)
  {
    var logs := LogsIn(chain, st.last + 1, height);
    LogsInMembers(chain, st.last + 1, height, log);
    assert BackfillTo(st, chain, height, handler) == ProcessAll(st, logs, handler);
    ProcessAllAccounts(st, logs, handler, log);
  }

  lemma BackfillAccountsFor(st: Store, chain: seq<Log>, height: nat, handler: Handler, log: Log)
    requires CoveredTo(st, chain, st.last)
    requires log in chain && log.known && log.block <= height
    ensures Accounted(BackfillTo(st, chain, height, handler), log)
  {
    if log.block > st.last {
      NewlyAccounted(st, chain, height, handler, log);
    } else {
      BackfillKeeps(st, chain, height, handler, log);
    }
  }
  lemma BackfillAccounts(st: Store, chain: seq<Log>, height: nat, handler: Handler)
    requires CoveredTo(st, chain, st.last)
    ensures CoveredTo(BackfillTo(st, chain, height, handler), chain, height)
  {
    forall log | log in chain && log.known && log.block <= height
      ensures Accounted(BackfillTo(st, chain, height, handler), log)
    {
      BackfillAccountsFor(st, chain, height, handler, log);
    }
  }

  lemma BackfillStaysBelow(st: Store, chain: seq<Log>, height: nat, handler: Handler)
    ensures st.last <= BackfillTo(st, chain, height, handler).last <= Max(st.last, height)
  {
    var logs := LogsIn(chain, st.last + 1, height);
    ProcessAllGrows(st, logs, handler);
    forall i | 0 <= i < |logs|
      ensures logs[i].block <= height
    {
      LogsInMembers(chain, st.last + 1, height, logs[i]);
    }
    ProcessAllStaysBelow(st, logs, handler, height);
  }

  // A backfill accounts for everything up to the height it reached, so wherever it leaves the
  // checkpoint, nothing below the checkpoint is lost.
  lemma BackfillCovers(st: Store, chain: seq<Log>, height: nat, handler: Handler)
    requires CoveredTo(st, chain, st.last)
    ensures var st' := BackfillTo(st, chain, height, handler);
      && CoveredTo(st', chain, height) && CoveredTo(st', chain, st'.last)
      && st.last <= st'.last <= Max(st.last, height)
  {
    BackfillAccounts(st, chain, height, handler);
    BackfillStaysBelow(st, chain, height, handler);
  }

  datatype Attempt = Attempt(height: nat, handler: Handler)

  function AfterAttempts(st: Store, chain: seq<Log>, attempts: seq<Attempt>): Store
    decreases |attempts|
  {
    if attempts == [] then st
    else AfterAttempts(BackfillTo(st, chain, attempts[0].height, attempts[0].handler), chain, attempts[1..])
  }

  lemma {:induction false} AttemptsKeep(st: Store, chain: seq<Log>, attempts: seq<Attempt>)
    ensures st.processed <= AfterAttempts(st, chain, attempts).processed
    ensures st.failed <= AfterAttempts(st, chain, attempts).failed
    decreases |attempts|
  {
    if attempts != [] {
      var mid := BackfillTo(st, chain, attempts[0].height, attempts[0].handler);
      ProcessAllGrows(st, LogsIn(chain, st.last + 1, attempts[0].height), attempts[0].handler);
      AttemptsKeep(mid, chain, attempts[1..]);
    }
  }

  // After any sequence of backfills, whatever fails in the handlers and wherever between blocks each
  // one ends: nothing at or below the checkpoint is lost, and the checkpoint never decreases.
  lemma {:induction false} EveryRunCovers(st: Store, chain: seq<Log>, attempts: seq<Attempt>)
    requires CoveredTo(st, chain, st.last)
    ensures var st' := AfterAttempts(st, chain, attempts);
      st.last <= st'.last && CoveredTo(st', chain, st'.last)
    ensures forall i :: 0 <= i < |attempts| ==>
      CoveredTo(AfterAttempts(st, chain, attempts), chain, attempts[i].height)
    decreases |attempts|
  {
    if attempts != [] {
      var mid := BackfillTo(st, chain, attempts[0].height, attempts[0].handler);
      BackfillCovers(st, chain, attempts[0].height, attempts[0].handler);
      EveryRunCovers(mid, chain, attempts[1..]);
      AttemptsKeep(mid, chain, attempts[1..]);
      forall i | 0 <= i < |attempts|
        ensures CoveredTo(AfterAttempts(st, chain, attempts), chain, attempts[i].height)
      {
        if i > 0 {
          assert attempts[1..][i - 1] == attempts[i];
        }
      }
    }
  }

  // The other known logs that one log's block would move below the checkpoint.
  ghost predicate OthersAccounted(st: Store, chain: seq<Log>, log: Log) {
    forall other :: Overtaken(st, chain, log, other) ==> Accounted(st, other)
  }

  predicate Overtaken(st: Store, chain: seq<Log>, log: Log, other: Log) {
    other in chain && other.known && st.last < other.block <= log.block && other.txHash != log.txHash
  }

  // One log on its own, live or just before a crash inside its block, keeps the checkpoint honest
  // exactly when every other known log that its block moves below the checkpoint was already
  // accounted for. So a live log after a failed backfill, or a crash inside a block, loses logs.
  lemma OneLogCovers(st: Store, chain: seq<Log>, log: Log, handler: Handler)
    requires CoveredTo(st, chain, st.last)
    requires log in chain && log.known && log.txHash !in st.processed && handler(log)
    ensures var st' := Process(st, log, handler);
      CoveredTo(st', chain, st'.last) <==> OthersAccounted(st, chain, log)
  {
    var st' := Process(st, log, handler);
    if CoveredTo(st', chain, st'.last) {
      forall other | Overtaken(st, chain, log, other)
        ensures Accounted(st, other)
      {
        assert Accounted(st', other);
      }
    }
    if OthersAccounted(st, chain, log) {
      forall other | other in chain && other.known && other.block <= st'.last
        ensures Accounted(st', other)
      {
        assert Overtaken(st, chain, log, other) || other.block <= st.last || other.txHash == log.txHash;
      }
    }
  }

  // ---- Runs with live logs and crashes ----

  // A crash while one log is processed: after its handler, before the mark or between the mark and the
  // checkpoint. What the handler did stays.
  function CrashIn(st: Store, log: Log, handler: Handler, marked: bool): Store {
    if log.txHash in st.processed || !log.known || !handler(log) then Process(st, log, handler)
    else st.(processed := if marked then st.processed + {log.txHash} else st.processed, handled := st.handled + [log])
  }

  // Backfills up to a height, single logs (live, or of a backfill cut short inside a block), and crashes.
  datatype Work =
    | Backfilled(height: nat, handler: Handler)
    | Delivered(log: Log, handler: Handler)
    | Crashed(log: Log, handler: Handler, marked: bool)

  function AfterWork(st: Store, chain: seq<Log>, w: Work): Store {
    match w
    case Backfilled(height, handler) => BackfillTo(st, chain, height, handler)
    case Delivered(log, handler) => Process(st, log, handler)
    case Crashed(log, handler, marked) => CrashIn(st, log, handler, marked)
  }

  function AfterRun(st: Store, chain: seq<Log>, ws: seq<Work>): Store
    decreases |ws|
  {
    if ws == [] then st else AfterRun(AfterWork(st, chain, ws[0]), chain, ws[1..])
  }

  predicate TakesEffect(st: Store, log: Log, handler: Handler) {
    log.known && log.txHash !in st.processed && handler(log)
  }

  // A single log comes in turn: nothing known is overtaken by the checkpoint it moves.
  ghost predicate InTurn(st: Store, chain: seq<Log>, w: Work) {
    w.Delivered? && TakesEffect(st, w.log, w.handler) ==> OthersAccounted(st, chain, w.log)
  }

  ghost predicate AllInTurn(st: Store, chain: seq<Log>, ws: seq<Work>)
    decreases |ws|
  {
    ws == [] || (InTurn(st, chain, ws[0]) && AllInTurn(AfterWork(st, chain, ws[0]), chain, ws[1..]))
  }

  predicate CoveredThroughout(st: Store, chain: seq<Log>, ws: seq<Work>)
    decreases |ws|
  {
    CoveredTo(st, chain, st.last) && (ws == [] || CoveredThroughout(AfterWork(st, chain, ws[0]), chain, ws[1..]))
  }

  predicate OfChain(chain: seq<Log>, ws: seq<Work>) {
    forall i :: 0 <= i < |ws| && !ws[i].Backfilled? ==> ws[i].log in chain
  }

  lemma WorkCovers(st: Store, chain: seq<Log>, w: Work)
    requires CoveredTo(st, chain, st.last) && (w.Backfilled? || w.log in chain)
    ensures var st' := AfterWork(st, chain, w); CoveredTo(st', chain, st'.last) <==> InTurn(st, chain, w)
  {
    match w
    case Backfilled(height, handler) => BackfillCovers(st, chain, height, handler);
    case Delivered(log, handler) =>
      if TakesEffect(st, log, handler) {
        OneLogCovers(st, chain, log, handler);
      } else {
        OldAccountsStay(st, AfterWork(st, chain, w), chain);
      }
    case Crashed(log, handler, marked) => OldAccountsStay(st, AfterWork(st, chain, w), chain);
  }

  lemma OldAccountsStay(st: Store, st': Store, chain: seq<Log>)
    requires CoveredTo(st, chain, st.last) && st'.last == st.last && st.processed <= st'.processed && st.failed <= st'.failed
    ensures CoveredTo(st', chain, st'.last)
  {
    forall log | log in chain && log.known && log.block <= st'.last
      ensures Accounted(st', log)
    {
      assert Accounted(st, log);
    }
  }

  // Over any run of backfills, live logs and crashes: nothing at or below the checkpoint is ever lost
  // exactly when every single log comes in turn.
  lemma {:induction false} RunCoversExactly(st: Store, chain: seq<Log>, ws: seq<Work>)
    requires CoveredTo(st, chain, st.last) && OfChain(chain, ws)
    ensures CoveredThroughout(st, chain, ws) <==> AllInTurn(st, chain, ws)
    decreases |ws|
  {
    if ws != [] {
      var st' := AfterWork(st, chain, ws[0]);
      WorkCovers(st, chain, ws[0]);
      assert OfChain(chain, ws[1..]) by { assert forall i :: 0 <= i < |ws[1..]| ==> ws[1..][i] == ws[i + 1]; }
      if CoveredTo(st', chain, st'.last) {
        RunCoversExactly(st', chain, ws[1..]);
      }
    }
  }

  // ---- Exactly once, per transaction ----

  predicate OncePerTx(st: Store) {
    && (forall i, j :: 0 <= i < j < |st.handled| ==> st.handled[i].txHash != st.handled[j].txHash)
    && (forall i :: 0 <= i < |st.handled| ==> st.handled[i].txHash in st.processed && st.handled[i].known)
    && (forall tx :: tx in st.processed ==> exists i :: 0 <= i < |st.handled| && st.handled[i].txHash == tx)
  }

  lemma {:induction false} HandledOnce(st: Store, logs: seq<Log>, handler: Handler)
    requires OncePerTx(st)
    ensures OncePerTx(ProcessAll(st, logs, handler))
  {
    if logs != [] {
      HandledOnce(st, logs[..|logs| - 1], handler);
      var mid, last := ProcessAll(st, logs[..|logs| - 1], handler), logs[|logs| - 1];
      var st' := Process(mid, last, handler);
      if st'.handled != mid.handled {
        forall tx | tx in st'.processed
          ensures exists i :: 0 <= i < |st'.handled| && st'.handled[i].txHash == tx
        {
          if tx == last.txHash {
            assert st'.handled[|mid.handled|].txHash == tx;
          } else {
            var i :| 0 <= i < |mid.handled| && mid.handled[i].txHash == tx;
            assert st'.handled[i].txHash == tx;
          }
        }
      }
    }
  }

  // What can still go wrong after a crash: some transaction was handled twice, or was handled and is not
  // marked, so that its next delivery handles it again.
  predicate HandledTwice(st: Store) {
    exists i, j :: 0 <= i < j < |st.handled| && st.handled[i].txHash == st.handled[j].txHash
  }

  predicate Unmarked(st: Store) { exists i :: 0 <= i < |st.handled| && st.handled[i].txHash !in st.processed }

  predicate KnownHandled(st: Store) { forall i :: 0 <= i < |st.handled| ==> st.handled[i].known }

  // Whatever is delivered from here on, each transaction is handled successfully at most once.
  ghost predicate AtMostOnceForever(st: Store) {
    forall logs: seq<Log>, handler: Handler :: !HandledTwice(ProcessAll(st, logs, handler))
  }

  lemma ProcessStaysSafe(st: Store, log: Log, handler: Handler)
    requires !HandledTwice(st) && !Unmarked(st) && KnownHandled(st)
    ensures var st' := Process(st, log, handler); !HandledTwice(st') && !Unmarked(st') && KnownHandled(st')
  {
    var st' := Process(st, log, handler);
    forall i, j | 0 <= i < j < |st'.handled|
      ensures st'.handled[i].txHash != st'.handled[j].txHash
    {
      assert st'.handled[i] == st.handled[i] && st.handled[i].txHash in st.processed;
    }
    forall i | 0 <= i < |st'.handled|
      ensures st'.handled[i].txHash in st'.processed
    {
      assert i < |st.handled| ==> st.handled[i].txHash in st.processed;
    }
  }

  lemma {:induction false} ProcessAllStaysSafe(st: Store, logs: seq<Log>, handler: Handler)
    requires !HandledTwice(st) && !Unmarked(st) && KnownHandled(st)
    ensures var st' := ProcessAll(st, logs, handler); !HandledTwice(st') && !Unmarked(st') && KnownHandled(st')
  {
    if logs != [] {
      ProcessAllStaysSafe(st, logs[..|logs| - 1], handler);
      ProcessStaysSafe(ProcessAll(st, logs[..|logs| - 1], handler), logs[|logs| - 1], handler);
    }
  }

  lemma ProcessStaysBad(st: Store, log: Log, handler: Handler)
    requires HandledTwice(st) || Unmarked(st)
    ensures HandledTwice(Process(st, log, handler)) || Unmarked(Process(st, log, handler))
  {
    var st' := Process(st, log, handler);
    if HandledTwice(st) {
      var i, j :| 0 <= i < j < |st.handled| && st.handled[i].txHash == st.handled[j].txHash;
      assert st'.handled[i].txHash == st'.handled[j].txHash;
    } else {
      var i :| 0 <= i < |st.handled| && st.handled[i].txHash !in st.processed;
      if st'.handled[i].txHash in st'.processed {
        assert st'.handled[i].txHash == st'.handled[|st.handled|].txHash;
      }
    }
  }

  lemma {:induction false} ProcessAllStaysBad(st: Store, logs: seq<Log>, handler: Handler)
    requires HandledTwice(st) || Unmarked(st)
    ensures HandledTwice(ProcessAll(st, logs, handler)) || Unmarked(ProcessAll(st, logs, handler))
  {
    if logs != [] {
      ProcessAllStaysBad(st, logs[..|logs| - 1], handler);
      ProcessStaysBad(ProcessAll(st, logs[..|logs| - 1], handler), logs[|logs| - 1], handler);
    }
  }

  lemma AtMostOnceExactly(st: Store)
    requires KnownHandled(st)
    ensures AtMostOnceForever(st) <==> !HandledTwice(st) && !Unmarked(st)
  {
    if !HandledTwice(st) && !Unmarked(st) {
      forall logs: seq<Log>, handler: Handler
        ensures !HandledTwice(ProcessAll(st, logs, handler))
      {
        ProcessAllStaysSafe(st, logs, handler);
      }
    }
    if HandledTwice(st) {
      assert ProcessAll(st, [], _ => true) == st;
    } else if Unmarked(st) {
      DeliveredAgain(st);
    }
  }

  lemma DeliveredAgain(st: Store)
    requires KnownHandled(st) && Unmarked(st)
    ensures !AtMostOnceForever(st)
  {
    var i :| 0 <= i < |st.handled| && st.handled[i].txHash !in st.processed;
    var log, handler := st.handled[i], (x: Log) => true;
    var one := [log];
    var st' := ProcessAll(st, one, handler);
    assert one[..|one| - 1] == [] && one[|one| - 1] == log;
    assert st' == Process(ProcessAll(st, [], handler), log, handler) == Process(st, log, handler);
    assert st'.handled[i].txHash == st'.handled[|st.handled|].txHash;
  }

  // A crash between a success and its mark.
  predicate LosesMark(st: Store, w: Work) { w.Crashed? && !w.marked && TakesEffect(st, w.log, w.handler) }

  predicate NoMarkLost(st: Store, chain: seq<Log>, ws: seq<Work>)
    decreases |ws|
  {
    ws == [] || (!LosesMark(st, ws[0]) && NoMarkLost(AfterWork(st, chain, ws[0]), chain, ws[1..]))
  }

  lemma WorkStaysSafe(st: Store, chain: seq<Log>, w: Work)
    requires !HandledTwice(st) && !Unmarked(st) && KnownHandled(st) && !LosesMark(st, w)
    ensures var st' := AfterWork(st, chain, w); !HandledTwice(st') && !Unmarked(st') && KnownHandled(st')
  {
    match w
    case Backfilled(height, handler) => ProcessAllStaysSafe(st, LogsIn(chain, st.last + 1, height), handler);
    case Delivered(log, handler) => ProcessStaysSafe(st, log, handler);
    case Crashed(log, handler, marked) => ProcessStaysSafe(st, log, handler);
  }

  lemma WorkStaysBad(st: Store, chain: seq<Log>, w: Work)
    requires HandledTwice(st) || Unmarked(st)
    ensures HandledTwice(AfterWork(st, chain, w)) || Unmarked(AfterWork(st, chain, w))
  {
    match w
    case Backfilled(height, handler) => ProcessAllStaysBad(st, LogsIn(chain, st.last + 1, height), handler);
    case Delivered(log, handler) => ProcessStaysBad(st, log, handler);
    case Crashed(log, handler, marked) => CrashStaysBad(st, log, handler, marked);
  }

  lemma CrashStaysBad(st: Store, log: Log, handler: Handler, marked: bool)
    requires HandledTwice(st) || Unmarked(st)
    ensures HandledTwice(CrashIn(st, log, handler, marked)) || Unmarked(CrashIn(st, log, handler, marked))
  {
    var st' := CrashIn(st, log, handler, marked);
    if HandledTwice(st) {
      var i, j :| 0 <= i < j < |st.handled| && st.handled[i].txHash == st.handled[j].txHash;
      assert st'.handled[i].txHash == st'.handled[j].txHash;
    } else {
      var i :| 0 <= i < |st.handled| && st.handled[i].txHash !in st.processed;
      if st'.handled[i].txHash in st'.processed {
        assert st'.handled[i].txHash == st'.handled[|st.handled|].txHash;
      }
    }
  }

  lemma WorkKeepsKnown(st: Store, chain: seq<Log>, w: Work)
    requires KnownHandled(st)
    ensures KnownHandled(AfterWork(st, chain, w))
  {
    if w.Backfilled? {
      ProcessAllKnown(st, LogsIn(chain, st.last + 1, w.height), w.handler);
    }
  }

  lemma {:induction false} ProcessAllKnown(st: Store, logs: seq<Log>, handler: Handler)
    requires KnownHandled(st)
    ensures KnownHandled(ProcessAll(st, logs, handler))
  {
    if logs != [] {
      ProcessAllKnown(st, logs[..|logs| - 1], handler);
    }
  }

  lemma {:induction false} RunStaysBad(st: Store, chain: seq<Log>, ws: seq<Work>)
    requires HandledTwice(st) || Unmarked(st)
    ensures HandledTwice(AfterRun(st, chain, ws)) || Unmarked(AfterRun(st, chain, ws))
    decreases |ws|
  {
    if ws != [] {
      WorkStaysBad(st, chain, ws[0]);
      RunStaysBad(AfterWork(st, chain, ws[0]), chain, ws[1..]);
    }
  }

  // Over any run of backfills, live logs and crashes, each transaction is handled at most once, then
  // and after whatever is delivered later, exactly when no crash fell between a success and its mark.
  lemma {:induction false} HandledAtMostOnceExactly(st: Store, chain: seq<Log>, ws: seq<Work>)
    requires !HandledTwice(st) && !Unmarked(st) && KnownHandled(st)
    ensures AtMostOnceForever(AfterRun(st, chain, ws)) <==> NoMarkLost(st, chain, ws)
    ensures KnownHandled(AfterRun(st, chain, ws))
    decreases |ws|
  {
    if ws == [] {
      AtMostOnceExactly(st);
    } else {
      var st' := AfterWork(st, chain, ws[0]);
      WorkKeepsKnown(st, chain, ws[0]);
      if LosesMark(st, ws[0]) {
        assert st'.handled[|st.handled|] == ws[0].log;
        RunStaysBad(st', chain, ws[1..]);
        RunKeepsKnown(st', chain, ws[1..]);
        AtMostOnceExactly(AfterRun(st, chain, ws));
      } else {
        WorkStaysSafe(st, chain, ws[0]);
        HandledAtMostOnceExactly(st', chain, ws[1..]);
      }
    }
  }

  lemma {:induction false} RunKeepsKnown(st: Store, chain: seq<Log>, ws: seq<Work>)
    requires KnownHandled(st)
    ensures KnownHandled(AfterRun(st, chain, ws))
    decreases |ws|
  {
    if ws != [] {
      WorkKeepsKnown(st, chain, ws[0]);
      RunKeepsKnown(AfterWork(st, chain, ws[0]), chain, ws[1..]);
    }
  }

  lemma {:induction false} NothingFails(st: Store, logs: seq<Log>, handler: Handler)
    requires forall log :: handler(log)
    ensures ProcessAll(st, logs, handler).failed == st.failed
  {
    if logs != [] {
      NothingFails(st, logs[..|logs| - 1], handler);
    }
  }

  lemma {:induction false} HandledComeFrom(st: Store, logs: seq<Log>, handler: Handler, log: Log)
    requires log in ProcessAll(st, logs, handler).handled && log !in st.handled
    ensures log in logs
  {
    if logs != [] {
      var front := logs[..|logs| - 1];
      assert logs == front + [logs[|logs| - 1]];
      if log in ProcessAll(st, front, handler).handled {
        HandledComeFrom(st, front, handler, log);
      }
    }
  }

  function Fresh(deployment: nat): Store { Store(deployment, {}, [], []) }

  predicate InRange(chain: seq<Log>, from: nat, height: nat, log: Log) {
    log in chain && log.known && from < log.block <= height
  }

  ghost predicate NoSharedTx(chain: seq<Log>, from: nat, height: nat) {
    forall a, b :: InRange(chain, from, height, a) && InRange(chain, from, height, b) && a.txHash == b.txHash ==> a == b
  }

  ghost predicate AllHandled(st: Store, chain: seq<Log>, from: nat, height: nat) {
    forall log :: InRange(chain, from, height, log) ==> log in st.handled
  }

  // What a first backfill from the deployment block, without handler failures, leaves behind.
  lemma FirstBackfillOnce(chain: seq<Log>, from: nat, height: nat, handler: Handler)
    requires forall log :: handler(log)
    ensures var st := BackfillTo(Fresh(from), chain, height, handler); OncePerTx(st) && st.failed == []
  {
    HandledOnce(Fresh(from), LogsIn(chain, from + 1, height), handler);
    NothingFails(Fresh(from), LogsIn(chain, from + 1, height), handler);
  }

  lemma HandledInRange(chain: seq<Log>, from: nat, height: nat, handler: Handler, log: Log)
    requires var st := BackfillTo(Fresh(from), chain, height, handler); OncePerTx(st) && log in st.handled
    ensures InRange(chain, from, height, log)
  {
    var st := BackfillTo(Fresh(from), chain, height, handler);
    HandledComeFrom(Fresh(from), LogsIn(chain, from + 1, height), handler, log);
    LogsInMembers(chain, from + 1, height, log);
    var i :| 0 <= i < |st.handled| && st.handled[i] == log;
  }

  lemma FirstBackfill(chain: seq<Log>, from: nat, height: nat, handler: Handler)
    requires forall log :: handler(log)
    ensures var st := BackfillTo(Fresh(from), chain, height, handler);
      OncePerTx(st) && st.failed == []
    ensures forall log :: log in BackfillTo(Fresh(from), chain, height, handler).handled
                      ==> InRange(chain, from, height, log)
    ensures forall log :: InRange(chain, from, height, log)
                      ==> log.txHash in BackfillTo(Fresh(from), chain, height, handler).processed
  {
    var st := BackfillTo(Fresh(from), chain, height, handler);
    FirstBackfillOnce(chain, from, height, handler);
    forall log | log in st.handled
      ensures InRange(chain, from, height, log)
    {
      HandledInRange(chain, from, height, handler, log);
    }
    forall log | InRange(chain, from, height, log)
      ensures log.txHash in st.processed
    {
      NewlyAccounted(Fresh(from), chain, height, handler, log);
    }
  }

  // Deduplication is per transaction: with a handler that never fails, a first backfill hands every
  // known log in its range to the handler exactly when no two of them share a transaction.
  lemma AllHandledIffOnePerTx(chain: seq<Log>, from: nat, height: nat, handler: Handler)
    requires forall log :: handler(log)
    ensures AllHandled(BackfillTo(Fresh(from), chain, height, handler), chain, from, height)
       <==> NoSharedTx(chain, from, height)
  {
    var st := BackfillTo(Fresh(from), chain, height, handler);
    FirstBackfill(chain, from, height, handler);
    if NoSharedTx(chain, from, height) {
      forall log | InRange(chain, from, height, log)
        ensures log in st.handled
      {
        var i :| 0 <= i < |st.handled| && st.handled[i].txHash == log.txHash;
        assert InRange(chain, from, height, st.handled[i]);
      }
    }
    if AllHandled(st, chain, from, height) {
      forall a, b | InRange(chain, from, height, a) && InRange(chain, from, height, b) && a.txHash == b.txHash
        ensures a == b
      {
        var i :| 0 <= i < |st.handled| && st.handled[i] == a;
        var j :| 0 <= j < |st.handled| && st.handled[j] == b;
        assert i == j;
      }
    }
  }
}
