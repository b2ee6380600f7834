/**
 Ingestion and indexer together: what a run of backfills, live logs and crashes, with everything it
 delivers again, leaves in the history tables.
 */
module Delivery {
  import opened Outcomes
  import opened Rental
  import opened Ingestion
  import opened Indexer

  type Decoder = Log -> Event

  // The known logs of the chain, in its order.
  function Known(chain: seq<Log>): seq<Log> {
    if chain == [] then []
    else
      var last := chain[|chain| - 1];
      Known(chain[..|chain| - 1]) + (if last.known then [last] else [])
  }

  function Events(logs: seq<Log>, decode: Decoder): (events: seq<Event>)
    ensures |events| == |logs| && forall i :: 0 <= i < |logs| ==> events[i] == decode(logs[i])
  {
    seq(|logs|, i requires 0 <= i < |logs| => decode(logs[i]))
  }

  lemma {:induction false} KnownMembers(chain: seq<Log>, log: Log)
    ensures log in Known(chain) <==> log in chain && log.known
  {
    if chain != [] {
      KnownMembers(chain[..|chain| - 1], log);
      assert chain == chain[..|chain| - 1] + [chain[|chain| - 1]];
    }
  }

  lemma {:induction false} KnownPrefix(chain: seq<Log>, n: nat)
    requires n <= |chain|
    ensures Known(chain[..n]) <= Known(chain)
  {
    if n == |chain| {
      assert chain[..n] == chain;
    } else {
      KnownPrefix(chain[..|chain| - 1], n);
      assert chain[..|chain| - 1][..n] == chain[..n];
    }
  }

  // A known log's place among the known logs.
  lemma PlaceOf(chain: seq<Log>, n: nat)
    requires n < |chain| && chain[n].known
    ensures var k := |Known(chain[..n])|; k < |Known(chain)| && Known(chain)[k] == chain[n]
  {
    assert chain[..n + 1][..n] == chain[..n];
    KnownPrefix(chain, n + 1);
  }

  // A chain the contract can have emitted: blocks in order, one known log per transaction, and its
  // events with one stop per rental, after its start.
  predicate Emitted(chain: seq<Log>, decode: Decoder) {
    && InBlockOrder(chain)
    && (forall p, q :: 0 <= p < q < |Known(chain)| ==> Known(chain)[p].txHash != Known(chain)[q].txHash)
    && ContractOrder(Events(Known(chain), decode))
  }

  // How many different events have been handled.
  function Frontier(st: Store, decode: Decoder): nat { |Firsts(Events(st.handled, decode))| }

  // What was handled so far is, first occurrences only, exactly the first k known logs of the chain.
  predicate HandledTo(st: Store, chain: seq<Log>, decode: Decoder, k: nat) {
    && k <= |Known(chain)|
    && st.failed == []
    && Firsts(Events(st.handled, decode)) == Events(Known(chain), decode)[..k]
    && (forall tx :: tx in st.processed ==> exists p :: 0 <= p < k && Known(chain)[p].txHash == tx)
  }

  lemma FrontierIs(st: Store, chain: seq<Log>, decode: Decoder, k: nat)
    requires HandledTo(st, chain, decode, k)
    ensures Frontier(st, decode) == k
  {
  }

  lemma OneMoreEvent(handled: seq<Log>, log: Log, decode: Decoder)
    ensures Firsts(Events(handled + [log], decode))
         == Firsts(Events(handled, decode)) + (if decode(log) in Events(handled, decode) then [] else [decode(log)])
  {
    assert Events(handled + [log], decode) == Events(handled, decode) + [decode(log)];
    OneMoreFirst(Events(handled, decode), decode(log));
  }

  // The first k known events contain the q-th exactly when q is below k.
  lemma PrefixContains(events: seq<Event>, k: nat, q: nat)
    requires NoRepeats(events) && k <= |events| && q < |events|
    ensures events[q] in events[..k] <==> q < k
  {
    if q < k {
      assert events[..k][q] == events[q];
    }
  }

  // Handling a known log whose predecessors are all handled: it is the next one, or one again.
  lemma HandleNext(st: Store, st': Store, chain: seq<Log>, decode: Decoder, k: nat, q: nat)
    requires Emitted(chain, decode) && HandledTo(st, chain, decode, k) && q <= k && q < |Known(chain)|
    requires st'.handled == st.handled + [Known(chain)[q]] && st'.failed == []
    requires st.processed <= st'.processed <= st.processed + {Known(chain)[q].txHash}
    ensures HandledTo(st', chain, decode, if q < k then k else k + 1)
  {
    var log, all := Known(chain)[q], Events(Known(chain), decode);
    var before := Events(st.handled, decode);
    OneMoreEvent(st.handled, log, decode);
    FirstsMembers(before, decode(log));
    PrefixContains(all, k, q);
    assert all[q] == decode(log);
    if q == k { assert all[..k + 1] == all[..k] + [all[k]]; }
    MarksHandled(st, st', chain, decode, k, q);
  }

  lemma MarksHandled(st: Store, st': Store, chain: seq<Log>, decode: Decoder, k: nat, q: nat)
    requires HandledTo(st, chain, decode, k) && q <= k && q < |Known(chain)|
    requires st'.processed <= st.processed + {Known(chain)[q].txHash}
    ensures forall tx :: tx in st'.processed ==> exists p :: 0 <= p < (if q < k then k else k + 1) && Known(chain)[p].txHash == tx
  {
    forall tx | tx in st'.processed
      ensures exists p :: 0 <= p < (if q < k then k else k + 1) && Known(chain)[p].txHash == tx
    {
      if tx == Known(chain)[q].txHash {
        assert q < (if q < k then k else k + 1);
      } else {
        var p :| 0 <= p < k && Known(chain)[p].txHash == tx;
      }
    }
  }

  // A duplicate is one of those already handled.
  lemma SkippedIsHandled(st: Store, chain: seq<Log>, decode: Decoder, k: nat, q: nat)
    requires Emitted(chain, decode) && HandledTo(st, chain, decode, k) && q < |Known(chain)|
    requires Known(chain)[q].txHash in st.processed
    ensures q < k
  {
    var p :| 0 <= p < k && Known(chain)[p].txHash == Known(chain)[q].txHash;
    assert p == q;
  }

  ghost predicate NeverFails(handler: Handler) { forall log :: handler(log) }

  // One single log, processed or cut short by a crash, of which all predecessors are handled.
  lemma SingleLog(st: Store, st': Store, chain: seq<Log>, decode: Decoder, k: nat, n: nat, handler: Handler, marked: bool)
    requires Emitted(chain, decode) && HandledTo(st, chain, decode, k) && NeverFails(handler)
    requires n < |chain| && (TakesEffect(st, chain[n], handler) ==> |Known(chain[..n])| <= k)
    requires st' == Process(st, chain[n], handler) || st' == CrashIn(st, chain[n], handler, marked)
    ensures var k' := Frontier(st', decode);
      k <= k' && HandledTo(st', chain, decode, k') && (chain[n].known ==> |Known(chain[..n])| < k')
  {
    var q := |Known(chain[..n])|;
    if chain[n].known {
      PlaceOf(chain, n);
      if chain[n].txHash in st.processed {
        SkippedIsHandled(st, chain, decode, k, q);
        FrontierIs(st', chain, decode, k);
      } else {
        HandleNext(st, st', chain, decode, k, q);
        FrontierIs(st', chain, decode, if q < k then k else k + 1);
      }
    } else {
      FrontierIs(st', chain, decode, k);
    }
  }

  // The known logs among the first n of the chain, up to a height, are handled.
  predicate HandledBelow(chain: seq<Log>, n: nat, height: int, k: nat)
    requires n <= |chain|
  {
    forall m :: 0 <= m < n && chain[m].known && chain[m].block <= height ==> |Known(chain[..m])| < k
  }

  lemma CoveredIsHandled(st: Store, chain: seq<Log>, decode: Decoder, k: nat)
    requires Emitted(chain, decode) && HandledTo(st, chain, decode, k) && CoveredTo(st, chain, st.last)
    ensures HandledBelow(chain, |chain|, st.last, k)
  {
    forall m | 0 <= m < |chain| && chain[m].known && chain[m].block <= st.last
      ensures |Known(chain[..m])| < k
    {
      assert Accounted(st, chain[m]);
      PlaceOf(chain, m);
      SkippedIsHandled(st, chain, decode, k, |Known(chain[..m])|);
    }
  }

  // The known logs before the n-th are handled when every one of them up to its block is.
  lemma PredecessorsHandled(chain: seq<Log>, n: nat, height: int, k: nat)
    requires InBlockOrder(chain) && n < |chain| && chain[n].block <= height && HandledBelow(chain, n, height, k)
    ensures |Known(chain[..n])| <= k
  {
    LastKnown(chain, n);
    if |Known(chain[..n])| > 0 {
      var m :| 0 <= m < n && chain[m].known && |Known(chain[..m])| == |Known(chain[..n])| - 1;
      assert chain[m].block <= height;
    }
  }

  lemma {:induction false} LastKnown(chain: seq<Log>, n: nat)
    requires n <= |chain|
    ensures |Known(chain[..n])| > 0 ==>
      exists m :: 0 <= m < n && chain[m].known && |Known(chain[..m])| == |Known(chain[..n])| - 1
    decreases n
  {
    if n > 0 {
      assert chain[..n][..n - 1] == chain[..n - 1] && chain[..n][n - 1] == chain[n - 1];
      LastKnown(chain, n - 1);
      if chain[n - 1].known {
        assert |Known(chain[..n - 1])| == |Known(chain[..n])| - 1;
      }
    }
  }

  // A backfill works through the chain in order, so it extends the handled prefix.
  lemma {:induction false} BackfillHandles(st: Store, chain: seq<Log>, decode: Decoder, k: nat, height: nat, handler: Handler, n: nat)
    requires Emitted(chain, decode) && HandledTo(st, chain, decode, k) && NeverFails(handler) && n <= |chain|
    requires HandledBelow(chain, |chain|, st.last, k)
    ensures var st' := ProcessAll(st, LogsIn(chain[..n], st.last + 1, height), handler);
      var k' := Frontier(st', decode);
      k <= k' && HandledBelow(chain, n, height, k') && HandledTo(st', chain, decode, k')
    decreases n
  {
    if n == 0 {
      FrontierIs(st, chain, decode, k);
    } else {
      BackfillHandles(st, chain, decode, k, height, handler, n - 1);
      var mid := ProcessAll(st, LogsIn(chain[..n - 1], st.last + 1, height), handler);
      BackfillReads(st, chain, height, handler, n);
      if st.last + 1 <= chain[n - 1].block <= height {
        PredecessorsHandled(chain, n - 1, height, Frontier(mid, decode));
        SingleLog(mid, Process(mid, chain[n - 1], handler), chain, decode, Frontier(mid, decode), n - 1, handler, true);
      }
    }
  }

  lemma BackfillReads(st: Store, chain: seq<Log>, height: nat, handler: Handler, n: nat)
    requires 0 < n <= |chain|
    ensures var mid := ProcessAll(st, LogsIn(chain[..n - 1], st.last + 1, height), handler);
      ProcessAll(st, LogsIn(chain[..n], st.last + 1, height), handler)
      == if st.last + 1 <= chain[n - 1].block <= height then Process(mid, chain[n - 1], handler) else mid
  {
    var before, log := LogsIn(chain[..n - 1], st.last + 1, height), chain[n - 1];
    assert chain[..n][..n - 1] == chain[..n - 1] && chain[..n][n - 1] == log;
    if st.last + 1 <= log.block <= height {
      assert (before + [log])[..|before|] == before;
    } else {
      assert before + [] == before;
    }
  }

  // ---- Runs ----

  // A backfill starts with nothing lost below the checkpoint; a single log, live or caught in a crash,
  // comes after its predecessors.
  ghost predicate Follows(st: Store, chain: seq<Log>, w: Work, k: nat) {
    && NeverFails(w.handler)
    && (w.Backfilled? ==> CoveredTo(st, chain, st.last))
    && (!w.Backfilled? ==> exists n :: 0 <= n < |chain| && InPlace(st, chain, w, k, n))
  }

  predicate InPlace(st: Store, chain: seq<Log>, w: Work, k: nat, n: nat)
    requires n < |chain| && !w.Backfilled?
  {
    chain[n] == w.log && (TakesEffect(st, w.log, w.handler) ==> |Known(chain[..n])| <= k)
  }

  ghost predicate AllFollow(st: Store, chain: seq<Log>, decode: Decoder, ws: seq<Work>)
    decreases |ws|
  {
    ws == [] || (Follows(st, chain, ws[0], Frontier(st, decode)) && AllFollow(AfterWork(st, chain, ws[0]), chain, decode, ws[1..]))
  }

  lemma BackfillWorkHandles(st: Store, chain: seq<Log>, decode: Decoder, height: nat, handler: Handler, k: nat)
    requires Emitted(chain, decode) && HandledTo(st, chain, decode, k)
    requires NeverFails(handler) && CoveredTo(st, chain, st.last)
    ensures var st' := AfterWork(st, chain, Backfilled(height, handler)); HandledTo(st', chain, decode, Frontier(st', decode))
  {
    CoveredIsHandled(st, chain, decode, k);
    BackfillHandles(st, chain, decode, k, height, handler, |chain|);
    assert chain[..|chain|] == chain;
    FrontierIs(st, chain, decode, k);
  }

  lemma LogWorkHandles(st: Store, chain: seq<Log>, decode: Decoder, w: Work, k: nat, n: nat)
    requires Emitted(chain, decode) && HandledTo(st, chain, decode, k) && NeverFails(w.handler)
    requires !w.Backfilled? && n < |chain| && InPlace(st, chain, w, k, n)
    ensures var st' := AfterWork(st, chain, w); HandledTo(st', chain, decode, Frontier(st', decode))
  {
    SingleLog(st, AfterWork(st, chain, w), chain, decode, k, n, w.handler, w.Delivered? || w.marked);
  }

  lemma WorkHandles(st: Store, chain: seq<Log>, decode: Decoder, w: Work, k: nat)
    requires Emitted(chain, decode) && HandledTo(st, chain, decode, k) && Follows(st, chain, w, k)
    ensures var st' := AfterWork(st, chain, w); HandledTo(st', chain, decode, Frontier(st', decode))
  {
    if w.Backfilled? {
      BackfillWorkHandles(st, chain, decode, w.height, w.handler, k);
    } else {
      var n :| 0 <= n < |chain| && InPlace(st, chain, w, k, n);
      LogWorkHandles(st, chain, decode, w, k, n);
    }
  }

  lemma {:induction false} RunHandles(st: Store, chain: seq<Log>, decode: Decoder, ws: seq<Work>)
    requires Emitted(chain, decode) && HandledTo(st, chain, decode, Frontier(st, decode)) && AllFollow(st, chain, decode, ws)
    ensures var st' := AfterRun(st, chain, ws); HandledTo(st', chain, decode, Frontier(st', decode))
    decreases |ws|
  {
    if ws != [] {
      WorkHandles(st, chain, decode, ws[0], Frontier(st, decode));
      RunHandles(AfterWork(st, chain, ws[0]), chain, decode, ws[1..]);
    }
  }

  lemma PrefixInOrder(events: seq<Event>, k: nat)
    requires ContractOrder(events) && k <= |events|
    ensures ContractOrder(events[..k])
  {
    var front := events[..k];
    forall j | 0 <= j < k && front[j].Stopped?
      ensures StartedBefore(front, j)
    {
      assert StartedBefore(events, j);
      var i :| 0 <= i < j && StartOf(events[i], events[j].stopped.rentalId);
      assert front[i] == events[i];
    }
  }

  // Whatever is handled twice on the way, by a crash before a mark, by a restart or by redelivery, the
  // tables end as if the first k known events of the chain had been delivered once each; and where the
  // checkpoint has lost nothing, these are all the known events at or below it.
  lemma RunIsSingleDelivery(chain: seq<Log>, decode: Decoder, ws: seq<Work>, from: nat,
                            t: Tables, clock: nat -> Time, other: nat -> Time)
    requires Emitted(chain, decode) && AllFollow(Fresh(from), chain, decode, ws)
    ensures var st := AfterRun(Fresh(from), chain, ws);
      var k := Frontier(st, decode);
      && k <= |Known(chain)|
      && SameButClock(Deliver(t, Events(st.handled, decode), clock), Deliver(t, Events(Known(chain), decode)[..k], other))
      && (CoveredTo(st, chain, st.last) ==> HandledBelow(chain, |chain|, st.last, k))
  {
    var st, all := AfterRun(Fresh(from), chain, ws), Events(Known(chain), decode);
    assert Events([], decode) == [] && all[..0] == [];
    assert HandledTo(Fresh(from), chain, decode, 0);
    RunHandles(Fresh(from), chain, decode, ws);
    var k := Frontier(st, decode);
    PrefixInOrder(all, k);
    ContractOrderSuffices(t, all[..k]);
    if CoveredTo(st, chain, st.last) {
      CoveredIsHandled(st, chain, decode, k);
    }
  }

  // With handlers that fail, dead letters, logs that share a transaction and crashes anywhere: whatever
  // the listener came to handle, and however often, counts once each in the order it was first
  // handled, for every pattern of repeats, exactly when each rental with a row has one effective stop.
  lemma AnyHistoryIsSingleDelivery(chain: seq<Log>, decode: Decoder, ws: seq<Work>, st: Store,
                                   t: Tables, clock: nat -> Time, other: nat -> Time)
    ensures var all := Events(AfterRun(st, chain, ws).handled, decode);
      && (ExactlyOnce(t, Firsts(all)) <==> forall id :: OneEffectiveStop(t, Firsts(all), id))
      && ((forall id :: OneEffectiveStop(t, Firsts(all), id)) ==>
            SameButClock(Deliver(t, all, clock), Deliver(t, Firsts(all), other)))
  {
    var all := Events(AfterRun(st, chain, ws).handled, decode);
    FirstsOfFirsts(all);
    AtLeastOnceIsExactlyOnce(t, Firsts(all));
  }
}
