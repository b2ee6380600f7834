/**
 What a run of extension requests on one RUNNING session adds up to: one after another, and when
 their loads and writes interleave.
 */
module Extensions {
  import opened Outcomes
  import opened Rental
  import opened SessionTable
  import opened SessionManagement
  import opened Interleaving

  datatype Request = Request(minutes: int, check: BalanceCheck, at: Time)

  predicate Accepts(s: Session, q: Request) { ExtensionAllowed(s, q.minutes, q.check, q.at) }

  // The session after the requests, in order; a refused request leaves it alone.
  function AfterRequests(s: Session, qs: seq<Request>): Session {
    if qs == [] then s
    else
      var before := AfterRequests(s, qs[..|qs| - 1]);
      var q := qs[|qs| - 1];
      if Accepts(before, q) then Extended(before, q.minutes, q.at) else before
  }

  // When the accepted ones were made.
  function AcceptedAt(s: Session, qs: seq<Request>): seq<Time> {
    if qs == [] then []
    else
      var q := qs[|qs| - 1];
      AcceptedAt(s, qs[..|qs| - 1]) + (if Accepts(AfterRequests(s, qs[..|qs| - 1]), q) then [q.at] else [])
  }

  predicate InOrder(qs: seq<Request>) { forall i, j :: 0 <= i < j < |qs| ==> qs[i].at <= qs[j].at }

  lemma {:induction false} AcceptedBy(s: Session, qs: seq<Request>, t: Time)
    requires forall i :: 0 <= i < |qs| ==> qs[i].at <= t
    ensures forall i :: 0 <= i < |AcceptedAt(s, qs)| ==> AcceptedAt(s, qs)[i] <= t
  {
    if qs != [] {
      AcceptedBy(s, qs[..|qs| - 1], t);
      assert qs[|qs| - 1].at <= t;
    }
  }

  // At most ten extensions; at least thirty minutes each; and the expiry lies between the first and
  // the last extension time, both moved by the total granted.
  predicate Bounded(r: Session, times: seq<Time>) {
    && r.state == Running
    && r.extensionCount == |times| <= MAX_EXTENSIONS
    && r.totalExtendedMinutes >= MIN_EXTENSION_MINUTES * r.extensionCount
    && (times == [] ==> r.extendedUntil.None? && r.totalExtendedMinutes == 0)
    && (times != [] ==> r.extendedUntil.Some?)
    && (times != [] ==> times[0] + r.totalExtendedMinutes * MINUTE <= ExpiryOf(r))
    && (times != [] ==> ExpiryOf(r) <= times[|times| - 1] + r.totalExtendedMinutes * MINUTE)
  }

  lemma ExtensionStep(r: Session, times: seq<Time>, q: Request)
    requires Bounded(r, times) && Accepts(r, q)
    requires forall i :: 0 <= i < |times| ==> times[i] <= q.at
    ensures Bounded(Extended(r, q.minutes, q.at), times + [q.at])
  {
    var all := times + [q.at];
    assert all[|all| - 1] == q.at && all[0] <= q.at;
    assert times != [] ==> all[0] == times[0];
    assert MINUTE > 0;
    assert (r.totalExtendedMinutes + q.minutes) * MINUTE == r.totalExtendedMinutes * MINUTE + q.minutes * MINUTE;
  }

  // Over every run of requests, time already bought is never lost and idle time before an extension
  // is never granted.
  lemma {:induction false} ExtensionBounds(s: Session, qs: seq<Request>)
    requires s.state == Running && s.extensionCount == 0 && s.totalExtendedMinutes == 0 && s.extendedUntil.None?
    requires InOrder(qs)
    ensures Bounded(AfterRequests(s, qs), AcceptedAt(s, qs))
  {
    if qs != [] {
      var front, q := qs[..|qs| - 1], qs[|qs| - 1];
      ExtensionBounds(s, front);
      AcceptedBy(s, front, q.at);
      if Accepts(AfterRequests(s, front), q) {
        ExtensionStep(AfterRequests(s, front), AcceptedAt(s, front), q);
      }
    }
  }

  // An accepted extension always reaches past both the request and the earlier expiry by exactly
  // the minutes granted to one of them, so a session is never shortened by paying for more.
  lemma ExtensionReaches(s: Session, q: Request)
    requires Accepts(s, q)
    ensures var r := Extended(s, q.minutes, q.at);
            && ExpiryOf(r) >= q.at + q.minutes * MINUTE
            && (s.extendedUntil.Some? ==> ExpiryOf(r) >= ExpiryOf(s) + q.minutes * MINUTE)
            && !Expiring(r, q.at)
            && (s.extendedUntil.Some? || ExpiryOf(r) == q.at + q.minutes * MINUTE)
  {
    assert MINUTE > 0 && q.minutes > 0;
  }

  // ---- Requests that overlap ----

  // A request accepted on a loaded snapshot and written later, when the row may have moved on: the
  // statement adds to the stored count and total, but writes the expiry computed from the snapshot.
  datatype Write = Write(snapshot: Session, request: Request, at: Time)

  function Written(r: Session, w: Write): Session {
    r.(extendedUntil := Some(NewExpiration(w.snapshot, w.request.minutes, w.request.at)),
       extensionCount := r.extensionCount + 1, totalExtendedMinutes := r.totalExtendedMinutes + w.request.minutes,
       updatedAt := w.at)
  }

  lemma WrittenIsTheStatement(t: Table, id: string, w: Write)
    requires id in t && Extendable(t[id])
    ensures ExtendRow(t, id, NewExpiration(w.snapshot, w.request.minutes, w.request.at), w.request.minutes, w.at)
         == Some(t[id := Written(t[id], w)])
  {
  }

  // What an extension promises: the limit, and its minutes on top of the time already bought.
  predicate Promised(r: Session, w: Write, r': Session) {
    && r'.extensionCount <= MAX_EXTENSIONS
    && (r.extendedUntil.Some? ==> ExpiryOf(r') >= ExpiryOf(r) + w.request.minutes * MINUTE)
  }

  // For any snapshot at all: the promise is kept exactly when the stored count is below the limit and
  // the stored expiry has passed or is not beyond the snapshot's.
  lemma PromisedExactly(r: Session, w: Write)
    ensures Promised(r, w, Written(r, w)) <==>
      && r.extensionCount < MAX_EXTENSIONS
      && (r.extendedUntil.None? || ExpiryOf(r) <= w.request.at
          || (w.snapshot.extendedUntil.Some? && ExpiryOf(r) <= ExpiryOf(w.snapshot)))
  {
    assert ExpiryOf(Written(r, w)) == NewExpiration(w.snapshot, w.request.minutes, w.request.at);
  }

  function AfterWrites(r: Session, ws: seq<Write>): Session
    decreases |ws|
  {
    if ws == [] then r else AfterWrites(Written(r, ws[0]), ws[1..])
  }

  // Every request was accepted on some row of the run so far, and they are written in any order.
  predicate Overlapping(rows: seq<Session>, r: Session, ws: seq<Write>)
    decreases |ws|
  {
    ws == [] ||
    (&& ws[0].snapshot in rows && Accepts(ws[0].snapshot, ws[0].request)
     && Overlapping(rows + [Written(r, ws[0])], Written(r, ws[0]), ws[1..]))
  }

  predicate PromisedThroughout(r: Session, ws: seq<Write>)
    decreases |ws|
  {
    ws == [] || (Promised(r, ws[0], Written(r, ws[0])) && PromisedThroughout(Written(r, ws[0]), ws[1..]))
  }

  // The stored count is below the limit, and the stored expiry is that of the snapshot or already past.
  predicate StillStored(w: Write, r: Session) {
    && r.extensionCount < MAX_EXTENSIONS
    && (r.extendedUntil.Some? ==> ExpiryOf(r) <= w.request.at || r.extendedUntil == w.snapshot.extendedUntil)
  }

  predicate StoredThroughout(r: Session, ws: seq<Write>)
    decreases |ws|
  {
    ws == [] || (StillStored(ws[0], r) && StoredThroughout(Written(r, ws[0]), ws[1..]))
  }

  // While promises are kept no earlier row has a later expiry.
  predicate NoneLater(rows: seq<Session>, r: Session) {
    forall i :: 0 <= i < |rows| && rows[i].extendedUntil.Some? ==>
      r.extendedUntil.Some? && ExpiryOf(rows[i]) <= ExpiryOf(r)
  }

  lemma StoredIsExact(rows: seq<Session>, r: Session, w: Write)
    requires NoneLater(rows, r) && w.snapshot in rows && Accepts(w.snapshot, w.request)
    ensures Promised(r, w, Written(r, w)) <==> StillStored(w, r)
    ensures StillStored(w, r) ==> NoneLater(rows + [Written(r, w)], Written(r, w))
  {
    PromisedExactly(r, w);
    var next := Written(r, w);
    if StillStored(w, r) {
      forall i | 0 <= i < |rows| && rows[i].extendedUntil.Some?
        ensures ExpiryOf(rows[i]) <= ExpiryOf(next)
      {
        assert w.request.minutes > 0;
      }
    }
  }

  // Over every run of overlapping requests, each accepted on any row of the run and written in any
  // order, each extension keeps its promise exactly when, at each write, the stored count is below the
  // limit and the stored expiry is still the snapshot's or has passed.
  lemma {:induction false} OverlappingExtensions(rows: seq<Session>, r: Session, ws: seq<Write>)
    requires NoneLater(rows, r) && Overlapping(rows, r, ws)
    ensures PromisedThroughout(r, ws) <==> StoredThroughout(r, ws)
    decreases |ws|
  {
    if ws != [] {
      StoredIsExact(rows, r, ws[0]);
      if StillStored(ws[0], r) {
        OverlappingExtensions(rows + [Written(r, ws[0])], Written(r, ws[0]), ws[1..]);
      }
    }
  }

  function RequestTimes(ws: seq<Write>): seq<Time> {
    if ws == [] then [] else [ws[0].request.at] + RequestTimes(ws[1..])
  }

  predicate Reaches(times: seq<Time>, t: Time) { exists i :: 0 <= i < |times| && t <= times[i] }

  // The bounds of the sequential run, for requests written in any order: the expiry is at least the
  // first one written, and at most some request, each moved by the total granted.
  predicate LooselyBounded(r: Session, times: seq<Time>) {
    && r.extensionCount == |times| <= MAX_EXTENSIONS
    && r.totalExtendedMinutes >= MIN_EXTENSION_MINUTES * r.extensionCount
    && (times == [] ==> r.extendedUntil.None? && r.totalExtendedMinutes == 0)
    && (times != [] ==> r.extendedUntil.Some?)
    && (times != [] ==> times[0] + r.totalExtendedMinutes * MINUTE <= ExpiryOf(r))
    && (times != [] ==> Reaches(times, ExpiryOf(r) - r.totalExtendedMinutes * MINUTE))
  }

  lemma WriteKeepsBounds(r: Session, times: seq<Time>, w: Write)
    requires LooselyBounded(r, times) && Accepts(w.snapshot, w.request) && StillStored(w, r)
    requires w.snapshot.extendedUntil.Some? ==> r.extendedUntil.Some? && ExpiryOf(w.snapshot) <= ExpiryOf(r)
    ensures LooselyBounded(Written(r, w), times + [w.request.at])
  {
    var all, q, next := times + [w.request.at], w.request, Written(r, w);
    var base := ExpiryOf(next) - q.minutes * MINUTE;
    assert (r.totalExtendedMinutes + q.minutes) * MINUTE == r.totalExtendedMinutes * MINUTE + q.minutes * MINUTE;
    assert base == q.at || (r.extendedUntil.Some? && q.at <= base <= ExpiryOf(r));
    if base == q.at {
      assert all[|all| - 1] == q.at && r.totalExtendedMinutes * MINUTE >= 0;
    } else {
      var i :| 0 <= i < |times| && ExpiryOf(r) - r.totalExtendedMinutes * MINUTE <= times[i];
      assert all[i] == times[i];
    }
    assert times != [] ==> all[0] == times[0];
  }

  lemma OneWrite(rows: seq<Session>, r: Session, times: seq<Time>, w: Write)
    requires NoneLater(rows, r) && w.snapshot in rows && Accepts(w.snapshot, w.request) && StillStored(w, r)
    requires LooselyBounded(r, times)
    ensures NoneLater(rows + [Written(r, w)], Written(r, w)) && LooselyBounded(Written(r, w), times + [w.request.at])
  {
    StoredIsExact(rows, r, w);
    WriteKeepsBounds(r, times, w);
  }

  lemma TimesInOrder(times: seq<Time>, ws: seq<Write>)
    requires ws != []
    ensures (times + [ws[0].request.at]) + RequestTimes(ws[1..]) == times + RequestTimes(ws)
  {
  }

  // And then the bounds hold at its end.
  lemma {:induction false} OverlappingBounds(rows: seq<Session>, r: Session, times: seq<Time>, ws: seq<Write>)
    requires NoneLater(rows, r) && Overlapping(rows, r, ws) && LooselyBounded(r, times) && StoredThroughout(r, ws)
    ensures LooselyBounded(AfterWrites(r, ws), times + RequestTimes(ws))
    decreases |ws|
  {
    if ws == [] {
      assert times + [] == times;
    } else {
      OneWrite(rows, r, times, ws[0]);
      OverlappingBounds(rows + [Written(r, ws[0])], Written(r, ws[0]), times + [ws[0].request.at], ws[1..]);
      TimesInOrder(times, ws);
    }
  }

  lemma ExtendWrites(s: Sys, step: Step, id: string)
    requires Keyed(s.rows) && id in s.rows && step.Extend? && step.id == id && Extendable(s.rows[id])
    ensures var s' := Next(s, step);
      && id in s'.rows && Extendable(s'.rows[id])
      && s'.rows[id].extensionCount == s.rows[id].extensionCount + 1 && s'.rows[id].extendedUntil == Some(step.until)
  {
  }

  // Two requests loaded at the ninth extension are both written: eleven extensions, and the expiry is
  // that of the second alone.
  lemma ElevenExtensions(s: Sys, id: string, first: Request, second: Request, now: Time, later: Time)
    requires Keyed(s.rows) && id in s.rows && Extendable(s.rows[id]) && s.rows[id].extensionCount == MAX_EXTENSIONS - 1
    requires Accepts(s.rows[id], first) && Accepts(s.rows[id], second)
    ensures var row := s.rows[id];
      var t := Run(s, [Extend(id, NewExpiration(row, first.minutes, first.at), first.minutes, now),
                       Extend(id, NewExpiration(row, second.minutes, second.at), second.minutes, later)]).rows;
      && id in t && t[id].extensionCount == MAX_EXTENSIONS + 1
      && t[id].extendedUntil == Some(NewExpiration(row, second.minutes, second.at))
  {
    var row := s.rows[id];
    var x := Extend(id, NewExpiration(row, first.minutes, first.at), first.minutes, now);
    var y := Extend(id, NewExpiration(row, second.minutes, second.at), second.minutes, later);
    ExtendWrites(s, x, id);
    ExtendWrites(Next(s, x), y, id);
    assert [x, y][1..] == [y] && [x, y][1..][1..] == [];
    assert Run(s, [x, y]) == Run(Next(s, x), [x, y][1..]) == Run(Next(Next(s, x), y), []);
  }
}
