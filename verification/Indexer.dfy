/**
 The indexer's history tables: idempotent statements (internal/indexer/repository.go), the mapping of
 events to records (internal/indexer/processor.go), and what repeated delivery does to them.
 */
module Indexer {
  import opened Outcomes
  import opened Rental
  import opened ChainEvents

  datatype Event =
    | Deposited(transfer: Transfer)
    | Withdrawn(transfer: Transfer)
    | Started(started: RentalStarted)
    | Stopped(stopped: RentalStopped)

  // UNIQUE(tx_hash, log_index)
  datatype TransferKey = TransferKey(txHash: string, index: nat)

  datatype TransferRow = TransferRow(user: Address, deposit: bool, amount: nat, block: nat, timestamp: Time)

  datatype StopColumns = StopColumns(endTime: nat, duration: int, cost: nat, txHash: string, block: nat)

  datatype RentalRow = RentalRow(
    user: Address, provider: Address, startTime: nat, startTx: string, startBlock: nat, stop: Option<StopColumns>)

  datatype Tables = Tables(transfers: map<TransferKey, TransferRow>, rentals: map<nat, RentalRow>)

  predicate IsTransfer(e: Event, key: TransferKey) {
    (e.Deposited? || e.Withdrawn?) && TransferKey(e.transfer.txHash, e.transfer.index) == key
  }

  predicate StartOf(e: Event, id: nat) { e.Started? && e.started.rentalId == id }

  predicate StopOf(e: Event, id: nat) { e.Stopped? && e.stopped.rentalId == id }

  function NewRental(e: RentalStarted): RentalRow {
    RentalRow(e.user, e.provider, e.startTime, e.txHash, e.block, None)
  }

  // Times are whole seconds, so the stored duration is their difference.
  function StopRow(e: RentalStopped, startTime: nat): StopColumns {
    StopColumns(e.endTime, e.endTime - startTime, e.cost, e.txHash, e.block)
  }

  function Handled(t: Tables, e: Event, now: Time): Tables {
    match e
    case Deposited(x) => InsertIfNew(t, x, true, now)
    case Withdrawn(x) => InsertIfNew(t, x, false, now)
    case Started(x) =>
      if x.rentalId in t.rentals then t else t.(rentals := t.rentals[x.rentalId := NewRental(x)])
    case Stopped(x) =>
      if x.rentalId !in t.rentals then t
      else
        var row := t.rentals[x.rentalId];
        t.(rentals := t.rentals[x.rentalId := row.(stop := Some(StopRow(x, row.startTime)))])
  }

  function InsertIfNew(t: Tables, x: Transfer, deposit: bool, now: Time): Tables {
    var key := TransferKey(x.txHash, x.index);
    if key in t.transfers then t
    else t.(transfers := t.transfers[key := TransferRow(x.user, deposit, x.amount, x.block, now)])
  }

  class IndexerRepository {
    var transfers: map<TransferKey, TransferRow>
    var rentals: map<nat, RentalRow>

    function View(): Tables
      reads this
    {
      Tables(transfers, rentals)
    }

    constructor ()
      ensures View() == Tables(map[], map[])
    {
      transfers, rentals := map[], map[];
    }

    // ON CONFLICT (tx_hash, log_index) DO NOTHING
    method InsertDepositWithdraw(key: TransferKey, record: TransferRow)
      modifies `transfers
      ensures transfers == if key in old(transfers) then old(transfers) else old(transfers)[key := record]
    {
      if key !in transfers {
        transfers := transfers[key := record];
      }
    }

    // ON CONFLICT (rental_id) DO NOTHING
    method InsertRentalStarted(id: nat, record: RentalRow)
      modifies `rentals
      ensures rentals == if id in old(rentals) then old(rentals) else old(rentals)[id := record]
    {
      if id !in rentals {
        rentals := rentals[id := record];
      }
    }

    // UPDATE ... WHERE rental_id = $1: a missing row is not an error.
    method UpdateRentalStopped(id: nat, endTime: nat, cost: nat, txHash: string, block: nat)
      modifies `rentals
      ensures id !in old(rentals) ==> rentals == old(rentals)
      ensures id in old(rentals) ==>
        var row := old(rentals)[id];
        rentals == old(rentals)[id := row.(stop := Some(StopColumns(endTime, endTime - row.startTime, cost, txHash, block)))]
    {
      if id in rentals {
        var row := rentals[id];
        var stop := StopColumns(endTime, endTime - row.startTime, cost, txHash, block);
        rentals := rentals[id := row.(stop := Some(stop))];
      }
    }
  }

  class IndexerProcessor {
    const repo: IndexerRepository

    constructor (repo: IndexerRepository)
      ensures this.repo == repo
    {
      this.repo := repo;
    }

    method HandleDeposited(x: Transfer, now: Time)
      modifies repo
      ensures repo.View() == Handled(old(repo.View()), Deposited(x), now)
      ensures repo.rentals == old(repo.rentals)
      ensures var key := TransferKey(x.txHash, x.index);
        repo.transfers == if key in old(repo.transfers) then old(repo.transfers)
                          else old(repo.transfers)[key := TransferRow(x.user, true, x.amount, x.block, now)]
    {
      repo.InsertDepositWithdraw(TransferKey(x.txHash, x.index), TransferRow(x.user, true, x.amount, x.block, now));
    }

    method HandleWithdrawn(x: Transfer, now: Time)
      modifies repo
      ensures repo.View() == Handled(old(repo.View()), Withdrawn(x), now)
      ensures repo.rentals == old(repo.rentals)
      ensures var key := TransferKey(x.txHash, x.index);
        repo.transfers == if key in old(repo.transfers) then old(repo.transfers)
                          else old(repo.transfers)[key := TransferRow(x.user, false, x.amount, x.block, now)]
    {
      repo.InsertDepositWithdraw(TransferKey(x.txHash, x.index), TransferRow(x.user, false, x.amount, x.block, now));
    }

    method HandleRentalStarted(x: RentalStarted, now: Time)
      modifies repo
      ensures repo.View() == Handled(old(repo.View()), Started(x), now)
      ensures repo.transfers == old(repo.transfers)
      ensures x.rentalId in old(repo.rentals) ==> repo.rentals == old(repo.rentals)
      ensures x.rentalId !in old(repo.rentals) ==> exists row ::
        && repo.rentals == old(repo.rentals)[x.rentalId := row]
        && row.user == x.user && row.provider == x.provider && row.startTime == x.startTime
        && row.startTx == x.txHash && row.startBlock == x.block && row.stop == None
    {
      var row := RentalRow(x.user, x.provider, x.startTime, x.txHash, x.block, None);
      repo.InsertRentalStarted(x.rentalId, row);
    }

    method HandleRentalStopped(x: RentalStopped, now: Time)
      modifies repo
      ensures repo.View() == Handled(old(repo.View()), Event.Stopped(x), now)
      ensures repo.transfers == old(repo.transfers)
      ensures x.rentalId !in old(repo.rentals) ==> repo.rentals == old(repo.rentals)
      ensures x.rentalId in old(repo.rentals) ==>
        && repo.rentals.Keys == old(repo.rentals).Keys
        && (forall id :: id in repo.rentals && id != x.rentalId ==> repo.rentals[id] == old(repo.rentals)[id])
        && var row, was := repo.rentals[x.rentalId], old(repo.rentals)[x.rentalId];
        && row == was.(stop := row.stop) && row.stop != None
        && row.stop.value.endTime == x.endTime && row.stop.value.duration == x.endTime - was.startTime
        && row.stop.value.cost == x.cost && row.stop.value.txHash == x.txHash && row.stop.value.block == x.block
    {
      repo.UpdateRentalStopped(x.rentalId, x.endTime, x.cost, x.txHash, x.block);
    }
  }

  // ---- Repeated delivery ----

  // Handles the events one after another; the k-th delivery reads clock(k).
  function Deliver(t: Tables, events: seq<Event>, clock: nat -> Time): Tables {
    if events == [] then t
    else
      var n := |events| - 1;
      Handled(Deliver(t, events[..n], clock), events[n], clock(n))
  }

  // Each event once, at its first delivery.
  function Firsts(events: seq<Event>): seq<Event> {
    if events == [] then []
    else
      var front, last := events[..|events| - 1], events[|events| - 1];
      if last in front then Firsts(front) else Firsts(front) + [last]
  }

  // The tables agree except for the clock readings of deposits and withdrawals.
  predicate SameButClock(a: Tables, b: Tables) {
    && a.rentals == b.rentals
    && a.transfers.Keys == b.transfers.Keys
    && forall key :: key in a.transfers ==> a.transfers[key].(timestamp := 0) == b.transfers[key].(timestamp := 0)
  }

  function FindStart(events: seq<Event>, id: nat): (r: Option<Event>)
    ensures r.Some? ==> StartOf(r.value, id) && r.value in events
  {
    if events == [] then None
    else
      var earlier := FindStart(events[..|events| - 1], id);
      if earlier.None? && StartOf(events[|events| - 1], id) then Some(events[|events| - 1]) else earlier
  }

  function FindTransfer(events: seq<Event>, key: TransferKey): (r: Option<Event>)
    ensures r.Some? ==> IsTransfer(r.value, key) && r.value in events
  {
    if events == [] then None
    else
      var earlier := FindTransfer(events[..|events| - 1], key);
      if earlier.None? && IsTransfer(events[|events| - 1], key) then Some(events[|events| - 1]) else earlier
  }

  predicate HasRow(t: Tables, events: seq<Event>, id: nat) { id in t.rentals || FindStart(events, id).Some? }

  // The last stop of a rental delivered once its row exists.
  function LastStop(t: Tables, events: seq<Event>, id: nat): (r: Option<Event>)
    ensures r.Some? ==> StopOf(r.value, id) && r.value in events
  {
    if events == [] then None
    else
      var front, last := events[..|events| - 1], events[|events| - 1];
      if StopOf(last, id) && HasRow(t, front, id) then Some(last) else LastStop(t, front, id)
  }

  // A rental's row is made by its first start and closed by its last stop after that.
  function FinalRow(t: Tables, events: seq<Event>, id: nat): RentalRow
    requires HasRow(t, events, id)
  {
    var row := if id in t.rentals then t.rentals[id] else NewRental(FindStart(events, id).value.started);
    match LastStop(t, events, id)
    case None => row
    case Some(e) => row.(stop := Some(StopRow(e.stopped, row.startTime)))
  }

  lemma {:induction false} RentalsDelivered(t: Tables, events: seq<Event>, clock: nat -> Time, id: nat)
    ensures id in Deliver(t, events, clock).rentals <==> HasRow(t, events, id)
    ensures HasRow(t, events, id) ==> Deliver(t, events, clock).rentals[id] == FinalRow(t, events, id)
  {
    if events != [] {
      RentalsDelivered(t, events[..|events| - 1], clock, id);
      NoStopWithoutRow(t, events[..|events| - 1], id);
    }
  }

  // Event i is the first start of a rental.
  predicate FirstStartAt(events: seq<Event>, id: nat, i: nat) {
    && i < |events| && events[i].Started? && events[i].started.rentalId == id
    && forall j :: 0 <= j < i && events[j].Started? ==> events[j].started.rentalId != id
  }

  // Event k is the last stop of a rental after event i.
  predicate LastStopAt(events: seq<Event>, id: nat, i: nat, k: nat) {
    && i < k < |events| && events[k].Stopped? && events[k].stopped.rentalId == id
    && forall j :: k < j < |events| && events[j].Stopped? ==> events[j].stopped.rentalId != id
  }

  predicate NoStopAfter(events: seq<Event>, id: nat, i: nat) {
    forall j :: i < j < |events| && events[j].Stopped? ==> events[j].stopped.rentalId != id
  }

  lemma {:induction false} NoRowBeforeStart(t: Tables, events: seq<Event>, clock: nat -> Time, id: nat)
    requires id !in t.rentals && forall j :: 0 <= j < |events| && events[j].Started? ==> events[j].started.rentalId != id
    ensures id !in Deliver(t, events, clock).rentals
  {
    if events != [] {
      NoRowBeforeStart(t, events[..|events| - 1], clock, id);
    }
  }

  // In columns: a rental shows the parties, time, transaction and block of its first start.
  lemma {:induction false} RentalColumns(t: Tables, events: seq<Event>, clock: nat -> Time, id: nat, i: nat)
    requires id !in t.rentals && FirstStartAt(events, id, i)
    ensures id in Deliver(t, events, clock).rentals
    ensures var row, e := Deliver(t, events, clock).rentals[id], events[i].started;
      && row.user == e.user && row.provider == e.provider && row.startTime == e.startTime
      && row.startTx == e.txHash && row.startBlock == e.block
    decreases |events|
  {
    var n := |events| - 1;
    if i == n {
      NoRowBeforeStart(t, events[..n], clock, id);
    } else {
      RentalColumns(t, events[..n], clock, id, i);
    }
  }

  // And it is open until a stop comes after that.
  lemma {:induction false} RentalStaysOpen(t: Tables, events: seq<Event>, clock: nat -> Time, id: nat, i: nat)
    requires id !in t.rentals && FirstStartAt(events, id, i) && NoStopAfter(events, id, i)
    ensures id in Deliver(t, events, clock).rentals && Deliver(t, events, clock).rentals[id].stop == None
    decreases |events|
  {
    var n := |events| - 1;
    if i == n {
      NoRowBeforeStart(t, events[..n], clock, id);
    } else {
      RentalStaysOpen(t, events[..n], clock, id, i);
    }
  }

  // Then it shows the end, cost, transaction, block and length of the last one.
  lemma {:induction false} StopColumnsDelivered(t: Tables, events: seq<Event>, clock: nat -> Time, id: nat, i: nat, k: nat)
    requires id !in t.rentals && FirstStartAt(events, id, i) && LastStopAt(events, id, i, k)
    ensures id in Deliver(t, events, clock).rentals
    ensures var stop, e, x := Deliver(t, events, clock).rentals[id].stop, events[i].started, events[k].stopped;
      && stop != None
      && stop.value.endTime == x.endTime && stop.value.duration == x.endTime - e.startTime
      && stop.value.cost == x.cost && stop.value.txHash == x.txHash && stop.value.block == x.block
    decreases |events|
  {
    var n := |events| - 1;
    if k == n {
      RentalColumns(t, events[..n], clock, id, i);
    } else {
      StopColumnsDelivered(t, events[..n], clock, id, i, k);
    }
  }

  lemma {:induction false} NoStopWithoutRow(t: Tables, events: seq<Event>, id: nat)
    ensures !HasRow(t, events, id) ==> LastStop(t, events, id) == None
  {
    if events != [] {
      NoStopWithoutRow(t, events[..|events| - 1], id);
    }
  }

  // A deposit or withdrawal row is the first one delivered for its key.
  lemma {:induction false} TransfersDelivered(t: Tables, events: seq<Event>, clock: nat -> Time, key: TransferKey)
    ensures var after := Deliver(t, events, clock).transfers;
      if key in t.transfers then key in after && after[key] == t.transfers[key]
      else
        match FindTransfer(events, key)
        case None => key !in after
        case Some(e) =>
          && key in after
          && after[key].(timestamp := 0) == TransferRow(e.transfer.user, e.Deposited?, e.transfer.amount, e.transfer.block, 0)
  {
    if events != [] {
      TransfersDelivered(t, events[..|events| - 1], clock, key);
    }
  }

  lemma {:induction false} FirstsMembers(events: seq<Event>, e: Event)
    ensures e in Firsts(events) <==> e in events
  {
    if events != [] {
      FirstsMembers(events[..|events| - 1], e);
      assert events == events[..|events| - 1] + [events[|events| - 1]];
    }
  }

  lemma {:induction false} FirstsKeepStart(events: seq<Event>, id: nat)
    ensures FindStart(Firsts(events), id) == FindStart(events, id)
  {
    if events != [] {
      var front, last := events[..|events| - 1], events[|events| - 1];
      FirstsKeepStart(front, id);
      if last in front {
        if StartOf(last, id) { StartFound(front, id, last); }
      } else {
        assert (Firsts(front) + [last])[..|Firsts(front)|] == Firsts(front);
      }
    }
  }

  lemma {:induction false} StartFound(events: seq<Event>, id: nat, e: Event)
    requires e in events && StartOf(e, id)
    ensures FindStart(events, id).Some?
  {
    var front, last := events[..|events| - 1], events[|events| - 1];
    assert events == front + [last];
    if e in front {
      StartFound(front, id, e);
    }
  }

  lemma {:induction false} FirstsKeepTransfer(events: seq<Event>, key: TransferKey)
    ensures FindTransfer(Firsts(events), key) == FindTransfer(events, key)
  {
    if events != [] {
      var front, last := events[..|events| - 1], events[|events| - 1];
      FirstsKeepTransfer(front, key);
      if last in front {
        if IsTransfer(last, key) { TransferFound(front, key, last); }
      } else {
        assert (Firsts(front) + [last])[..|Firsts(front)|] == Firsts(front);
      }
    }
  }

  lemma {:induction false} TransferFound(events: seq<Event>, key: TransferKey, e: Event)
    requires e in events && IsTransfer(e, key)
    ensures FindTransfer(events, key).Some?
  {
    var front, last := events[..|events| - 1], events[|events| - 1];
    assert events == front + [last];
    if e in front {
      TransferFound(front, key, e);
    }
  }

  // A stop that takes effect among the first deliveries takes effect among all of them.
  lemma {:induction false} FirstsKeepEffect(t: Tables, events: seq<Event>, id: nat)
    ensures LastStop(t, Firsts(events), id).Some? ==> LastStop(t, events, id).Some?
  {
    if events != [] {
      var front, last := events[..|events| - 1], events[|events| - 1];
      FirstsKeepEffect(t, front, id);
      FirstsKeepStart(front, id);
      if last !in front {
        assert (Firsts(front) + [last])[..|Firsts(front)|] == Firsts(front);
      }
    }
  }

  // ---- When at-least-once delivery is exactly once ----

  predicate SameStop(a: RentalStopped, b: RentalStopped) {
    a.endTime == b.endTime && a.cost == b.cost && a.txHash == b.txHash && a.block == b.block
  }

  // Among the events of one rental that has a row: all stops write the same columns, and if there is
  // a stop, one of them comes after the row exists.
  ghost predicate OneEffectiveStop(t: Tables, chain: seq<Event>, id: nat) {
    HasRow(t, chain, id) ==>
      && (forall a, b :: a in chain && b in chain && StopOf(a, id) && StopOf(b, id) ==> SameStop(a.stopped, b.stopped))
      && ((exists a :: a in chain && StopOf(a, id)) ==> LastStop(t, chain, id).Some?)
  }

  // Whatever the repeats and the clocks, the tables end as if each event had been delivered once.
  ghost predicate ExactlyOnce(t: Tables, chain: seq<Event>) {
    forall events: seq<Event>, clock: nat -> Time, other: nat -> Time ::
      Firsts(events) == chain ==> SameButClock(Deliver(t, events, clock), Deliver(t, chain, other))
  }

  lemma SameRow(t: Tables, chain: seq<Event>, events: seq<Event>, id: nat)
    requires Firsts(events) == chain && OneEffectiveStop(t, chain, id)
    ensures HasRow(t, events, id) == HasRow(t, chain, id)
    ensures HasRow(t, events, id) ==> FinalRow(t, events, id) == FinalRow(t, chain, id)
  {
    FirstsKeepStart(events, id);
    FirstsKeepEffect(t, events, id);
    if HasRow(t, events, id) && LastStop(t, events, id).Some? {
      FirstsMembers(events, LastStop(t, events, id).value);
    }
  }

  lemma TransfersOnce(t: Tables, chain: seq<Event>, events: seq<Event>, clock: nat -> Time, other: nat -> Time, key: TransferKey)
    requires Firsts(events) == chain
    ensures var a, b := Deliver(t, events, clock).transfers, Deliver(t, chain, other).transfers;
      && (key in a <==> key in b)
      && (key in a ==> a[key].(timestamp := 0) == b[key].(timestamp := 0))
  {
    TransfersDelivered(t, events, clock, key);
    TransfersDelivered(t, chain, other, key);
    FirstsKeepTransfer(events, key);
  }

  lemma RentalsOnce(t: Tables, chain: seq<Event>, events: seq<Event>, clock: nat -> Time, other: nat -> Time)
    requires Firsts(events) == chain
    requires forall id :: OneEffectiveStop(t, chain, id)
    ensures Deliver(t, events, clock).rentals == Deliver(t, chain, other).rentals
  {
    var a, b := Deliver(t, events, clock).rentals, Deliver(t, chain, other).rentals;
    forall id: nat
      ensures id in a <==> id in b
      ensures id in a ==> a[id] == b[id]
    {
      RentalsDelivered(t, events, clock, id);
      RentalsDelivered(t, chain, other, id);
      SameRow(t, chain, events, id);
    }
  }

  lemma EffectiveStopsSuffice(t: Tables, chain: seq<Event>)
    requires forall id :: OneEffectiveStop(t, chain, id)
    ensures ExactlyOnce(t, chain)
  {
    forall events: seq<Event>, clock: nat -> Time, other: nat -> Time | Firsts(events) == chain
      ensures SameButClock(Deliver(t, events, clock), Deliver(t, chain, other))
    {
      RentalsOnce(t, chain, events, clock, other);
      var a, b := Deliver(t, events, clock).transfers, Deliver(t, chain, other).transfers;
      forall key: TransferKey
        ensures key in a <==> key in b
        ensures key in a ==> a[key].(timestamp := 0) == b[key].(timestamp := 0)
      {
        TransfersOnce(t, chain, events, clock, other, key);
      }
    }
  }

  // Delivering one stop again at the end shows that its columns are the ones that must stay.
  lemma ReplayedStopStays(t: Tables, chain: seq<Event>, id: nat, e: Event)
    requires Firsts(chain) == chain && ExactlyOnce(t, chain)
    requires HasRow(t, chain, id) && e in chain && StopOf(e, id)
    ensures FinalRow(t, chain, id).stop == Some(StopRow(e.stopped, FinalRow(t, chain, id).startTime))
  {
    var again := chain + [e];
    assert again[..|again| - 1] == chain;
    var clock := (k: nat) => 0;
    assert SameButClock(Deliver(t, again, clock), Deliver(t, chain, clock));
    RentalsDelivered(t, again, clock, id);
    RentalsDelivered(t, chain, clock, id);
  }

  lemma {:induction false} StopTakesEffect(t: Tables, events: seq<Event>, id: nat, j: nat)
    requires j < |events| && StopOf(events[j], id) && HasRow(t, events[..j], id)
    ensures LastStop(t, events, id).Some?
  {
    if j < |events| - 1 {
      assert events[..|events| - 1][..j] == events[..j];
      StopTakesEffect(t, events[..|events| - 1], id, j);
    }
  }

  lemma ExactlyOnceNeedsIt(t: Tables, chain: seq<Event>, id: nat)
    requires Firsts(chain) == chain && ExactlyOnce(t, chain)
    ensures OneEffectiveStop(t, chain, id)
  {
    if HasRow(t, chain, id) {
      forall a, b | a in chain && b in chain && StopOf(a, id) && StopOf(b, id)
        ensures SameStop(a.stopped, b.stopped)
      {
        ReplayedStopStays(t, chain, id, a);
        ReplayedStopStays(t, chain, id, b);
      }
      if a :| a in chain && StopOf(a, id) {
        ReplayedStopStays(t, chain, id, a);
        if id in t.rentals {
          var j :| 0 <= j < |chain| && chain[j] == a;
          StopTakesEffect(t, chain, id, j);
        }
      }
    }
  }

  // At-least-once delivery of a chain has the effect of exactly-once delivery, for every pattern of
  // repeats and every clock, exactly when each rental with a row has one effective stop.
  lemma AtLeastOnceIsExactlyOnce(t: Tables, chain: seq<Event>)
    requires Firsts(chain) == chain
    ensures ExactlyOnce(t, chain) <==> forall id :: OneEffectiveStop(t, chain, id)
  {
    if ExactlyOnce(t, chain) {
      forall id: nat
        ensures OneEffectiveStop(t, chain, id)
      {
        ExactlyOnceNeedsIt(t, chain, id);
      }
    }
    if forall id :: OneEffectiveStop(t, chain, id) {
      EffectiveStopsSuffice(t, chain);
    }
  }

  // ---- What the contract emits ----

  // No event twice, one stop per rental, after its start.
  predicate ContractOrder(chain: seq<Event>) {
    && NoRepeats(chain)
    && (forall i, j :: 0 <= i < j < |chain| && chain[i].Stopped? && chain[j].Stopped?
                   ==> chain[i].stopped.rentalId != chain[j].stopped.rentalId)
    && (forall j :: 0 <= j < |chain| && chain[j].Stopped? ==> StartedBefore(chain, j))
  }

  predicate StartedBefore(chain: seq<Event>, j: nat)
    requires j < |chain| && chain[j].Stopped?
  {
    exists i :: 0 <= i < j && StartOf(chain[i], chain[j].stopped.rentalId)
  }

  lemma StopInOrder(t: Tables, chain: seq<Event>, id: nat, j: nat)
    requires ContractOrder(chain) && j < |chain| && StopOf(chain[j], id)
    ensures LastStop(t, chain, id).Some?
  {
    assert StartedBefore(chain, j);
    var i :| 0 <= i < j && StartOf(chain[i], id);
    assert chain[i] == chain[..j][i];
    StartFound(chain[..j], id, chain[i]);
    StopTakesEffect(t, chain, id, j);
  }

  lemma OneStop(chain: seq<Event>, id: nat, i: nat, j: nat)
    requires ContractOrder(chain) && i < |chain| && j < |chain| && StopOf(chain[i], id) && StopOf(chain[j], id)
    ensures i == j
  {
  }

  lemma OrderedStopIsEffective(t: Tables, chain: seq<Event>, id: nat)
    requires ContractOrder(chain)
    ensures OneEffectiveStop(t, chain, id)
  {
    forall a, b | a in chain && b in chain && StopOf(a, id) && StopOf(b, id)
      ensures a == b && LastStop(t, chain, id).Some?
    {
      var i: nat :| i < |chain| && chain[i] == a;
      var j: nat :| j < |chain| && chain[j] == b;
      OneStop(chain, id, i, j);
      StopInOrder(t, chain, id, j);
    }
  }

  lemma ContractOrderSuffices(t: Tables, chain: seq<Event>)
    requires ContractOrder(chain)
    ensures ExactlyOnce(t, chain)
  {
    forall id: nat
      ensures OneEffectiveStop(t, chain, id)
    {
      OrderedStopIsEffective(t, chain, id);
    }
    EffectiveStopsSuffice(t, chain);
  }

  predicate NoRepeats(chain: seq<Event>) { forall a, b :: 0 <= a < b < |chain| ==> chain[a] != chain[b] }

  lemma {:induction false} NoRepeatsFirsts(chain: seq<Event>)
    requires NoRepeats(chain)
    ensures Firsts(chain) == chain
  {
    if chain != [] {
      NoRepeatsFirsts(chain[..|chain| - 1]);
    }
  }

  lemma {:induction false} FirstsOfFirsts(events: seq<Event>)
    ensures NoRepeats(Firsts(events)) && Firsts(Firsts(events)) == Firsts(events)
  {
    if events != [] {
      var front, last := events[..|events| - 1], events[|events| - 1];
      FirstsOfFirsts(front);
      FirstsMembers(front, last);
      if last !in front {
        OneMoreFirst(Firsts(front), last);
      }
    }
  }

  lemma OneMoreFirst(front: seq<Event>, e: Event)
    ensures Firsts(front + [e]) == if e in front then Firsts(front) else Firsts(front) + [e]
  {
    assert (front + [e])[..|front|] == front;
  }

  lemma {:induction false} RepeatsAddNothing(a: seq<Event>, b: seq<Event>)
    requires forall i :: 0 <= i < |b| ==> b[i] in a
    ensures Firsts(a + b) == Firsts(a)
  {
    if b == [] {
      assert a + b == a;
    } else {
      var front, last := b[..|b| - 1], b[|b| - 1];
      RepeatsAddNothing(a, front);
      OneMoreFirst(a + front, last);
      assert a + b == (a + front) + [last];
    }
  }

  lemma {:induction false} NewEventsAppend(a: seq<Event>, b: seq<Event>)
    requires NoRepeats(b) && forall i :: 0 <= i < |b| ==> b[i] !in a
    ensures Firsts(a + b) == Firsts(a) + b
  {
    if b == [] {
      assert a + b == a;
    } else {
      var front, last := b[..|b| - 1], b[|b| - 1];
      NewEventsAppend(a, front);
      OneMoreFirst(a + front, last);
      assert a + b == (a + front) + [last];
      assert b == front + [last];
    }
  }

  lemma NoRepeatsSplit(a: seq<Event>, b: seq<Event>)
    requires NoRepeats(a + b)
    ensures NoRepeats(a) && NoRepeats(b) && forall i :: 0 <= i < |b| ==> b[i] !in a
  {
    var both := a + b;
    assert forall i :: 0 <= i < |a| ==> a[i] == both[i];
    assert forall i :: 0 <= i < |b| ==> b[i] == both[|a| + i];
  }

  // A crash after handling events and before marking them, or anywhere else: after handling `done`
  // and then again some of the same events, the rest leaves the tables of an uninterrupted run.
  lemma RestartIsHarmless(t: Tables, done: seq<Event>, again: seq<Event>, rest: seq<Event>, clock: nat -> Time, other: nat -> Time)
    requires ContractOrder(done + rest) && forall i :: 0 <= i < |again| ==> again[i] in done
    ensures SameButClock(Deliver(t, (done + again) + rest, clock), Deliver(t, done + rest, other))
  {
    NoRepeatsSplit(done, rest);
    RepeatsAddNothing(done, again);
    forall i | 0 <= i < |rest|
      ensures rest[i] !in done + again
    {
      assert rest[i] !in done;
    }
    NewEventsAppend(done + again, rest);
    NoRepeatsFirsts(done);
    ContractOrderSuffices(t, done + rest);
  }
}
