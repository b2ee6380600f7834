/**
 Keyset pagination over the indexed history (internal/indexer/query_repository.go): pages of the rows
 of one address, newest first, and what following the returned cursors lists.
 */
module History {
  import opened Outcomes
  import opened Rental

  const DEFAULT_LIMIT: int := 50
  const MAX_LIMIT: int := 100
  const MAX_INT64: int := 0x7FFF_FFFF_FFFF_FFFF
  // time.Time's zero value; every clock reading is later.
  const ZERO_TIME: Time := -62135596800 * SECOND

  // A position in the order of the pages; ids are unique, so it also names a row.
  datatype Cursor = Cursor(timestamp: Time, id: int)

  // Row comparison (timestamp, id) < (timestamp, id).
  predicate Below(a: Cursor, b: Cursor) {
    a.timestamp < b.timestamp || (a.timestamp == b.timestamp && a.id < b.id)
  }

  predicate IsNewest(rows: set<Cursor>, m: Cursor) {
    m in rows && forall x :: x in rows && x != m ==> Below(x, m)
  }

  lemma {:induction false} NewestExists(rows: set<Cursor>)
    requires rows != {}
    ensures exists m :: IsNewest(rows, m)
    decreases rows
  {
    var x :| x in rows;
    if rows == {x} {
      assert IsNewest(rows, x);
    } else {
      NewestExists(rows - {x});
      var m :| IsNewest(rows - {x}, m);
      if Below(x, m) {
        assert IsNewest(rows, m);
      } else {
        forall y | y in rows && y != x
          ensures Below(y, x)
        {
          assert y in rows - {x};
        }
        assert IsNewest(rows, x);
      }
    }
  }

  function Newest(rows: set<Cursor>): (m: Cursor)
    requires rows != {}
    ensures IsNewest(rows, m)
  {
    NewestExists(rows);
    var m :| m in rows && IsNewest(rows, m);
    m
  }

  // ORDER BY timestamp DESC, id DESC
  function Listing(rows: set<Cursor>): (list: seq<Cursor>)
    ensures |list| == |rows|
    decreases rows
  {
    if rows == {} then []
    else
      var m := Newest(rows);
      [m] + Listing(rows - {m})
  }

  lemma {:induction false} ListingMembers(rows: set<Cursor>)
    ensures forall x :: x in Listing(rows) <==> x in rows
    decreases rows
  {
    if rows != {} {
      ListingMembers(rows - {Newest(rows)});
    }
  }

  predicate StrictlyDescending(list: seq<Cursor>) {
    forall i, j :: 0 <= i < j < |list| ==> Below(list[j], list[i])
  }

  lemma {:induction false} ListingDescends(rows: set<Cursor>)
    ensures StrictlyDescending(Listing(rows))
    decreases rows
  {
    if rows != {} {
      ListingMembers(rows - {Newest(rows)});
      ListingDescends(rows - {Newest(rows)});
    }
  }

  // WHERE (timestamp, id) < (bound)
  function Before(rows: set<Cursor>, bound: Cursor): set<Cursor> {
    set x | x in rows && Below(x, bound)
  }

  lemma BelowNewest(rows: set<Cursor>, m: Cursor, r: Cursor)
    requires IsNewest(rows, m) && r in rows
    ensures Before(rows, m) == rows - {m}
    ensures r != m ==> Before(rows, r) == Before(rows - {m}, r)
  {
  }

  // The rows below the k-th are exactly the rest of the listing.
  lemma {:induction false} BelowKth(rows: set<Cursor>, k: nat)
    requires 0 < k <= |rows|
    ensures Listing(Before(rows, Listing(rows)[k - 1])) == Listing(rows)[k..]
    decreases k
  {
    var m := Newest(rows);
    var rest, list := Listing(rows - {m}), Listing(rows);
    assert list == [m] + rest;
    if k == 1 {
      BelowNewest(rows, m, m);
      assert list[1..] == rest;
    } else {
      BelowKth(rows - {m}, k - 1);
      ListingMembers(rows - {m});
      assert rest[k - 2] in rest;
      BelowNewest(rows, m, rest[k - 2]);
      assert list[k..] == rest[k - 1..];
    }
  }

  datatype PageInfo = PageInfo(limit: int, hasMore: bool, next: Option<Cursor>)

  function EffectiveLimit(limit: int): (r: int)
    ensures 0 < r <= MAX_LIMIT
  {
    if limit <= 0 then DEFAULT_LIMIT else if limit > MAX_LIMIT then MAX_LIMIT else limit
  }

  function EffectiveCursor(after: Cursor, now: Time): Cursor {
    Cursor(if after.timestamp == ZERO_TIME then now else after.timestamp, if after.id == 0 then MAX_INT64 else after.id)
  }

  // The rows a request selects from, in order.
  function Selected(rows: set<Cursor>, after: Cursor, now: Time): seq<Cursor> {
    Listing(Before(rows, EffectiveCursor(after, now)))
  }

  // LIMIT
  function Page(rows: set<Cursor>, after: Cursor, limit: int, now: Time): (page: seq<Cursor>)
    ensures page <= Selected(rows, after, now)
    ensures forall i :: 0 <= i < |page| ==> page[i] in rows
  {
    ListingMembers(Before(rows, EffectiveCursor(after, now)));
    var list := Selected(rows, after, now);
    assert forall i :: 0 <= i < |list| ==> list[i] in list;
    if |list| <= EffectiveLimit(limit) then list else list[..EffectiveLimit(limit)]
  }

  predicate HasMore(rows: set<Cursor>, after: Cursor, limit: int, now: Time) {
    |Page(rows, after, limit, now)| == EffectiveLimit(limit)
  }

  function NextCursor(rows: set<Cursor>, after: Cursor, limit: int, now: Time): Cursor
    requires HasMore(rows, after, limit, now)
  {
    Page(rows, after, limit, now)[EffectiveLimit(limit) - 1]
  }

  predicate IsPageInfo(info: PageInfo, rows: set<Cursor>, after: Cursor, limit: int, now: Time) {
    && info.limit == EffectiveLimit(limit)
    && info.hasMore == HasMore(rows, after, limit, now)
    && info.next == if info.hasMore then Some(NextCursor(rows, after, limit, now)) else None
  }

  // A page in columns: rows before the cursor, where no time means now and no id the highest one, the
  // newest first, as many as were asked for from 1 to 100, 50 when nothing was; and a row is left out
  // only when the page is full of newer ones.
  lemma PageExactly(rows: set<Cursor>, after: Cursor, limit: int, now: Time)
    ensures var page := Page(rows, after, limit, now);
      var n := if limit <= 0 then 50 else if limit > 100 then 100 else limit;
      var time := if after.timestamp == ZERO_TIME then now else after.timestamp;
      var id := if after.id == 0 then 0x7FFF_FFFF_FFFF_FFFF else after.id;
      && |page| <= n
      && (forall i | 0 <= i < |page| ::
            page[i] in rows && (page[i].timestamp < time || (page[i].timestamp == time && page[i].id < id)))
      && (forall i, j | 0 <= i < j < |page| ::
            page[i].timestamp > page[j].timestamp || (page[i].timestamp == page[j].timestamp && page[i].id > page[j].id))
      && (forall x | x in rows && x !in page && (x.timestamp < time || (x.timestamp == time && x.id < id)) ::
            |page| == n && forall i | 0 <= i < n ::
              page[i].timestamp > x.timestamp || (page[i].timestamp == x.timestamp && page[i].id > x.id))
  {
    var page, list := Page(rows, after, limit, now), Selected(rows, after, now);
    SelectedIsExact(rows, after, now);
    assert forall i | 0 <= i < |page| :: page[i] == list[i] && list[i] in list;
    forall x | x in list && x !in page
      ensures |page| == EffectiveLimit(limit) && forall i | 0 <= i < |page| :: Below(x, page[i])
    {
      var k :| 0 <= k < |list| && list[k] == x;
      assert k >= |page|;
    }
  }

  // The same for one row that a request could show.
  lemma LeftOutOnlyBehind(rows: set<Cursor>, after: Cursor, limit: int, now: Time, x: Cursor)
    requires x in rows && Below(x, EffectiveCursor(after, now)) && x !in Page(rows, after, limit, now)
    ensures HasMore(rows, after, limit, now)
    ensures forall i | 0 <= i < |Page(rows, after, limit, now)| :: Below(x, Page(rows, after, limit, now)[i])
  {
    PageExactly(rows, after, limit, now);
  }

  // ---- The repository ----

  datatype TransferRow = TransferRow(user: Address, deposit: bool, amount: nat, txHash: string, block: nat, timestamp: Time)

  datatype RentalRow = RentalRow(
    user: Address, provider: Address, startTime: Time, endTime: Option<Time>, duration: Option<int>,
    cost: Option<nat>, startTx: string, stopTx: Option<string>)

  datatype TransferItem = TransferItem(id: int, row: TransferRow)

  // A rental is active while it has no end time.
  datatype RentalItem = RentalItem(id: int, row: RentalRow, active: bool)

  class QueryRepository {
    const transfers: map<int, TransferRow>
    const rentals: map<int, RentalRow>

    constructor (transfers: map<int, TransferRow>, rentals: map<int, RentalRow>)
      ensures this.transfers == transfers && this.rentals == rentals
    {
      this.transfers, this.rentals := transfers, rentals;
    }

    function TransfersOf(user: Address): set<Cursor> {
      set id | id in transfers && transfers[id].user == user :: Cursor(transfers[id].timestamp, id)
    }

    function RentalsOf(user: Address): set<Cursor> {
      set id | id in rentals && rentals[id].user == user :: Cursor(rentals[id].startTime, id)
    }

    function RentalsBy(provider: Address): set<Cursor> {
      set id | id in rentals && rentals[id].provider == provider :: Cursor(rentals[id].startTime, id)
    }

    predicate ShowsTransfers(items: seq<TransferItem>, page: seq<Cursor>) {
      && |items| == |page|
      && forall i :: 0 <= i < |items| ==>
        items[i].id == page[i].id && page[i].id in transfers && items[i].row == transfers[page[i].id]
    }

    predicate ShowsRentals(items: seq<RentalItem>, page: seq<Cursor>) {
      && |items| == |page|
      && forall i :: 0 <= i < |items| ==> ShowsRental(items[i], page[i].id)
    }

    predicate ShowsRental(item: RentalItem, id: int) {
      id in rentals && item == RentalItem(id, rentals[id], rentals[id].endTime == None)
    }

    method GetDepositWithdrawHistory(user: Address, after: Cursor, limit: int, now: Time)
      returns (items: seq<TransferItem>, info: PageInfo)
      ensures ShowsTransfers(items, Page(TransfersOf(user), after, limit, now))
      ensures IsPageInfo(info, TransfersOf(user), after, limit, now)
      ensures info.limit == (if limit <= 0 then 50 else if limit > 100 then 100 else limit) && |items| <= info.limit
      ensures forall i | 0 <= i < |items| ::
        items[i].id in transfers && items[i].row == transfers[items[i].id] && items[i].row.user == user
    {
      var max := EffectiveLimit(limit);
      var rows := Page(TransfersOf(user), after, limit, now);
      items := [];
      for i := 0 to |rows|
        invariant ShowsTransfers(items, rows[..i])
      {
        assert rows[i] in TransfersOf(user);
        items := items + [TransferItem(rows[i].id, transfers[rows[i].id])];
      }
      info := PageInfo(max, |items| == max, None);
      if |items| > 0 && info.hasMore {
        var last := items[|items| - 1];
        assert rows[|items| - 1] in TransfersOf(user);
        info := info.(next := Some(Cursor(last.row.timestamp, last.id)));
      }
    }

    method ScanRentalItems(rows: seq<Cursor>) returns (items: seq<RentalItem>)
      requires forall i :: 0 <= i < |rows| ==> rows[i].id in rentals
      ensures ShowsRentals(items, rows)
    {
      items := [];
      for i := 0 to |rows|
        invariant ShowsRentals(items, rows[..i])
      {
        var row := rentals[rows[i].id];
        items := items + [RentalItem(rows[i].id, row, row.endTime.None?)];
      }
    }

    method GetRentalHistory(user: Address, after: Cursor, limit: int, now: Time)
      returns (items: seq<RentalItem>, info: PageInfo)
      ensures ShowsRentals(items, Page(RentalsOf(user), after, limit, now))
      ensures IsPageInfo(info, RentalsOf(user), after, limit, now)
      ensures info.limit == (if limit <= 0 then 50 else if limit > 100 then 100 else limit) && |items| <= info.limit
      ensures forall i | 0 <= i < |items| ::
        items[i].id in rentals && items[i].row == rentals[items[i].id] && items[i].row.user == user
        && (items[i].active <==> items[i].row.endTime == None)
    {
      var max := EffectiveLimit(limit);
      var rows := Page(RentalsOf(user), after, limit, now);
      items := ScanRentalItems(rows);
      info := PageInfo(max, |items| == max, None);
      if |items| > 0 && info.hasMore {
        var last := items[|items| - 1];
        assert rows[|items| - 1] in RentalsOf(user) && ShowsRental(last, rows[|items| - 1].id);
        info := info.(next := Some(Cursor(last.row.startTime, last.id)));
      }
    }

    method GetRentalHistoryByProvider(provider: Address, after: Cursor, limit: int, now: Time)
      returns (items: seq<RentalItem>, info: PageInfo)
      ensures ShowsRentals(items, Page(RentalsBy(provider), after, limit, now))
      ensures IsPageInfo(info, RentalsBy(provider), after, limit, now)
      ensures info.limit == (if limit <= 0 then 50 else if limit > 100 then 100 else limit) && |items| <= info.limit
      ensures forall i | 0 <= i < |items| ::
        items[i].id in rentals && items[i].row == rentals[items[i].id] && items[i].row.provider == provider
        && (items[i].active <==> items[i].row.endTime == None)
    {
      var max := EffectiveLimit(limit);
      var rows := Page(RentalsBy(provider), after, limit, now);
      items := ScanRentalItems(rows);
      info := PageInfo(max, |items| == max, None);
      if |items| > 0 && info.hasMore {
        var last := items[|items| - 1];
        assert rows[|items| - 1] in RentalsBy(provider) && ShowsRental(last, rows[|items| - 1].id);
        info := info.(next := Some(Cursor(last.row.startTime, last.id)));
      }
    }

    // Every row of the address before the cursor is shown, or the page is full of newer ones.
    lemma NoTransferMissed(user: Address, after: Cursor, limit: int, now: Time, items: seq<TransferItem>, info: PageInfo, id: int)
      requires ShowsTransfers(items, Page(TransfersOf(user), after, limit, now)) && IsPageInfo(info, TransfersOf(user), after, limit, now)
      requires id in transfers && transfers[id].user == user
      requires Below(Cursor(transfers[id].timestamp, id), EffectiveCursor(after, now))
      ensures (exists i :: 0 <= i < |items| && items[i].id == id)
           || (info.hasMore && forall i | 0 <= i < |items| :: items[i].row.timestamp >= transfers[id].timestamp)
    {
      var key, page := Cursor(transfers[id].timestamp, id), Page(TransfersOf(user), after, limit, now);
      if key in page {
        var i :| 0 <= i < |page| && page[i] == key;
        assert items[i].id == id;
      } else {
        LeftOutOnlyBehind(TransfersOf(user), after, limit, now, key);
        forall i | 0 <= i < |items|
          ensures items[i].row.timestamp >= transfers[id].timestamp
        {
          assert page[i] in TransfersOf(user) && Below(key, page[i]);
        }
      }
    }

    // Every row of the address before the cursor is shown, or the page is full of newer ones.
    lemma NoRentalMissed(user: Address, after: Cursor, limit: int, now: Time, items: seq<RentalItem>, info: PageInfo, id: int)
      requires ShowsRentals(items, Page(RentalsOf(user), after, limit, now)) && IsPageInfo(info, RentalsOf(user), after, limit, now)
      requires id in rentals && rentals[id].user == user
      requires Below(Cursor(rentals[id].startTime, id), EffectiveCursor(after, now))
      ensures (exists i :: 0 <= i < |items| && items[i].id == id)
           || (info.hasMore && forall i | 0 <= i < |items| :: items[i].row.startTime >= rentals[id].startTime)
    {
      var key, page := Cursor(rentals[id].startTime, id), Page(RentalsOf(user), after, limit, now);
      if key in page {
        var i :| 0 <= i < |page| && page[i] == key;
        assert items[i].id == id;
      } else {
        LeftOutOnlyBehind(RentalsOf(user), after, limit, now, key);
        forall i | 0 <= i < |items|
          ensures items[i].row.startTime >= rentals[id].startTime
        {
          assert page[i] in RentalsOf(user) && Below(key, page[i]);
        }
      }
    }

    // Every row of the address before the cursor is shown, or the page is full of newer ones.
    lemma NoProviderRentalMissed(provider: Address, after: Cursor, limit: int, now: Time, items: seq<RentalItem>, info: PageInfo, id: int)
      requires ShowsRentals(items, Page(RentalsBy(provider), after, limit, now)) && IsPageInfo(info, RentalsBy(provider), after, limit, now)
      requires id in rentals && rentals[id].provider == provider
      requires Below(Cursor(rentals[id].startTime, id), EffectiveCursor(after, now))
      ensures (exists i :: 0 <= i < |items| && items[i].id == id)
           || (info.hasMore && forall i | 0 <= i < |items| :: items[i].row.startTime >= rentals[id].startTime)
    {
      var key, page := Cursor(rentals[id].startTime, id), Page(RentalsBy(provider), after, limit, now);
      if key in page {
        var i :| 0 <= i < |page| && page[i] == key;
        assert items[i].id == id;
      } else {
        LeftOutOnlyBehind(RentalsBy(provider), after, limit, now, key);
        forall i | 0 <= i < |items|
          ensures items[i].row.startTime >= rentals[id].startTime
        {
          assert page[i] in RentalsBy(provider) && Below(key, page[i]);
        }
      }
    }
  }

  // ---- Following the cursors ----

  predicate Usable(key: Cursor) { key.id != 0 && key.timestamp != ZERO_TIME }

  lemma BelowTwice(rows: set<Cursor>, high: Cursor, low: Cursor)
    requires Below(low, high)
    ensures Before(Before(rows, high), low) == Before(rows, low)
  {
  }

  lemma UsableContinues(rows: set<Cursor>, after: Cursor, limit: int, now: Time, later: Time)
    requires HasMore(rows, after, limit, now) && Usable(NextCursor(rows, after, limit, now))
    ensures Selected(rows, NextCursor(rows, after, limit, now), later)
         == Selected(rows, after, now)[EffectiveLimit(limit)..]
  {
    var start, last := EffectiveCursor(after, now), NextCursor(rows, after, limit, now);
    ListingMembers(Before(rows, start));
    BelowKth(Before(rows, start), EffectiveLimit(limit));
    assert last in Before(rows, start);
    BelowTwice(rows, start, last);
  }

  lemma UnusableRepeats(rows: set<Cursor>, after: Cursor, limit: int, now: Time, later: Time)
    requires HasMore(rows, after, limit, now) && !Usable(NextCursor(rows, after, limit, now)) && later > ZERO_TIME
    ensures NextCursor(rows, after, limit, now) in Selected(rows, NextCursor(rows, after, limit, now), later)
    ensures NextCursor(rows, after, limit, now) !in Selected(rows, after, now)[EffectiveLimit(limit)..]
  {
    var last := NextCursor(rows, after, limit, now);
    ListingMembers(Before(rows, EffectiveCursor(last, later)));
    assert last in Before(rows, EffectiveCursor(last, later));
    ListingDescends(Before(rows, EffectiveCursor(after, now)));
  }

  // After a full page, the next request selects the rest of the rows exactly when the last row has an
  // id other than 0 and a timestamp other than the zero time; otherwise that row is listed again.
  lemma NextPageContinues(rows: set<Cursor>, after: Cursor, limit: int, now: Time, later: Time)
    requires HasMore(rows, after, limit, now) && later > ZERO_TIME
    ensures Selected(rows, NextCursor(rows, after, limit, now), later)
         == Selected(rows, after, now)[EffectiveLimit(limit)..]
       <==> Usable(NextCursor(rows, after, limit, now))
  {
    if Usable(NextCursor(rows, after, limit, now)) {
      UsableContinues(rows, after, limit, now, later);
    } else {
      UnusableRepeats(rows, after, limit, now, later);
    }
  }

  // The pages a client reads by following the cursors, at most `fuel` of them; request k reads clock(k).
  function Pages(rows: set<Cursor>, after: Cursor, limit: int, clock: nat -> Time, k: nat, fuel: nat): seq<seq<Cursor>>
    decreases fuel
  {
    if fuel == 0 then []
    else if !HasMore(rows, after, limit, clock(k)) then [Page(rows, after, limit, clock(k))]
    else
      [Page(rows, after, limit, clock(k))]
      + Pages(rows, NextCursor(rows, after, limit, clock(k)), limit, clock, k + 1, fuel - 1)
  }

  function Flat<T>(pages: seq<seq<T>>): seq<T> {
    if pages == [] then [] else pages[0] + Flat(pages[1..])
  }

  lemma FlatCons<T>(page: seq<T>, tail: seq<seq<T>>)
    ensures Flat([page] + tail) == page + Flat(tail)
  {
    assert ([page] + tail)[1..] == tail;
  }

  // total / n + 1
  predicate PageCount(pages: nat, total: nat, n: nat) { pages > 0 && (pages - 1) * n <= total < pages * n }

  lemma OnePageMore(pages: nat, total: nat, n: nat)
    requires n <= total && PageCount(pages, total - n, n)
    ensures PageCount(pages + 1, total, n)
  {
    assert (pages + 1) * n == pages * n + n == (pages - 1) * n + n + n;
  }

  lemma OnePageLess(fuel: nat, total: nat, n: nat)
    requires 0 < n <= total < fuel * n
    ensures fuel > 0 && total - n < (fuel - 1) * n
  {
    assert fuel * n == (fuel - 1) * n + n;
  }

  // A full page before pages that list the rest.
  lemma OnePageFirst(rows: set<Cursor>, after: Cursor, limit: int, now: Time, tail: seq<seq<Cursor>>)
    requires HasMore(rows, after, limit, now)
    requires Flat(tail) == Selected(rows, after, now)[EffectiveLimit(limit)..]
    requires PageCount(|tail|, |Selected(rows, after, now)| - EffectiveLimit(limit), EffectiveLimit(limit))
    ensures Flat([Page(rows, after, limit, now)] + tail) == Selected(rows, after, now)
    ensures PageCount(|[Page(rows, after, limit, now)] + tail|, |Selected(rows, after, now)|, EffectiveLimit(limit))
  {
    var n, list, page := EffectiveLimit(limit), Selected(rows, after, now), Page(rows, after, limit, now);
    OnePageMore(|tail|, |list|, n);
    FlatCons(page, tail);
    assert list == page + list[n..];
  }

  // Following the cursors lists every row below the first cursor exactly once, newest first, and
  // stops after as many pages as it takes to find one that is not full: total / limit + 1.
  lemma {:induction false} FollowingListsAll(rows: set<Cursor>, after: Cursor, limit: int, clock: nat -> Time, k: nat, fuel: nat)
    requires forall x :: x in rows ==> Usable(x)
    requires |Selected(rows, after, clock(k))| < fuel * EffectiveLimit(limit)
    ensures Flat(Pages(rows, after, limit, clock, k, fuel)) == Selected(rows, after, clock(k))
    ensures PageCount(|Pages(rows, after, limit, clock, k, fuel)|, |Selected(rows, after, clock(k))|, EffectiveLimit(limit))
    decreases fuel
  {
    if HasMore(rows, after, limit, clock(k)) {
      var next := NextCursor(rows, after, limit, clock(k));
      UsableContinues(rows, after, limit, clock(k), clock(k + 1));
      OnePageLess(fuel, |Selected(rows, after, clock(k))|, EffectiveLimit(limit));
      FollowingListsAll(rows, next, limit, clock, k + 1, fuel - 1);
      OnePageFirst(rows, after, limit, clock(k), Pages(rows, next, limit, clock, k + 1, fuel - 1));
    } else {
      FlatCons(Page(rows, after, limit, clock(k)), []);
    }
  }

  lemma SelectedIsExact(rows: set<Cursor>, after: Cursor, now: Time)
    ensures StrictlyDescending(Selected(rows, after, now))
    ensures forall x :: x in Selected(rows, after, now) <==> x in rows && Below(x, EffectiveCursor(after, now))
  {
    ListingMembers(Before(rows, EffectiveCursor(after, now)));
    ListingDescends(Before(rows, EffectiveCursor(after, now)));
  }
}
