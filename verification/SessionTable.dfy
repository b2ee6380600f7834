/**
 The rental_sessions table and its SQL statements (internal/adapters/postgres/rental_repo.go).
 Each statement is one function from table to table, used both by the repository class and by
 the interleaving model. None stands for a statement that affects no row or breaks a unique
 index (migrations/003 on rental_id, migrations/007 on tx_hash of undeleted rows).
 */
module SessionTable {
  import opened Outcomes
  import opened Rental

  type Table = map<string, Session>

  const EXPIRATION_LIMIT: nat := 100

  predicate Keyed(t: Table) { forall id :: id in t ==> t[id].id == id }

  predicate Live(t: Table, id: string) { id in t && t[id].deletedAt.None? }

  // Two rows that the unique indexes let stand side by side.
  predicate Compatible(x: Session, y: Session) {
    && (x.rentalId.Some? ==> x.rentalId != y.rentalId)
    && (x.txHash.Some? && x.deletedAt.None? && y.deletedAt.None? ==> x.txHash != y.txHash)
  }

  predicate Fits(t: Table, row: Session) {
    forall k :: k in t && k != row.id ==> Compatible(row, t[k])
  }

  predicate UniqueIndexes(t: Table) {
    forall a, b :: a in t && b in t && a != b ==> Compatible(t[a], t[b])
  }

  function InsertRow(t: Table, s: Session): Option<Table> {
    if s.id in t || !Fits(t, s) then None else Some(t[s.id := s])
  }

  // The six columns an UPDATE of a session writes; every other column keeps its stored value.
  function Overwritten(stored: Session, s: Session, now: Time): Session {
    stored.(rentalId := s.rentalId, state := s.state, startTime := s.startTime, endTime := s.endTime,
      txHash := s.txHash, blockNumber := s.blockNumber, updatedAt := now)
  }

  // WHERE id = $1 only: neither the stored state nor deleted_at is looked at.
  function UpdateRow(t: Table, s: Session, now: Time): Option<Table>
    requires Keyed(t)
  {
    if s.id in t && Fits(t, Overwritten(t[s.id], s, now)) then Some(t[s.id := Overwritten(t[s.id], s, now)]) else None
  }

  function TouchRow(t: Table, id: string, now: Time): Option<Table> {
    if id in t then Some(t[id := t[id].(updatedAt := now)]) else None
  }

  function WithTxHash(s: Session, txHash: string, now: Time): Session {
    s.(txHash := Some(txHash), updatedAt := now)
  }

  function SetTxHashRow(t: Table, id: string, txHash: string, now: Time): Option<Table>
    requires Keyed(t)
  {
    if Live(t, id) && Fits(t, WithTxHash(t[id], txHash, now)) then Some(t[id := WithTxHash(t[id], txHash, now)]) else None
  }

  // With the indexes in place, a hash can be set exactly when no other undeleted row holds it.
  lemma HashIsFree(t: Table, id: string, txHash: string, now: Time)
    requires Keyed(t)
    ensures UniqueIndexes(t) ==>
      (SetTxHashRow(t, id, txHash, now).Some? <==>
        id in t && t[id].deletedAt == None
        && forall k :: k in t && k != id && t[k].deletedAt == None ==> t[k].txHash != Some(txHash))
  {
    if UniqueIndexes(t) && Live(t, id) {
      forall k | k in t && k != id
        ensures Compatible(WithTxHash(t[id], txHash, now), t[k]) <==> (t[k].deletedAt == None ==> t[k].txHash != Some(txHash))
      {
        assert Compatible(t[id], t[k]);
      }
    }
  }

  predicate Abandoned(s: Session, cutoff: Time) {
    s.state == Pending && s.createdAt < cutoff && s.deletedAt.None? && s.txHash.None?
  }

  function SoftDeleteRows(t: Table, cutoff: Time, now: Time): Table {
    map id | id in t :: if Abandoned(t[id], cutoff) then t[id].(deletedAt := Some(now), updatedAt := now) else t[id]
  }

  predicate AwaitingConfirmation(s: Session) { s.state == Pending && s.txHash.Some? && s.deletedAt.None? }

  predicate Extendable(s: Session) { s.state == Running && s.deletedAt.None? }

  function ExtendRow(t: Table, id: string, until: Time, minutes: int, now: Time): Option<Table> {
    if id in t && Extendable(t[id]) then
      Some(t[id := t[id].(extendedUntil := Some(until), extensionCount := t[id].extensionCount + 1,
             totalExtendedMinutes := t[id].totalExtendedMinutes + minutes, updatedAt := now)])
    else None
  }

  function ExpiryOf(s: Session): Time {
    match s.extendedUntil
    case Some(until) => until
    case None => 0
  }

  predicate Expiring(s: Session, cutoff: Time) {
    s.state == Running && s.deletedAt.None? && s.extendedUntil.Some? && ExpiryOf(s) <= cutoff
  }

  predicate PendingSettlement(s: Session) { s.state == Stopped && s.settledAt.None? && s.deletedAt.None? }

  function SettleRow(t: Table, id: string, amount: int, at: Time, now: Time): Option<Table> {
    if id in t then Some(t[id := t[id].(settledAmount := Some(amount), settledAt := Some(at), updatedAt := now)]) else None
  }

  predicate OwnedInState(s: Session, user: Address, state: State) {
    s.user == user && s.state == state && s.deletedAt.None?
  }

  predicate HoldsRental(s: Session, rentalId: nat) { s.rentalId == Some(rentalId) && s.deletedAt.None? }

  predicate Stale(s: Session, state: State, cutoff: Time) {
    s.state == state && s.updatedAt < cutoff && s.deletedAt.None?
  }

  // A query result: the matching rows, each once.
  predicate IsListing(t: Table, matches: Session -> bool, out: seq<Session>) {
    && (forall i :: 0 <= i < |out| ==> out[i].id in t && t[out[i].id] == out[i] && matches(out[i]))
    && (forall i, j :: 0 <= i < j < |out| ==> out[i].id != out[j].id)
    && (forall id :: id in t && matches(t[id]) ==> t[id] in out)
  }

  // ORDER BY: ascending in a column, or in its negation for DESC. Rows of equal key come in any order.
  predicate Ascending(out: seq<Session>, key: Session -> int) {
    forall i, j :: 0 <= i < j < |out| ==> key(out[i]) <= key(out[j])
  }

  function CreatedAt(s: Session): int { s.createdAt }

  function NewestFirst(s: Session): int { -s.createdAt }

  function UpdatedAt(s: Session): int { s.updatedAt }

  lemma {:induction false} LeastExists(t: Table, ids: set<string>, key: Session -> int)
    requires ids != {} && ids <= t.Keys
    ensures exists id :: id in ids && forall k :: k in ids ==> key(t[id]) <= key(t[k])
    decreases ids
  {
    var x :| x in ids;
    if ids - {x} == {} {
      assert ids == {x};
    } else {
      LeastExists(t, ids - {x}, key);
      var y :| y in ids - {x} && forall k :: k in ids - {x} ==> key(t[y]) <= key(t[k]);
      var least := if key(t[x]) <= key(t[y]) then x else y;
      assert least in ids && forall k :: k in ids ==> k == x || k in ids - {x};
    }
  }

  class RentalSessionRepository {
    var rows: Table

    constructor ()
      ensures rows == map[]
    {
      rows := map[];
    }

    method Create(s: Session) returns (ok: bool)
      modifies this
      ensures ok == InsertRow(old(rows), s).Some?
      ensures ok <==> s.id !in old(rows) && forall k | k in old(rows) ::
        && (s.rentalId == None || old(rows)[k].rentalId != s.rentalId)
        && (s.txHash == None || s.deletedAt != None || old(rows)[k].deletedAt != None || old(rows)[k].txHash != s.txHash)
      ensures rows == if ok then old(rows)[s.id := s] else old(rows)
    {
      ok := InsertRow(rows, s).Some?;
      if ok { rows := rows[s.id := s]; }
    }

    function GetByID(id: string): (r: Option<Session>)
      reads this
      ensures r.Some? <==> id in rows && rows[id].deletedAt == None
      ensures r.Some? ==> r.value == rows[id]
    {
      if id in rows && rows[id].deletedAt.None? then Some(rows[id]) else None
    }

    // Writes six columns of the snapshot; settled_amount, deleted_at and the extension columns survive.
    method Update(s: Session, now: Time) returns (ok: bool)
      requires Keyed(rows)
      modifies this
      ensures ok == UpdateRow(old(rows), s, now).Some?
      ensures ok <==> s.id in old(rows) && forall k | k in old(rows) && k != s.id ::
        && (s.rentalId == None || old(rows)[k].rentalId != s.rentalId)
        && (s.txHash == None || old(rows)[s.id].deletedAt != None || old(rows)[k].deletedAt != None || old(rows)[k].txHash != s.txHash)
      ensures ok ==> Some(rows) == UpdateRow(old(rows), s, now)
      ensures ok ==> s.id in old(rows) && rows == old(rows)[s.id := old(rows)[s.id].(
        state := s.state, rentalId := s.rentalId, startTime := s.startTime, endTime := s.endTime,
        txHash := s.txHash, blockNumber := s.blockNumber, updatedAt := now)]
      ensures !ok ==> rows == old(rows)
    {
      if s.id !in rows { return false; }
      var row := Overwritten(rows[s.id], s, now);
      if !Fits(rows, row) { return false; }
      rows := rows[s.id := row];
      ok := true;
    }

    method TouchSession(id: string, now: Time) returns (ok: bool)
      modifies this
      ensures ok == (id in old(rows))
      ensures ok ==> Some(rows) == TouchRow(old(rows), id, now)
      ensures rows == if ok then old(rows)[id := old(rows)[id].(updatedAt := now)] else old(rows)
    {
      ok := id in rows;
      if ok { rows := rows[id := rows[id].(updatedAt := now)]; }
    }

    method SetTxHash(id: string, txHash: string, now: Time) returns (ok: bool)
      requires Keyed(rows)
      modifies this
      ensures ok == SetTxHashRow(old(rows), id, txHash, now).Some?
      ensures ok ==> Some(rows) == SetTxHashRow(old(rows), id, txHash, now)
      ensures rows == if ok then old(rows)[id := old(rows)[id].(txHash := Some(txHash), updatedAt := now)] else old(rows)
      ensures UniqueIndexes(old(rows)) ==>
        (ok <==> id in old(rows) && old(rows)[id].deletedAt == None
                 && forall k :: k in old(rows) && k != id && old(rows)[k].deletedAt == None ==>
                      old(rows)[k].txHash != Some(txHash))
    {
      HashIsFree(rows, id, txHash, now);
      ok := Live(rows, id) && Fits(rows, WithTxHash(rows[id], txHash, now));
      if ok { rows := rows[id := rows[id].(txHash := Some(txHash), updatedAt := now)]; }
    }

    method SoftDeletePendingBefore(cutoff: Time, now: Time) returns (count: nat)
      modifies this
      ensures rows == SoftDeleteRows(old(rows), cutoff, now)
      ensures count == |set id | id in old(rows) && old(rows)[id].deletedAt.None? && rows[id].deletedAt.Some?|
      ensures rows.Keys == old(rows).Keys
      ensures forall id :: id in rows ==>
        var r := old(rows)[id];
        rows[id] == if r.state == Pending && r.txHash == None && r.deletedAt == None && r.createdAt < cutoff
                    then r.(deletedAt := Some(now), updatedAt := now) else r
    {
      ghost var before := rows;
      var hit := set id | id in rows && Abandoned(rows[id], cutoff);
      rows := map id | id in rows :: if id in hit then rows[id].(deletedAt := Some(now), updatedAt := now) else rows[id];
      count := |hit|;
      assert hit == set id | id in before && before[id].deletedAt.None? && rows[id].deletedAt.Some?;
    }

    method UpdateExtension(id: string, until: Time, minutes: int, now: Time) returns (ok: bool)
      modifies this
      ensures ok == (id in old(rows) && Extendable(old(rows)[id]))
      ensures ok ==> Some(rows) == ExtendRow(old(rows), id, until, minutes, now)
      ensures ok <==> id in old(rows) && old(rows)[id].state == Running && old(rows)[id].deletedAt == None
      ensures ok ==>
        var r := old(rows)[id];
        rows == old(rows)[id := r.(extendedUntil := Some(until), extensionCount := r.extensionCount + 1,
          totalExtendedMinutes := r.totalExtendedMinutes + minutes, updatedAt := now)]
      ensures !ok ==> rows == old(rows)
    {
      ok := id in rows && Extendable(rows[id]);
      if ok {
        var s := rows[id];
        s := s.(extendedUntil := Some(until), updatedAt := now);
        s := s.(extensionCount := s.extensionCount + 1);
        s := s.(totalExtendedMinutes := s.totalExtendedMinutes + minutes);
        rows := rows[id := s];
      }
    }

    method UpdateSettlement(id: string, amount: int, at: Time, now: Time) returns (ok: bool)
      modifies this
      ensures ok == (id in old(rows))
      ensures ok ==> Some(rows) == SettleRow(old(rows), id, amount, at, now)
      ensures rows == if ok then old(rows)[id := old(rows)[id].(settledAmount := Some(amount), settledAt := Some(at), updatedAt := now)]
                      else old(rows)
    {
      ok := id in rows;
      if ok { rows := rows[id := rows[id].(settledAmount := Some(amount), settledAt := Some(at), updatedAt := now)]; }
    }

    // The scan loop shared by the list queries, over the rows in the order of the query.
    method Collect(matches: Session -> bool, key: Session -> int) returns (out: seq<Session>)
      requires Keyed(rows)
      ensures IsListing(rows, matches, out) && Ascending(out, key)
    {
      out := [];
      var unread := rows.Keys;
      while unread != {}
        invariant Scanned(rows, matches, key, out, unread)
        decreases unread
      {
        LeastExists(rows, unread, key);
        var id :| id in unread && forall k :: k in unread ==> key(rows[id]) <= key(rows[k]);
        ScanNext(rows, matches, key, out, unread, id);
        unread := unread - {id};
        if matches(rows[id]) { out := out + [rows[id]]; }
      }
    }

    // At most one row can match: rental ids are unique.
    method GetByRentalID(rentalId: nat) returns (r: Option<Session>)
      requires Keyed(rows)
      ensures r.Some? ==> HoldsRental(r.value, rentalId) && r.value.id in rows && rows[r.value.id] == r.value
      ensures r.None? ==> forall id :: id in rows ==> !HoldsRental(rows[id], rentalId)
      ensures r.Some? ==> r.value.rentalId == Some(rentalId) && r.value.deletedAt == None
      ensures r.None? ==> forall id :: id in rows && rows[id].deletedAt == None ==> rows[id].rentalId != Some(rentalId)
    {
      var found := Collect(s => HoldsRental(s, rentalId), CreatedAt);
      r := if |found| > 0 then Some(found[0]) else None;
    }

    method ListPendingWithTxHash() returns (out: seq<Session>)
      requires Keyed(rows)
      ensures IsListing(rows, AwaitingConfirmation, out) && Ascending(out, CreatedAt)
      ensures forall id :: id in rows ==> (rows[id] in out <==> 
        rows[id].state == Pending && rows[id].txHash != None && rows[id].deletedAt == None)
      ensures forall i, j :: 0 <= i < j < |out| ==> out[i].createdAt <= out[j].createdAt
    {
      out := Collect(AwaitingConfirmation, CreatedAt);
    }

    method FindByUserAndState(user: Address, state: State) returns (out: seq<Session>)
      requires Keyed(rows)
      ensures IsListing(rows, s => OwnedInState(s, user, state), out) && Ascending(out, NewestFirst)
      ensures forall id :: id in rows ==> (rows[id] in out <==> 
        rows[id].user == user && rows[id].state == state && rows[id].deletedAt == None)
      ensures forall i, j :: 0 <= i < j < |out| ==> out[i].createdAt >= out[j].createdAt
    {
      out := Collect(s => OwnedInState(s, user, state), NewestFirst);
    }

    method FindStale(state: State, olderThan: Time, now: Time) returns (out: seq<Session>)
      requires Keyed(rows)
      ensures IsListing(rows, s => Stale(s, state, now - olderThan), out) && Ascending(out, UpdatedAt)
      ensures forall id :: id in rows ==> (rows[id] in out <==> 
        rows[id].state == state && rows[id].updatedAt < now - olderThan && rows[id].deletedAt == None)
      ensures forall i, j :: 0 <= i < j < |out| ==> out[i].updatedAt <= out[j].updatedAt
    {
      out := Collect(s => Stale(s, state, now - olderThan), UpdatedAt);
    }

    method FindAllPendingSettlement() returns (out: seq<Session>)
      requires Keyed(rows)
      ensures IsListing(rows, PendingSettlement, out) && Ascending(out, CreatedAt)
      ensures forall id :: id in rows ==> (rows[id] in out <==> 
        rows[id].state == Stopped && rows[id].settledAt == None && rows[id].deletedAt == None)
      ensures forall i, j :: 0 <= i < j < |out| ==> out[i].createdAt <= out[j].createdAt
    {
      out := Collect(PendingSettlement, CreatedAt);
    }

    // settled_at is not looked at (the query predates the column).
    method FindPendingSettlement(user: Address) returns (out: seq<Session>)
      requires Keyed(rows)
      ensures IsListing(rows, s => OwnedInState(s, user, Stopped), out) && Ascending(out, NewestFirst)
      ensures forall id :: id in rows ==> (rows[id] in out <==> 
        rows[id].user == user && rows[id].state == Stopped && rows[id].deletedAt == None)
      ensures forall i, j :: 0 <= i < j < |out| ==> out[i].createdAt >= out[j].createdAt
    {
      out := Collect(s => OwnedInState(s, user, Stopped), NewestFirst);
    }

    method FindExpiringSessions(cutoff: Time) returns (out: seq<Session>)
      requires Keyed(rows)
      ensures IsExpiryBatch(rows, cutoff, out)
      ensures |out| <= 100
      ensures forall i | 0 <= i < |out| ::
        && out[i].id in rows && rows[out[i].id] == out[i]
        && out[i].state == Running && out[i].deletedAt == None
        && out[i].extendedUntil != None && out[i].extendedUntil.value <= cutoff
      ensures forall i, j | 0 <= i < j < |out| :: out[i].extendedUntil.value <= out[j].extendedUntil.value
      ensures forall id | id in rows && rows[id] !in out && rows[id].state == Running && rows[id].deletedAt == None ::
        rows[id].extendedUntil != None && rows[id].extendedUntil.value <= cutoff ==>
          |out| == 100 && forall i | 0 <= i < 100 :: out[i].extendedUntil.value <= rows[id].extendedUntil.value
    {
      out := [];
      var due := set id | id in rows && Expiring(rows[id], cutoff);
      while |out| < EXPIRATION_LIMIT && due != {}
        invariant |out| <= EXPIRATION_LIMIT
        invariant Picked(rows, cutoff, out, due)
        decreases due
      {
        LeastExists(rows, due, ExpiryOf);
        var id :| id in due && forall k :: k in due ==> ExpiryOf(rows[id]) <= ExpiryOf(rows[k]);
        PickNext(rows, cutoff, out, due, id);
        due := due - {id};
        out := out + [rows[id]];
      }
    }
  }

  // Rows read so far in key order, none after those still unread.
  predicate Scanned(t: Table, matches: Session -> bool, key: Session -> int, out: seq<Session>, unread: set<string>) {
    && unread <= t.Keys
    && (forall i :: 0 <= i < |out| ==>
          out[i].id in t && out[i].id !in unread && t[out[i].id] == out[i] && matches(out[i]))
    && (forall i, j :: 0 <= i < j < |out| ==> out[i].id != out[j].id)
    && Ascending(out, key)
    && (forall i, id :: 0 <= i < |out| && id in unread ==> key(out[i]) <= key(t[id]))
    && (forall id :: id in t && id !in unread && matches(t[id]) ==> t[id] in out)
  }

  lemma ScanNext(t: Table, matches: Session -> bool, key: Session -> int, out: seq<Session>, unread: set<string>, id: string)
    requires Keyed(t) && Scanned(t, matches, key, out, unread) && id in unread
    requires forall k :: k in unread ==> key(t[id]) <= key(t[k])
    ensures Scanned(t, matches, key, if matches(t[id]) then out + [t[id]] else out, unread - {id})
  {
  }

  // At most 100 due rows, the earliest first; a due row is left out only behind a full batch.
  predicate IsExpiryBatch(t: Table, cutoff: Time, out: seq<Session>) {
    && |out| <= EXPIRATION_LIMIT
    && (forall i :: 0 <= i < |out| ==> out[i].id in t && t[out[i].id] == out[i] && Expiring(out[i], cutoff))
    && (forall i, j :: 0 <= i < j < |out| ==> out[i].id != out[j].id && ExpiryOf(out[i]) <= ExpiryOf(out[j]))
    && (forall id :: id in t && Expiring(t[id], cutoff) && t[id] !in out ==> LeftBehind(t[id], out))
  }

  predicate LeftBehind(s: Session, out: seq<Session>) {
    |out| == EXPIRATION_LIMIT && forall i :: 0 <= i < |out| ==> ExpiryOf(out[i]) <= ExpiryOf(s)
  }

  // Due rows taken so far in order of expiry, none later than those still left.
  predicate Picked(t: Table, cutoff: Time, out: seq<Session>, due: set<string>) {
    && (forall id :: id in due ==> id in t && Expiring(t[id], cutoff))
    && (forall i :: 0 <= i < |out| ==>
          out[i].id in t && out[i].id !in due && t[out[i].id] == out[i] && Expiring(out[i], cutoff))
    && (forall i, j :: 0 <= i < j < |out| ==> out[i].id != out[j].id && ExpiryOf(out[i]) <= ExpiryOf(out[j]))
    && (forall i, id :: 0 <= i < |out| && id in due ==> ExpiryOf(out[i]) <= ExpiryOf(t[id]))
    && (forall id :: id in t && Expiring(t[id], cutoff) && id !in due ==> t[id] in out)
  }

  lemma PickNext(t: Table, cutoff: Time, out: seq<Session>, due: set<string>, id: string)
    requires Keyed(t) && Picked(t, cutoff, out, due) && id in due
    requires forall k :: k in due ==> ExpiryOf(t[id]) <= ExpiryOf(t[k])
    ensures Picked(t, cutoff, out + [t[id]], due - {id})
  {
  }
}
