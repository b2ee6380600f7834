/** The expiration worker's sweep (internal/sessions/expiration_worker.go). */
module Expiration {
  import opened Outcomes
  import opened Rental
  import opened SessionTable
  import opened SessionManagement
  import opened Billing
  import opened Capacity
  import opened Provisioning
  import Interleaving

  // A row the sweep stopped: it was due at the cutoff and ends no earlier than its expiry.
  predicate Expired(s: Session, s': Session, cutoff: Time) {
    && Expiring(s, cutoff)
    && s'.state == Stopped && s'.txHash == Some("") && s'.blockNumber == Some(0)
    && s'.endTime.Some? && s'.endTime.value >= cutoff >= ExpiryOf(s)
    && s'.startTime == s.startTime && s'.rentalId == s.rentalId && s'.extendedUntil == s.extendedUntil
    && s'.settledAmount == s.settledAmount && s'.deletedAt == s.deletedAt
  }

  // Two rows stopped from the hub would share the empty hash.
  lemma AtMostOneStopped(t: Table, t': Table, cutoff: Time)
    requires UniqueIndexes(t') && t'.Keys == t.Keys
    requires forall id :: id in t ==> t'[id] == t[id] || Expired(t[id], t'[id], cutoff)
    ensures forall a, b | a in t && b in t && a != b :: t'[a] == t[a] || t'[b] == t[b]
  {
    forall a, b | a in t && b in t && a != b
      ensures t'[a] == t[a] || t'[b] == t[b]
    {
      assert Compatible(t'[a], t'[b]);
    }
  }

  // ---- What one sweep does, exactly ----

  // No other undeleted row holds the empty hash.
  predicate FreeHash(t: Table, id: string) {
    forall k :: k in t && k != id && t[k].deletedAt.None? ==> t[k].txHash != Some("")
  }

  predicate NoEmptyHash(t: Table) { forall k :: k in t && t[k].deletedAt.None? ==> t[k].txHash != Some("") }

  // The row of a session the sweep stops at a time.
  function StoppedRow(s: Session, at: Time): Session {
    s.(state := Stopped, endTime := Some(at), txHash := Some(""), blockNumber := Some(0), updatedAt := at)
  }

  // The i-th listed session is stopped: it holds the empty hash already, or it is the earliest and
  // nobody does.
  predicate Stops(before: Table, listed: seq<Session>, i: nat)
    requires i < |listed|
  {
    listed[i].txHash == Some("") || (i == 0 && NoEmptyHash(before))
  }

  // The table after the first n listed sessions.
  predicate SweptTo(before: Table, t: Table, listed: seq<Session>, clock: nat -> Time, n: nat)
    requires n <= |listed|
  {
    && t.Keys == before.Keys
    && (forall i :: 0 <= i < n ==>
          && listed[i].id in t
          && t[listed[i].id] == if Stops(before, listed, i) then StoppedRow(listed[i], clock(i)) else listed[i])
    && (forall i :: n <= i < |listed| ==> listed[i].id in t && t[listed[i].id] == listed[i])
    && (forall id :: id in t && NotListed(listed, id) ==> t[id] == before[id])
  }

  predicate NotListed(listed: seq<Session>, id: string) { forall i :: 0 <= i < |listed| ==> listed[i].id != id }

  lemma HubStopFits(t: Table, s: Session, at: Time)
    requires Keyed(t) && UniqueIndexes(t) && s.id in t && t[s.id] == s && s.deletedAt.None?
    ensures Fits(t, StoppedRow(s, at)) <==> FreeHash(t, s.id)
  {
    var row := StoppedRow(s, at);
    forall k | k in t && k != s.id
      ensures Compatible(row, t[k]) <==> (t[k].deletedAt.None? ==> t[k].txHash != Some(""))
    {
      assert Compatible(s, t[k]);
    }
  }

  // At a session's turn the hash is free for it exactly when the sweep is to stop it.
  lemma FreeAtItsTurn(before: Table, t: Table, listed: seq<Session>, clock: nat -> Time, n: nat, cutoff: Time)
    requires Keyed(before) && UniqueIndexes(before) && Keyed(t) && UniqueIndexes(t)
    requires IsExpiryBatch(before, cutoff, listed) && n < |listed| && SweptTo(before, t, listed, clock, n)
    ensures FreeHash(t, listed[n].id) <==> Stops(before, listed, n)
  {
    var id := listed[n].id;
    if NoEmptyHash(before) {
      EmptyHashStaysFree(before, t, listed, clock, n, cutoff);
    } else {
      var x :| x in before && before[x].deletedAt.None? && before[x].txHash == Some("");
      HolderKeepsHash(before, t, listed, clock, n, x, cutoff);
      assert x != id ==> Compatible(before[x], before[id]) && Compatible(t[x], t[id]);
      forall k | k in t && k != x && t[k].deletedAt.None?
        ensures t[k].txHash != Some("")
      {
        assert Compatible(t[x], t[k]);
      }
    }
  }

  lemma HolderKeepsHash(before: Table, t: Table, listed: seq<Session>, clock: nat -> Time, n: nat, x: string, cutoff: Time)
    requires IsExpiryBatch(before, cutoff, listed) && n <= |listed| && SweptTo(before, t, listed, clock, n)
    requires x in before && before[x].deletedAt.None? && before[x].txHash == Some("")
    ensures t[x].deletedAt.None? && t[x].txHash == Some("")
  {
    if !NotListed(listed, x) {
      var i :| 0 <= i < |listed| && listed[i].id == x;
      assert listed[i] == before[x];
    }
  }

  lemma EmptyHashStaysFree(before: Table, t: Table, listed: seq<Session>, clock: nat -> Time, n: nat, cutoff: Time)
    requires IsExpiryBatch(before, cutoff, listed) && n < |listed| && SweptTo(before, t, listed, clock, n)
    requires NoEmptyHash(before)
    ensures FreeHash(t, listed[n].id) <==> n == 0
  {
    if n == 0 {
      forall k | k in t && t[k].deletedAt.None?
        ensures t[k].txHash != Some("")
      {
        if !NotListed(listed, k) {
          var i :| 0 <= i < |listed| && listed[i].id == k;
          assert t[k] == listed[i] == before[k];
        }
      }
    } else {
      var first := listed[0].id;
      assert t[first] == StoppedRow(listed[0], clock(0)) && first != listed[n].id;
    }
  }

  lemma OthersStay(t: Table, t': Table, listed: seq<Session>, n: nat, row: Session, i: nat)
    requires n < |listed| && i < |listed| && i != n && listed[i].id in t
    requires forall i, j :: 0 <= i < j < |listed| ==> listed[i].id != listed[j].id
    requires t' == t || t' == t[listed[n].id := row]
    ensures listed[i].id in t' && t'[listed[i].id] == t[listed[i].id]
  {
    assert listed[i].id != listed[n].id;
  }

  lemma SweepOne(before: Table, t: Table, t': Table, listed: seq<Session>, clock: nat -> Time, n: nat, cutoff: Time)
    requires IsExpiryBatch(before, cutoff, listed) && n < |listed| && SweptTo(before, t, listed, clock, n)
    requires t' == if Stops(before, listed, n) then t[listed[n].id := StoppedRow(listed[n], clock(n))] else t
    ensures SweptTo(before, t', listed, clock, n + 1)
  {
    var row := StoppedRow(listed[n], clock(n));
    forall i | 0 <= i < |listed| && i != n
      ensures listed[i].id in t' && t'[listed[i].id] == t[listed[i].id]
    {
      OthersStay(t, t', listed, n, row, i);
    }
    forall id | id in t' && NotListed(listed, id)
      ensures t'[id] == before[id]
    {
      assert id != listed[n].id;
    }
  }

  // A stop from the hub of a row as it is stored.
  lemma HubStop(t: Table, s: Session, amount: int, now: Time, r: Result<(), TransitionError>, t': Table)
    requires Keyed(t) && UniqueIndexes(t) && s.id in t && t[s.id] == s && s.state == Running && s.deletedAt.None?
    requires amount == SecondsAmount(s, now)
    requires Reported(t, TransitionRow(t, s.id, ToStopped(now, amount, "", 0), now), r, t')
    ensures t' == if FreeHash(t, s.id) then t[s.id := StoppedRow(s, now)] else t
    ensures Keyed(t') && UniqueIndexes(t')
  {
    HubStopFits(t, s, now);
    StoppedColumns(t, s.id, now, amount, "", 0, now);
    if FreeHash(t, s.id) {
      Interleaving.FitsKeepsUnique(t, StoppedRow(s, now));
    }
  }

  // One turn of the sweep, in terms of the statement's own condition.
  lemma SweepTurn(before: Table, t: Table, t': Table, listed: seq<Session>, clock: nat -> Time, n: nat, cutoff: Time)
    requires Keyed(before) && UniqueIndexes(before) && Keyed(t) && UniqueIndexes(t)
    requires IsExpiryBatch(before, cutoff, listed) && n < |listed| && SweptTo(before, t, listed, clock, n)
    requires t' == if FreeHash(t, listed[n].id) then t[listed[n].id := StoppedRow(listed[n], clock(n))] else t
    ensures SweptTo(before, t', listed, clock, n + 1)
  {
    FreeAtItsTurn(before, t, listed, clock, n, cutoff);
    SweepOne(before, t, t', listed, clock, n, cutoff);
  }

  lemma StillListed(before: Table, t: Table, listed: seq<Session>, clock: nat -> Time, n: nat, cutoff: Time)
    requires IsExpiryBatch(before, cutoff, listed) && n < |listed| && SweptTo(before, t, listed, clock, n)
    ensures listed[n].id in t && t[listed[n].id] == listed[n] && listed[n].state == Running && listed[n].deletedAt.None?
  {
  }

  // In terms of rows: a changed row was due and is stopped at or after its expiry, and only one is.
  predicate SweepEffect(before: Table, t: Table, cutoff: Time) {
    && t.Keys == before.Keys
    && (forall id :: id in before ==> t[id] == before[id] || Expired(before[id], t[id], cutoff))
    && (forall a, b | a in before && b in before && a != b :: t[a] == before[a] || t[b] == before[b])
  }

  lemma SweepExpires(before: Table, t: Table, listed: seq<Session>, clock: nat -> Time, cutoff: Time, id: string)
    requires Keyed(before) && IsExpiryBatch(before, cutoff, listed) && SweptTo(before, t, listed, clock, |listed|)
    requires id in before && forall i :: clock(i) >= cutoff
    ensures t[id] == before[id] || Expired(before[id], t[id], cutoff)
  {
    if !NotListed(listed, id) {
      var i :| 0 <= i < |listed| && listed[i].id == id;
      assert listed[i] == before[id];
      assert clock(i) >= cutoff;
    }
  }

  lemma SweepHasEffect(before: Table, t: Table, listed: seq<Session>, clock: nat -> Time, cutoff: Time)
    requires Keyed(before) && IsExpiryBatch(before, cutoff, listed) && SweptTo(before, t, listed, clock, |listed|)
    requires UniqueIndexes(t) && forall i :: clock(i) >= cutoff
    ensures SweepEffect(before, t, cutoff)
  {
    forall id | id in before
      ensures t[id] == before[id] || Expired(before[id], t[id], cutoff)
    {
      SweepExpires(before, t, listed, clock, cutoff, id);
    }
    AtMostOneStopped(before, t, cutoff);
  }

  // ---- What the next sweep does ----

  function DueBy(t: Table, cutoff: Time): set<string> { set id | id in t && Expiring(t[id], cutoff) }

  lemma {:induction false} IdsAreMany(listed: seq<Session>, ids: set<string>)
    requires forall i :: 0 <= i < |listed| ==> listed[i].id in ids
    requires forall i, j :: 0 <= i < j < |listed| ==> listed[i].id != listed[j].id
    ensures |listed| <= |ids|
    decreases |listed|
  {
    if listed != [] {
      var last := |listed| - 1;
      IdsAreMany(listed[..last], ids - {listed[last].id});
    }
  }

  // A row that is RUNNING after a sweep was so before, and is the same.
  lemma StillDue(before: Table, t: Table, listed: seq<Session>, clock: nat -> Time, cutoff: Time, id: string)
    requires IsExpiryBatch(before, cutoff, listed) && SweptTo(before, t, listed, clock, |listed|)
    requires id in t && t[id].state == Running
    ensures before[id] == t[id]
  {
    if !NotListed(listed, id) {
      var i :| 0 <= i < |listed| && listed[i].id == id;
      assert listed[i] == before[id];
    }
  }

  // A refused session is left out of the next listing only if a hundred others are due no later than it.
  lemma LeftOutBehind(before: Table, t: Table, listed: seq<Session>, clock: nat -> Time, cutoff: Time,
                      s: Session, next: seq<Session>)
    requires IsExpiryBatch(before, cutoff, listed) && SweptTo(before, t, listed, clock, |listed|)
    requires LeftBehind(s, next) && NotListed(next, s.id)
    requires forall j :: 0 <= j < |next| ==> next[j].id in t && t[next[j].id] == next[j] && Expiring(next[j], ExpiryOf(next[j]))
    requires forall i, j :: 0 <= i < j < |next| ==> next[i].id != next[j].id
    requires s.id in before && before[s.id] == s && Expiring(s, ExpiryOf(s))
    ensures |DueBy(before, ExpiryOf(s))| > EXPIRATION_LIMIT
  {
    var due := DueBy(before, ExpiryOf(s));
    forall j | 0 <= j < |next|
      ensures next[j].id in due - {s.id}
    {
      StillDue(before, t, listed, clock, cutoff, next[j].id);
    }
    IdsAreMany(next, due - {s.id});
  }

  // A listed session is in the next listing, so that its Pod is deleted and its reservation released
  // again, only if its stop was refused; and then it is, unless the batch is filled by a hundred others
  // due no later than it.
  lemma ListedAgainExactly(before: Table, t: Table, listed: seq<Session>, clock: nat -> Time, cutoff: Time,
                           i: nat, cutoff': Time, next: seq<Session>)
    requires Keyed(before) && IsExpiryBatch(before, cutoff, listed) && SweptTo(before, t, listed, clock, |listed|)
    requires i < |listed| && cutoff <= cutoff' && IsExpiryBatch(t, cutoff', next)
    ensures !NotListed(next, listed[i].id) ==> !Stops(before, listed, i)
    ensures |DueBy(before, ExpiryOf(listed[i]))| <= EXPIRATION_LIMIT ==>
      (!NotListed(next, listed[i].id) <==> !Stops(before, listed, i))
  {
    var s := listed[i];
    if Stops(before, listed, i) {
      assert t[s.id] == StoppedRow(s, clock(i));
    } else if NotListed(next, s.id) {
      assert t[s.id] == s && s !in next;
      LeftOutBehind(before, t, listed, clock, cutoff, s, next);
    }
  }

  // ---- What one sweep releases, exactly ----

  // What the capacity records hold.
  type Ledgers = m: map<NodeCapacity, Ledger> | forall cap :: cap in m ==> Tracked(m[cap])

  type Nodes = map<string, map<string, NodeCapacity>>

  function RecordAt(nodes: Nodes, provider: string, node: string): NodeCapacity? {
    if provider in nodes && node in nodes[provider] then nodes[provider][node] else null
  }

  // A deletion moves the record of the node that held the session, if there is one, and no other.
  function AfterExpiry(m: Ledgers, cap: NodeCapacity?, s: Session, env: Cluster): (m': Ledgers)
    ensures m'.Keys == m.Keys
  {
    if cap in m then m[cap := AfterDelete(m[cap], s, env)] else m
  }

  // The first n listed sessions have been deleted, each once, from the node that held it.
  function AfterSweep(m: Ledgers, nodes: Nodes, listed: seq<Session>, providers: nat -> string, envs: nat -> Cluster, n: nat): Ledgers
    requires n <= |listed|
  {
    if n == 0 then m
    else
      var env := envs(n - 1);
      AfterExpiry(AfterSweep(m, nodes, listed, providers, envs, n - 1), RecordAt(nodes, providers(n - 1), env.nodeName), listed[n - 1], env)
  }

  function RecordsOf(nodes: Nodes): set<NodeCapacity> { set p, n | p in nodes && n in nodes[p] :: nodes[p][n] }

  ghost function LedgersOf(records: set<NodeCapacity>): (m: Option<Ledgers>)
    reads records
    ensures m.Some? <==> forall cap :: cap in records ==> cap.Contents().Some?
    ensures m.Some? ==> m.value.Keys == records && forall cap :: cap in records ==> m.value[cap] == cap.Contents().value
  {
    if forall cap :: cap in records ==> cap.Contents().Some? then Some(map cap | cap in records :: cap.Contents().value) else None
  }

  lemma DeletedFrom(records: set<NodeCapacity>, m: Ledgers, cap: NodeCapacity?, s: Session, env: Cluster)
    requires m.Keys == records
    requires forall c :: c in records && c != cap ==> c.Contents() == Some(m[c])
    requires cap in records ==> cap.Contents() == Some(AfterDelete(m[cap], s, env))
    ensures LedgersOf(records) == Some(AfterExpiry(m, cap, s, env))
  {
    var m' := AfterExpiry(m, cap, s, env);
    forall c | c in records
      ensures c.Contents() == Some(m'[c])
    {
      if c != cap { assert m'[c] == m[c]; }
    }
    assert LedgersOf(records).value == m';
  }

  class ExpirationWorker {
    const repo: RentalSessionRepository
    const manager: SessionManager
    const executor: K8sJobExecutor?

    constructor (manager: SessionManager, executor: K8sJobExecutor?)
      ensures this.manager == manager && this.repo == manager.repo && this.executor == executor
    {
      this.manager := manager;
      this.repo := manager.repo;
      this.executor := executor;
    }

    function Tracking(): Nodes
      reads if executor != null then {executor.tracker} else {}
    {
      if executor == null then map[] else executor.tracker.capacity
    }

    // The records that deletions of Pods may touch.
    function Records(): set<NodeCapacity>
      reads if executor != null then {executor.tracker} else {}
    {
      RecordsOf(Tracking())
    }

    ghost function Held(): Option<Ledgers>
      reads if executor != null then {executor.tracker} else {}, Records()
    {
      LedgersOf(Records())
    }

    // Deletes a session's Pod: what it holds is released on its node, and every other record stays.
    method DeletePod(s: Session, provider: string, env: Cluster)
      requires Held().Some?
      modifies Records()
      ensures executor != null ==> unchanged(executor.tracker)
      ensures Held() == Some(AfterExpiry(old(Held()).value, RecordAt(Tracking(), provider, env.nodeName), s, env))
    {
      if executor != null {
        ghost var records, m := Records(), Held().value;
        ghost var cap := executor.tracker.GetCapacity(provider, env.nodeName);
        assert cap != null ==> cap in records;
        var deleted := executor.DeleteGPUSession(s, provider, env);
        forall c | c in records && c != cap
          ensures c.Contents() == Some(m[c])
        {
          assert old(c.Contents()) == Some(m[c]);
        }
        DeletedFrom(records, m, cap, s, env);
      }
    }

    // The Pod is deleted first, so the release is made whatever becomes of the stop.
    method ExpireSession(s: Session, provider: string, env: Cluster, now: Time) returns (amount: int, r: Result<(), TransitionError>)
      requires manager.repo == repo && Keyed(repo.rows)
      requires Held().Some?
      modifies repo, Records()
      ensures amount == SecondsAmount(s, now)
      ensures Reported(old(repo.rows), TransitionRow(old(repo.rows), s.id, ToStopped(now, amount, "", 0), now), r, repo.rows)
      ensures executor != null ==> unchanged(executor.tracker)
      ensures Held() == Some(AfterExpiry(old(Held()).value, RecordAt(Tracking(), provider, env.nodeName), s, env))
    {
      DeletePod(s, provider, env);
      amount := 0;
      if s.startTime.Some? {
        var duration := now - s.startTime.value;
        if duration > 0 {
          var price := Decimal.PriceOf(s.price);
          if price.Some? { amount := price.value * WholeSeconds(duration); }
        }
      }
      r := manager.TransitionToStopped(s.id, now, amount, "", 0, now);
    }

    // A sweep with nothing in between: of the listed sessions the earliest is stopped, exactly when no
    // undeleted row holds the empty hash yet, and no other is (unless it held that hash itself). Every
    // changed row was due, and is stopped at or after its expiry. Every listed session is released once,
    // stopped or not.
    method ProcessExpiredSessions(cutoff: Time, clock: nat -> Time, providers: nat -> string, envs: nat -> Cluster)
      returns (ghost listed: seq<Session>)
      requires manager.repo == repo && Keyed(repo.rows) && UniqueIndexes(repo.rows)
      requires forall i :: clock(i) >= cutoff
      requires Held().Some?
      modifies repo, Records()
      ensures Keyed(repo.rows) && UniqueIndexes(repo.rows)
      ensures IsExpiryBatch(old(repo.rows), cutoff, listed)
      ensures SweptTo(old(repo.rows), repo.rows, listed, clock, |listed|)
      ensures SweepEffect(old(repo.rows), repo.rows, cutoff)
      ensures executor != null ==> unchanged(executor.tracker)
      ensures Held() == Some(AfterSweep(old(Held()).value, Tracking(), listed, providers, envs, |listed|))
    {
      ghost var before, nodes, m := repo.rows, Tracking(), Held().value;
      var sessions := repo.FindExpiringSessions(cutoff);
      listed := sessions;
      for i := 0 to |sessions|
        invariant Keyed(repo.rows) && UniqueIndexes(repo.rows) && SweptTo(before, repo.rows, sessions, clock, i)
        invariant executor != null ==> unchanged(executor.tracker)
        invariant Held() == Some(AfterSweep(m, nodes, sessions, providers, envs, i))
      {
        ghost var t := repo.rows;
        StillListed(before, t, sessions, clock, i, cutoff);
        var amount, r := ExpireSession(sessions[i], providers(i), envs(i), clock(i));
        HubStop(t, sessions[i], amount, clock(i), r, repo.rows);
        SweepTurn(before, t, repo.rows, sessions, clock, i, cutoff);
      }
      SweepHasEffect(before, repo.rows, sessions, clock, cutoff);
    }
  }
}
