/**
 The books behind a node's capacity record: which sessions hold what. Sessions open and close, the
 monitor releases from Pod requests, and a refresh replaces the record by what the running Pods
 request (internal/k8s/capacity.go, internal/k8s/expiration.go).
 */
module Reservations {
  import opened Outcomes
  import opened Totals
  import opened Capacity
  import opened PodResources

  type Live = map<string, ResourceAllocation>

  // A node as discovery sees it: one GPU type.
  datatype NodeTotals = NodeTotals(name: string, model: string, gpus: int, cpuCores: int, memoryGB: int)

  // The record and the sessions that hold it; how many of them the last refresh counted, and how many
  // were released from their Pod since.
  datatype Book = Book(ledger: Ledger, live: Live, carried: nat, early: nat)

  datatype Move =
    | Open(alloc: ResourceAllocation)
    | Close(alloc: ResourceAllocation)
    | Expire(alloc: ResourceAllocation)
    | Refresh(pods: seq<Pod>)

  ghost function Gpus(live: Live): map<string, int> { map id | id in live :: live[id].gpuCount }

  ghost function Cores(live: Live): map<string, int> { map id | id in live :: live[id].cpuCores }

  ghost function Memory(live: Live): map<string, int> { map id | id in live :: live[id].memoryGB }

  // What a refresh writes: the usage of the running Pods on the node.
  function Refreshed(n: NodeTotals, pods: seq<Pod>): (c: Ledger)
    ensures Tracked(c) && c.gpus.Keys == {n.model}
  {
    var used := SumUsage(Counted(pods, n.name));
    DiscoveredRecord(n.model, n.gpus, n.cpuCores, n.memoryGB, used.gpus, used.cpuCores, used.memoryGB)
  }

  // What the monitor reads back from the Pod of a reservation.
  function FromPod(a: ResourceAllocation): ResourceAllocation {
    ResourceAllocation(a.sessionId, "", a.gpuCount, a.cpuCores, a.memoryGB - 1)
  }

  // The tracker does not know sessions: it releases whatever it is told to.
  function AfterMove(n: NodeTotals, b: Book, m: Move): (b': Book)
    requires Tracked(b.ledger)
    ensures Tracked(b'.ledger)
  {
    match m
    case Open(a) =>
      if Enough(b.ledger, a) then b.(ledger := Reserved(b.ledger, a), live := b.live[a.sessionId := a]) else b
    case Close(a) => b.(ledger := Released(b.ledger, a), live := b.live - {a.sessionId})
    case Expire(a) =>
      b.(ledger := Released(b.ledger, FromPod(a)), live := b.live - {a.sessionId}, early := b.early + 1)
    case Refresh(pods) => Book(Refreshed(n, pods), b.live, |b.live|, 0)
  }

  predicate Holds(b: Book, a: ResourceAllocation) { a.sessionId in b.live && b.live[a.sessionId] == a }

  // One Pod per session that holds something here, on this node.
  predicate PodsOf(pods: seq<Pod>, live: Live, node: string) {
    && |pods| == |live|
    && (forall i :: 0 <= i < |pods| ==> pods[i].sessionId in live && PodOf(pods[i], live[pods[i].sessionId]) && pods[i].node == node)
    && (forall i, j :: 0 <= i < j < |pods| ==> pods[i].sessionId != pods[j].sessionId)
  }

  predicate AllRunning(pods: seq<Pod>) { forall i :: 0 <= i < |pods| ==> pods[i].running }

  ghost predicate PodsFit(n: NodeTotals, live: Live) { Total(Memory(live)) - |live| <= n.memoryGB }

  ghost predicate AllFit(n: NodeTotals, live: Live) {
    Total(Gpus(live)) <= n.gpus && Total(Cores(live)) <= n.cpuCores && PodsFit(n, live)
  }

  // A session is opened once and released once, by whichever worker; a refresh finds the Pods of
  // exactly the open sessions, running or still starting.
  ghost predicate Orderly(n: NodeTotals, b: Book, m: Move) {
    match m
    case Open(a) => a.sessionId !in b.live && Sized(a)
    case Close(a) => Holds(b, a)
    case Expire(a) => Holds(b, a)
    case Refresh(pods) => PodsOf(pods, b.live, n.name)
  }

  // A refresh at which every open session's Pod is running and the memory they request fits.
  ghost predicate Timely(n: NodeTotals, b: Book, m: Move) { m.Refresh? ==> AllRunning(m.pods) && PodsFit(n, b.live) }

  predicate TotalsOf(c: Ledger, n: NodeTotals)
    requires Tracked(c)
  {
    && c.gpuModel == n.model && c.gpus.Keys == {n.model}
    && c.gpus[n.model].total == n.gpus && c.cpu.total == n.cpuCores && c.memory.total == n.memoryGB
  }

  // GPUs and cores in use are exactly what the open sessions hold. Memory is too, up to one gigabyte
  // for each session counted from its Pod by the refresh, and for each released from its Pod since.
  ghost predicate Holding(n: NodeTotals, b: Book)
    requires Tracked(b.ledger) && TotalsOf(b.ledger, n)
  {
    && b.ledger.gpus[n.model].inUse == Total(Gpus(b.live))
    && b.ledger.cpu.inUse == Total(Cores(b.live))
    && Total(Memory(b.live)) - b.carried <= b.ledger.memory.inUse <= Total(Memory(b.live)) + b.early
  }

  predicate Keyed(live: Live) { forall id :: id in live ==> Sized(live[id]) && live[id].sessionId == id }

  // The books are right: the record balances and holds exactly the open sessions.
  ghost predicate Accounts(n: NodeTotals, b: Book) {
    && Balanced(b.ledger) && TotalsOf(b.ledger, n)
    && Keyed(b.live)
    && Holding(n, b)
  }

  lemma OpenTotals(live: Live, a: ResourceAllocation)
    requires a.sessionId !in live
    ensures var live' := live[a.sessionId := a];
      && Total(Gpus(live')) == Total(Gpus(live)) + a.gpuCount
      && Total(Cores(live')) == Total(Cores(live)) + a.cpuCores
      && Total(Memory(live')) == Total(Memory(live)) + a.memoryGB
  {
    var id, live' := a.sessionId, live[a.sessionId := a];
    assert Gpus(live') == Gpus(live)[id := a.gpuCount];
    TotalInsert(Gpus(live), id, a.gpuCount);
    assert Cores(live') == Cores(live)[id := a.cpuCores];
    TotalInsert(Cores(live), id, a.cpuCores);
    assert Memory(live') == Memory(live)[id := a.memoryGB];
    TotalInsert(Memory(live), id, a.memoryGB);
  }

  lemma CloseTotals(live: Live, id: string)
    requires id in live
    ensures var rest := live - {id};
      && Total(Gpus(live)) == live[id].gpuCount + Total(Gpus(rest))
      && Total(Cores(live)) == live[id].cpuCores + Total(Cores(rest))
      && Total(Memory(live)) == live[id].memoryGB + Total(Memory(rest))
  {
    var rest := live - {id};
    TotalRemove(Gpus(live), id);
    assert Gpus(live) - {id} == Gpus(rest);
    TotalRemove(Cores(live), id);
    assert Cores(live) - {id} == Cores(rest);
    TotalRemove(Memory(live), id);
    assert Memory(live) - {id} == Memory(rest);
  }

  lemma TotalsNonNegative(live: Live)
    requires forall id :: id in live ==> Sized(live[id])
    ensures Total(Gpus(live)) >= 0 && Total(Cores(live)) >= 0 && Total(Memory(live)) >= 0
  {
    TotalNonNegative(Gpus(live));
    TotalNonNegative(Cores(live));
    TotalNonNegative(Memory(live));
  }

  // A reservation and a release on a node that tracks one GPU type.
  lemma ReservedInUse(n: NodeTotals, c: Ledger, a: ResourceAllocation)
    requires Balanced(c) && TotalsOf(c, n) && Enough(c, a) && Sized(a)
    ensures var c' := Reserved(c, a);
      && Balanced(c') && TotalsOf(c', n)
      && c'.gpus[n.model].inUse == c.gpus[n.model].inUse + a.gpuCount
      && c'.cpu.inUse == c.cpu.inUse + a.cpuCores && c'.memory.inUse == c.memory.inUse + a.memoryGB
  {
    ReserveKeepsBalance(c, a);
    assert ChargedType(c, a.gpuType) in c.gpus.Keys;
  }

  lemma ReleasedInUse(n: NodeTotals, c: Ledger, r: ResourceAllocation)
    requires Balanced(c) && TotalsOf(c, n) && NonNegative(r)
    ensures var c' := Released(c, r);
      && Balanced(c') && TotalsOf(c', n)
      && c'.gpus[n.model].inUse == Max(c.gpus[n.model].inUse - r.gpuCount, 0)
      && c'.cpu.inUse == Max(c.cpu.inUse - r.cpuCores, 0) && c'.memory.inUse == Max(c.memory.inUse - r.memoryGB, 0)
  {
    assert ChargedType(c, r.gpuType) in c.gpus.Keys;
    assert CounterBalanced(c.gpus[n.model]);
    ReleaseKeepsBalance(c, r);
  }

  lemma OpenKeyed(live: Live, a: ResourceAllocation)
    requires Keyed(live) && Sized(a)
    ensures Keyed(live[a.sessionId := a])
  {
  }

  lemma OpenAccounts(n: NodeTotals, b: Book, a: ResourceAllocation)
    requires Accounts(n, b) && a.sessionId !in b.live && Sized(a)
    ensures Accounts(n, AfterMove(n, b, Open(a)))
  {
    if Enough(b.ledger, a) {
      ReservedInUse(n, b.ledger, a);
      OpenTotals(b.live, a);
      OpenKeyed(b.live, a);
    }
  }

  // Releasing a session, or what its Pod reads as, gives back GPUs and cores without a clamp; memory
  // may meet the clamp when the refresh read it low.
  lemma ReleaseAccounts(n: NodeTotals, b: Book, a: ResourceAllocation, r: ResourceAllocation, early: nat)
    requires Accounts(n, b) && Holds(b, a)
    requires r.gpuCount == a.gpuCount && r.cpuCores == a.cpuCores && a.memoryGB - early <= r.memoryGB <= a.memoryGB && r.memoryGB >= 0
    ensures Accounts(n, Book(Released(b.ledger, r), b.live - {a.sessionId}, b.carried, b.early + early))
  {
    CloseTotals(b.live, a.sessionId);
    TotalsNonNegative(b.live - {a.sessionId});
    ReleasedInUse(n, b.ledger, r);
  }

  // The last Pod's part of the count.
  lemma LastPod(pods: seq<Pod>, live: Live, node: string)
    requires PodsOf(pods, live, node) && pods != []
    requires Keyed(live)
    ensures var k := |pods| - 1;
      var id, front := pods[k].sessionId, SumUsage(Counted(pods[..k], node));
      && id in live && PodsOf(pods[..k], live - {id}, node)
      && SumUsage(Counted(pods, node)) == (if pods[k].running
           then Plus(front, Usage(live[id].gpuCount, live[id].cpuCores, live[id].memoryGB - 1)) else front)
  {
    var k := |pods| - 1;
    ReadBack(pods[k], live[pods[k].sessionId]);
    SumSnoc(Counted(pods[..k], node), PodUsage(pods[k]));
    assert Counted(pods[..k], node) + [] == Counted(pods[..k], node);
  }

  ghost function HeldUsage(live: Live): Usage {
    Usage(Total(Gpus(live)), Total(Cores(live)), Total(Memory(live)) - |live|)
  }

  lemma HeldSplits(live: Live, id: string)
    requires id in live
    ensures HeldUsage(live)
         == Plus(HeldUsage(live - {id}), Usage(live[id].gpuCount, live[id].cpuCores, live[id].memoryGB - 1))
  {
    CloseTotals(live, id);
    assert (live - {id}).Keys == live.Keys - {id};
    assert |live - {id}| == |live| - 1;
  }

  lemma {:induction false} CountedTotalsRest(pods: seq<Pod>, live: Live, node: string)
    requires PodsOf(pods, live, node) && AllRunning(pods) && pods != []
    requires Keyed(live)
    ensures var k := |pods| - 1;
      && pods[k].sessionId in live
      && SumUsage(Counted(pods[..k], node)) == HeldUsage(live - {pods[k].sessionId})
    decreases |pods|, 0
  {
    var k := |pods| - 1;
    LastPod(pods, live, node);
    CountedTotals(pods[..k], live - {pods[k].sessionId}, node);
  }

  // The usage counted from the Pods of the open sessions.
  lemma {:induction false} CountedTotals(pods: seq<Pod>, live: Live, node: string)
    requires PodsOf(pods, live, node) && AllRunning(pods)
    requires Keyed(live)
    ensures SumUsage(Counted(pods, node)) == HeldUsage(live)
    decreases |pods|, 1
  {
    if pods == [] {
      assert live == map[];
      assert Gpus(live) == map[] && Cores(live) == map[] && Memory(live) == map[];
    } else {
      CountedTotalsRest(pods, live, node);
      LastPod(pods, live, node);
      HeldSplits(live, pods[|pods| - 1].sessionId);
    }
  }

  lemma {:induction false} CountedCoresRest(pods: seq<Pod>, live: Live, node: string)
    requires PodsOf(pods, live, node) && pods != []
    requires Keyed(live)
    ensures var k := |pods| - 1;
      var front, held := SumUsage(Counted(pods[..k], node)).cpuCores, Total(Cores(live - {pods[k].sessionId}));
      && front <= held
      && (front == held && pods[k].running <==> AllRunning(pods))
      && pods[k].sessionId in live
    decreases |pods|, 0
  {
    var k := |pods| - 1;
    LastPod(pods, live, node);
    CountedCores(pods[..k], live - {pods[k].sessionId}, node);
    assert forall i :: 0 <= i < k ==> pods[..k][i] == pods[i];
  }

  // Fewer cores are counted than the sessions hold exactly when some Pod is not running yet.
  lemma {:induction false} CountedCores(pods: seq<Pod>, live: Live, node: string)
    requires PodsOf(pods, live, node)
    requires Keyed(live)
    ensures SumUsage(Counted(pods, node)).cpuCores <= Total(Cores(live))
    ensures SumUsage(Counted(pods, node)).cpuCores == Total(Cores(live)) <==> AllRunning(pods)
    decreases |pods|, 1
  {
    if pods == [] {
      assert Cores(live) == map[];
    } else {
      CountedCoresRest(pods, live, node);
      LastPod(pods, live, node);
      HeldSplits(live, pods[|pods| - 1].sessionId);
    }
  }

  lemma {:induction false} MemoryCoversPods(live: Live)
    requires forall id :: id in live ==> Sized(live[id])
    ensures Total(Memory(live)) >= |live|
    decreases |live|
  {
    if live != map[] {
      var id :| id in live;
      MemoryCoversPods(live - {id});
      CloseTotals(live, id);
    }
  }

  lemma DiscoveredHolding(n: NodeTotals, live: Live)
    ensures var u := HeldUsage(live);
      var c := DiscoveredRecord(n.model, n.gpus, n.cpuCores, n.memoryGB, u.gpus, u.cpuCores, u.memoryGB);
      TotalsOf(c, n) && Holding(n, Book(c, live, |live|, 0))
  {
  }

  lemma DiscoveredAccounts(n: NodeTotals, live: Live)
    requires Keyed(live)
    ensures var u := HeldUsage(live);
      var c := DiscoveredRecord(n.model, n.gpus, n.cpuCores, n.memoryGB, u.gpus, u.cpuCores, u.memoryGB);
      Accounts(n, Book(c, live, |live|, 0)) <==> AllFit(n, live)
  {
    var u := HeldUsage(live);
    MemoryCoversPods(live);
    TotalsNonNegative(live);
    DiscoveryBalanced(n.model, n.gpus, n.cpuCores, n.memoryGB, u.gpus, u.cpuCores, u.memoryGB);
    DiscoveredHolding(n, live);
  }

  lemma RefreshedBook(n: NodeTotals, b: Book, pods: seq<Pod>)
    requires Tracked(b.ledger) && PodsOf(pods, b.live, n.name) && AllRunning(pods) && Keyed(b.live)
    ensures var u := HeldUsage(b.live);
      var c := DiscoveredRecord(n.model, n.gpus, n.cpuCores, n.memoryGB, u.gpus, u.cpuCores, u.memoryGB);
      AfterMove(n, b, Refresh(pods)) == Book(c, b.live, |b.live|, 0)
  {
    CountedTotals(pods, b.live, n.name);
  }

  // A refresh restarts the books from the running Pods, and they are right exactly when every open
  // session's Pod is running (one still starting is forgotten by the record) and the memory the Pods
  // request fits the node.
  lemma RefreshAccounts(n: NodeTotals, b: Book, pods: seq<Pod>)
    requires Accounts(n, b) && PodsOf(pods, b.live, n.name)
    ensures Accounts(n, AfterMove(n, b, Refresh(pods))) <==> AllRunning(pods) && PodsFit(n, b.live)
  {
    CountedCores(pods, b.live, n.name);
    if AllRunning(pods) {
      assert CounterBalanced(b.ledger.gpus[n.model]);
      RefreshedBook(n, b, pods);
      DiscoveredAccounts(n, b.live);
    }
  }

  function AfterMoves(n: NodeTotals, b: Book, ms: seq<Move>): Book
    requires Tracked(b.ledger)
    decreases |ms|
  {
    if ms == [] then b else AfterMoves(n, AfterMove(n, b, ms[0]), ms[1..])
  }

  ghost predicate OrderlyRun(n: NodeTotals, b: Book, ms: seq<Move>)
    requires Tracked(b.ledger)
    decreases |ms|
  {
    ms == [] || (Orderly(n, b, ms[0]) && OrderlyRun(n, AfterMove(n, b, ms[0]), ms[1..]))
  }

  ghost predicate TimelyRun(n: NodeTotals, b: Book, ms: seq<Move>)
    requires Tracked(b.ledger)
    decreases |ms|
  {
    ms == [] || (Timely(n, b, ms[0]) && TimelyRun(n, AfterMove(n, b, ms[0]), ms[1..]))
  }

  ghost predicate AccountsThroughout(n: NodeTotals, b: Book, ms: seq<Move>)
    requires Tracked(b.ledger)
    decreases |ms|
  {
    Accounts(n, b) && (ms == [] || AccountsThroughout(n, AfterMove(n, b, ms[0]), ms[1..]))
  }

  lemma MoveAccounts(n: NodeTotals, b: Book, m: Move)
    requires Accounts(n, b) && Orderly(n, b, m)
    ensures Accounts(n, AfterMove(n, b, m)) <==> Timely(n, b, m)
  {
    match m
    case Open(a) => OpenAccounts(n, b, a);
    case Close(a) => ReleaseAccounts(n, b, a, a, 0);
    case Expire(a) => ReleaseAccounts(n, b, a, FromPod(a), 1);
    case Refresh(pods) => RefreshAccounts(n, b, pods);
  }

  // Over every run of allocations, releases, monitor releases and refreshes in which each session is
  // opened once and released once, whether or not a refresh lies between, the books are right
  // throughout exactly when every refresh is timely.
  lemma {:induction false} RunAccounts(n: NodeTotals, b: Book, ms: seq<Move>)
    requires Accounts(n, b) && OrderlyRun(n, b, ms)
    ensures AccountsThroughout(n, b, ms) <==> TimelyRun(n, b, ms)
    decreases |ms|
  {
    if ms != [] {
      MoveAccounts(n, b, ms[0]);
      if Timely(n, b, ms[0]) {
        RunAccounts(n, AfterMove(n, b, ms[0]), ms[1..]);
      }
    }
  }

  // A timely refresh repairs the books, whatever went wrong before: from any record, however many
  // releases were made twice or missed, they are right after it exactly when what the sessions hold fits.
  lemma RefreshRepairs(n: NodeTotals, b: Book, pods: seq<Pod>)
    requires Tracked(b.ledger) && PodsOf(pods, b.live, n.name) && AllRunning(pods)
    requires Keyed(b.live)
    ensures Accounts(n, AfterMove(n, b, Refresh(pods))) <==> AllFit(n, b.live)
  {
    RefreshedBook(n, b, pods);
    DiscoveredAccounts(n, b.live);
  }

  lemma EmptyBooks(n: NodeTotals)
    requires n.gpus >= 0 && n.cpuCores >= 0 && n.memoryGB >= 0
    ensures Accounts(n, Book(Refreshed(n, []), map[], 0, 0))
  {
    assert Gpus(map[]) == map[] && Cores(map[]) == map[] && Memory(map[]) == map[];
  }

  // The release of a session that is not open.
  lemma StrayRelease(n: NodeTotals, b: Book, a: ResourceAllocation)
    requires Accounts(n, b) && a.sessionId !in b.live && Sized(a)
    ensures Accounts(n, AfterMove(n, b, Close(a))) <==>
            && (a.gpuCount == 0 || b.ledger.gpus[n.model].inUse == 0)
            && b.ledger.cpu.inUse == 0
            && Total(Memory(b.live)) - b.carried <= Max(b.ledger.memory.inUse - a.memoryGB, 0)
  {
    assert b.live - {a.sessionId} == b.live;
    ReleasedInUse(n, b.ledger, a);
  }

  // A session released twice, as a stop request and then the chain event release it, gives away what
  // others hold: after the first release the books are right, and after the second exactly when
  // nothing of the kind is left in use, or, for memory, when the bound has room for it.
  lemma SecondReleaseUndercounts(n: NodeTotals, b: Book, a: ResourceAllocation)
    requires Accounts(n, b) && Holds(b, a)
    ensures var once := AfterMove(n, b, Close(a));
      && Accounts(n, once)
      && (Accounts(n, AfterMove(n, once, Close(a))) <==>
            && (a.gpuCount == 0 || once.ledger.gpus[n.model].inUse == 0)
            && once.ledger.cpu.inUse == 0
            && Total(Memory(once.live)) - b.carried <= Max(once.ledger.memory.inUse - a.memoryGB, 0))
  {
    ReleaseAccounts(n, b, a, a, 0);
    StrayRelease(n, AfterMove(n, b, Close(a)), a);
  }
}
