/**
 Billing arithmetic (internal/settlement/calculator.go) and the per-second amount of the pod and
 expiration workers (internal/sessions/k8s_handler.go, internal/sessions/expiration_worker.go).
 Durations are exact nanoseconds; amounts are whole wei.
 */
module Billing {
  import opened Outcomes
  import opened Rental
  import opened SessionTable
  import opened SessionManagement
  import opened Totals
  import Decimal

  const TWO_63: int := 0x8000_0000_0000_0000
  const TWO_64: int := 0x1_0000_0000_0000_0000

  // Minutes begun in a positive duration.
  function MinutesRoundedUp(d: Time): int { (d + MINUTE - 1) / MINUTE }

  function Cost(start: Time, end: Time, price: int): int {
    if end - start <= 0 then 0 else MinutesRoundedUp(end - start) * 60 * price
  }

  // big.Int.Int64: the low 64 bits of the magnitude as a signed word, negated for negative values.
  function Int64(x: int): int {
    var low := (if x < 0 then -x else x) % TWO_64;
    var word := if low >= TWO_63 then low - TWO_64 else low;
    if x < 0 && word != -TWO_63 then -word else word
  }

  // The result is the one of the 2^64 signed words that agrees with the value modulo 2^64.
  lemma WrapsToWord(x: nat)
    ensures -0x8000_0000_0000_0000 <= Int64(x) < 0x8000_0000_0000_0000
    ensures (x - Int64(x)) % 0x1_0000_0000_0000_0000 == 0
  {
  }

  function MinutesRemaining(balance: int, price: int): int {
    if price <= 0 then 0 else Int64(balance / (price * 60))
  }

  function SecondsAmount(s: Session, end: Time): int {
    if s.startTime.None? || end - s.startTime.value <= 0 || Decimal.PriceOf(s.price).None? then 0
    else Decimal.PriceOf(s.price).value * WholeSeconds(end - s.startTime.value)
  }

  lemma DivAdjoint(a: int, k: int, b: int)
    requires k > 0
    ensures a * k <= b <==> a <= b / k
  {
    if a <= b / k {
      assert a * k <= b / k * k;
    } else {
      assert a * k >= (b / k + 1) * k;
    }
  }

  lemma CostIsBounded(start: Time, end: Time, price: int, balance: int)
    requires balance >= 0 && price > 0
    ensures Cost(start, end, price) <= balance <==> end - start <= balance / (price * 60) * MINUTE
  {
    var q := balance / (price * 60);
    assert q >= 0;
    if end - start > 0 {
      var m := MinutesRoundedUp(end - start);
      assert m * 60 * price == m * (price * 60);
      DivAdjoint(m, price * 60, balance);
    }
  }

  // Minutes remaining is the exact adjoint of cost, for the sessions a balance can pay for, exactly
  // when the quotient fits the 64-bit result.
  lemma MinutesRemainingIsAdjoint(balance: int, price: int)
    requires balance >= 0 && price > 0
    ensures (forall start, end :: Cost(start, end, price) <= balance <==>
                                  end - start <= MinutesRemaining(balance, price) * MINUTE)
       <==> balance / (price * 60) < TWO_63
  {
    var q := balance / (price * 60);
    var r := MinutesRemaining(balance, price);
    assert q >= 0;
    if q < TWO_63 {
      assert r == q;
      forall start, end
        ensures Cost(start, end, price) <= balance <==> end - start <= r * MINUTE
      {
        CostIsBounded(start, end, price, balance);
      }
    } else {
      assert r < q;
      CostIsBounded(0, q * MINUTE, price, balance);
      assert Cost(0, q * MINUTE, price) <= balance && q * MINUTE > r * MINUTE;
    }
  }

  lemma CostMonotone(s: Time, e: Time, s': Time, e': Time, price: int)
    requires s' <= s && e <= e' && price >= 0
    ensures 0 <= Cost(s, e, price) <= Cost(s', e', price)
  {
    if e' - s' > 0 {
      var m, m' := (if e - s > 0 then MinutesRoundedUp(e - s) else 0), MinutesRoundedUp(e' - s');
      assert 0 <= m <= m';
      assert 0 <= m * 60 * price <= m' * 60 * price by {
        MulMonotone(m * 60, m' * 60, price);
        MulMonotone(0, m * 60, price);
      }
    }
  }

  lemma Distribute(a: int, b: int, p: int)
    ensures (a + b) * p == a * p + b * p
  {
  }

  lemma MulMonotone(a: int, b: int, p: int)
    requires a <= b && p >= 0
    ensures a * p <= b * p
  {
    assert (b - a) * p >= 0;
  }

  lemma SplitMinutes(d: Time, e: Time)
    requires d >= 0 && e >= 0
    ensures MinutesRoundedUp(d + e) <= MinutesRoundedUp(d) + MinutesRoundedUp(e) <= MinutesRoundedUp(d + e) + 1
  {
  }

  lemma MinutesCost(s: Time, e: Time, price: int)
    requires s <= e
    ensures Cost(s, e, price) == MinutesRoundedUp(e - s) * (60 * price)
  {
    var m := MinutesRoundedUp(e - s);
    assert m * 60 * price == m * (60 * price);
    assert MinutesRoundedUp(0) == 0;
  }

  // Splitting a session never makes it cheaper and costs at most one more minute.
  lemma SplitCost(s: Time, m: Time, e: Time, price: int)
    requires s <= m <= e && price >= 0
    ensures Cost(s, e, price) <= Cost(s, m, price) + Cost(m, e, price) <= Cost(s, e, price) + 60 * price
  {
    var a, b, c := MinutesRoundedUp(m - s), MinutesRoundedUp(e - m), MinutesRoundedUp(e - s);
    MinutesCost(s, m, price);
    MinutesCost(m, e, price);
    MinutesCost(s, e, price);
    SplitMinutes(m - s, e - m);
    MulMonotone(c, a + b, 60 * price);
    MulMonotone(a + b, c + 1, 60 * price);
    Distribute(a, b, 60 * price);
    Distribute(c, 1, 60 * price);
  }

  // The hub's per-second amount never exceeds the per-minute cost, nor falls a minute's price short by more.
  lemma SecondsAgainstMinutes(s: Session, end: Time)
    requires s.startTime.Some? && Decimal.PriceOf(s.price).Some? && Decimal.PriceOf(s.price).value >= 0
    ensures var price := Decimal.PriceOf(s.price).value;
            SecondsAmount(s, end) <= Cost(s.startTime.value, end, price) <= SecondsAmount(s, end) + 60 * price
  {
    var price := Decimal.PriceOf(s.price).value;
    var d := end - s.startTime.value;
    if d > 0 {
      var minutes, seconds := MinutesRoundedUp(d), d / SECOND;
      assert seconds <= minutes * 60 <= seconds + 60;
      MulMonotone(seconds, minutes * 60, price);
      MulMonotone(minutes * 60, seconds + 60, price);
      assert (seconds + 60) * price == price * seconds + 60 * price;
    }
  }

  // ---- Pending settlement ----

  // What a session costs up to an instant; sessions without a start or a usable price cost nothing.
  function CostUntil(s: Session, end: Time): int {
    if s.startTime.None? || Decimal.PriceOf(s.price).None? then 0
    else Cost(s.startTime.value, end, Decimal.PriceOf(s.price).value)
  }

  function FullCost(s: Session): int { if s.endTime.None? then 0 else CostUntil(s, s.endTime.value) }

  // In minutes begun, each at sixty times the price.
  lemma CostUntilIs(s: Session, price: int, minutes: nat, now: Time)
    requires s.startTime != None && Decimal.PriceOf(s.price) == Some(price) && minutes > 0
    requires (minutes - 1) * 60_000_000_000 < now - s.startTime.value <= minutes * 60_000_000_000
    ensures CostUntil(s, now) == minutes * 60 * price
    ensures s.endTime == Some(now) ==> FullCost(s) == minutes * 60 * price
  {
    assert MinutesRoundedUp(now - s.startTime.value) == minutes;
  }

  lemma CostsNothing(s: Session, now: Time)
    requires s.startTime == None || now <= s.startTime.value || Decimal.PriceOf(s.price) == None
    ensures CostUntil(s, now) == 0
    ensures s.endTime == Some(now) || s.endTime == None ==> FullCost(s) == 0
  {
  }

  predicate Priced(s: Session) { s.startTime.Some? && s.endTime.Some? && Decimal.PriceOf(s.price).Some? }

  ghost function Amounts(t: Table, matches: Session -> bool, amount: Session -> int): map<string, int> {
    map id | id in t && matches(t[id]) :: amount(t[id])
  }

  function SumOver(out: seq<Session>, amount: Session -> int): int {
    if out == [] then 0 else SumOver(out[..|out| - 1], amount) + amount(out[|out| - 1])
  }

  lemma ListingTail(t: Table, matches: Session -> bool, out: seq<Session>)
    requires Keyed(t) && IsListing(t, matches, out) && out != []
    ensures IsListing(t - {out[|out| - 1].id}, matches, out[..|out| - 1])
  {
    var front, last := out[..|out| - 1], out[|out| - 1];
    forall id | id in t && id != last.id && matches(t[id])
      ensures t[id] in front
    {
      var i :| 0 <= i < |out| && out[i] == t[id];
      assert i < |front| && front[i] == t[id];
    }
  }

  lemma AmountsWithout(t: Table, matches: Session -> bool, amount: Session -> int, id: string)
    requires id in t
    ensures Amounts(t - {id}, matches, amount) == Amounts(t, matches, amount) - {id}
  {
  }

  // A sum over a query result is the sum over the matching rows.
  lemma {:induction false} ListingTotal(t: Table, matches: Session -> bool, amount: Session -> int, out: seq<Session>)
    requires Keyed(t) && IsListing(t, matches, out)
    ensures SumOver(out, amount) == Total(Amounts(t, matches, amount))
    decreases |out|
  {
    var amounts := Amounts(t, matches, amount);
    if out == [] {
      assert amounts == map[];
    } else {
      var id := out[|out| - 1].id;
      ListingTail(t, matches, out);
      ListingTotal(t - {id}, matches, amount, out[..|out| - 1]);
      AmountsWithout(t, matches, amount, id);
      TotalRemove(amounts, id);
    }
  }

  // The two listings, in columns.
  lemma RunningTotal(t: Table, user: Address, now: Time, amount: Session -> int, out: seq<Session>)
    requires Keyed(t) && IsListing(t, s => OwnedInState(s, user, Running), out)
    requires forall s :: amount(s) == CostUntil(s, now)
    ensures SumOver(out, amount)
         == Total(map id | id in t && t[id].user == user && t[id].state == Running && t[id].deletedAt == None :: CostUntil(t[id], now))
  {
    ListingTotal(t, s => OwnedInState(s, user, Running), amount, out);
    assert Amounts(t, s => OwnedInState(s, user, Running), amount)
        == map id | id in t && t[id].user == user && t[id].state == Running && t[id].deletedAt == None :: CostUntil(t[id], now);
  }

  lemma StoppedTotal(t: Table, user: Address, out: seq<Session>)
    requires Keyed(t) && IsListing(t, s => OwnedInState(s, user, Stopped), out)
    ensures SumOver(out, FullCost)
         == Total(map id | id in t && t[id].user == user && t[id].state == Stopped && t[id].deletedAt == None :: FullCost(t[id]))
  {
    ListingTotal(t, s => OwnedInState(s, user, Stopped), FullCost, out);
    assert Amounts(t, s => OwnedInState(s, user, Stopped), FullCost)
        == map id | id in t && t[id].user == user && t[id].state == Stopped && t[id].deletedAt == None :: FullCost(t[id]);
  }

  method CalculatePendingSettlement(repo: RentalSessionRepository, user: Address, now: Time) returns (total: int)
    requires Keyed(repo.rows)
    ensures total == Total(map id | id in repo.rows && repo.rows[id].user == user && repo.rows[id].state == Running
                                  && repo.rows[id].deletedAt == None :: CostUntil(repo.rows[id], now))
                   + Total(map id | id in repo.rows && repo.rows[id].user == user && repo.rows[id].state == Stopped
                                  && repo.rows[id].deletedAt == None :: FullCost(repo.rows[id]))
  {
    var running := repo.FindByUserAndState(user, Running);
    var stopped := repo.FindPendingSettlement(user);
    var soFar := (s: Session) => CostUntil(s, now);
    total := 0;
    for i := 0 to |running|
      invariant total == SumOver(running[..i], soFar)
    {
      var s := running[i];
      assert running[..i + 1][..i] == running[..i];
      if s.startTime.None? { continue; }
      var price := Decimal.PriceOf(s.price);
      if price.None? { continue; }
      total := total + Cost(s.startTime.value, now, price.value);
    }
    assert running[..|running|] == running;
    var runningTotal := total;
    for i := 0 to |stopped|
      invariant total == runningTotal + SumOver(stopped[..i], FullCost)
    {
      var s := stopped[i];
      assert stopped[..i + 1][..i] == stopped[..i];
      if s.startTime.None? || s.endTime.None? { continue; }
      var price := Decimal.PriceOf(s.price);
      if price.None? { continue; }
      total := total + Cost(s.startTime.value, s.endTime.value, price.value);
    }
    assert stopped[..|stopped|] == stopped;
    RunningTotal(repo.rows, user, now, soFar, running);
    StoppedTotal(repo.rows, user, stopped);
  }

  // The amounts of a listing are those of its two parts.
  lemma AmountsSplit(t: Table, whole: Session -> bool, part: Session -> bool, rest: Session -> bool, amount: Session -> int)
    requires forall s :: whole(s) <==> part(s) || rest(s)
    requires forall s :: !(part(s) && rest(s))
    ensures Total(Amounts(t, whole, amount)) == Total(Amounts(t, part, amount)) + Total(Amounts(t, rest, amount))
  {
    var all, mine := Amounts(t, whole, amount), Amounts(t, part, amount);
    TotalSplit(all, mine.Keys);
    assert Restrict(all, mine.Keys) == mine;
    assert all - mine.Keys == Amounts(t, rest, amount);
  }

  predicate UnsettledOf(s: Session, user: Address) { s.user == user && PendingSettlement(s) }

  predicate SettledOf(s: Session, user: Address) { OwnedInState(s, user, Stopped) && s.settledAt.Some? }

  // The stopped part of the pending total also counts what is already settled: it is the unsettled
  // cost exactly when every settled session of the user was free.
  lemma PendingCountsSettled(t: Table, user: Address)
    requires forall id :: id in t && SettledOf(t[id], user) ==> FullCost(t[id]) >= 0
    ensures Total(Amounts(t, s => OwnedInState(s, user, Stopped), FullCost))
         == Total(Amounts(t, s => UnsettledOf(s, user), FullCost))
       <==> forall id :: id in t && SettledOf(t[id], user) ==> FullCost(t[id]) == 0
  {
    var stopped: Session -> bool := s => OwnedInState(s, user, Stopped);
    var settled: Session -> bool := s => SettledOf(s, user);
    var unsettled: Session -> bool := s => UnsettledOf(s, user);
    forall s: Session
      ensures stopped(s) <==> settled(s) || unsettled(s)
      ensures !(settled(s) && unsettled(s))
    {
    }
    AmountsSplit(t, stopped, settled, unsettled, FullCost);
    TotalZero(Amounts(t, settled, FullCost));
    assert Amounts(t, stopped, FullCost) == Amounts(t, s => OwnedInState(s, user, Stopped), FullCost);
    assert Amounts(t, unsettled, FullCost) == Amounts(t, s => UnsettledOf(s, user), FullCost);
    forall id
      ensures id in Amounts(t, settled, FullCost) <==> id in t && SettledOf(t[id], user)
    {
    }
  }
}
