/**
 Contract events: parsing logs (internal/blockchain/events.go) and verifying a rental transaction
 (internal/blockchain/verifier.go). Words are 32 bytes, big-endian.
 */
module ChainEvents {
  import opened Outcomes
  import opened Rental

  type Byte = b: int | 0 <= b < 256

  const TWO_64: int := 0x1_0000_0000_0000_0000
  const TWO_63: int := 0x8000_0000_0000_0000

  // The four event signatures, keccak hashes not computed here.
  datatype Signatures = Signatures(started: seq<Byte>, stopped: seq<Byte>, deposited: seq<Byte>, withdrawn: seq<Byte>)

  predicate Distinct(s: Signatures) {
    && s.started != s.stopped && s.started != s.deposited && s.started != s.withdrawn
    && s.stopped != s.deposited && s.stopped != s.withdrawn && s.deposited != s.withdrawn
  }

  datatype RawLog = RawLog(address: Address, topics: seq<seq<Byte>>, data: seq<Byte>, txHash: string, block: nat, index: nat)

  datatype RentalStarted = RentalStarted(
    rentalId: nat, user: Address, provider: Address, startTime: nat, txHash: string, block: nat, index: nat)

  datatype RentalStopped = RentalStopped(rentalId: nat, endTime: nat, cost: nat, txHash: string, block: nat, index: nat)

  // Deposited and Withdrawn share their layout.
  datatype Transfer = Transfer(user: Address, amount: nat, txHash: string, block: nat, index: nat)

  datatype ParseError = TooFewTopics | WrongSignature | ShortData

  // big.Int.SetBytes
  function Big(bytes: seq<Byte>): nat {
    if bytes == [] then 0 else Big(bytes[..|bytes| - 1]) * 256 + bytes[|bytes| - 1]
  }

  function Uint64(x: nat): nat { x % TWO_64 }

  lemma FitsWord64(x: nat)
    ensures Uint64(x) == x <==> x < TWO_64
  {
  }

  // common.BytesToAddress: the last twenty bytes, or all of a shorter string.
  function AddressOf(bytes: seq<Byte>): Address {
    Big(if |bytes| > 20 then bytes[|bytes| - 20..] else bytes)
  }

  function ParseRentalStarted(sigs: Signatures, log: RawLog): Result<RentalStarted, ParseError> {
    if |log.topics| < 4 then Err(TooFewTopics)
    else if log.topics[0] != sigs.started then Err(WrongSignature)
    else if |log.data| < 32 then Err(ShortData)
    else Ok(RentalStarted(Uint64(Big(log.topics[1])), AddressOf(log.topics[2]), AddressOf(log.topics[3]),
              Uint64(Big(log.data[..32])), log.txHash, log.block, log.index))
  }

  function ParseRentalStopped(sigs: Signatures, log: RawLog): Result<RentalStopped, ParseError> {
    if |log.topics| < 2 then Err(TooFewTopics)
    else if log.topics[0] != sigs.stopped then Err(WrongSignature)
    else if |log.data| < 64 then Err(ShortData)
    else Ok(RentalStopped(Uint64(Big(log.topics[1])), Uint64(Big(log.data[..32])), Big(log.data[32..64]),
              log.txHash, log.block, log.index))
  }

  function ParseTransfer(signature: seq<Byte>, log: RawLog): Result<Transfer, ParseError> {
    if |log.topics| < 2 then Err(TooFewTopics)
    else if log.topics[0] != signature then Err(WrongSignature)
    else if |log.data| < 32 then Err(ShortData)
    else Ok(Transfer(AddressOf(log.topics[1]), Big(log.data[..32]), log.txHash, log.block, log.index))
  }

  datatype EventType = StartedEvent | StoppedEvent | DepositedEvent | WithdrawnEvent | UnknownEvent

  function IdentifyEvent(sigs: Signatures, log: RawLog): EventType {
    if |log.topics| == 0 then UnknownEvent
    else if log.topics[0] == sigs.started then StartedEvent
    else if log.topics[0] == sigs.stopped then StoppedEvent
    else if log.topics[0] == sigs.deposited then DepositedEvent
    else if log.topics[0] == sigs.withdrawn then WithdrawnEvent
    else UnknownEvent
  }

  // Dispatch and parser agree on the signature: an identified event can only fail on its shape.
  lemma IdentifiedParses(sigs: Signatures, log: RawLog)
    requires Distinct(sigs)
    ensures IdentifyEvent(sigs, log) == StartedEvent ==>
      (ParseRentalStarted(sigs, log).Ok? <==> |log.topics| >= 4 && |log.data| >= 32)
    ensures IdentifyEvent(sigs, log) == StoppedEvent ==>
      (ParseRentalStopped(sigs, log).Ok? <==> |log.topics| >= 2 && |log.data| >= 64)
    ensures ParseRentalStarted(sigs, log).Ok? ==> IdentifyEvent(sigs, log) == StartedEvent
    ensures ParseRentalStopped(sigs, log).Ok? ==> IdentifyEvent(sigs, log) == StoppedEvent
    ensures ParseTransfer(sigs.deposited, log).Ok? ==> IdentifyEvent(sigs, log) == DepositedEvent
    ensures ParseTransfer(sigs.withdrawn, log).Ok? ==> IdentifyEvent(sigs, log) == WithdrawnEvent
  {
  }

  // ---- The ABI encoding of the events ----

  function Pow256(k: nat): nat { if k == 0 then 1 else 256 * Pow256(k - 1) }

  // n as k big-endian bytes.
  function Encode(n: nat, k: nat): (bytes: seq<Byte>)
    ensures |bytes| == k
  {
    if k == 0 then [] else Encode(n / 256, k - 1) + [n % 256]
  }

  lemma {:induction false} BigOfEncode(n: nat, k: nat)
    requires n < Pow256(k)
    ensures Big(Encode(n, k)) == n
  {
    if k > 0 {
      var bytes := Encode(n, k);
      assert n / 256 < Pow256(k - 1);
      BigOfEncode(n / 256, k - 1);
      assert bytes[..|bytes| - 1] == Encode(n / 256, k - 1);
    }
  }

  // The low j bytes of a longer encoding are the shorter encoding.
  lemma {:induction false} EncodeSuffix(n: nat, k: nat, j: nat)
    requires j <= k
    ensures Encode(n, k)[k - j..] == Encode(n, j)
  {
    if j > 0 {
      EncodeSuffix(n / 256, k - 1, j - 1);
      assert Encode(n, k)[k - j..] == Encode(n / 256, k - 1)[k - j..] + [n % 256];
    }
  }

  lemma {:induction false} Pow256Monotone(j: nat, k: nat)
    requires j <= k
    ensures 1 <= Pow256(j) <= Pow256(k)
  {
    if j < k {
      Pow256Monotone(j, k - 1);
    } else if j > 0 {
      Pow256Monotone(j - 1, j - 1);
    }
  }

  lemma AddressOfEncode(a: Address)
    requires a < Pow256(20)
    ensures AddressOf(Encode(a, 32)) == a
  {
    EncodeSuffix(a, 32, 20);
    BigOfEncode(a, 20);
  }

  function EncodeStarted(sigs: Signatures, contract: Address, e: RentalStarted): RawLog {
    RawLog(contract, [sigs.started, Encode(e.rentalId, 32), Encode(e.user, 32), Encode(e.provider, 32)],
      Encode(e.startTime, 32), e.txHash, e.block, e.index)
  }

  function EncodeStopped(sigs: Signatures, contract: Address, e: RentalStopped): RawLog {
    RawLog(contract, [sigs.stopped, Encode(e.rentalId, 32)], Encode(e.endTime, 32) + Encode(e.cost, 32),
      e.txHash, e.block, e.index)
  }

  // Two words side by side, as the data of a stop carries them.
  lemma TwoWords(a: nat, b: nat)
    requires a < Pow256(32) && b < Pow256(32)
    ensures var data := Encode(a, 32) + Encode(b, 32);
            |data| == 64 && Big(data[..32]) == a && Big(data[32..64]) == b
  {
    var x, y := Encode(a, 32), Encode(b, 32);
    assert (x + y)[..32] == x && (x + y)[32..64] == y;
    BigOfEncode(a, 32);
    BigOfEncode(b, 32);
  }

  lemma StartedParses(sigs: Signatures, contract: Address, e: RentalStarted)
    requires e.rentalId < Pow256(32) && e.startTime < Pow256(32) && e.user < Pow256(20) && e.provider < Pow256(20)
    ensures ParseRentalStarted(sigs, EncodeStarted(sigs, contract, e))
         == Ok(RentalStarted(Uint64(e.rentalId), e.user, e.provider, Uint64(e.startTime), e.txHash, e.block, e.index))
  {
    var data := Encode(e.startTime, 32);
    BigOfEncode(e.rentalId, 32);
    BigOfEncode(e.startTime, 32);
    AddressOfEncode(e.user);
    AddressOfEncode(e.provider);
    assert data[..32] == data;
  }

  // Parsing an encoded start returns it, exactly when its id and time fit 64 bits.
  lemma StartedRoundTrip(sigs: Signatures, contract: Address, e: RentalStarted)
    requires e.rentalId < Pow256(32) && e.startTime < Pow256(32) && e.user < Pow256(20) && e.provider < Pow256(20)
    ensures ParseRentalStarted(sigs, EncodeStarted(sigs, contract, e)) == Ok(e)
       <==> e.rentalId < TWO_64 && e.startTime < TWO_64
  {
    StartedParses(sigs, contract, e);
    FitsWord64(e.rentalId);
    FitsWord64(e.startTime);
  }

  lemma StoppedParses(sigs: Signatures, contract: Address, e: RentalStopped)
    requires e.rentalId < Pow256(32) && e.endTime < Pow256(32) && e.cost < Pow256(32)
    ensures ParseRentalStopped(sigs, EncodeStopped(sigs, contract, e))
         == Ok(RentalStopped(Uint64(e.rentalId), Uint64(e.endTime), e.cost, e.txHash, e.block, e.index))
  {
    BigOfEncode(e.rentalId, 32);
    TwoWords(e.endTime, e.cost);
  }

  // The cost of an encoded stop is returned in full; id and time again exactly up to 64 bits.
  lemma StoppedRoundTrip(sigs: Signatures, contract: Address, e: RentalStopped)
    requires e.rentalId < Pow256(32) && e.endTime < Pow256(32) && e.cost < Pow256(32)
    ensures var r := ParseRentalStopped(sigs, EncodeStopped(sigs, contract, e));
            && r.Ok? && r.value.cost == e.cost
            && (r == Ok(e) <==> e.rentalId < TWO_64 && e.endTime < TWO_64)
  {
    StoppedParses(sigs, contract, e);
    FitsWord64(e.rentalId);
    FitsWord64(e.endTime);
  }

  function EncodeTransfer(signature: seq<Byte>, contract: Address, e: Transfer): RawLog {
    RawLog(contract, [signature, Encode(e.user, 32)], Encode(e.amount, 32), e.txHash, e.block, e.index)
  }

  // Deposits and withdrawals come back whole.
  lemma TransferRoundTrip(signature: seq<Byte>, contract: Address, e: Transfer)
    requires e.user < Pow256(20) && e.amount < Pow256(32)
    ensures ParseTransfer(signature, EncodeTransfer(signature, contract, e)) == Ok(e)
  {
    var data := Encode(e.amount, 32);
    AddressOfEncode(e.user);
    BigOfEncode(e.amount, 32);
    assert data[..32] == data;
  }

  // ---- Verification ----

  datatype Receipt = Receipt(block: Option<nat>, success: bool, logs: seq<RawLog>)

  datatype Lookup = NotMined | RpcFailure | Found(receipt: Receipt)

  datatype Verification =
    | TxPending
    | TxFailed
    | TxInvalid
    | Confirmed(rentalId: nat, startTime: Time, block: nat)

  datatype VerifyError = LookupFailed | BadEvent(cause: ParseError)

  predicate Mined(r: Receipt) { r.block.Some? && Uint64(r.block.value) != 0 }

  // time.Unix(int64(seconds), 0)
  function UnixTime(seconds: nat): Time
    requires seconds < TWO_64
  {
    (if seconds >= TWO_63 then seconds - TWO_64 else seconds) * SECOND
  }

  predicate StartLog(sigs: Signatures, contract: Address, log: RawLog) {
    log.address == contract && |log.topics| > 0 && log.topics[0] == sigs.started
  }

  // Log i is the first RentalStarted log of the contract.
  predicate FirstStart(sigs: Signatures, contract: Address, logs: seq<RawLog>, i: nat) {
    i < |logs| && StartLog(sigs, contract, logs[i]) && forall j :: 0 <= j < i ==> !StartLog(sigs, contract, logs[j])
  }

  predicate Succeeded(lookup: Lookup) { lookup.Found? && Mined(lookup.receipt) && lookup.receipt.success }

  // Log i is the first start log and yields this verification for the two parties.
  predicate Yields(sigs: Signatures, receipt: Receipt, log: RawLog, user: Address, provider: Address, v: Verification)
    requires receipt.block.Some?
  {
    var event := ParseRentalStarted(sigs, log);
    && event.Ok? && event.value.user == user && event.value.provider == provider
    && v == Confirmed(event.value.rentalId, UnixTime(event.value.startTime), Uint64(receipt.block.value))
  }

  // What confirmation means: a mined, successful receipt whose first start log of the contract names
  // both parties; rental id and start time are those of that log.
  ghost predicate Confirms(sigs: Signatures, contract: Address, lookup: Lookup, user: Address, provider: Address, v: Verification) {
    && Succeeded(lookup)
    && exists i: nat :: FirstStart(sigs, contract, lookup.receipt.logs, i)
                     && Yields(sigs, lookup.receipt, lookup.receipt.logs[i], user, provider, v)
  }

  ghost predicate FirstStartBroken(sigs: Signatures, contract: Address, logs: seq<RawLog>) {
    exists i: nat :: FirstStart(sigs, contract, logs, i) && ParseRentalStarted(sigs, logs[i]).Err?
  }

  lemma FirstStartUnique(sigs: Signatures, contract: Address, logs: seq<RawLog>, i: nat, j: nat)
    requires FirstStart(sigs, contract, logs, i) && FirstStart(sigs, contract, logs, j)
    ensures i == j
  {
    assert !(i < j) && !(j < i);
  }

  // The first log of the contract with the start signature is log i, and it encodes an event.
  predicate FirstEncodes(sigs: Signatures, contract: Address, logs: seq<RawLog>, i: nat, e: RentalStarted) {
    && i < |logs| && logs[i] == EncodeStarted(sigs, contract, e)
    && (forall j | 0 <= j < i :: logs[j].address != contract || |logs[j].topics| == 0 || logs[j].topics[0] != sigs.started)
    && e.rentalId < Pow256(32) && e.startTime < Pow256(32) && e.user < Pow256(20) && e.provider < Pow256(20)
  }

  lemma EncodedIsFirst(sigs: Signatures, contract: Address, logs: seq<RawLog>, i: nat, e: RentalStarted)
    requires FirstEncodes(sigs, contract, logs, i, e)
    ensures FirstStart(sigs, contract, logs, i)
    ensures ParseRentalStarted(sigs, logs[i])
         == Ok(RentalStarted(Uint64(e.rentalId), e.user, e.provider, Uint64(e.startTime), e.txHash, e.block, e.index))
  {
    StartedParses(sigs, contract, e);
  }

  // From the emitted event to the confirmation: exactly its parties are confirmed, with the receipt's
  // block; and the session gets the event's rental, and its start in seconds since the epoch, exactly
  // when these fit the 64-bit words they pass through.
  lemma EmittedStartConfirms(sigs: Signatures, contract: Address, receipt: Receipt, i: nat, e: RentalStarted,
                             user: Address, provider: Address)
    requires receipt.success && receipt.block != None && 0 < receipt.block.value < TWO_64
    requires FirstEncodes(sigs, contract, receipt.logs, i, e)
    ensures (exists v :: Confirms(sigs, contract, Found(receipt), user, provider, v)) <==> user == e.user && provider == e.provider
    ensures forall v | Confirms(sigs, contract, Found(receipt), user, provider, v) ::
      && v.Confirmed? && v.block == receipt.block.value
      && (v.rentalId == e.rentalId <==> e.rentalId < 0x1_0000_0000_0000_0000)
      && (v.startTime == e.startTime * 1_000_000_000 <==> e.startTime < 0x8000_0000_0000_0000)
  {
    EncodedIsFirst(sigs, contract, receipt.logs, i, e);
    forall k: nat | FirstStart(sigs, contract, receipt.logs, k)
      ensures k == i
    {
      FirstStartUnique(sigs, contract, receipt.logs, i, k);
    }
    assert Uint64(receipt.block.value) == receipt.block.value;
    if user == e.user && provider == e.provider {
      var v := Confirmed(Uint64(e.rentalId), UnixTime(Uint64(e.startTime)), receipt.block.value);
      assert Yields(sigs, receipt, receipt.logs[i], user, provider, v);
      assert Confirms(sigs, contract, Found(receipt), user, provider, v);
    }
    WordTimes(e.startTime);
    FitsWord64(e.rentalId);
  }

  lemma WordTimes(seconds: nat)
    ensures UnixTime(Uint64(seconds)) == seconds * 1_000_000_000 <==> seconds < 0x8000_0000_0000_0000
  {
  }

  method VerifyTransaction(sigs: Signatures, contract: Address, lookup: Lookup, user: Address, provider: Address)
    returns (r: Result<Verification, VerifyError>)
    ensures r.Ok? && r.value.Confirmed? <==> exists v :: Confirms(sigs, contract, lookup, user, provider, v)
    ensures forall v :: Confirms(sigs, contract, lookup, user, provider, v) ==> r == Ok(v)
    ensures r == Ok(TxPending) <==> lookup.NotMined? || (lookup.Found? && !Mined(lookup.receipt))
    ensures r == Ok(TxFailed) <==> lookup.Found? && Mined(lookup.receipt) && !lookup.receipt.success
    ensures r.Err? <==> lookup.RpcFailure? || (Succeeded(lookup) && FirstStartBroken(sigs, contract, lookup.receipt.logs))
  {
    if lookup.RpcFailure? { return Err(LookupFailed); }
    if lookup.NotMined? { return Ok(TxPending); }
    var receipt := lookup.receipt;
    if receipt.block.None? || Uint64(receipt.block.value) == 0 { return Ok(TxPending); }
    if !receipt.success { return Ok(TxFailed); }
    for i := 0 to |receipt.logs|
      invariant forall j :: 0 <= j < i ==> !StartLog(sigs, contract, receipt.logs[j])
    {
      var log := receipt.logs[i];
      if log.address != contract { continue; }
      if |log.topics| > 0 && log.topics[0] == sigs.started {
        assert FirstStart(sigs, contract, receipt.logs, i);
        forall k: nat | FirstStart(sigs, contract, receipt.logs, k)
          ensures k == i
        {
          FirstStartUnique(sigs, contract, receipt.logs, i, k);
        }
        var event := ParseRentalStarted(sigs, log);
        if event.Err? { return Err(BadEvent(event.error)); }
        if event.value.user != user { return Ok(TxInvalid); }
        if event.value.provider != provider { return Ok(TxInvalid); }
        r := Ok(Confirmed(event.value.rentalId, UnixTime(event.value.startTime), Uint64(receipt.block.value)));
        assert Confirms(sigs, contract, lookup, user, provider, r.value);
        return;
      }
    }
    r := Ok(TxInvalid);
  }
}
