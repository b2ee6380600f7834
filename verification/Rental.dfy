/** The rental session record and its transition table (internal/domain/rental.go). */
module Rental {
  import opened Outcomes

  // Instants and durations in nanoseconds.
  type Time = int
  // A 20-byte account address, by value.
  type Address = nat

  const SECOND: int := 1_000_000_000
  const MINUTE: int := 60 * SECOND

  datatype State = Pending | Running | Stopped | Failed | Cancelled

  const ALLOWED_TRANSITIONS: map<State, seq<State>> := map[
    Pending := [Running, Failed, Cancelled],
    Running := [Stopped, Failed],
    Stopped := [],
    Failed := [],
    Cancelled := []]

  predicate CanTransition(from: State, to: State) {
    from in ALLOWED_TRANSITIONS && to in ALLOWED_TRANSITIONS[from]
  }

  predicate IsTerminal(s: State) { s == Stopped || s == Failed || s == Cancelled }

  // How many transitions a session in this state can still make.
  function Remaining(s: State): nat {
    match s
    case Pending => 2
    case Running => 1
    case _ => 0
  }

  datatype Session = Session(
    id: string,
    user: Address,
    provider: Address,
    nodeId: string,
    rentalId: Option<nat>,
    state: State,
    price: string,
    startTime: Option<Time>,
    endTime: Option<Time>,
    txHash: Option<string>,
    blockNumber: Option<nat>,
    settledAt: Option<Time>,
    settledAmount: Option<int>,
    deletedAt: Option<Time>,
    extendedUntil: Option<Time>,
    extensionCount: int,
    totalExtendedMinutes: int,
    image: string,
    gpuCount: int,
    cpuCores: int,
    memoryGB: int,
    storageGB: int,
    createdAt: Time,
    updatedAt: Time)

  // A terminal state is one without successors, and every transition uses up a step.
  lemma TransitionTable(from: State, to: State)
    ensures IsTerminal(from) <==> forall s :: !CanTransition(from, s)
    ensures CanTransition(from, to) ==> Remaining(to) < Remaining(from) && to != Pending
    ensures CanTransition(from, Running) <==> from == Pending
    ensures CanTransition(from, Stopped) <==> from == Running
    ensures CanTransition(from, Failed) <==> from == Pending || from == Running
    ensures CanTransition(from, Cancelled) <==> from == Pending
  {
    assert from == Pending ==> CanTransition(from, Running);
    assert from == Running ==> CanTransition(from, Stopped);
  }
}
