/** The governance contract as a state and one function per entry point; `None` is a panic. */
module GovernanceSpec {
  import opened Base
  import opened Arith

  const BPS := 10_000
  const MIN_PROPOSAL_BALANCE := 100_0000000
  const DEFAULT_TIMELOCK_DELAY := 34_560
  const MAX_TIMELOCK_DELAY := 200_000

  datatype Proposal = Proposal(
    id: nat,
    proposer: Address,
    key: string,
    value: string,
    votesFor: int,
    votesAgainst: int,
    start: nat,
    end: nat,
    executed: bool,
    queued: bool)

  datatype Entry = Entry(id: nat, key: string, value: string, eta: nat, cancelled: bool)

  /** `sxlm` are the balances of the voting token, as its contract reports them. */
  datatype Governance = Governance(
    admin: Address,
    guardian: Option<Address>,
    votingPeriod: nat,
    quorumBps: nat,
    delay: nat,
    reference: int,
    count: nat,
    proposals: map<nat, Proposal>,
    voted: set<(nat, Address)>,
    entries: map<nat, Entry>,
    params: map<string, string>,
    sxlm: map<Address, int>)

  function Initial(admin: Address, votingPeriod: nat, quorumBps: nat, sxlm: map<Address, int>): Governance {
    Governance(admin, None, votingPeriod, quorumBps, DEFAULT_TIMELOCK_DELAY, 0, 0, map[], {}, map[], map[], sxlm)
  }

  /** What a call publishes. */
  datatype Event =
    | Proposed(id: nat)
    | Voted(id: nat, voter: Address, support: bool, weight: int)
    | Queued(id: nat, eta: nat)
    | Cancelled(id: nat)
    | Executed(id: nat, key: string, value: string, timelocked: bool)

  // ---------- administration ----------

  function SetReference(g: Governance, actor: Address, supply: int): Option<(Governance, ())> {
    if actor != g.admin || supply < 0 then None else Some((g.(reference := supply), ()))
  }

  function SetDelay(g: Governance, actor: Address, delay: nat): Option<(Governance, ())> {
    if actor != g.admin || delay > MAX_TIMELOCK_DELAY then None else Some((g.(delay := delay), ()))
  }

  function SetGuardian(g: Governance, actor: Address, guardian: Address): Option<(Governance, ())> {
    if actor != g.admin then None else Some((g.(guardian := Some(guardian)), ()))
  }

  // ---------- proposals ----------

  function Create(g: Governance, ledger: nat, proposer: Address, key: string, value: string): Option<(Governance, nat)> {
    if Get(g.sxlm, proposer) < MIN_PROPOSAL_BALANCE then None
    else
      var p := Proposal(g.count, proposer, key, value, 0, 0, ledger, ledger + g.votingPeriod, false, false);
      Some((g.(count := g.count + 1, proposals := g.proposals[g.count := p]), g.count))
  }

  /** Returns the weight cast. */
  function Vote(g: Governance, ledger: nat, voter: Address, id: nat, support: bool): Option<(Governance, int)> {
    if id !in g.proposals then None
    else
      var p := g.proposals[id];
      var weight := Get(g.sxlm, voter);
      if ledger > p.end || (id, voter) in g.voted || weight <= 0 then None
      else
        var q := if support then p.(votesFor := p.votesFor + weight) else p.(votesAgainst := p.votesAgainst + weight);
        Some((g.(voted := g.voted + {(id, voter)}, proposals := g.proposals[id := q]), weight))
  }

  predicate QuorumMet(g: Governance, votes: int) {
    g.reference > 0 ==> votes >= TDiv(g.reference * g.quorumBps, BPS)
  }

  /** Voting is over and the proposal passed. */
  predicate Passes(g: Governance, p: Proposal, ledger: nat) {
    && ledger > p.end
    && p.votesFor + p.votesAgainst > 0
    && QuorumMet(g, p.votesFor + p.votesAgainst)
    && p.votesFor > p.votesAgainst
  }

  /** Returns the earliest ledger at which the entry may run. */
  function Queue(g: Governance, ledger: nat, id: nat): Option<(Governance, nat)> {
    if id !in g.proposals || g.proposals[id].executed || g.proposals[id].queued || !Passes(g, g.proposals[id], ledger) then None
    else
      var p := g.proposals[id];
      var eta := ledger + g.delay;
      Some((g.(entries := g.entries[id := Entry(id, p.key, p.value, eta, false)],
               proposals := g.proposals[id := p.(queued := true)]), eta))
  }

  /** With a guardian set only the guardian's signature counts; the admin's only without one. */
  function Canceller(g: Governance): Address {
    if g.guardian.Some? then g.guardian.value else g.admin
  }

  function Cancel(g: Governance, actor: Address, id: nat): Option<(Governance, ())> {
    if actor != Canceller(g) || id !in g.entries || g.entries[id].cancelled || id !in g.proposals || g.proposals[id].executed
    then None
    else Some((g.(entries := g.entries[id := g.entries[id].(cancelled := true)]), ()))
  }

  /** Writes the parameter and marks the proposal; returns what was written. */
  function Apply(g: Governance, id: nat, key: string, value: string): (Governance, (string, string))
    requires id in g.proposals
  {
    (g.(params := g.params[key := value], proposals := g.proposals[id := g.proposals[id].(executed := true)]), (key, value))
  }

  function ExecuteQueued(g: Governance, ledger: nat, id: nat): Option<(Governance, (string, string))> {
    if id !in g.entries || g.entries[id].cancelled || ledger < g.entries[id].eta
       || id !in g.proposals || g.proposals[id].executed then None
    else Some(Apply(g, id, g.entries[id].key, g.entries[id].value))
  }

  /** The admin's path around the timelock. */
  function ExecuteDirect(g: Governance, ledger: nat, actor: Address, id: nat): Option<(Governance, (string, string))> {
    if actor != g.admin || id !in g.proposals || g.proposals[id].executed || !Passes(g, g.proposals[id], ledger) then None
    else Some(Apply(g, id, g.proposals[id].key, g.proposals[id].value))
  }

  // ---------- runs ----------

  datatype Op =
    | OpReference(actor: Address, supply: int)
    | OpDelay(actor: Address, delay: nat)
    | OpGuardian(actor: Address, guardian: Address)
    | OpCreate(proposer: Address, key: string, value: string)
    | OpVote(voter: Address, id: nat, support: bool)
    | OpQueue(id: nat)
    | OpCancel(actor: Address, id: nat)
    | OpExecute(id: nat)
    | OpDirect(actor: Address, id: nat)
    | OpToken(user: Address, balance: nat)

  function After<T>(g: Governance, r: Option<(Governance, T)>): Governance {
    match r case None => g case Some(v) => v.0
  }

  /** One transaction at the given ledger. `OpToken` is any change of a balance in the token contract. */
  function Step(g: Governance, ledger: nat, op: Op): Governance {
    match op
    case OpReference(actor, supply) => After(g, SetReference(g, actor, supply))
    case OpDelay(actor, delay) => After(g, SetDelay(g, actor, delay))
    case OpGuardian(actor, guardian) => After(g, SetGuardian(g, actor, guardian))
    case OpCreate(proposer, key, value) => After(g, Create(g, ledger, proposer, key, value))
    case OpVote(voter, id, support) => After(g, Vote(g, ledger, voter, id, support))
    case OpQueue(id) => After(g, Queue(g, ledger, id))
    case OpCancel(actor, id) => After(g, Cancel(g, actor, id))
    case OpExecute(id) => After(g, ExecuteQueued(g, ledger, id))
    case OpDirect(actor, id) => After(g, ExecuteDirect(g, ledger, actor, id))
    case OpToken(user, balance) => g.(sxlm := g.sxlm[user := balance])
  }

  /** The event the transaction publishes, if it goes through. */
  function Emit(g: Governance, ledger: nat, op: Op): seq<Event> {
    match op
    case OpCreate(proposer, key, value) =>
      (match Create(g, ledger, proposer, key, value) case None => [] case Some(r) => [Proposed(r.1)])
    case OpVote(voter, id, support) =>
      (match Vote(g, ledger, voter, id, support) case None => [] case Some(r) => [Voted(id, voter, support, r.1)])
    case OpQueue(id) =>
      (match Queue(g, ledger, id) case None => [] case Some(r) => [Queued(id, r.1)])
    case OpCancel(actor, id) =>
      (match Cancel(g, actor, id) case None => [] case Some(_) => [Cancelled(id)])
    case OpExecute(id) =>
      (match ExecuteQueued(g, ledger, id) case None => [] case Some(r) => [Executed(id, r.1.0, r.1.1, true)])
    case OpDirect(actor, id) =>
      (match ExecuteDirect(g, ledger, actor, id) case None => [] case Some(r) => [Executed(id, r.1.0, r.1.1, false)])
    case _ => []
  }

  function Run(g: Governance, ops: seq<(nat, Op)>): Governance
    decreases |ops|
  {
    if ops == [] then g else Run(Step(g, ops[0].0, ops[0].1), ops[1..])
  }

  function Trace(g: Governance, ops: seq<(nat, Op)>): seq<Event>
    decreases |ops|
  {
    if ops == [] then [] else Emit(g, ops[0].0, ops[0].1) + Trace(Step(g, ops[0].0, ops[0].1), ops[1..])
  }
}
