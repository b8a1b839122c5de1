/** What each governance call does, in terms a caller can check: when it goes through and what it stores; and that a timelocked write
    waits for the delay that was set when it was queued. */
module GovernanceCalls {
  import opened Base
  import opened Arith
  import Clock
  import opened GovernanceSpec
  import opened GovernanceProofs

  // ---------- proposals and votes ----------

  /** A proposal is stored exactly for a holder of at least 100 sXLM: open from this ledger for the voting period, without votes. */
  lemma CreateExactly(g: Governance, ledger: nat, proposer: Address, key: string, value: string)
    ensures var r := Create(g, ledger, proposer, key, value);
      && (r.Some? <==> 1_000_000_000 <= Get(g.sxlm, proposer))
      && (r.Some? ==>
           var p := Proposal(g.count, proposer, key, value, 0, 0, ledger, ledger + g.votingPeriod, false, false);
           r.value.1 == g.count && r.value.0 == g.(count := g.count + 1, proposals := g.proposals[g.count := p]))
  {}

  /** A vote counts exactly on a stored proposal, up to its last ledger, once per voter, and for a holder; its weight is the balance
      of that moment, on the side chosen. */
  lemma VoteExactly(g: Governance, ledger: nat, voter: Address, id: nat, support: bool)
    ensures var r, weight := Vote(g, ledger, voter, id, support), Get(g.sxlm, voter);
      && (r.Some? <==> id in g.proposals && ledger <= g.proposals[id].end && (id, voter) !in g.voted && 0 < weight)
      && (r.Some? ==>
           var p := g.proposals[id];
           && r.value.1 == weight
           && r.value.0 == g.(voted := g.voted + {(id, voter)},
                proposals := g.proposals[id := p.(votesFor := p.votesFor + if support then weight else 0,
                                                  votesAgainst := p.votesAgainst + if support then 0 else weight)]))
  {}

  /** The quorum is the floored share of the reference supply, and none is asked for without one. */
  lemma QuorumExactly(g: Governance, votes: int, needed: int)
    requires 0 <= g.reference && IsFloor(needed, g.reference * g.quorumBps, 10_000)
    ensures QuorumMet(g, votes) <==> g.reference == 0 || needed <= votes
  {
    MulMono(0, g.quorumBps, g.reference);
    TruncationIsFloor(g.reference * g.quorumBps, 10_000);
    OneFloor(needed, TDiv(g.reference * g.quorumBps, 10_000), g.reference * g.quorumBps, 10_000);
  }

  /** A proposal has passed exactly if voting is closed, somebody voted, the quorum is met and more votes are for than against. */
  lemma PassesExactly(g: Governance, p: Proposal, ledger: nat, needed: int)
    requires 0 <= g.reference && IsFloor(needed, g.reference * g.quorumBps, 10_000)
    ensures Passes(g, p, ledger) <==>
      && p.end < ledger && p.votesAgainst < p.votesFor && 0 < p.votesFor + p.votesAgainst
      && (g.reference == 0 || needed <= p.votesFor + p.votesAgainst)
  {
    QuorumExactly(g, p.votesFor + p.votesAgainst, needed);
    hide QuorumMet, IsFloor;
  }

  // ---------- the timelock ----------

  /** A passed proposal that is neither executed nor queued gets one entry with its parameter, due after the delay from now on. */
  lemma QueueExactly(g: Governance, ledger: nat, id: nat)
    ensures var r := Queue(g, ledger, id);
      && (r.Some? <==>
           id in g.proposals && !g.proposals[id].executed && !g.proposals[id].queued && Passes(g, g.proposals[id], ledger))
      && (r.Some? ==>
           var p := g.proposals[id];
           && r.value.1 == ledger + g.delay
           && r.value.0 == g.(entries := g.entries[id := Entry(id, p.key, p.value, ledger + g.delay, false)],
                              proposals := g.proposals[id := p.(queued := true)]))
  {
    hide Passes;
  }

  /** An entry is cancelled exactly by the guardian, or by the admin if there is none, while it is neither cancelled nor executed. */
  lemma CancelExactly(g: Governance, actor: Address, id: nat)
    ensures var r := Cancel(g, actor, id);
      && (r.Some? <==>
           && (if g.guardian.Some? then g.guardian == Some(actor) else actor == g.admin)
           && id in g.entries && !g.entries[id].cancelled && id in g.proposals && !g.proposals[id].executed)
      && (r.Some? ==> r.value.0 == g.(entries := g.entries[id := g.entries[id].(cancelled := true)]))
  {}

  /** An entry is executed by anybody exactly from its due ledger on, uncancelled and unexecuted; a passed proposal by the admin
      exactly while unexecuted. Either writes the parameter and marks the proposal. */
  lemma ExecuteExactly(g: Governance, ledger: nat, actor: Address, id: nat)
    ensures var r := ExecuteQueued(g, ledger, id);
      && (r.Some? <==>
           && id in g.entries && !g.entries[id].cancelled && g.entries[id].eta <= ledger
           && id in g.proposals && !g.proposals[id].executed)
      && (r.Some? ==>
           var e, p := g.entries[id], g.proposals[id];
           && r.value.1 == (e.key, e.value)
           && r.value.0 == g.(params := g.params[e.key := e.value], proposals := g.proposals[id := p.(executed := true)]))
    ensures var r := ExecuteDirect(g, ledger, actor, id);
      && (r.Some? <==> actor == g.admin && id in g.proposals && !g.proposals[id].executed && Passes(g, g.proposals[id], ledger))
      && (r.Some? ==>
           var p := g.proposals[id];
           && r.value.1 == (p.key, p.value)
           && r.value.0 == g.(params := g.params[p.key := p.value], proposals := g.proposals[id := p.(executed := true)]))
  {
    hide Passes;
  }

  /** What is published is what went through: the number of a new proposal, the weight of a vote, the due ledger of an entry, and each
      write with its parameter and the path it took. */
  lemma EventsExactly(g: Governance, ledger: nat, op: Op)
    ensures var es := Emit(g, ledger, op);
      match op
      case OpCreate(proposer, key, value) => es == if Create(g, ledger, proposer, key, value).Some? then [Proposed(g.count)] else []
      case OpVote(voter, id, support) =>
        es == if Vote(g, ledger, voter, id, support).Some? then [Voted(id, voter, support, Get(g.sxlm, voter))] else []
      case OpQueue(id) => es == if Queue(g, ledger, id).Some? then [Queued(id, ledger + g.delay)] else []
      case OpCancel(actor, id) => es == if Cancel(g, actor, id).Some? then [Cancelled(id)] else []
      case OpExecute(id) =>
        es == if ExecuteQueued(g, ledger, id).Some? then [Executed(id, g.entries[id].key, g.entries[id].value, true)] else []
      case OpDirect(actor, id) =>
        es == if ExecuteDirect(g, ledger, actor, id).Some? then [Executed(id, g.proposals[id].key, g.proposals[id].value, false)] else []
      case _ => es == []
  {
    hide Passes;
  }

  /** Only the admin sets the reference supply, the delay up to its maximum, and the guardian. */
  lemma AdminExactly(g: Governance, actor: Address, supply: int, delay: nat, guardian: Address)
    ensures var r := SetReference(g, actor, supply);
      && (r.Some? <==> actor == g.admin && 0 <= supply)
      && (r.Some? ==> r.value.0 == g.(reference := supply))
    ensures var r := SetDelay(g, actor, delay);
      && (r.Some? <==> actor == g.admin && delay <= 200_000)
      && (r.Some? ==> r.value.0 == g.(delay := delay))
    ensures var r := SetGuardian(g, actor, guardian);
      && (r.Some? <==> actor == g.admin)
      && (r.Some? ==> r.value.0 == g.(guardian := Some(guardian)))
  {}

  /** A deployment has no proposals, no guardian and the default delay. */
  lemma DeployedExactly(admin: Address, votingPeriod: nat, quorumBps: nat, sxlm: map<Address, int>)
    ensures var g := Initial(admin, votingPeriod, quorumBps, sxlm);
      && g.admin == admin && g.votingPeriod == votingPeriod && g.quorumBps == quorumBps && g.delay == 34_560
      && g.guardian == None && g.reference == 0 && g.count == 0 && g.proposals == map[] && g.entries == map[]
      && g.voted == {} && g.params == map[] && g.sxlm == sxlm
  {}

  /** The step in which an entry appears is its queueing, and it is due after the delay of that moment. */
  lemma EntryAppears(g: Governance, ledger: nat, op: Op, id: nat)
    requires id !in g.entries && id in Step(g, ledger, op).entries
    ensures op == OpQueue(id) && Step(g, ledger, op).entries[id].eta == ledger + g.delay
  {
    hide Passes;
  }

  /** The run queued the proposal at its `i`-th call, and `eta` is that ledger plus the delay set at that moment. */
  ghost predicate QueuedAt(g: Governance, ops: seq<(nat, Op)>, id: nat, eta: nat, i: nat) {
    i < |ops| && ops[i].1 == OpQueue(id) && eta == ops[i].0 + Run(g, ops[..i]).delay
  }

  /** Whatever happens in between, changes of the delay included: the due ledger of every entry of a run is the ledger at which the
      proposal was queued plus the delay in force then. */
  lemma {:induction false} DueAfterDelay(g: Governance, now: nat, ops: seq<(nat, Op)>, id: nat) returns (i: nat)
    requires Lawful(g, now) && Clock.Timed(now, ops) && id !in g.entries && id in Run(g, ops).entries
    ensures QueuedAt(g, ops, id, Run(g, ops).entries[id].eta, i)
    decreases |ops|
  {
    assert ops != [];
    var t, rest := Step(g, ops[0].0, ops[0].1), ops[1..];
    LawfulStep(g, now, ops[0].0, ops[0].1);
    if id in t.entries {
      EntryAppears(g, ops[0].0, ops[0].1, id);
      EntriesOverRuns(t, ops[0].0, rest, id);
      i := 0;
      assert Run(g, ops[..0]) == g;
    } else {
      var j := DueAfterDelay(t, ops[0].0, rest, id);
      i := j + 1;
      assert ops[..i][1..] == rest[..j] && ops[..i][0] == ops[0];
    }
    hide Step, Lawful;
  }

  /** So from deployment on, a timelocked write happens no earlier than the delay in force at its queueing after that. */
  lemma WritesWaitForTheDelay(admin: Address, votingPeriod: nat, quorumBps: nat, sxlm: map<Address, int>,
                              ops: seq<(nat, Op)>, ledger: nat, id: nat) returns (i: nat)
    requires Clock.Timed(0, ops) && Clock.Last(0, ops) <= ledger
    requires ExecuteQueued(Run(Initial(admin, votingPeriod, quorumBps, sxlm), ops), ledger, id).Some?
    ensures var g := Initial(admin, votingPeriod, quorumBps, sxlm);
      i < |ops| && ops[i].1 == OpQueue(id) && ops[i].0 + Run(g, ops[..i]).delay <= ledger
  {
    var g := Initial(admin, votingPeriod, quorumBps, sxlm);
    InitialRecorded(admin, votingPeriod, quorumBps, sxlm);
    ExecuteExactly(Run(g, ops), ledger, admin, id);
    hide Run, Lawful;
    i := DueAfterDelay(g, 0, ops, id);
  }
}
