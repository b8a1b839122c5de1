/** Whole-run safety of governance: honest tallies, votes frozen after the close, and at most one lawful write per proposal. */
module GovernanceProofs {
  import opened Base
  import opened Arith
  import opened Clock
  import opened Sums
  import opened GovernanceSpec

  // ---------- what the published events say ----------

  /** Weight cast on one side of a proposal. */
  function Tally(trace: seq<Event>, id: nat, support: bool): int {
    if trace == [] then 0
    else
      var n := |trace| - 1;
      Tally(trace[..n], id, support)
      + (if trace[n].Voted? && trace[n].id == id && trace[n].support == support then trace[n].weight else 0)
  }

  /** How often a proposal's parameter was written. */
  function Writes(trace: seq<Event>, id: nat): nat {
    if trace == [] then 0
    else
      var n := |trace| - 1;
      Writes(trace[..n], id) + (if trace[n].Executed? && trace[n].id == id then 1 else 0)
  }

  /** The parameters obtained by replaying the published writes. */
  function Replay(params: map<string, string>, trace: seq<Event>): map<string, string> {
    if trace == [] then params
    else
      var n := |trace| - 1;
      var p := Replay(params, trace[..n]);
      if trace[n].Executed? then p[trace[n].key := trace[n].value] else p
  }

  ghost predicate VotedIn(trace: seq<Event>, id: nat, voter: Address) {
    exists i :: 0 <= i < |trace| && trace[i].Voted? && trace[i].id == id && trace[i].voter == voter
  }

  // ---------- tallies ----------

  /** What is stored about a proposal is what the events so far add up to; nothing was published about ids not handed out. */
  ghost predicate RecordedAt(g: Governance, trace: seq<Event>, id: nat) {
    && (id in g.proposals <==> id < g.count)
    && Tally(trace, id, true) == (if id in g.proposals then g.proposals[id].votesFor else 0)
    && Tally(trace, id, false) == (if id in g.proposals then g.proposals[id].votesAgainst else 0)
    && Writes(trace, id) == (if id in g.proposals && g.proposals[id].executed then 1 else 0)
  }

  ghost predicate Recorded(g: Governance, trace: seq<Event>, params: map<string, string>) {
    && (forall id: nat :: RecordedAt(g, trace, id))
    && g.params == Replay(params, trace)
  }

  /** Every vote was cast with positive weight and no voter appears twice on a proposal. */
  ghost predicate Ballots(g: Governance, trace: seq<Event>) {
    && (forall id: nat, voter :: (id, voter) in g.voted <==> VotedIn(trace, id, voter))
    && (forall i :: 0 <= i < |trace| && trace[i].Voted? ==> trace[i].weight > 0)
    && (forall i, j :: 0 <= i < j < |trace| && trace[i].Voted? && trace[j].Voted? ==>
          trace[i].id != trace[j].id || trace[i].voter != trace[j].voter)
  }

  lemma Appended(trace: seq<Event>, e: Event, id: nat, params: map<string, string>)
    ensures Tally(trace + [e], id, true) == Tally(trace, id, true) + (if e.Voted? && e.id == id && e.support then e.weight else 0)
    ensures Tally(trace + [e], id, false) == Tally(trace, id, false) + (if e.Voted? && e.id == id && !e.support then e.weight else 0)
    ensures Writes(trace + [e], id) == Writes(trace, id) + if e.Executed? && e.id == id then 1 else 0
    ensures Replay(params, trace + [e]) ==
      if e.Executed? then Replay(params, trace)[e.key := e.value] else Replay(params, trace)
  {}

  function Cast(es: seq<Event>, id: nat, support: bool): int {
    if es != [] && es[0].Voted? && es[0].id == id && es[0].support == support then es[0].weight else 0
  }

  predicate Wrote(es: seq<Event>, id: nat) { es != [] && es[0].Executed? && es[0].id == id }

  /** What one step does to one proposal's tallies and execution flag is what its event says. */
  lemma VoteOnProposal(g: Governance, ledger: nat, op: Op, id: nat)
    requires op.OpVote?
    requires id in g.proposals <==> id < g.count
    ensures var t, es := Step(g, ledger, op), Emit(g, ledger, op);
      && g.count <= t.count && (id in t.proposals <==> id < t.count)
      && (id in g.proposals ==>
           && t.proposals[id].votesFor == g.proposals[id].votesFor + Cast(es, id, true)
           && t.proposals[id].votesAgainst == g.proposals[id].votesAgainst + Cast(es, id, false)
           && (t.proposals[id].executed <==> g.proposals[id].executed || Wrote(es, id))
           && (Wrote(es, id) ==> !g.proposals[id].executed))
      && (id !in g.proposals ==>
           && (id in t.proposals ==> t.proposals[id].votesFor == 0 == t.proposals[id].votesAgainst && !t.proposals[id].executed)
           && !Wrote(es, id) && Cast(es, id, true) == 0 == Cast(es, id, false))
  {}

  lemma StepOnProposal(g: Governance, ledger: nat, op: Op, id: nat)
    requires id in g.proposals <==> id < g.count
    ensures var t, es := Step(g, ledger, op), Emit(g, ledger, op);
      && g.count <= t.count && (id in t.proposals <==> id < t.count)
      && (id in g.proposals ==>
           && t.proposals[id].votesFor == g.proposals[id].votesFor + Cast(es, id, true)
           && t.proposals[id].votesAgainst == g.proposals[id].votesAgainst + Cast(es, id, false)
           && (t.proposals[id].executed <==> g.proposals[id].executed || Wrote(es, id))
           && (Wrote(es, id) ==> !g.proposals[id].executed))
      && (id !in g.proposals ==>
           && (id in t.proposals ==> t.proposals[id].votesFor == 0 == t.proposals[id].votesAgainst && !t.proposals[id].executed)
           && !Wrote(es, id) && Cast(es, id, true) == 0 == Cast(es, id, false))
  {
    hide QuorumMet;
    if op.OpVote? { VoteOnProposal(g, ledger, op, id); }
  }

  lemma StepOnParams(g: Governance, ledger: nat, op: Op)
    ensures var t, es := Step(g, ledger, op), Emit(g, ledger, op);
      |es| <= 1 && t.params == if es != [] && es[0].Executed? then g.params[es[0].key := es[0].value] else g.params
  {
    hide Passes;
  }

  lemma AppendedStep(trace: seq<Event>, es: seq<Event>, id: nat, params: map<string, string>)
    requires |es| <= 1
    ensures Tally(trace + es, id, true) == Tally(trace, id, true) + Cast(es, id, true)
    ensures Tally(trace + es, id, false) == Tally(trace, id, false) + Cast(es, id, false)
    ensures Writes(trace + es, id) == Writes(trace, id) + if Wrote(es, id) then 1 else 0
    ensures Replay(params, trace + es) ==
      if es != [] && es[0].Executed? then Replay(params, trace)[es[0].key := es[0].value] else Replay(params, trace)
  {
    if es == [] {
      assert trace + es == trace;
    } else {
      assert es == [es[0]];
      Appended(trace, es[0], id, params);
    }
  }

  lemma RecordedAtStep(g: Governance, trace: seq<Event>, params: map<string, string>, ledger: nat, op: Op, id: nat)
    requires Recorded(g, trace, params)
    ensures RecordedAt(Step(g, ledger, op), trace + Emit(g, ledger, op), id)
  {
    assert RecordedAt(g, trace, id);
    StepOnProposal(g, ledger, op, id);
    StepOnParams(g, ledger, op);
    AppendedStep(trace, Emit(g, ledger, op), id, params);
    hide Step, Emit, Tally, Writes, Replay, Recorded;
  }

  lemma RecordedStep(g: Governance, trace: seq<Event>, params: map<string, string>, ledger: nat, op: Op)
    requires Recorded(g, trace, params)
    ensures Recorded(Step(g, ledger, op), trace + Emit(g, ledger, op), params)
  {
    StepOnParams(g, ledger, op);
    AppendedStep(trace, Emit(g, ledger, op), 0, params);
    forall id: nat ensures RecordedAt(Step(g, ledger, op), trace + Emit(g, ledger, op), id) {
      RecordedAtStep(g, trace, params, ledger, op, id);
    }
    hide Step, Emit, Tally, Writes, Replay, RecordedAt;
  }

  lemma StepOnVotes(g: Governance, ledger: nat, op: Op)
    ensures var t, es := Step(g, ledger, op), Emit(g, ledger, op);
      |es| <= 1
      && if es != [] && es[0].Voted?
         then t.voted == g.voted + {(es[0].id, es[0].voter)} && (es[0].id, es[0].voter) !in g.voted && es[0].weight > 0
         else t.voted == g.voted
  {
    hide Passes;
  }

  lemma VotedInAppended(trace: seq<Event>, es: seq<Event>, id: nat, voter: Address)
    requires |es| <= 1
    ensures VotedIn(trace + es, id, voter) <==>
      VotedIn(trace, id, voter) || (es != [] && es[0].Voted? && es[0].id == id && es[0].voter == voter)
  {
    var now := trace + es;
    if VotedIn(trace, id, voter) {
      var i :| 0 <= i < |trace| && trace[i].Voted? && trace[i].id == id && trace[i].voter == voter;
      assert now[i] == trace[i];
    }
    if es != [] { assert now[|trace|] == es[0]; }
  }

  lemma BallotsStep(g: Governance, trace: seq<Event>, ledger: nat, op: Op)
    requires Ballots(g, trace)
    ensures Ballots(Step(g, ledger, op), trace + Emit(g, ledger, op))
  {
    var es, t := Emit(g, ledger, op), Step(g, ledger, op);
    StepOnVotes(g, ledger, op);
    hide Step, Emit;
    forall id: nat, voter ensures (id, voter) in t.voted <==> VotedIn(trace + es, id, voter) {
      VotedInAppended(trace, es, id, voter);
      hide VotedIn;
    }
    forall i, j | 0 <= i < j < |trace + es| && (trace + es)[i].Voted? && (trace + es)[j].Voted?
      ensures (trace + es)[i].id != (trace + es)[j].id || (trace + es)[i].voter != (trace + es)[j].voter
    {
      assert (trace + es)[i] == trace[i];
      if j == |trace| { assert VotedIn(trace, trace[i].id, trace[i].voter); }
    }
    hide VotedIn;
  }

  /** From deployment on, in every run: each proposal's tallies are the sums of the published votes, no voter counts
      twice on a proposal, each proposal writes its parameter at most once over both execution paths, and the stored
      parameters are exactly the published writes in order. */
  lemma {:induction false} RecordOverRuns(g: Governance, trace: seq<Event>, params: map<string, string>, ops: seq<(nat, Op)>)
    requires Recorded(g, trace, params) && Ballots(g, trace)
    ensures Recorded(Run(g, ops), trace + Trace(g, ops), params) && Ballots(Run(g, ops), trace + Trace(g, ops))
    decreases |ops|
  {
    if ops == [] {
      assert trace + Trace(g, ops) == trace;
    } else {
      var t, es := Step(g, ops[0].0, ops[0].1), Emit(g, ops[0].0, ops[0].1);
      var rest := Trace(t, ops[1..]);
      assert Trace(g, ops) == es + rest && Run(g, ops) == Run(t, ops[1..]);
      RecordedStep(g, trace, params, ops[0].0, ops[0].1);
      BallotsStep(g, trace, ops[0].0, ops[0].1);
      RecordOverRuns(t, trace + es, params, ops[1..]);
      ConcatAssociates(trace, es, rest);
      hide Step, Emit, Recorded, Ballots, Trace, Run;
    }
  }

  lemma InitialRecorded(admin: Address, votingPeriod: nat, quorumBps: nat, sxlm: map<Address, int>)
    ensures var g := Initial(admin, votingPeriod, quorumBps, sxlm);
      Recorded(g, [], map[]) && Ballots(g, []) && Lawful(g, 0)
  {}

  /** Across a whole run from deployment no proposal is written twice. */
  lemma AtMostOneWrite(admin: Address, votingPeriod: nat, quorumBps: nat, sxlm: map<Address, int>, ops: seq<(nat, Op)>, id: nat)
    ensures Writes(Trace(Initial(admin, votingPeriod, quorumBps, sxlm), ops), id) <= 1
  {
    var g := Initial(admin, votingPeriod, quorumBps, sxlm);
    InitialRecorded(admin, votingPeriod, quorumBps, sxlm);
    RecordOverRuns(g, [], map[], ops);
    assert [] + Trace(g, ops) == Trace(g, ops);
    assert RecordedAt(Run(g, ops), Trace(g, ops), id);
    hide Run, Trace, Tally, Writes, Replay, Ballots;
  }

  // ---------- the close of voting ----------

  predicate SameVotes(p: Proposal, q: Proposal) {
    p.votesFor == q.votesFor && p.votesAgainst == q.votesAgainst && p.end == q.end && p.key == q.key && p.value == q.value
  }

  lemma FrozenStep(g: Governance, ledger: nat, op: Op, id: nat)
    requires id in g.proposals && g.proposals[id].end < ledger && id < g.count
    ensures var t := Step(g, ledger, op);
      id in t.proposals && id < t.count && SameVotes(g.proposals[id], t.proposals[id])
      && (g.proposals[id].executed ==> t.proposals[id].executed)
  {
    hide QuorumMet;
  }

  /** Once the ledger has passed the end of a proposal's voting period its tallies never change again. */
  lemma {:induction false} FrozenOverRuns(g: Governance, now: nat, ops: seq<(nat, Op)>, id: nat)
    requires id in g.proposals && g.proposals[id].end < now && id < g.count && Timed(now, ops)
    ensures id in Run(g, ops).proposals && SameVotes(g.proposals[id], Run(g, ops).proposals[id])
    decreases |ops|
  {
    if ops != [] {
      FrozenStep(g, ops[0].0, ops[0].1, id);
      hide Step;
      FrozenOverRuns(Step(g, ops[0].0, ops[0].1), ops[0].0, ops[1..], id);
    }
  }

  // ---------- the timelock ----------

  /** Every timelock entry belongs to a queued proposal that is closed and passed, and carries its parameter. */
  ghost predicate LawfulAt(g: Governance, now: nat, id: nat) {
    && (id in g.proposals ==>
         id < g.count && (g.proposals[id].queued <==> id in g.entries) && 0 <= g.proposals[id].votesAgainst)
    && (id in g.entries ==>
         && id in g.proposals
         && var e, p := g.entries[id], g.proposals[id];
         && e.id == id && e.key == p.key && e.value == p.value
         && p.end < now && p.end < e.eta
         && p.votesFor > p.votesAgainst)
  }

  ghost predicate Lawful(g: Governance, now: nat) {
    forall id: nat :: LawfulAt(g, now, id)
  }

  lemma QueueLawful(g: Governance, now: nat, ledger: nat, queued: nat, id: nat)
    requires LawfulAt(g, now, id) && now <= ledger
    ensures LawfulAt(Step(g, ledger, OpQueue(queued)), ledger, id)
  {
    hide QuorumMet;
  }

  lemma BallotLawful(g: Governance, now: nat, ledger: nat, op: Op, id: nat)
    requires LawfulAt(g, now, id) && LawfulAt(g, now, g.count) && now <= ledger && (op.OpCreate? || op.OpVote?)
    ensures LawfulAt(Step(g, ledger, op), ledger, id)
  {}

  lemma LawfulAtStep(g: Governance, now: nat, ledger: nat, op: Op, id: nat)
    requires LawfulAt(g, now, id) && LawfulAt(g, now, g.count) && now <= ledger
    ensures LawfulAt(Step(g, ledger, op), ledger, id)
  {
    hide QuorumMet;
    if op.OpQueue? {
      QueueLawful(g, now, ledger, op.id, id);
    } else if op.OpCreate? || op.OpVote? {
      BallotLawful(g, now, ledger, op, id);
    }
  }

  lemma LawfulStep(g: Governance, now: nat, ledger: nat, op: Op)
    requires Lawful(g, now) && now <= ledger
    ensures Lawful(Step(g, ledger, op), ledger)
  {
    forall id: nat ensures LawfulAt(Step(g, ledger, op), ledger, id) {
      LawfulAtStep(g, now, ledger, op, id);
    }
    hide Step;
  }

  /** An entry, once made, keeps all its fields, except that it may be cancelled for good. */
  lemma EntryStep(g: Governance, now: nat, ledger: nat, op: Op, id: nat)
    requires LawfulAt(g, now, id) && id in g.entries
    ensures var t := Step(g, ledger, op);
      && id in t.entries
      && t.entries[id].(cancelled := g.entries[id].cancelled) == g.entries[id]
      && (g.entries[id].cancelled ==> t.entries[id].cancelled)
  {
    hide QuorumMet;
  }

  /** Timelocked writes in a run only come from entries that were not cancelled when they ran. */
  predicate TimelockedWrite(trace: seq<Event>, id: nat) {
    exists i :: 0 <= i < |trace| && trace[i].Executed? && trace[i].id == id && trace[i].timelocked
  }

  lemma CancelledNotExecuted(g: Governance, ledger: nat, op: Op, id: nat)
    requires id in g.entries && g.entries[id].cancelled
    ensures !TimelockedWrite(Emit(g, ledger, op), id)
  {
    hide QuorumMet;
  }

  lemma NoWriteInTail(a: seq<Event>, b: seq<Event>, id: nat)
    requires !TimelockedWrite(a, id) && !TimelockedWrite(b, id)
    ensures !TimelockedWrite(a + b, id)
  {}

  /** Entries survive every run unchanged up to cancellation, so a proposal gets at most one; and once cancelled,
      no later timelocked execution of it ever goes through. */
  lemma {:induction false} EntriesOverRuns(g: Governance, now: nat, ops: seq<(nat, Op)>, id: nat)
    requires Lawful(g, now) && Timed(now, ops) && id in g.entries
    ensures var z := Run(g, ops);
      && id in z.entries
      && z.entries[id].(cancelled := g.entries[id].cancelled) == g.entries[id]
      && (g.entries[id].cancelled ==> z.entries[id].cancelled && !TimelockedWrite(Trace(g, ops), id))
    decreases |ops|
  {
    if ops != [] {
      var t := Step(g, ops[0].0, ops[0].1);
      LawfulStep(g, now, ops[0].0, ops[0].1);
      assert LawfulAt(g, now, id);
      EntryStep(g, now, ops[0].0, ops[0].1, id);
      if g.entries[id].cancelled { CancelledNotExecuted(g, ops[0].0, ops[0].1, id); }
      hide Step, Emit, Lawful, TimelockedWrite;
      EntriesOverRuns(t, ops[0].0, ops[1..], id);
      if g.entries[id].cancelled { NoWriteInTail(Emit(g, ops[0].0, ops[0].1), Trace(t, ops[1..]), id); }
    }
  }

  lemma {:induction false} LawfulOverRuns(g: Governance, now: nat, ops: seq<(nat, Op)>)
    requires Lawful(g, now) && Timed(now, ops)
    ensures Lawful(Run(g, ops), Last(now, ops))
    decreases |ops|
  {
    if ops != [] {
      LawfulStep(g, now, ops[0].0, ops[0].1);
      hide Step, Lawful;
      LawfulOverRuns(Step(g, ops[0].0, ops[0].1), ops[0].0, ops[1..]);
    }
  }

  /** After any run from deployment, a timelocked execution goes through only for an uncancelled entry of a proposal with
      more votes for than against, not before its eta, which lies after the end of voting; and it writes exactly
      what was voted on. */
  lemma TimelockedWriteIsLawful(admin: Address, votingPeriod: nat, quorumBps: nat, sxlm: map<Address, int>,
                                ops: seq<(nat, Op)>, ledger: nat, id: nat)
    requires Timed(0, ops) && Last(0, ops) <= ledger
    ensures var g := Run(Initial(admin, votingPeriod, quorumBps, sxlm), ops);
      ExecuteQueued(g, ledger, id).Some? ==>
        && id in g.proposals && id in g.entries
        && var p, e := g.proposals[id], g.entries[id];
        && !e.cancelled && !p.executed
        && p.votesFor > p.votesAgainst
        && p.end < e.eta <= ledger
        && ExecuteQueued(g, ledger, id).value.0.params == g.params[p.key := p.value]
  {
    InitialRecorded(admin, votingPeriod, quorumBps, sxlm);
    LawfulOverRuns(Initial(admin, votingPeriod, quorumBps, sxlm), 0, ops);
    assert LawfulAt(Run(Initial(admin, votingPeriod, quorumBps, sxlm), ops), Last(0, ops), id);
    hide Run;
  }

  // ---------- two limits of the protections ----------

  /** A cancellation binds only the timelock path: the admin can still write a cancelled proposal,
      exactly as long as it is not executed and meets the quorum of the moment. */
  lemma CancelDoesNotBindAdmin(g: Governance, now: nat, ledger: nat, id: nat)
    requires LawfulAt(g, now, id) && now <= ledger && id in g.entries && g.entries[id].cancelled
    ensures ExecuteQueued(g, ledger, id) == None
    ensures var p := g.proposals[id];
      ExecuteDirect(g, ledger, g.admin, id).Some? <==> !p.executed && QuorumMet(g, p.votesFor + p.votesAgainst)
  {
    hide QuorumMet;
  }

  /** The documented reading, "guardian or admin", holds of a cancellable entry if and only if no guardian other than the
      admin is set: with one, the admin cannot cancel. */
  lemma GuardianOrAdmin(g: Governance, id: nat)
    requires id in g.entries && !g.entries[id].cancelled && id in g.proposals && !g.proposals[id].executed
    ensures (forall actor :: Cancel(g, actor, id).Some? <==> actor == g.admin || g.guardian == Some(actor))
       <==> g.guardian == None || g.guardian == Some(g.admin)
    ensures g.guardian.Some? && g.guardian.value != g.admin ==>
      Cancel(g, g.admin, id) == None && Cancel(g, g.guardian.value, id).Some?
  {
    assert Cancel(g, g.admin, id).Some? <==> g.admin == Canceller(g);
  }

  /** What the voters of a proposal hold. */
  function Turnout(g: Governance, id: nat): map<Address, int> {
    map u | u in g.sxlm :: if (id, u) in g.voted then g.sxlm[u] else 0
  }

  /** Proposals are numbered without gaps, and only their votes are marked. */
  ghost predicate Marked(g: Governance) {
    && (forall id: nat :: id in g.proposals <==> id < g.count)
    && (forall id: nat, u :: (id, u) in g.voted ==> id < g.count)
  }

  function Votes(g: Governance, id: nat): int {
    if id in g.proposals then g.proposals[id].votesFor + g.proposals[id].votesAgainst else 0
  }

  /** Votes counted beyond what the voters of the proposal hold now. */
  ghost function Excess(g: Governance, id: nat): int {
    Votes(g, id) - Sum(Turnout(g, id))
  }

  /** Tokens that leave an account after it voted on the proposal; negative for tokens it receives. */
  function Moved(g: Governance, op: Op, id: nat): int {
    if op.OpToken? && (id, op.user) in g.voted then Get(g.sxlm, op.user) - op.balance else 0
  }

  function TotalMoved(g: Governance, ops: seq<(nat, Op)>, id: nat): int
    decreases |ops|
  {
    if ops == [] then 0 else Moved(g, ops[0].1, id) + TotalMoved(Step(g, ops[0].0, ops[0].1), ops[1..], id)
  }

  lemma MarkedStep(g: Governance, ledger: nat, op: Op)
    requires Marked(g)
    ensures Marked(Step(g, ledger, op))
    ensures !op.OpToken? ==> Step(g, ledger, op).sxlm == g.sxlm
  {
    hide Passes;
  }

  lemma VoteOnTurnout(g: Governance, ledger: nat, op: Op)
    requires op.OpVote? && Vote(g, ledger, op.voter, op.id, op.support).Some?
    ensures op.voter in g.sxlm && g.sxlm[op.voter] == Vote(g, ledger, op.voter, op.id, op.support).value.1
    ensures (op.id, op.voter) !in g.voted
    ensures Turnout(Step(g, ledger, op), op.id) == Turnout(g, op.id)[op.voter := g.sxlm[op.voter]]
  {}

  lemma TokenOnTurnout(g: Governance, ledger: nat, op: Op, id: nat)
    requires op.OpToken?
    ensures Sum(Turnout(Step(g, ledger, op), id)) == Sum(Turnout(g, id)) - Moved(g, op, id)
  {
    var v := if (id, op.user) in g.voted then op.balance else 0;
    assert Turnout(Step(g, ledger, op), id) == Turnout(g, id)[op.user := v];
    SumUpdate(Turnout(g, id), op.user, v);
  }

  lemma OtherTurnout(g: Governance, ledger: nat, op: Op, id: nat)
    requires !op.OpToken?
    requires op.OpVote? && op.id == id ==> Vote(g, ledger, op.voter, op.id, op.support) == None
    ensures Turnout(Step(g, ledger, op), id) == Turnout(g, id)
  {
    hide Passes;
  }

  lemma VotesStep(g: Governance, ledger: nat, op: Op, id: nat)
    requires Marked(g)
    ensures Votes(Step(g, ledger, op), id) == Votes(g, id) + Cast(Emit(g, ledger, op), id, true) + Cast(Emit(g, ledger, op), id, false)
  {
    StepOnProposal(g, ledger, op, id);
    hide Step, Emit, Cast;
  }

  /** Every step changes the excess by exactly the tokens that leave accounts which have voted. */
  lemma ExcessStep(g: Governance, ledger: nat, op: Op, id: nat)
    requires Marked(g)
    ensures Excess(Step(g, ledger, op), id) == Excess(g, id) + Moved(g, op, id)
  {
    VotesStep(g, ledger, op, id);
    if op.OpVote? && Vote(g, ledger, op.voter, op.id, op.support).Some? && op.id == id {
      VoteOnTurnout(g, ledger, op);
      SumUpdate(Turnout(g, id), op.voter, g.sxlm[op.voter]);
    } else if op.OpToken? {
      TokenOnTurnout(g, ledger, op, id);
    } else {
      OtherTurnout(g, ledger, op, id);
    }
    hide Turnout, Vote, Votes, Step;
  }

  /** While votes are the voters' balances, a transfer keeps it so if and only if it leaves the balances of voters alone. */
  lemma TokenKeepsTurnout(g: Governance, ledger: nat, user: Address, balance: nat, id: nat)
    requires Marked(g) && Votes(g, id) == Sum(Turnout(g, id))
    ensures var t := Step(g, ledger, OpToken(user, balance));
      Votes(t, id) == Sum(Turnout(t, id)) <==> (id, user) !in g.voted || balance == Get(g.sxlm, user)
  {
    ExcessStep(g, ledger, OpToken(user, balance), id);
    hide Step, Votes, Turnout;
  }

  lemma {:induction false} ExcessOverRuns(g: Governance, ops: seq<(nat, Op)>, id: nat)
    requires Marked(g)
    ensures Marked(Run(g, ops)) && Excess(Run(g, ops), id) == Excess(g, id) + TotalMoved(g, ops, id)
    decreases |ops|
  {
    if ops != [] {
      MarkedStep(g, ops[0].0, ops[0].1);
      ExcessStep(g, ops[0].0, ops[0].1, id);
      hide Step, Marked, Excess, Moved;
      ExcessOverRuns(Step(g, ops[0].0, ops[0].1), ops[1..], id);
    }
  }

  lemma {:induction false} BalancesNonneg(g: Governance, ops: seq<(nat, Op)>)
    requires forall u :: u in g.sxlm ==> 0 <= g.sxlm[u]
    ensures forall u :: u in Run(g, ops).sxlm ==> 0 <= Run(g, ops).sxlm[u]
    decreases |ops|
  {
    if ops != [] {
      TokenBalances(g, ops[0].0, ops[0].1);
      hide Step;
      BalancesNonneg(Step(g, ops[0].0, ops[0].1), ops[1..]);
    }
  }

  lemma TokenBalances(g: Governance, ledger: nat, op: Op)
    requires forall u :: u in g.sxlm ==> 0 <= g.sxlm[u]
    ensures forall u :: u in Step(g, ledger, op).sxlm ==> 0 <= Step(g, ledger, op).sxlm[u]
  {
    hide Passes;
  }

  /** From deployment on, over every run and for every proposal: the votes are the voters' present balances plus whatever left
      their accounts after they voted. So they are the voters' balances if and only if that is nothing on balance, and exceed the
      token supply if and only if it is more than the non-voters hold. */
  lemma TurnoutOverRuns(admin: Address, votingPeriod: nat, quorumBps: nat, sxlm: map<Address, int>, ops: seq<(nat, Op)>, id: nat)
    requires forall u :: u in sxlm ==> 0 <= sxlm[u]
    ensures var g := Initial(admin, votingPeriod, quorumBps, sxlm); var z := Run(g, ops); var moved := TotalMoved(g, ops, id);
      && Votes(z, id) == Sum(Turnout(z, id)) + moved
      && (Votes(z, id) == Sum(Turnout(z, id)) <==> moved == 0)
      && (Votes(z, id) > Sum(z.sxlm) <==> moved > Sum(z.sxlm) - Sum(Turnout(z, id)))
      && Sum(Turnout(z, id)) <= Sum(z.sxlm)
  {
    var g := Initial(admin, votingPeriod, quorumBps, sxlm);
    AllZero(Turnout(g, id));
    ExcessOverRuns(g, ops, id);
    BalancesNonneg(g, ops);
    hide Run, TotalMoved, Votes;
    var z := Run(g, ops);
    SumLinear(Turnout(z, id), z.sxlm, 0, z.sxlm);
    hide Turnout;
  }

  lemma TwoBalances(alice: Address, bob: Address, x: int, y: int)
    requires alice != bob
    ensures Sum(map[alice := x, bob := y]) == x + y
  {
    var none: map<Address, int> := map[];
    SumUpdate(none, alice, x);
    SumUpdate(none[alice := x], bob, y);
    assert map[alice := x, bob := y] == none[alice := x][bob := y];
  }

  /** A proposal open until ledger 100, the voters so far, the votes for it, and the balances of two holders. */
  function Ballot(alice: Address, bob: Address, voted: set<(nat, Address)>, votes: int, x: int, y: int): Governance {
    Governance(alice, None, 100, 1000, DEFAULT_TIMELOCK_DELAY, 0, 1,
               map[0 := Proposal(0, alice, "cf", "7000", votes, 0, 0, 100, false, false)], voted, map[], map[],
               map[alice := x, bob := y])
  }

  /** Deployment, with just enough tokens for a proposal. */
  function Founded(alice: Address, bob: Address): Governance {
    Initial(alice, 100, 1000, map[alice := MIN_PROPOSAL_BALANCE, bob := 0])
  }

  /** Alice proposes, keeps x tokens, votes, and hands them to Bob, who votes too. */
  function TwoVotes(alice: Address, bob: Address, x: nat): seq<(nat, Op)> {
    [(0, OpCreate(alice, "cf", "7000")), (0, OpToken(alice, x)),
     (1, OpVote(alice, 0, true)), (2, OpToken(alice, 0)), (2, OpToken(bob, x)), (3, OpVote(bob, 0, true))]
  }

  /** Weights are read at the time of the vote, so the same tokens can vote twice: from deployment, x tokens cast 2x votes. */
  lemma SameTokensVoteTwice(alice: Address, bob: Address, x: nat)
    requires alice != bob && x > 0
    ensures var z := Run(Founded(alice, bob), TwoVotes(alice, bob, x));
      && z == Ballot(alice, bob, {(0, alice), (0, bob)}, 2 * x, 0, x)
      && Votes(z, 0) == 2 * x && Sum(z.sxlm) == x
  {
    var ops := TwoVotes(alice, bob, x);
    var one, two: set<(nat, Address)> := {(0, alice)}, {(0, alice), (0, bob)};
    TwoBalances(alice, bob, 0, x);
    Opening(alice, bob, x);
    FirstVote(alice, bob, x);
    TokensMove(alice, bob, x);
    SecondVote(alice, bob, x);
    hide Step, Sum, Founded;
    var s := [Founded(alice, bob), Ballot(alice, bob, {}, 0, MIN_PROPOSAL_BALANCE, 0), Ballot(alice, bob, {}, 0, x, 0),
              Ballot(alice, bob, one, x, x, 0), Ballot(alice, bob, one, x, 0, 0), Ballot(alice, bob, one, x, 0, x),
              Ballot(alice, bob, two, 2 * x, 0, x)];
    Chain(s, ops);
  }

  /** A run through given states. */
  lemma {:induction false} Chain(s: seq<Governance>, ops: seq<(nat, Op)>)
    requires |s| == |ops| + 1
    requires forall i :: 0 <= i < |ops| ==> Step(s[i], ops[i].0, ops[i].1) == s[i + 1]
    ensures Run(s[0], ops) == s[|ops|]
    decreases |ops|
  {
    hide Step;
    if ops != [] { Chain(s[1..], ops[1..]); }
  }

  lemma Opening(alice: Address, bob: Address, x: nat)
    requires alice != bob
    ensures Step(Founded(alice, bob), 0, OpCreate(alice, "cf", "7000")) == Ballot(alice, bob, {}, 0, MIN_PROPOSAL_BALANCE, 0)
    ensures Step(Ballot(alice, bob, {}, 0, MIN_PROPOSAL_BALANCE, 0), 0, OpToken(alice, x)) == Ballot(alice, bob, {}, 0, x, 0)
  {}

  lemma FirstVote(alice: Address, bob: Address, x: nat)
    requires alice != bob && x > 0
    ensures Step(Ballot(alice, bob, {}, 0, x, 0), 1, OpVote(alice, 0, true)) == Ballot(alice, bob, {(0, alice)}, x, x, 0)
  {}

  lemma TokensMove(alice: Address, bob: Address, x: nat)
    requires alice != bob && x > 0
    ensures Step(Ballot(alice, bob, {(0, alice)}, x, x, 0), 2, OpToken(alice, 0)) == Ballot(alice, bob, {(0, alice)}, x, 0, 0)
    ensures Step(Ballot(alice, bob, {(0, alice)}, x, 0, 0), 2, OpToken(bob, x)) == Ballot(alice, bob, {(0, alice)}, x, 0, x)
  {}

  lemma SecondVote(alice: Address, bob: Address, x: nat)
    requires alice != bob && x > 0
    ensures Step(Ballot(alice, bob, {(0, alice)}, x, 0, x), 3, OpVote(bob, 0, true))
         == Ballot(alice, bob, {(0, alice), (0, bob)}, 2 * x, 0, x)
  {
    assert {(0, alice)} + {(0, bob)} == {(0, alice), (0, bob)};
  }

}
