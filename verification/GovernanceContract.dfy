/** The governance contract in its own form: one key-value store written key by key.
    A call that panics returns `Panicked`; `Transact` then discards its writes, as the host does. */
module GovernanceContractModel {
  import opened Base
  import opened Arith
  import opened Spec = GovernanceSpec

  class GovernanceContract {
    var store: Governance

    constructor (admin: Address, votingPeriod: nat, quorumBps: nat, sxlm: map<Address, int>)
      ensures store == Initial(admin, votingPeriod, quorumBps, sxlm)
    {
      store := Governance(admin, None, votingPeriod, quorumBps, DEFAULT_TIMELOCK_DELAY, 0, 0, map[], {}, map[], map[], sxlm);
    }

    method SetReferenceSupply(actor: Address, supply: int) returns (r: Outcome<()>)
      modifies this
      ensures Did(Spec.SetReference(old(store), actor, supply), store, r)
    {
      if actor != store.admin || !(supply >= 0) {
        return Panicked;
      }
      store := store.(reference := supply);
      r := Returned(());
    }

    method SetTimelockDelay(actor: Address, delay: nat) returns (r: Outcome<()>)
      modifies this
      ensures Did(Spec.SetDelay(old(store), actor, delay), store, r)
    {
      if actor != store.admin || !(delay <= MAX_TIMELOCK_DELAY) {
        return Panicked;
      }
      store := store.(delay := delay);
      r := Returned(());
    }

    method NameGuardian(actor: Address, guardian: Address) returns (r: Outcome<()>)
      modifies this
      ensures Did(Spec.SetGuardian(old(store), actor, guardian), store, r)
    {
      if actor != store.admin {
        return Panicked;
      }
      store := store.(guardian := Some(guardian));
      r := Returned(());
    }

    method CreateProposal(ledger: nat, proposer: Address, key: string, value: string) returns (r: Outcome<nat>)
      modifies this
      ensures Did(Spec.Create(old(store), ledger, proposer, key, value), store, r)
    {
      var balance := Get(store.sxlm, proposer);
      if !(balance >= MIN_PROPOSAL_BALANCE) {
        return Panicked;
      }
      var id := store.count;
      store := store.(count := id + 1);
      var proposal := Proposal(id, proposer, key, value, 0, 0, ledger, ledger + store.votingPeriod, false, false);
      store := store.(proposals := store.proposals[id := proposal]);
      r := Returned(id);
    }

    method CastVote(ledger: nat, voter: Address, id: nat, support: bool) returns (r: Outcome<int>)
      modifies this
      ensures Did(Spec.Vote(old(store), ledger, voter, id, support), store, r)
    {
      if id !in store.proposals {
        return Panicked;
      }
      var proposal := store.proposals[id];
      if !(ledger <= proposal.end) || (id, voter) in store.voted {
        return Panicked;
      }
      var weight := Get(store.sxlm, voter);
      if !(weight > 0) {
        return Panicked;
      }
      if support {
        proposal := proposal.(votesFor := proposal.votesFor + weight);
      } else {
        proposal := proposal.(votesAgainst := proposal.votesAgainst + weight);
      }
      store := store.(voted := store.voted + {(id, voter)});
      store := store.(proposals := store.proposals[id := proposal]);
      r := Returned(weight);
    }

    /** The checks both execution paths share; false when one of them panics. */
    method HasPassed(proposal: Proposal, ledger: nat) returns (ok: bool)
      ensures ok == Passes(store, proposal, ledger)
    {
      hide TDiv;
      if !(ledger > proposal.end) {
        return false;
      }
      var votes := proposal.votesFor + proposal.votesAgainst;
      if !(votes > 0) {
        return false;
      }
      if store.reference > 0 {
        var required := TDiv(store.reference * store.quorumBps, BPS);
        if !(votes >= required) {
          return false;
        }
      }
      ok := proposal.votesFor > proposal.votesAgainst;
    }

    method QueueProposal(ledger: nat, id: nat) returns (r: Outcome<nat>)
      modifies this
      ensures Did(Spec.Queue(old(store), ledger, id), store, r)
    {
      hide Passes;
      if id !in store.proposals {
        return Panicked;
      }
      var proposal := store.proposals[id];
      if proposal.executed || proposal.queued {
        return Panicked;
      }
      var passed := HasPassed(proposal, ledger);
      if !passed {
        return Panicked;
      }
      var eta := ledger + store.delay;
      store := store.(entries := store.entries[id := Entry(id, proposal.key, proposal.value, eta, false)]);
      proposal := proposal.(queued := true);
      store := store.(proposals := store.proposals[id := proposal]);
      r := Returned(eta);
    }

    method CancelProposal(actor: Address, id: nat) returns (r: Outcome<()>)
      modifies this
      ensures Did(Spec.Cancel(old(store), actor, id), store, r)
    {
      var byGuardian := false;
      if store.guardian.Some? {
        if actor != store.guardian.value {
          return Panicked;
        }
        byGuardian := true;
      }
      if !byGuardian && actor != store.admin {
        return Panicked;
      }
      if id !in store.entries {
        return Panicked;
      }
      var entry := store.entries[id];
      if entry.cancelled || id !in store.proposals || store.proposals[id].executed {
        return Panicked;
      }
      entry := entry.(cancelled := true);
      store := store.(entries := store.entries[id := entry]);
      r := Returned(());
    }

    method ExecuteTimelocked(ledger: nat, id: nat) returns (r: Outcome<(string, string)>)
      modifies this
      ensures Did(Spec.ExecuteQueued(old(store), ledger, id), store, r)
    {
      if id !in store.entries {
        return Panicked;
      }
      var entry := store.entries[id];
      if entry.cancelled || !(ledger >= entry.eta) || id !in store.proposals {
        return Panicked;
      }
      var proposal := store.proposals[id];
      if proposal.executed {
        return Panicked;
      }
      store := store.(params := store.params[entry.key := entry.value]);
      proposal := proposal.(executed := true);
      store := store.(proposals := store.proposals[id := proposal]);
      r := Returned((entry.key, entry.value));
    }

    method ExecuteProposal(ledger: nat, actor: Address, id: nat) returns (r: Outcome<(string, string)>)
      modifies this
      ensures Did(Spec.ExecuteDirect(old(store), ledger, actor, id), store, r)
    {
      hide Passes;
      if actor != store.admin || id !in store.proposals {
        return Panicked;
      }
      var proposal := store.proposals[id];
      if proposal.executed {
        return Panicked;
      }
      var passed := HasPassed(proposal, ledger);
      if !passed {
        return Panicked;
      }
      store := store.(params := store.params[proposal.key := proposal.value]);
      proposal := proposal.(executed := true);
      store := store.(proposals := store.proposals[id := proposal]);
      r := Returned((proposal.key, proposal.value));
    }

    /** One transaction: runs the call and discards its writes if it panicked. */
    method Transact(ledger: nat, op: Op) returns (ok: bool)
      modifies this
      ensures store == Step(old(store), ledger, op)
    {
      hide Spec.Create, Spec.Vote, Spec.Queue, Spec.Cancel, Spec.ExecuteQueued, Spec.ExecuteDirect;
      var before := store;
      ok := true;
      match op {
        case OpReference(actor, supply) =>
          var r := SetReferenceSupply(actor, supply);
          ok := r.Returned?;
        case OpDelay(actor, delay) =>
          var r := SetTimelockDelay(actor, delay);
          ok := r.Returned?;
        case OpGuardian(actor, guardian) =>
          var r := NameGuardian(actor, guardian);
          ok := r.Returned?;
        case OpCreate(proposer, key, value) =>
          var r := CreateProposal(ledger, proposer, key, value);
          ok := r.Returned?;
        case OpVote(voter, id, support) =>
          var r := CastVote(ledger, voter, id, support);
          ok := r.Returned?;
        case OpQueue(id) =>
          var r := QueueProposal(ledger, id);
          ok := r.Returned?;
        case OpCancel(actor, id) =>
          var r := CancelProposal(actor, id);
          ok := r.Returned?;
        case OpExecute(id) =>
          var r := ExecuteTimelocked(ledger, id);
          ok := r.Returned?;
        case OpDirect(actor, id) =>
          var r := ExecuteProposal(ledger, actor, id);
          ok := r.Returned?;
        case OpToken(user, balance) =>
          store := store.(sxlm := store.sxlm[user := balance]);
      }
      if !ok {
        store := before;
      }
    }
  }
}
