/** The vesting contract in its own form: one key-value store written key by key.
    A call that panics returns `Panicked`; `Transact` then discards its writes, as the host does. */
module VestingContractModel {
  import opened Base
  import opened Arith
  import opened Purses
  import opened Spec = VestingSpec

  class VestingContract {
    var store: Vesting

    constructor (admin: Address, tokens: map<Address, Purse>)
      ensures store == Initial(admin, tokens)
    {
      store := Vesting(admin, 0, map[], map[], tokens);
    }

    /** `transfer(from, contract, amount)` on the token's own contract; false when that call panics. */
    method Pull(token: Address, from: Address, amount: int) returns (ok: bool)
      modifies this
      ensures ok <==> Receive(old(store), token, from, amount).Some?
      ensures ok ==> store == Receive(old(store), token, from, amount).value
      ensures !ok ==> store == old(store)
    {
      var purse := PullIn(TokenPurse(store, token), from, amount);
      ok := purse.Some?;
      if ok { store := store.(tokens := store.tokens[token := purse.value]); }
    }

    method Push(token: Address, to: Address, amount: int) returns (ok: bool)
      modifies this
      ensures ok <==> Send(old(store), token, to, amount).Some?
      ensures ok ==> store == Send(old(store), token, to, amount).value
      ensures !ok ==> store == old(store)
    {
      var purse := PayOut(TokenPurse(store, token), to, amount);
      ok := purse.Some?;
      if ok { store := store.(tokens := store.tokens[token := purse.value]); }
    }

    method CreateSchedule(caller: Address, beneficiary: Address, token: Address, total: int,
                          start: nat, cliff: nat, end: nat, revocable: bool) returns (r: Outcome<nat>)
      modifies this
      ensures Did(Spec.Create(old(store), caller, beneficiary, token, total, start, cliff, end, revocable), store, r)
    {
      if total <= 0 || cliff < start || end <= cliff {
        return Panicked;
      }
      var paid := Pull(token, caller, total);
      if !paid {
        return Panicked;
      }
      var id := store.count;
      store := store.(count := id + 1);
      var schedule := Schedule(id, beneficiary, token, total, start, cliff, end, 0, revocable, false, 0);
      store := store.(schedules := store.schedules[id := schedule]);
      store := store.(owned := store.owned[beneficiary := Owned(store, beneficiary) + [id]]);
      r := Returned(id);
    }

    method ClaimVested(ledger: nat, beneficiary: Address, id: nat) returns (r: Outcome<int>)
      modifies this
      ensures Did(Spec.Claim(old(store), ledger, beneficiary, id), store, r)
    {
      if id !in store.schedules {
        return Panicked;
      }
      var schedule := store.schedules[id];
      if schedule.beneficiary != beneficiary {
        return Panicked;
      }
      var effective := if schedule.revoked then schedule.vestedAtRevoke else Vested(schedule, ledger);
      var claimable := effective - schedule.claimed;
      if claimable <= 0 {
        return Panicked;
      }
      schedule := schedule.(claimed := schedule.claimed + claimable);
      store := store.(schedules := store.schedules[id := schedule]);
      var sent := Push(schedule.token, beneficiary, claimable);
      if !sent {
        return Panicked;
      }
      r := Returned(claimable);
    }

    method RevokeSchedule(ledger: nat, actor: Address, id: nat) returns (r: Outcome<int>)
      modifies this
      ensures Did(Spec.Revoke(old(store), ledger, actor, id), store, r)
    {
      hide Vested;
      if actor != store.admin || id !in store.schedules {
        return Panicked;
      }
      var schedule := store.schedules[id];
      if !schedule.revocable || schedule.revoked {
        return Panicked;
      }
      var vestedNow := Vested(schedule, ledger);
      var unvested := schedule.total - vestedNow;
      schedule := schedule.(revoked := true);
      schedule := schedule.(vestedAtRevoke := vestedNow);
      store := store.(schedules := store.schedules[id := schedule]);
      if unvested > 0 {
        var sent := Push(schedule.token, actor, unvested);
        if !sent {
          return Panicked;
        }
        return Returned(unvested);
      }
      r := Returned(0);
    }

    method GetClaimable(ledger: nat, id: nat) returns (r: Option<int>)
      ensures r == Spec.Claimable(store, ledger, id)
    {
      if id !in store.schedules {
        return None;
      }
      var schedule := store.schedules[id];
      var effective := if schedule.revoked then schedule.vestedAtRevoke else Vested(schedule, ledger);
      var claimable := effective - schedule.claimed;
      r := if claimable < 0 then Some(0) else Some(claimable);
    }

    /** One transaction: runs the call and discards its writes if it panicked. */
    method Transact(ledger: nat, op: Op) returns (ok: bool)
      modifies this
      ensures store == Step(old(store), ledger, op)
    {
      hide Spec.Create, Spec.Claim, Spec.Revoke;
      var before := store;
      ok := true;
      match op {
        case OpCreate(caller, beneficiary, token, total, start, cliff, end, revocable) =>
          var r := CreateSchedule(caller, beneficiary, token, total, start, cliff, end, revocable);
          ok := r.Returned?;
        case OpClaim(beneficiary, id) =>
          var r := ClaimVested(ledger, beneficiary, id);
          ok := r.Returned?;
        case OpRevoke(actor, id) =>
          var r := RevokeSchedule(ledger, actor, id);
          ok := r.Returned?;
        case OpGift(token, from, amount) =>
          ok := Pull(token, from, amount);
      }
      if !ok {
        store := before;
      }
    }
  }
}
