/** The staking contract in its own form: one key-value store written key by key.
    A call that panics returns `Panicked`; `Transact` then discards its writes, as the host does. */
module StakingContractModel {
  import opened Base
  import opened Arith
  import opened Purses
  import opened Spec = StakingSpec

  class StakingContract {
    var store: Staking

    constructor (admin: Address, cooldown: nat, xlm: map<Address, int>)
      ensures store == Initial(admin, cooldown, xlm)
    {
      store := Staking(admin, 0, 0, 0, 0, cooldown, false, map[], 0, Purse(0, xlm), EMPTY);
    }

    /** True unless the integrity check panics. */
    method CheckIntegrity() returns (ok: bool)
      ensures ok == IntegrityOk(store)
    {
      var staked, supply := store.staked, store.supply;
      if supply == 0 || staked == 0 {
        return true;
      }
      var rate := TDiv(staked * RATE, supply);
      var intrinsic := TDiv(supply * rate, RATE);
      ok := !(store.xlm.held < intrinsic);
    }

    // ---------- deposits ----------

    method DepositXlm(user: Address, amount: int) returns (r: Outcome<int>)
      modifies this
      ensures Did(Spec.Deposit(old(store), user, amount), store, r)
    {
      if store.paused || amount <= 0 {
        return Panicked;
      }
      var paid := PullIn(store.xlm, user, amount);
      if paid.None? {
        return Panicked;
      }
      store := store.(xlm := paid.value);
      var staked, supply := store.staked, store.supply;
      if supply == 0 || staked == 0 {
        r := OpenPool(user, amount);
      } else {
        r := JoinPool(user, amount);
      }
      hide Spec.FirstDeposit, Spec.LaterDeposit, Intrinsic;
      if r.Panicked? {
        return Panicked;
      }
      var sound := CheckIntegrity();
      if !sound {
        return Panicked;
      }
    }

    method OpenPool(user: Address, amount: int) returns (r: Outcome<int>)
      requires amount > 0
      modifies this
      ensures Did(Spec.FirstDeposit(old(store), user, amount), store, r)
    {
      if amount < MINIMUM_INITIAL_DEPOSIT {
        return Panicked;
      }
      var deadShares := MINIMUM_INITIAL_DEPOSIT;
      var userShares := amount - deadShares;
      store := store.(sxlm := store.sxlm.(held := store.sxlm.held + deadShares));
      if userShares > 0 {
        store := store.(sxlm := MintTo(store.sxlm, user, userShares));
      }
      store := store.(staked := amount);
      store := store.(supply := amount);
      var target := TDiv(amount * TARGET_BUFFER_BPS, BPS);
      var current := store.buffer;
      var add := Min(Max(target - current, 0), amount);
      if add > 0 {
        store := store.(buffer := current + add);
      }
      r := Returned(userShares);
    }

    method JoinPool(user: Address, amount: int) returns (r: Outcome<int>)
      requires amount > 0 && store.staked != 0
      modifies this
      ensures Did(Spec.LaterDeposit(old(store), user, amount), store, r)
    {
      hide TDiv;
      var staked, supply := store.staked, store.supply;
      var minted := TDiv(amount * supply, staked);
      if minted <= 0 {
        return Panicked;
      }
      var newStaked := staked + amount;
      store := store.(staked := newStaked);
      store := store.(supply := supply + minted);
      store := store.(sxlm := MintTo(store.sxlm, user, minted));
      var target := TDiv(newStaked * TARGET_BUFFER_BPS, BPS);
      var current := store.buffer;
      if current < target {
        var deficit := target - current;
        store := store.(buffer := current + Min(deficit, amount));
      }
      r := Returned(minted);
    }

    // ---------- withdrawals ----------

    method RequestXlm(ledger: int, user: Address, amount: int) returns (r: Outcome<int>)
      modifies this
      ensures Did(Spec.RequestWithdrawal(old(store), ledger, user, amount), store, r)
    {
      hide Intrinsic, TDiv;
      if store.paused || amount <= 0 {
        return Panicked;
      }
      var staked, supply := store.staked, store.supply;
      if supply == 0 {
        return Panicked;
      }
      var toReturn := TDiv(amount * staked, supply);
      if toReturn <= 0 {
        return Panicked;
      }
      var burned := Burn(store.sxlm, user, amount);
      if burned.None? {
        return Panicked;
      }
      store := store.(sxlm := burned.value);
      store := store.(supply := supply - amount);
      var buffer := store.buffer;
      if buffer >= toReturn {
        store := store.(buffer := buffer - toReturn);
        store := store.(staked := staked - toReturn);
        var sent := PayOut(store.xlm, user, toReturn);
        if sent.None? {
          return Panicked;
        }
        store := store.(xlm := sent.value);
      } else {
        var unlock := ledger + store.cooldown;
        var id := store.counter;
        store := store.(counter := id + 1);
        store := store.(queue := store.queue[id := Request(user, toReturn, unlock, false)]);
      }
      var sound := CheckIntegrity();
      if !sound {
        return Panicked;
      }
      r := Returned(toReturn);
    }

    method ClaimXlm(ledger: int, user: Address, id: nat) returns (r: Outcome<int>)
      modifies this
      ensures Did(Spec.ClaimWithdrawal(old(store), ledger, user, id), store, r)
    {
      if store.paused || id !in store.queue {
        return Panicked;
      }
      var request := store.queue[id];
      if request.user != user || request.claimed || ledger < request.unlock {
        return Panicked;
      }
      store := store.(queue := store.queue[id := request.(claimed := true)]);
      var staked := store.staked;
      store := store.(staked := staked - request.amount);
      var sent := PayOut(store.xlm, user, request.amount);
      if sent.None? {
        return Panicked;
      }
      store := store.(xlm := sent.value);
      r := Returned(request.amount);
    }

    method InstantXlm(user: Address, amount: int) returns (r: Outcome<int>)
      modifies this
      ensures Did(Spec.InstantWithdraw(old(store), user, amount), store, r)
    {
      hide Intrinsic, TDiv;
      if store.paused || amount <= 0 {
        return Panicked;
      }
      var staked, supply := store.staked, store.supply;
      if supply == 0 {
        return Panicked;
      }
      var value := TDiv(amount * staked, supply);
      if value <= 0 {
        return Panicked;
      }
      var fee := TDiv(value * INSTANT_FEE_BPS, BPS);
      var payout := value - fee;
      if payout > store.xlm.held {
        return Panicked;
      }
      var burned := Burn(store.sxlm, user, amount);
      if burned.None? {
        return Panicked;
      }
      store := store.(sxlm := burned.value);
      store := store.(supply := supply - amount);
      store := store.(staked := staked - value);
      var buffer := store.buffer;
      store := store.(buffer := buffer - Min(payout, buffer));
      var sent := PayOut(store.xlm, user, payout);
      if sent.None? {
        return Panicked;
      }
      store := store.(xlm := sent.value);
      var sound := CheckIntegrity();
      if !sound {
        return Panicked;
      }
      r := Returned(payout);
    }

    // ---------- rewards, fees, slashing, pause ----------

    method BookRewards(actor: Address, amount: int) returns (r: Outcome<()>)
      modifies this
      ensures Did(Spec.AddRewards(old(store), actor, amount), store, r)
    {
      if actor != store.admin || amount <= 0 {
        return Panicked;
      }
      var fee := TDiv(amount * PROTOCOL_FEE_BPS, BPS);
      var netReward := amount - fee;
      store := store.(treasury := store.treasury + fee);
      store := store.(staked := store.staked + netReward);
      r := Returned(());
    }

    method TakeFees(actor: Address, amount: int) returns (r: Outcome<int>)
      modifies this
      ensures Did(Spec.WithdrawFees(old(store), actor, amount), store, r)
    {
      if actor != store.admin {
        return Panicked;
      }
      var treasury := store.treasury;
      var withdrawn := if amount <= 0 then treasury else amount;
      if withdrawn <= 0 || withdrawn > treasury {
        return Panicked;
      }
      var sent := PayOut(store.xlm, actor, withdrawn);
      if sent.None? {
        return Panicked;
      }
      store := store.(xlm := sent.value);
      store := store.(treasury := treasury - withdrawn);
      r := Returned(withdrawn);
    }

    method Slash(actor: Address, amount: int) returns (r: Outcome<()>)
      modifies this
      ensures Did(Spec.ApplySlashing(old(store), actor, amount), store, r)
    {
      if actor != store.admin || amount <= 0 || amount > store.staked {
        return Panicked;
      }
      store := store.(staked := store.staked - amount);
      r := Returned(());
    }

    method PauseOrUnpause(actor: Address, paused: bool) returns (r: Outcome<()>)
      modifies this
      ensures Did(Spec.SetPaused(old(store), actor, paused), store, r)
    {
      if actor != store.admin {
        return Panicked;
      }
      store := store.(paused := paused);
      r := Returned(());
    }

    method TripBreaker() returns (r: Outcome<()>)
      modifies this
      ensures Did(Spec.TriggerPause(old(store)), store, r)
    {
      var staked, supply := store.staked, store.supply;
      if supply == 0 || staked == 0 {
        return Panicked;
      }
      var rate := TDiv(staked * RATE, supply);
      var intrinsic := TDiv(supply * rate, RATE);
      if store.xlm.held < intrinsic {
        store := store.(paused := true);
        return Returned(());
      }
      r := Panicked;
    }

    method FillBuffer(actor: Address, amount: int) returns (r: Outcome<()>)
      modifies this
      ensures Did(Spec.AddLiquidity(old(store), actor, amount), store, r)
    {
      if actor != store.admin || amount <= 0 {
        return Panicked;
      }
      var paid := PullIn(store.xlm, actor, amount);
      if paid.None? {
        return Panicked;
      }
      store := store.(xlm := paid.value);
      store := store.(buffer := store.buffer + amount);
      r := Returned(());
    }

    method SetCooldownPeriod(actor: Address, cooldown: int) returns (r: Outcome<()>)
      modifies this
      ensures Did(Spec.SetCooldown(old(store), actor, cooldown), store, r)
    {
      if actor != store.admin || cooldown < MIN_COOLDOWN || cooldown > MAX_COOLDOWN {
        return Panicked;
      }
      store := store.(cooldown := cooldown);
      r := Returned(());
    }

    // ---------- the host ----------

    /** One transaction: runs the call and discards its writes if it panicked. */
    method Transact(ledger: int, op: Op) returns (ok: bool)
      modifies this
      ensures store == Step(old(store), ledger, op)
    {
      hide Spec.Deposit, Spec.RequestWithdrawal, Spec.InstantWithdraw, Spec.ClaimWithdrawal, Spec.AddRewards, Intrinsic, TDiv;
      var before := store;
      ok := true;
      match op {
        case OpDeposit(user, amount) =>
          var r := DepositXlm(user, amount);
          ok := r.Returned?;
        case OpRequest(user, amount) =>
          var r := RequestXlm(ledger, user, amount);
          ok := r.Returned?;
        case OpClaim(user, id) =>
          var r := ClaimXlm(ledger, user, id);
          ok := r.Returned?;
        case OpInstant(user, amount) =>
          var r := InstantXlm(user, amount);
          ok := r.Returned?;
        case OpRewards(actor, amount) =>
          var r := BookRewards(actor, amount);
          ok := r.Returned?;
        case OpWithdrawFees(actor, amount) =>
          var r := TakeFees(actor, amount);
          ok := r.Returned?;
        case OpSlash(actor, amount) =>
          var r := Slash(actor, amount);
          ok := r.Returned?;
        case OpPause(actor, paused) =>
          var r := PauseOrUnpause(actor, paused);
          ok := r.Returned?;
        case OpTrigger =>
          var r := TripBreaker();
          ok := r.Returned?;
        case OpLiquidity(actor, amount) =>
          var r := FillBuffer(actor, amount);
          ok := r.Returned?;
        case OpCooldown(actor, cooldown) =>
          var r := SetCooldownPeriod(actor, cooldown);
          ok := r.Returned?;
        case OpTransfer(from, to, amount) =>
          var moved := TransferShares(store, from, to, amount);
          ok := moved.Some?;
          if ok { store := moved.value.0; }
      }
      if !ok {
        store := before;
      }
    }
  }
}
