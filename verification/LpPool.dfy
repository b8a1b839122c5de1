/** The liquidity pool contract in its own form. Soroban keeps a contract's data in a key-value store that every call
    reads and writes key by key; `store` is that store, and each assignment to it below writes the named keys.
    A call that panics returns `Panicked`; `Transact` then discards its writes, as the host does. */
module LpPoolContract {
  import opened Base
  import opened Arith
  import opened Purses
  import M = PoolMath
  import opened Spec = PoolSpec
  import Amm

  class LpPool {
    var store: Pool

    constructor (admin: Address, feeBps: int, now: int, xlm: map<Address, int>, sxlm: map<Address, int>, rewards: map<Address, Purse>)
      ensures store == Initial(admin, feeBps, now, xlm, sxlm, rewards).pool
    {
      store := Pool(admin, feeBps, 5, 0, 0, 0, map[], 0, 0, None, 0, None, map[], Purse(0, xlm), Purse(0, sxlm), rewards);
    }

    // ---------- liquidity mining ----------

    method UpdatePool(now: int)
      modifies this
      ensures store == Updated(old(store), now)
    {
      if store.program.None? {
        return;
      }
      var g := store.program.value;
      var last := if store.last.Some? then store.last.value else g.start;
      if now <= last || last >= g.end {
        return;
      }
      var effectiveNow := if now > g.end then g.end else now;
      var elapsed := effectiveNow - last;
      if store.totalLp == 0 {
        store := store.(last := Some(effectiveNow));
        return;
      }
      var remaining := g.total - g.distributed;
      var rawReward := g.rate * elapsed;
      var reward := if rawReward > remaining then remaining else rawReward;
      if reward <= 0 {
        store := store.(last := Some(effectiveNow));
        return;
      }
      store := store.(acc := store.acc + TDiv(reward * M.PRECISION, store.totalLp));
      store := store.(last := Some(effectiveNow));
      store := store.(program := Some(g.(distributed := g.distributed + reward)));
    }

    method SetMiningProgram(now: int, actor: Address, asset: Address, rate: int, total: int, start: int, end: int) returns (r: Outcome<()>)
      modifies this
      ensures Did(Spec.SetMiningProgram(old(store), now, actor, asset, rate, total, start, end), store, r)
    {
      if actor != store.admin || !(end > start) || !(rate > 0 && total > 0) {
        return Panicked;
      }
      UpdatePool(now);
      store := store.(program := Some(Program(asset, rate, total, 0, start, end)));
      store := store.(last := Some(start));
      store := store.(acc := 0);
      r := Returned(());
    }

    /** View: rewards accumulated but not yet claimed. */
    method PendingRewards(now: int, user: Address) returns (pending: int)
      ensures pending == Spec.PendingRewards(store, now, user)
    {
      var lp := Get(store.lp, user);
      if lp == 0 {
        return 0;
      }
      pending := TDiv(lp * ProjectedAcc(store, now), M.PRECISION) - Get(store.debt, user);
      if pending < 0 {
        pending := 0;
      }
    }

    method ClaimRewards(now: int, user: Address) returns (r: Outcome<int>)
      modifies this
      ensures Did(Spec.ClaimRewards(old(store), now, user), store, r)
    {
      UpdatePool(now);
      hide Updated;
      var lp := Get(store.lp, user);
      var acc := store.acc;
      var debt := Get(store.debt, user);
      var earned := if lp > 0 then TDiv(lp * acc, M.PRECISION) - debt else 0;
      if earned <= 0 {
        store := store.(debt := store.debt[user := TDiv(lp * acc, M.PRECISION)]);
        return Returned(0);
      }
      if store.program.None? {
        return Panicked;
      }
      var asset := store.program.value.asset;
      var sent := PayOut(RewardPurse(store, asset), user, earned);
      if sent.None? {
        return Panicked;
      }
      store := store.(rewards := store.rewards[asset := sent.value]);
      store := store.(debt := store.debt[user := TDiv(lp * acc, M.PRECISION)]);
      r := Returned(earned);
    }

    // ---------- liquidity ----------

    /** The amounts `add_liquidity` settles on; `None` where it panics. */
    method Match(x: int, s: int) returns (m: Option<Amm.Minted>)
      requires x > 0 && s > 0
      ensures m == Amm.Mint(store.reserveXlm, store.reserveSxlm, store.totalLp, x, s)
    {
      var reserveXlm, reserveSxlm, totalLp := store.reserveXlm, store.reserveSxlm, store.totalLp;
      var minted: Amm.Minted;
      if totalLp == 0 {
        var root := M.Isqrt(x * s);
        minted := Amm.Minted(x, s, root);
      } else {
        if reserveXlm == 0 || reserveSxlm == 0 {
          return None;
        }
        var lpFromXlm := TDiv(x * totalLp, reserveXlm);
        var lpFromSxlm := TDiv(s * totalLp, reserveSxlm);
        if lpFromXlm < lpFromSxlm {
          var neededSxlm := TDiv(lpFromXlm * reserveSxlm, totalLp);
          minted := Amm.Minted(x, neededSxlm, lpFromXlm);
        } else {
          var neededXlm := TDiv(lpFromSxlm * reserveXlm, totalLp);
          minted := Amm.Minted(neededXlm, s, lpFromSxlm);
        }
      }
      if !(minted.lp > 0) || !(minted.xlm > 0 && minted.sxlm > 0) {
        return None;
      }
      m := Some(minted);
    }

    method AddLiquidity(now: int, user: Address, x: int, s: int) returns (r: Outcome<int>)
      modifies this
      ensures Did(Spec.AddLiquidity(old(store), now, user, x, s), store, r)
    {
      if !(x > 0 && s > 0) {
        return Panicked;
      }
      UpdatePool(now);
      r := Deposit(user, x, s);
    }

    method Deposit(user: Address, x: int, s: int) returns (r: Outcome<int>)
      requires x > 0 && s > 0
      modifies this
      ensures Did(Spec.Deposit(old(store), user, x, s), store, r)
    {
      var m := Match(x, s);
      hide Amm.Mint;
      if m.None? {
        return Panicked;
      }
      var paidXlm := PullIn(store.xlm, user, m.value.xlm);
      var paidSxlm := PullIn(store.sxlm, user, m.value.sxlm);
      if paidXlm.None? || paidSxlm.None? {
        return Panicked;
      }
      store := store.(xlm := paidXlm.value, sxlm := paidSxlm.value);
      store := store.(reserveXlm := store.reserveXlm + m.value.xlm);
      store := store.(reserveSxlm := store.reserveSxlm + m.value.sxlm);
      store := store.(totalLp := store.totalLp + m.value.lp);
      var lp := Get(store.lp, user) + m.value.lp;
      store := store.(lp := store.lp[user := lp]);
      store := store.(debt := store.debt[user := TDiv(lp * store.acc, M.PRECISION)]);
      r := Returned(m.value.lp);
    }

    /** Pays pending rewards before a position shrinks; false where the reward transfer panics. */
    method AutoClaim(user: Address) returns (ok: bool)
      modifies this
      ensures ok == Spec.AutoClaim(old(store), user).Some?
      ensures ok ==> store == Spec.AutoClaim(old(store), user).value.0
    {
      var earned := TDiv(Get(store.lp, user) * store.acc, M.PRECISION) - Get(store.debt, user);
      if earned > 0 {
        if store.program.Some? {
          var asset := store.program.value.asset;
          var sent := PayOut(RewardPurse(store, asset), user, earned);
          if sent.None? {
            return false;
          }
          store := store.(rewards := store.rewards[asset := sent.value]);
        }
      }
      ok := true;
    }

    /** Both assets' share of a withdrawal; `None` where it panics. */
    method Share(amount: int) returns (b: Option<(int, int)>)
      requires amount > 0
      ensures b == Amm.Burn(store.reserveXlm, store.reserveSxlm, store.totalLp, amount)
    {
      var totalLp := store.totalLp;
      if totalLp == 0 {
        return None;
      }
      var xlmOut := TDiv(amount * store.reserveXlm, totalLp);
      var sxlmOut := TDiv(amount * store.reserveSxlm, totalLp);
      if !(xlmOut > 0 && sxlmOut > 0) {
        return None;
      }
      b := Some((xlmOut, sxlmOut));
    }

    method RemoveLiquidity(now: int, user: Address, amount: int) returns (r: Outcome<(int, int)>)
      modifies this
      ensures Did(Spec.RemoveLiquidity(old(store), now, user, amount), store, r)
    {
      if !(amount > 0) {
        return Panicked;
      }
      UpdatePool(now);
      r := Withdraw(user, amount);
    }

    method Withdraw(user: Address, amount: int) returns (r: Outcome<(int, int)>)
      requires amount > 0
      modifies this
      ensures Did(Spec.Withdraw(old(store), user, amount), store, r)
    {
      hide Amm.Burn, Spec.AutoClaim, Entitled, TDiv;
      var lp := Get(store.lp, user);
      if !(lp >= amount) {
        return Panicked;
      }
      var acc := store.acc;
      ClaimLeavesPosition(store, user);
      var settled := AutoClaim(user);
      if !settled {
        return Panicked;
      }
      var share := Share(amount);
      if share.None? {
        return Panicked;
      }
      var (xlmOut, sxlmOut) := share.value;
      store := store.(reserveXlm := store.reserveXlm - xlmOut);
      store := store.(reserveSxlm := store.reserveSxlm - sxlmOut);
      store := store.(totalLp := store.totalLp - amount);
      var left := lp - amount;
      store := store.(lp := store.lp[user := left]);
      store := store.(debt := store.debt[user := Entitled(left, acc)]);
      var paidXlm := PayOut(store.xlm, user, xlmOut);
      var paidSxlm := PayOut(store.sxlm, user, sxlmOut);
      if paidXlm.None? || paidSxlm.None? {
        return Panicked;
      }
      store := store.(xlm := paidXlm.value, sxlm := paidSxlm.value);
      r := Returned((xlmOut, sxlmOut));
    }

    /** Paying rewards touches the reward tokens only. */
    lemma ClaimLeavesPosition(p: Pool, user: Address)
      ensures var c := Spec.AutoClaim(p, user);
        c.Some? ==> c.value.0 == p.(rewards := c.value.0.rewards)
    {
      hide Entitled, RewardPurse;
    }

    // ---------- swaps ----------

    method SwapXlmToSxlm(user: Address, amount: int, minOut: int) returns (r: Outcome<int>)
      modifies this
      ensures Did(Spec.SwapXlmToSxlm(old(store), user, amount, minOut), store, r)
    {
      if !(amount > 0) {
        return Panicked;
      }
      var feeBps := store.feeBps;
      var afterFee := TDiv(amount * (M.BPS - feeBps), M.BPS);
      var reserveXlm, reserveSxlm := store.reserveXlm, store.reserveSxlm;
      if !(reserveXlm > 0 && reserveSxlm > 0) || reserveXlm + afterFee == 0 {
        return Panicked;
      }
      var out := reserveSxlm - TDiv(reserveXlm * reserveSxlm, reserveXlm + afterFee);
      if !(out > 0 && out < reserveSxlm) || !(out >= minOut) {
        return Panicked;
      }
      var paidIn := PullIn(store.xlm, user, amount);
      var paidOut := PayOut(store.sxlm, user, out);
      if paidIn.None? || paidOut.None? {
        return Panicked;
      }
      store := store.(xlm := paidIn.value, sxlm := paidOut.value);
      var totalFee := amount - afterFee;
      if feeBps == 0 {
        return Panicked;
      }
      var cut := TDiv(totalFee * store.protocolBps, feeBps);
      store := store.(reserveXlm := reserveXlm + amount - cut);
      store := store.(reserveSxlm := reserveSxlm - out);
      store := store.(feesXlm := store.feesXlm + cut);
      r := Returned(out);
    }

    method SwapSxlmToXlm(user: Address, amount: int, minOut: int) returns (r: Outcome<int>)
      modifies this
      ensures Did(Spec.SwapSxlmToXlm(old(store), user, amount, minOut), store, r)
    {
      if !(amount > 0) {
        return Panicked;
      }
      var feeBps := store.feeBps;
      var afterFee := TDiv(amount * (M.BPS - feeBps), M.BPS);
      var reserveXlm, reserveSxlm := store.reserveXlm, store.reserveSxlm;
      if !(reserveXlm > 0 && reserveSxlm > 0) || reserveSxlm + afterFee == 0 {
        return Panicked;
      }
      assert reserveXlm * reserveSxlm == reserveSxlm * reserveXlm;
      var out := reserveXlm - TDiv(reserveXlm * reserveSxlm, reserveSxlm + afterFee);
      if !(out > 0 && out < reserveXlm) || !(out >= minOut) {
        return Panicked;
      }
      var paidIn := PullIn(store.sxlm, user, amount);
      var paidOut := PayOut(store.xlm, user, out);
      if paidIn.None? || paidOut.None? {
        return Panicked;
      }
      store := store.(sxlm := paidIn.value, xlm := paidOut.value);
      var totalFee := amount - afterFee;
      if feeBps == 0 {
        return Panicked;
      }
      var cut := TDiv(totalFee * store.protocolBps, feeBps);
      store := store.(reserveSxlm := reserveSxlm + amount - cut);
      store := store.(reserveXlm := reserveXlm - out);
      store := store.(feesSxlm := store.feesSxlm + cut);
      r := Returned(out);
    }

    // ---------- protocol fees ----------

    method CollectProtocolFees(actor: Address) returns (r: Outcome<int>)
      modifies this
      ensures Did(Spec.CollectXlm(old(store), actor), store, r)
    {
      if actor != store.admin {
        return Panicked;
      }
      var accrued := store.feesXlm;
      if accrued <= 0 {
        return Returned(0);
      }
      var sent := PayOut(store.xlm, actor, accrued);
      if sent.None? {
        return Panicked;
      }
      store := store.(xlm := sent.value);
      store := store.(feesXlm := 0);
      r := Returned(accrued);
    }

    method CollectProtocolFeesSxlm(actor: Address) returns (r: Outcome<int>)
      modifies this
      ensures Did(Spec.CollectSxlm(old(store), actor), store, r)
    {
      if actor != store.admin {
        return Panicked;
      }
      var accrued := store.feesSxlm;
      if accrued <= 0 {
        return Returned(0);
      }
      var sent := PayOut(store.sxlm, actor, accrued);
      if sent.None? {
        return Panicked;
      }
      store := store.(sxlm := sent.value);
      store := store.(feesSxlm := 0);
      r := Returned(accrued);
    }

    method SetProtocolFeeBps(actor: Address, bps: int) returns (r: Outcome<()>)
      modifies this
      ensures Did(Spec.SetProtocolFee(old(store), actor, bps), store, r)
    {
      if actor != store.admin || bps < 0 {
        return Panicked;
      }
      store := store.(protocolBps := bps);
      r := Returned(());
    }

    // ---------- the host ----------

    /** One transaction: runs the call and discards its writes if it panicked. */
    method Transact(now: int, op: Op) returns (ok: bool)
      modifies this
      ensures forall paid: int, roundings: nat ::
        store == Step(World(old(store), now, paid, roundings), op).pool
    {
      hide Updated, Amm.Mint, Amm.Burn, Amm.Swap, Spec.AutoClaim;
      var before := store;
      ok := true;
      match op {
        case OpProgram(actor, asset, rate, total, start, end) =>
          var r := SetMiningProgram(now, actor, asset, rate, total, start, end);
          ok := r.Returned?;
        case OpClaim(user) =>
          var r := ClaimRewards(now, user);
          ok := r.Returned?;
        case OpAdd(user, x, s) =>
          var r := AddLiquidity(now, user, x, s);
          ok := r.Returned?;
        case OpRemove(user, lp) =>
          var r := RemoveLiquidity(now, user, lp);
          ok := r.Returned?;
        case OpSwapXlm(user, amount, minOut) =>
          var r := SwapXlmToSxlm(user, amount, minOut);
          ok := r.Returned?;
        case OpSwapSxlm(user, amount, minOut) =>
          var r := SwapSxlmToXlm(user, amount, minOut);
          ok := r.Returned?;
        case OpCollectXlm(actor) =>
          var r := CollectProtocolFees(actor);
          ok := r.Returned?;
        case OpCollectSxlm(actor) =>
          var r := CollectProtocolFeesSxlm(actor);
          ok := r.Returned?;
        case OpProtocolFee(actor, bps) =>
          var r := SetProtocolFeeBps(actor, bps);
          ok := r.Returned?;
        case OpFund(asset, from, amount) =>
          var sent := FundRewards(store, asset, from, amount);
          ok := sent.Some?;
          if ok { store := sent.value.0; }
        case OpTick(_) =>
      }
      if !ok {
        store := before;
      }
    }
  }
}
