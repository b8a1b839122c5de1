/** What each pool call does, in numbers a caller can check: when it goes through, who pays whom and how much, and what is
    booked; and what that adds up to over whole runs. */
module PoolCalls {
  import opened Base
  import opened Arith
  import opened PoolMath
  import opened Purses
  import opened PoolSpec
  import opened PoolProofs
  import Amm

  // ---------- how much an update books ----------

  /** An update settles the time since the last one, up to the end of the program. With shares around it books rate times that
      time as far as the budget goes, and the accumulator rises by the floored reward per share; without shares nothing is
      booked and that time is lost. */
  lemma UpdateExactly(p: Pool, now: int)
    requires LpLedger(p) && RewardBooks(p)
    ensures var q := Updated(p, now);
      match p.program
      case None => q == p
      case Some(g) =>
        var last, until := p.last.value, Min(now, g.end);
        var d := Distributed(q);
        && q == p.(acc := q.acc, last := Some(Max(last, until)), program := Some(g.(distributed := d)))
        && if p.totalLp > 0 && last < until
           then d == Min(g.total, g.distributed + g.rate * (until - last))
             && IsFloor(q.acc - p.acc, (d - g.distributed) * 1_000_000_000_000, p.totalLp)
           else d == g.distributed && q.acc == p.acc
  {
    TotalNonneg(p);
    if p.program.Some? {
      var g, last := p.program.value, p.last.value;
      var until := Min(now, g.end);
      if p.totalLp > 0 && last < until {
        MulMono(0, until - last, g.rate);
        TruncationIsFloor((Distributed(Updated(p, now)) - g.distributed) * PRECISION, p.totalLp);
        hide TDiv, IsFloor;
        if Distributed(Updated(p, now)) == g.distributed { NoAccrual(p.totalLp); }
      }
    }
    hide LpLedger;
  }

  lemma NoAccrual(total: int)
    requires total > 0
    ensures IsFloor(0, 0 * PRECISION, total)
  {}

  /** The operation goes through and settles the clock before it acts. */
  ghost predicate Settles(w: World, op: Op) {
    match op
    case OpClaim(user) => ClaimRewards(w.pool, w.now, user).Some?
    case OpAdd(user, x, s) => AddLiquidity(w.pool, w.now, user, x, s).Some?
    case OpRemove(user, lp) => RemoveLiquidity(w.pool, w.now, user, lp).Some?
    case _ => false
  }

  lemma SettlingStep(w: World, op: Op)
    requires !op.OpProgram?
    ensures var p, t := w.pool, Step(w, op).pool;
      if Settles(w, op) then t.program == Updated(p, w.now).program && t.last == Updated(p, w.now).last
      else t.program == p.program && t.last == p.last
  {
    var p := w.pool;
    UpdateFrame(p, w.now);
    match op
    case OpClaim(u) => if ClaimRewards(p, w.now, u).Some? { ClaimEffect(p, w.now, u); } hide ClaimRewards, Updated, Entitled;
    case OpAdd(u, x, s) => if AddLiquidity(p, w.now, u, x, s).Some? { AddBooks(p, w.now, u, x, s); } hide AddLiquidity, Updated, Entitled;
    case OpRemove(u, lp) =>
      if RemoveLiquidity(p, w.now, u, lp).Some? { RemoveBooks(p, w.now, u, lp); }
      hide RemoveLiquidity, Updated, Entitled, AutoClaim;
    case _ => QuietFrame(w, op); hide Step, Updated;
  }

  /** The program with what it distributes in the given settled time. */
  function Emitting(g: Program, seconds: int): Program { g.(distributed := Min(g.total, g.distributed + g.rate * seconds)) }

  /** From `p` to `q` the program distributed its rate times the time settled in between, as far as the budget went. */
  ghost predicate EmittedSince(p: Pool, q: Pool) {
    && p.program.Some? && p.last.Some? && q.last.Some? && p.last.value <= q.last.value
    && q.program == Some(Emitting(p.program.value, q.last.value - p.last.value))
  }

  lemma EmissionStep(w: World, op: Op)
    requires Rewarded(w) && w.pool.program.Some? && w.pool.totalLp > 0 && !op.OpProgram?
    ensures var p, t := w.pool, Step(w, op).pool;
      && EmittedSince(p, t)
      && t.last.value == if Settles(w, op) then Max(p.last.value, Min(w.now, p.program.value.end)) else p.last.value
  {
    hide Step, Updated, Settles, LpLedger, Backed;
    SettlingStep(w, op);
    UpdateExactly(w.pool, w.now);
    var g, last := w.pool.program.value, w.pool.last.value;
    assert Emitting(g, 0) == g by { assert g.rate * 0 == 0; }
  }

  lemma EmittedTransitive(p: Pool, q: Pool, z: Pool)
    requires EmittedSince(p, q) && EmittedSince(q, z) && p.program.value.rate >= 0
    ensures EmittedSince(p, z)
  {
    var g, a, b := p.program.value, q.last.value - p.last.value, z.last.value - q.last.value;
    MulSplits(a, b, g.rate);
    MulMono(0, b, g.rate);
  }

  /** Shares are around in every state of the run. */
  ghost predicate AlwaysShares(w: World, ops: seq<Op>)
    decreases |ops|
  {
    w.pool.totalLp > 0 && (ops == [] || AlwaysShares(Step(w, ops[0]), ops[1..]))
  }

  lemma PositiveRate(p: Pool)
    requires RewardBooks(p) && p.program.Some?
    ensures p.program.value.rate > 0 && p.last.Some?
  {}

  /** However calls settle it piece by piece, a program whose pool never runs out of shares has distributed its rate times the
      settled time, capped by its budget. */
  lemma {:induction false} EmissionOverRuns(w: World, ops: seq<Op>)
    requires Rewarded(w) && w.pool.program.Some? && AlwaysShares(w, ops)
    requires forall i :: 0 <= i < |ops| ==> !ops[i].OpProgram?
    ensures EmittedSince(w.pool, Run(w, ops).pool) && Rewarded(Run(w, ops))
    decreases |ops|
  {
    PositiveRate(w.pool);
    if ops == [] {
      assert w.pool.program.value.rate * 0 == 0;
    } else {
      hide Step, Rewarded, Emitting;
      var t := Step(w, ops[0]);
      EmissionStep(w, ops[0]);
      StepKeepsRewarded(w, ops[0]);
      EmissionOverRuns(t, ops[1..]);
      hide EmittedSince;
      EmittedTransitive(w.pool, t.pool, Run(t, ops[1..]).pool);
    }
  }

  lemma StepKeepsRewarded(w: World, op: Op)
    requires Rewarded(w)
    ensures Rewarded(Step(w, op))
  {
    LedgerStep(w, op);
    RewardStep(w, op);
    hide Step, LpLedger, RewardBooks, Backed;
  }

  /** Right after a call that settles, that is rate times the whole time up to now, or up to the end of the program. */
  lemma EmissionToDate(w: World, ops: seq<Op>, op: Op)
    requires Rewarded(w) && w.pool.program.Some? && AlwaysShares(w, ops)
    requires forall i :: 0 <= i < |ops| ==> !ops[i].OpProgram?
    requires !op.OpProgram? && Settles(Run(w, ops), op)
    ensures var z := Run(w, ops); var t := Step(z, op).pool;
      && EmittedSince(w.pool, t) && z.pool.last.Some?
      && t.last.value == Max(z.pool.last.value, Min(z.now, w.pool.program.value.end))
  {
    PositiveRate(w.pool);
    EmissionOverRuns(w, ops);
    var z := Run(w, ops);
    EndsWithShares(w, ops);
    hide Run, Step, Settles, Rewarded, AlwaysShares;
    EmissionStep(z, op);
    EmittedTransitive(w.pool, z.pool, Step(z, op).pool);
  }

  lemma {:induction false} EndsWithShares(w: World, ops: seq<Op>)
    requires AlwaysShares(w, ops)
    ensures Run(w, ops).pool.totalLp > 0
    decreases |ops|
  {
    if ops != [] {
      EndsWithShares(Step(w, ops[0]), ops[1..]);
      hide Step;
    }
  }

  // ---------- what a holder is paid ----------

  /** The numbers of a position at `now`: `booked` is what an update would book, `rise` what that adds to the accumulator,
      `due` what the shares entitle to in all. */
  ghost predicate Numbers(p: Pool, now: int, user: Address, booked: int, rise: int, due: int) {
    && (match p.program
        case None => booked == 0 && rise == 0
        case Some(g) =>
          var until := Min(now, g.end);
          if p.totalLp > 0 && p.last.Some? && p.last.value < until
          then booked == Min(g.total, g.distributed + g.rate * (until - p.last.value)) - g.distributed
            && IsFloor(rise, booked * 1_000_000_000_000, p.totalLp)
          else booked == 0 && rise == 0)
    && IsFloor(due, Get(p.lp, user) * (p.acc + rise), 1_000_000_000_000)
  }

  lemma NumbersOfUpdate(p: Pool, now: int, user: Address, booked: int, rise: int, due: int)
    requires LpLedger(p) && RewardBooks(p) && Numbers(p, now, user, booked, rise, due)
    ensures Updated(p, now).acc == p.acc + rise && Entitled(Get(p.lp, user), Updated(p, now).acc) == due
    ensures Get(p.lp, user) == 0 ==> due == 0
  {
    UpdateExactly(p, now);
    UpdateBooks(p, now);
    var q := Updated(p, now);
    HolderNonneg(p, user);
    hide Updated, Reward, LpLedger;
    if p.program.Some? && p.totalLp > 0 && p.last.value < Min(now, p.program.value.end) {
      OneFloor(rise, q.acc - p.acc, booked * PRECISION, p.totalLp);
    }
    MulMono(0, q.acc, Get(p.lp, user));
    TruncationIsFloor(Get(p.lp, user) * q.acc, PRECISION);
    OneFloor(due, Entitled(Get(p.lp, user), q.acc), Get(p.lp, user) * q.acc, PRECISION);
    hide IsFloor, TDiv;
    if Get(p.lp, user) == 0 { assert 0 * q.acc == 0; NothingIsDue(due); }
  }

  lemma NothingIsDue(due: int)
    requires IsFloor(due, 0, PRECISION)
    ensures due == 0
  {}

  /** Pending rewards and a claim follow from the emission: the entitlement of the shares at the rate, time and supply of the
      pool, less the debt. A claim goes through exactly if the contract holds that much of the program's asset, pays it to the
      claimant in that asset, and leaves the entitlement as the debt. */
  lemma ClaimExactly(p: Pool, now: int, user: Address, booked: int, rise: int, due: int)
    requires LpLedger(p) && RewardBooks(p) && Numbers(p, now, user, booked, rise, due)
    ensures var pending := Max(0, due - Get(p.debt, user));
      && PendingRewards(p, now, user) == pending
      && (ClaimRewards(p, now, user).Some? <==>
           pending == 0 || (p.program.Some? && pending <= RewardPurse(p, p.program.value.asset).held))
      && (ClaimRewards(p, now, user).Some? ==>
           var (r, paid) := ClaimRewards(p, now, user).value;
           && paid == pending
           && r == Updated(p, now).(debt := p.debt[user := due], rewards := r.rewards)
           && PaysReward(p, r, user, pending))
  {
    NumbersOfUpdate(p, now, user, booked, rise, due);
    ProjectionIsUpdate(p, now);
    UpdateFrame(p, now);
    UpdateBooks(p, now);
    AssetStays(p, now);
    HolderNonneg(p, user);
    DebtNonneg(p, user);
    var q := Updated(p, now);
    if p.program.None? { assert q == p && Get(p.lp, user) * 0 == 0; NothingIsDue(due); }
    if q.program.Some? { TransfersPay(RewardPurse(q, q.program.value.asset), user, due - Get(p.debt, user)); }
    hide Updated, ProjectedAcc, Entitled, Reward, LpLedger, RewardBooks, IsFloor, PayOut, Numbers;
  }

  lemma DebtNonneg(p: Pool, user: Address)
    requires RewardBooks(p)
    ensures 0 <= Get(p.debt, user)
  {}

  /** Reward tokens move from the contract to the user in the program's asset, and in no other. */
  ghost predicate PaysReward(p: Pool, r: Pool, user: Address, amount: int) {
    forall a ::
      if p.program.Some? && a == p.program.value.asset then Pays(RewardPurse(p, a), RewardPurse(r, a), user, amount)
      else RewardPurse(r, a) == RewardPurse(p, a)
  }

  // ---------- liquidity ----------

  /** A deposit goes through exactly if the amounts of `Amm.MintExactly` exist and the user holds them; the user pays them, gets the
      minted shares, and enters at the present accumulator. */
  lemma AddExactly(p: Pool, now: int, user: Address, x: int, s: int)
    ensures var m, r, q := Amm.Mint(p.reserveXlm, p.reserveSxlm, p.totalLp, x, s), AddLiquidity(p, now, user, x, s), Updated(p, now);
      && (r.Some? <==> m.Some? && m.value.xlm <= Get(p.xlm.wallets, user) && m.value.sxlm <= Get(p.sxlm.wallets, user))
      && (r.Some? ==>
           var t := r.value.0;
           && r.value.1 == m.value.lp
           && Pays(p.xlm, t.xlm, user, -m.value.xlm) && Pays(p.sxlm, t.sxlm, user, -m.value.sxlm)
           && t == q.(reserveXlm := p.reserveXlm + m.value.xlm, reserveSxlm := p.reserveSxlm + m.value.sxlm,
                      totalLp := p.totalLp + m.value.lp, lp := p.lp[user := Get(p.lp, user) + m.value.lp],
                      debt := p.debt[user := Get(t.debt, user)], xlm := t.xlm, sxlm := t.sxlm))
  {
    hide Updated, Amm.Mint, Deposit;
    UpdateFrame(p, now);
    DepositExactly(Updated(p, now), user, x, s);
  }

  lemma DepositExactly(q: Pool, user: Address, x: int, s: int)
    ensures var m, r := Amm.Mint(q.reserveXlm, q.reserveSxlm, q.totalLp, x, s), Deposit(q, user, x, s);
      && (r.Some? <==> m.Some? && m.value.xlm <= Get(q.xlm.wallets, user) && m.value.sxlm <= Get(q.sxlm.wallets, user))
      && (r.Some? ==>
           var t := r.value.0;
           && r.value.1 == m.value.lp
           && Pays(q.xlm, t.xlm, user, -m.value.xlm) && Pays(q.sxlm, t.sxlm, user, -m.value.sxlm)
           && t == q.(reserveXlm := q.reserveXlm + m.value.xlm, reserveSxlm := q.reserveSxlm + m.value.sxlm,
                      totalLp := q.totalLp + m.value.lp, lp := q.lp[user := Get(q.lp, user) + m.value.lp],
                      debt := q.debt[user := Get(t.debt, user)], xlm := t.xlm, sxlm := t.sxlm))
  {
    var m := Amm.Mint(q.reserveXlm, q.reserveSxlm, q.totalLp, x, s);
    hide Amm.Mint, Entitled, PullIn, Pays;
    if m.Some? {
      MintPays(q.reserveXlm, q.reserveSxlm, q.totalLp, x, s);
      TransfersPay(q.xlm, user, m.value.xlm);
      TransfersPay(q.sxlm, user, m.value.sxlm);
    }
  }

  lemma MintPays(rX: int, rS: int, total: int, x: int, s: int)
    requires Amm.Mint(rX, rS, total, x, s).Some?
    ensures var m := Amm.Mint(rX, rS, total, x, s).value; m.xlm > 0 && m.sxlm > 0
  {}

  /** After a deposit, a withdrawal or a claim the debt is what the shares are entitled to at the settled accumulator. */
  lemma DebtIsEntitlement(w: World, op: Op)
    requires Rewarded(w) && Settles(w, op) && (op.OpAdd? || op.OpRemove? || op.OpClaim?)
    ensures var t := Step(w, op).pool;
      && t.acc == Updated(w.pool, w.now).acc
      && IsFloor(Get(t.debt, op.user), Get(t.lp, op.user) * t.acc, 1_000_000_000_000)
  {
    var p := w.pool;
    UpdateFrame(p, w.now);
    UpdateBooks(p, w.now);
    LedgerStep(w, op);
    var t := Step(w, op).pool;
    HolderNonneg(t, op.user);
    SettledDebt(w, op);
    MulMono(0, t.acc, Get(t.lp, op.user));
    TruncationIsFloor(Get(t.lp, op.user) * t.acc, PRECISION);
    hide Step, Updated, LpLedger, Backed, IsFloor, Settles;
  }

  lemma SettledDebt(w: World, op: Op)
    requires Settles(w, op) && (op.OpAdd? || op.OpRemove? || op.OpClaim?)
    ensures var t := Step(w, op).pool;
      t.acc == Updated(w.pool, w.now).acc && Get(t.debt, op.user) == Entitled(Get(t.lp, op.user), t.acc)
  {
    var p := w.pool;
    UpdateFrame(p, w.now);
    match op
    case OpClaim(u) => ClaimEffect(p, w.now, u); hide ClaimRewards, Updated, Entitled;
    case OpAdd(u, x, s) => AddBooks(p, w.now, u, x, s); hide AddLiquidity, Updated, Entitled;
    case OpRemove(u, lp) => RemoveBooks(p, w.now, u, lp); hide RemoveLiquidity, Updated, Entitled, AutoClaim;
    case _ =>
  }

  /** A withdrawal goes through exactly if the user has the shares, both amounts of `Amm.BurnExactly` exist and are held, and the
      reward due can be paid; the user receives all three, the shares are burnt, and the rest re-enters. */
  lemma RemoveExactly(p: Pool, now: int, user: Address, amount: int, booked: int, rise: int, due: int)
    requires LpLedger(p) && RewardBooks(p) && Numbers(p, now, user, booked, rise, due)
    ensures var b, r, q := Amm.Burn(p.reserveXlm, p.reserveSxlm, p.totalLp, amount), RemoveLiquidity(p, now, user, amount), Updated(p, now);
      var reward := Max(0, due - Get(p.debt, user));
      && (r.Some? <==>
           && 0 < amount <= Get(p.lp, user) && b.Some? && b.value.0 <= p.xlm.held && b.value.1 <= p.sxlm.held
           && (reward > 0 ==> p.program.Some? && reward <= RewardPurse(p, p.program.value.asset).held))
      && (r.Some? ==>
           var t := r.value.0;
           && r.value.1 == b.value
           && Pays(p.xlm, t.xlm, user, b.value.0) && Pays(p.sxlm, t.sxlm, user, b.value.1) && PaysReward(p, t, user, reward)
           && t == q.(reserveXlm := p.reserveXlm - b.value.0, reserveSxlm := p.reserveSxlm - b.value.1,
                      totalLp := p.totalLp - amount, lp := p.lp[user := Get(p.lp, user) - amount],
                      debt := p.debt[user := Get(t.debt, user)], xlm := t.xlm, sxlm := t.sxlm, rewards := t.rewards))
  {
    var b := Amm.Burn(p.reserveXlm, p.reserveSxlm, p.totalLp, amount);
    UpdateFrame(p, now);
    AutoClaimExactly(p, now, user, booked, rise, due);
    if b.Some? {
      BurnPays(p.reserveXlm, p.reserveSxlm, p.totalLp, amount);
      TransfersPay(p.xlm, user, b.value.0);
      TransfersPay(p.sxlm, user, b.value.1);
    }
    hide Updated, Amm.Burn, Entitled, PayOut, AutoClaim, Numbers, LpLedger, RewardBooks, PaysReward;
    WithdrawShape(Updated(p, now), user, amount);
    var r := RemoveLiquidity(p, now, user, amount);
    if r.Some? { SameRewards(p, AutoClaim(Updated(p, now), user).value.0, r.value.0, user, Max(0, due - Get(p.debt, user))); }
  }

  lemma SameRewards(p: Pool, a: Pool, t: Pool, user: Address, amount: int)
    requires a.rewards == t.rewards && PaysReward(p, a, user, amount)
    ensures PaysReward(p, t, user, amount)
  {
    assert forall a' :: RewardPurse(a, a') == RewardPurse(t, a');
  }

  lemma BurnPays(rX: int, rS: int, total: int, lp: int)
    requires Amm.Burn(rX, rS, total, lp).Some?
    ensures var b := Amm.Burn(rX, rS, total, lp).value; b.0 > 0 && b.1 > 0
  {}

  lemma WithdrawShape(q: Pool, user: Address, amount: int)
    ensures var w, a, b := Withdraw(q, user, amount), AutoClaim(q, user), Amm.Burn(q.reserveXlm, q.reserveSxlm, q.totalLp, amount);
      && (w.Some? ==> a.Some? && b.Some? && w.value.0.rewards == a.value.0.rewards && user in w.value.0.debt)
  {
    hide AutoClaim, Amm.Burn, Entitled;
  }

  /** The automatic claim of a withdrawal pays what a claim would pay. */
  lemma AutoClaimExactly(p: Pool, now: int, user: Address, booked: int, rise: int, due: int)
    requires LpLedger(p) && RewardBooks(p) && Numbers(p, now, user, booked, rise, due)
    ensures var a, q, reward := AutoClaim(Updated(p, now), user), Updated(p, now), Max(0, due - Get(p.debt, user));
      && (a.Some? <==> reward == 0 || (p.program.Some? && reward <= RewardPurse(p, p.program.value.asset).held))
      && (a.Some? ==> a.value.1 == reward && a.value.0 == q.(rewards := a.value.0.rewards) && PaysReward(p, a.value.0, user, reward))
  {
    NumbersOfUpdate(p, now, user, booked, rise, due);
    UpdateFrame(p, now);
    UpdateBooks(p, now);
    AssetStays(p, now);
    DebtNonneg(p, user);
    var q := Updated(p, now);
    if p.program.None? { assert q == p && Get(p.lp, user) * 0 == 0; NothingIsDue(due); }
    if q.program.Some? { TransfersPay(RewardPurse(q, q.program.value.asset), user, due - Get(p.debt, user)); }
    hide Updated, Entitled, Reward, LpLedger, RewardBooks, IsFloor, PayOut, Numbers;
  }

  // ---------- swaps and fees ----------

  /** Both swaps: the trade of `Amm.SwapExactly` goes through exactly if the user holds the input and the contract the output; the
      user pays the one and receives the other, and the protocol's cut joins the fees accrued in the asset that came in. */
  lemma SwapsExactly(p: Pool, user: Address, amount: int, minOut: int)
    ensures var r, t := SwapXlmToSxlm(p, user, amount, minOut), Amm.Swap(p.reserveXlm, p.reserveSxlm, amount, minOut, p.feeBps, p.protocolBps);
      && (r.Some? <==> t.Some? && amount <= Get(p.xlm.wallets, user) && t.value.out <= p.sxlm.held)
      && (r.Some? ==>
           var q := r.value.0;
           && r.value.1 == t.value.out
           && Pays(p.xlm, q.xlm, user, -amount) && Pays(p.sxlm, q.sxlm, user, t.value.out)
           && q == p.(reserveXlm := t.value.reserveIn, reserveSxlm := t.value.reserveOut, feesXlm := p.feesXlm + t.value.cut,
                      xlm := q.xlm, sxlm := q.sxlm))
    ensures var r, t := SwapSxlmToXlm(p, user, amount, minOut), Amm.Swap(p.reserveSxlm, p.reserveXlm, amount, minOut, p.feeBps, p.protocolBps);
      && (r.Some? <==> t.Some? && amount <= Get(p.sxlm.wallets, user) && t.value.out <= p.xlm.held)
      && (r.Some? ==>
           var q := r.value.0;
           && r.value.1 == t.value.out
           && Pays(p.sxlm, q.sxlm, user, -amount) && Pays(p.xlm, q.xlm, user, t.value.out)
           && q == p.(reserveSxlm := t.value.reserveIn, reserveXlm := t.value.reserveOut, feesSxlm := p.feesSxlm + t.value.cut,
                      xlm := q.xlm, sxlm := q.sxlm))
  {
    hide Amm.Swap, PullIn, PayOut, Pays;
    var t := Amm.Swap(p.reserveXlm, p.reserveSxlm, amount, minOut, p.feeBps, p.protocolBps);
    var v := Amm.Swap(p.reserveSxlm, p.reserveXlm, amount, minOut, p.feeBps, p.protocolBps);
    TransfersPay(p.xlm, user, amount);
    TransfersPay(p.sxlm, user, amount);
    if t.Some? { TradePays(p.reserveXlm, p.reserveSxlm, amount, minOut, p.feeBps, p.protocolBps); TransfersPay(p.sxlm, user, t.value.out); }
    if v.Some? { TradePays(p.reserveSxlm, p.reserveXlm, amount, minOut, p.feeBps, p.protocolBps); TransfersPay(p.xlm, user, v.value.out); }
  }

  lemma TradePays(rIn: int, rOut: int, amount: int, minOut: int, feeBps: int, protocolBps: int)
    requires Amm.Swap(rIn, rOut, amount, minOut, feeBps, protocolBps).Some?
    ensures amount > 0 && Amm.Swap(rIn, rOut, amount, minOut, feeBps, protocolBps).value.out > 0
  {
    hide Amm.AfterFee, TDiv;
  }

  /** Only the admin collects, into the admin's own wallet, all that has accrued. */
  lemma CollectsExactly(p: Pool, actor: Address)
    requires 0 <= p.feesXlm && 0 <= p.feesSxlm
    ensures var r := CollectXlm(p, actor);
      && (r.Some? <==> actor == p.admin && (p.feesXlm == 0 || p.feesXlm <= p.xlm.held))
      && (r.Some? ==>
           && r.value.1 == p.feesXlm && Pays(p.xlm, r.value.0.xlm, actor, p.feesXlm)
           && r.value.0 == p.(feesXlm := 0, xlm := r.value.0.xlm))
    ensures var r := CollectSxlm(p, actor);
      && (r.Some? <==> actor == p.admin && (p.feesSxlm == 0 || p.feesSxlm <= p.sxlm.held))
      && (r.Some? ==>
           && r.value.1 == p.feesSxlm && Pays(p.sxlm, r.value.0.sxlm, actor, p.feesSxlm)
           && r.value.0 == p.(feesSxlm := 0, sxlm := r.value.0.sxlm))
  {
    TransfersPay(p.xlm, actor, p.feesXlm);
    TransfersPay(p.sxlm, actor, p.feesSxlm);
    hide PayOut;
  }

  /** Administration: who may do it, with which values, and that nothing else moves. A new program starts with nothing distributed
      and the accumulator at 0, after the old one is settled. */
  lemma AdminExactly(p: Pool, now: int, actor: Address, asset: Address, rate: int, total: int, start: int, end: int, bps: int)
    ensures var r := SetMiningProgram(p, now, actor, asset, rate, total, start, end);
      && (r.Some? <==> actor == p.admin && start < end && rate > 0 && total > 0)
      && (r.Some? ==> r.value.0 == p.(program := Some(Program(asset, rate, total, 0, start, end)), last := Some(start), acc := 0))
    ensures var r := SetProtocolFee(p, actor, bps);
      && (r.Some? <==> actor == p.admin && bps >= 0)
      && (r.Some? ==> r.value.0 == p.(protocolBps := bps))
  {
    UpdateFrame(p, now);
    hide Updated;
  }

  /** A deployment starts empty, with the given fee and a protocol share of 5 basis points. */
  lemma DeployedExactly(admin: Address, feeBps: int, now: int, xlm: map<Address, int>, sxlm: map<Address, int>, rewards: map<Address, Purse>)
    ensures var w := Initial(admin, feeBps, now, xlm, sxlm, rewards);
      && w.now == now && w.paid == 0 && w.roundings == 0 && w.pool.admin == admin && w.pool.feeBps == feeBps && w.pool.protocolBps == 5
      && w.pool.program == None && w.pool.totalLp == 0 && w.pool.reserveXlm == 0 == w.pool.reserveSxlm
      && w.pool.xlm == Purse(0, xlm) && w.pool.sxlm == Purse(0, sxlm) && w.pool.rewards == rewards
      && (0 <= feeBps ==> Fees(w.pool))
  {}

  // ---------- wallets and fees over whole runs ----------

  /** The tokens the pool deals in: its two assets and any reward asset. */
  datatype Coin = Xlm | Sxlm | Other(asset: Address)

  function PurseOf(p: Pool, coin: Coin): Purse {
    match coin case Xlm => p.xlm case Sxlm => p.sxlm case Other(asset) => RewardPurse(p, asset)
  }

  function AssetOf(p: Pool): Option<Coin> { if p.program.Some? then Some(Other(p.program.value.asset)) else None }

  /** The caller of an operation, and what it brings into that caller's wallet according to what the call took and returned. */
  function Caller(op: Op): Option<Address> {
    match op
    case OpClaim(user) => Some(user)
    case OpAdd(user, _, _) => Some(user)
    case OpRemove(user, _) => Some(user)
    case OpSwapXlm(user, _, _) => Some(user)
    case OpSwapSxlm(user, _, _) => Some(user)
    case OpCollectXlm(actor) => Some(actor)
    case OpCollectSxlm(actor) => Some(actor)
    case OpFund(_, from, _) => Some(from)
    case _ => None
  }

  ghost function Brings(w: World, op: Op, coin: Coin): int {
    var p, now := w.pool, w.now;
    match op
    case OpClaim(user) =>
      if ClaimRewards(p, now, user).Some? && AssetOf(p) == Some(coin) then ClaimRewards(p, now, user).value.1 else 0
    case OpAdd(user, x, s) =>
      if AddLiquidity(p, now, user, x, s).None? then 0
      else
        var m := Amm.Mint(p.reserveXlm, p.reserveSxlm, p.totalLp, x, s).value;
        if coin == Xlm then -m.xlm else if coin == Sxlm then -m.sxlm else 0
    case OpRemove(user, lp) =>
      if RemoveLiquidity(p, now, user, lp).None? then 0
      else
        var b := RemoveLiquidity(p, now, user, lp).value.1;
        if coin == Xlm then b.0 else if coin == Sxlm then b.1
        else if AssetOf(p) == Some(coin) then AutoClaim(Updated(p, now), user).value.1 else 0
    case OpSwapXlm(user, amount, minOut) =>
      var r := SwapXlmToSxlm(p, user, amount, minOut);
      if r.None? then 0 else if coin == Xlm then -amount else if coin == Sxlm then r.value.1 else 0
    case OpSwapSxlm(user, amount, minOut) =>
      var r := SwapSxlmToXlm(p, user, amount, minOut);
      if r.None? then 0 else if coin == Sxlm then -amount else if coin == Xlm then r.value.1 else 0
    case OpCollectXlm(actor) => if coin == Xlm && CollectXlm(p, actor).Some? then CollectXlm(p, actor).value.1 else 0
    case OpCollectSxlm(actor) => if coin == Sxlm && CollectSxlm(p, actor).Some? then CollectSxlm(p, actor).value.1 else 0
    case OpFund(asset, from, amount) => if coin == Other(asset) && FundRewards(p, asset, from, amount).Some? then -amount else 0
    case _ => 0
  }

  lemma WalletStep(w: World, op: Op, coin: Coin, user: Address)
    requires Rewarded(w) && 0 <= w.pool.feesXlm && 0 <= w.pool.feesSxlm
    ensures Get(PurseOf(Step(w, op).pool, coin).wallets, user)
         == Get(PurseOf(w.pool, coin).wallets, user) + if Caller(op) == Some(user) then Brings(w, op, coin) else 0
  {
    var p := w.pool;
    UpdateFrame(p, w.now);
    match op
    case OpClaim(u) => ClaimWallet(w, u, coin, user); hide ClaimRewards, Step;
    case OpAdd(u, x, s) => AddWallet(w, u, x, s, coin, user); hide Step, AddLiquidity, Amm.Mint;
    case OpRemove(u, lp) => RemoveWallet(w, u, lp, coin, user); hide Step, RemoveLiquidity;
    case OpSwapXlm(u, amount, minOut) => SwapWallet(w, op, coin, user); hide Step;
    case OpSwapSxlm(u, amount, minOut) => SwapWallet(w, op, coin, user); hide Step;
    case OpProgram(actor, asset, rate, total, start, end) =>
      AdminExactly(p, w.now, actor, asset, rate, total, start, end, 0);
      hide SetMiningProgram;
    case _ => OtherWallet(w, op, coin, user); hide Step;
  }

  lemma SwapWallet(w: World, op: Op, coin: Coin, user: Address)
    requires op.OpSwapXlm? || op.OpSwapSxlm?
    ensures Get(PurseOf(Step(w, op).pool, coin).wallets, user)
         == Get(PurseOf(w.pool, coin).wallets, user) + if Caller(op) == Some(user) then Brings(w, op, coin) else 0
  {
    SwapsExactly(w.pool, op.user, op.amount, op.minOut);
    hide SwapXlmToSxlm, SwapSxlmToXlm, Amm.Swap;
  }

  lemma OtherWallet(w: World, op: Op, coin: Coin, user: Address)
    requires 0 <= w.pool.feesXlm && 0 <= w.pool.feesSxlm
    requires op.OpCollectXlm? || op.OpCollectSxlm? || op.OpProtocolFee? || op.OpFund? || op.OpTick?
    ensures Get(PurseOf(Step(w, op).pool, coin).wallets, user)
         == Get(PurseOf(w.pool, coin).wallets, user) + if Caller(op) == Some(user) then Brings(w, op, coin) else 0
  {
    if op.OpCollectXlm? || op.OpCollectSxlm? { CollectsExactly(w.pool, op.actor); }
    if op.OpFund? { TransfersPay(RewardPurse(w.pool, op.asset), op.from, op.amount); }
    hide CollectXlm, CollectSxlm, PullIn;
  }

  /** Numbers exist for every position. */
  lemma SomeNumbers(p: Pool, now: int, user: Address) returns (booked: int, rise: int, due: int)
    requires LpLedger(p) && RewardBooks(p)
    ensures Numbers(p, now, user, booked, rise, due)
  {
    UpdateExactly(p, now);
    UpdateBooks(p, now);
    var q := Updated(p, now);
    HolderNonneg(p, user);
    booked, rise, due := Distributed(q) - Distributed(p), q.acc - p.acc, Entitled(Get(p.lp, user), q.acc);
    hide Updated, Reward, LpLedger;
    MulMono(0, q.acc, Get(p.lp, user));
    TruncationIsFloor(Get(p.lp, user) * q.acc, PRECISION);
    hide IsFloor, TDiv;
  }

  lemma ClaimWallet(w: World, u: Address, coin: Coin, user: Address)
    requires Rewarded(w)
    ensures Get(PurseOf(Step(w, OpClaim(u)).pool, coin).wallets, user)
         == Get(PurseOf(w.pool, coin).wallets, user) + if u == user then Brings(w, OpClaim(u), coin) else 0
  {
    var booked, rise, due := SomeNumbers(w.pool, w.now, u);
    ClaimExactly(w.pool, w.now, u, booked, rise, due);
    UpdateFrame(w.pool, w.now);
    hide ClaimRewards, Numbers, Updated, LpLedger, RewardBooks, Backed, RewardPurse;
  }

  lemma AddWallet(w: World, u: Address, x: int, s: int, coin: Coin, user: Address)
    requires Rewarded(w)
    ensures Get(PurseOf(Step(w, OpAdd(u, x, s)).pool, coin).wallets, user)
         == Get(PurseOf(w.pool, coin).wallets, user) + if u == user then Brings(w, OpAdd(u, x, s), coin) else 0
  {
    AddExactly(w.pool, w.now, u, x, s);
    UpdateFrame(w.pool, w.now);
    hide AddLiquidity, Amm.Mint, Updated, LpLedger, RewardBooks, Backed;
  }

  lemma RemoveWallet(w: World, u: Address, lp: int, coin: Coin, user: Address)
    requires Rewarded(w)
    ensures Get(PurseOf(Step(w, OpRemove(u, lp)).pool, coin).wallets, user)
         == Get(PurseOf(w.pool, coin).wallets, user) + if u == user then Brings(w, OpRemove(u, lp), coin) else 0
  {
    var booked, rise, due := SomeNumbers(w.pool, w.now, u);
    RemoveExactly(w.pool, w.now, u, lp, booked, rise, due);
    AutoClaimExactly(w.pool, w.now, u, booked, rise, due);
    if RemoveLiquidity(w.pool, w.now, u, lp).Some? { WithdrawShape(Updated(w.pool, w.now), u, lp); }
    hide RemoveLiquidity, AutoClaim, Amm.Burn, Numbers, Updated, LpLedger, RewardBooks, Backed, RewardPurse, Withdraw;
  }

  ghost function TotalBrought(w: World, ops: seq<Op>, coin: Coin, user: Address): int
    decreases |ops|
  {
    if ops == [] then 0
    else (if Caller(ops[0]) == Some(user) then Brings(w, ops[0], coin) else 0) + TotalBrought(Step(w, ops[0]), ops[1..], coin, user)
  }

  /** The protocol's cut of an accepted swap, in the asset that came in. */
  function Cut(w: World, op: Op, coin: Coin): int {
    var p := w.pool;
    match op
    case OpSwapXlm(user, amount, minOut) =>
      if coin == Xlm && SwapXlmToSxlm(p, user, amount, minOut).Some?
      then Amm.Swap(p.reserveXlm, p.reserveSxlm, amount, minOut, p.feeBps, p.protocolBps).value.cut else 0
    case OpSwapSxlm(user, amount, minOut) =>
      if coin == Sxlm && SwapSxlmToXlm(p, user, amount, minOut).Some?
      then Amm.Swap(p.reserveSxlm, p.reserveXlm, amount, minOut, p.feeBps, p.protocolBps).value.cut else 0
    case _ => 0
  }

  function Collected(w: World, op: Op, coin: Coin): int {
    match op
    case OpCollectXlm(actor) => if coin == Xlm && CollectXlm(w.pool, actor).Some? then CollectXlm(w.pool, actor).value.1 else 0
    case OpCollectSxlm(actor) => if coin == Sxlm && CollectSxlm(w.pool, actor).Some? then CollectSxlm(w.pool, actor).value.1 else 0
    case _ => 0
  }

  ghost function TotalCut(w: World, ops: seq<Op>, coin: Coin): int
    decreases |ops|
  {
    if ops == [] then 0 else Cut(w, ops[0], coin) + TotalCut(Step(w, ops[0]), ops[1..], coin)
  }

  ghost function TotalCollected(w: World, ops: seq<Op>, coin: Coin): int
    decreases |ops|
  {
    if ops == [] then 0 else Collected(w, ops[0], coin) + TotalCollected(Step(w, ops[0]), ops[1..], coin)
  }

  function Accrued(p: Pool, coin: Coin): int { if coin == Xlm then p.feesXlm else if coin == Sxlm then p.feesSxlm else 0 }

  lemma FeeStep(w: World, op: Op, coin: Coin)
    requires 0 <= w.pool.feesXlm && 0 <= w.pool.feesSxlm
    ensures Accrued(Step(w, op).pool, coin) == Accrued(w.pool, coin) + Cut(w, op, coin) - Collected(w, op, coin)
  {
    var p := w.pool;
    UpdateFrame(p, w.now);
    match op
    case OpClaim(u) => if ClaimRewards(p, w.now, u).Some? { ClaimEffect(p, w.now, u); } hide ClaimRewards, Updated;
    case OpAdd(u, x, s) => AddExactly(p, w.now, u, x, s); hide AddLiquidity, Amm.Mint, Updated;
    case OpRemove(u, lp) =>
      if RemoveLiquidity(p, w.now, u, lp).Some? { RemoveReserves(p, w.now, u, lp); }
      hide RemoveLiquidity, Updated, AutoClaim;
    case OpSwapXlm(u, amount, minOut) => SwapsExactly(p, u, amount, minOut); hide SwapXlmToSxlm, Amm.Swap;
    case OpSwapSxlm(u, amount, minOut) => SwapsExactly(p, u, amount, minOut); hide SwapSxlmToXlm, Amm.Swap;
    case OpCollectXlm(actor) => CollectsExactly(p, actor); hide CollectXlm;
    case OpCollectSxlm(actor) => CollectsExactly(p, actor); hide CollectSxlm;
    case OpProgram(actor, asset, rate, total, start, end) =>
      AdminExactly(p, w.now, actor, asset, rate, total, start, end, 0);
      hide SetMiningProgram;
    case _ => hide Updated;
  }

  /** The rates and the accrued fees are never negative. */
  ghost predicate Fees(p: Pool) { 0 <= p.feeBps && 0 <= p.protocolBps && 0 <= p.feesXlm && 0 <= p.feesSxlm }

  lemma FeesStay(w: World, op: Op)
    requires Fees(w.pool)
    ensures Fees(Step(w, op).pool)
  {
    var p := w.pool;
    UpdateFrame(p, w.now);
    match op
    case OpClaim(u) => if ClaimRewards(p, w.now, u).Some? { ClaimEffect(p, w.now, u); } hide ClaimRewards, Updated;
    case OpAdd(u, x, s) => AddExactly(p, w.now, u, x, s); hide AddLiquidity, Amm.Mint, Updated;
    case OpRemove(u, lp) =>
      if RemoveLiquidity(p, w.now, u, lp).Some? { RemoveReserves(p, w.now, u, lp); RemoveAdmin(p, w.now, u, lp); }
      hide RemoveLiquidity, Updated, AutoClaim;
    case OpSwapXlm(u, amount, minOut) =>
      SwapsExactly(p, u, amount, minOut);
      if Amm.Swap(p.reserveXlm, p.reserveSxlm, amount, minOut, p.feeBps, p.protocolBps).Some? {
        Amm.SwapKeepsReserve(p.reserveXlm, p.reserveSxlm, amount, minOut, p.feeBps, p.protocolBps);
      }
      hide SwapXlmToSxlm, Amm.Swap, Amm.AfterFee;
    case OpSwapSxlm(u, amount, minOut) =>
      SwapsExactly(p, u, amount, minOut);
      if Amm.Swap(p.reserveSxlm, p.reserveXlm, amount, minOut, p.feeBps, p.protocolBps).Some? {
        Amm.SwapKeepsReserve(p.reserveSxlm, p.reserveXlm, amount, minOut, p.feeBps, p.protocolBps);
      }
      hide SwapSxlmToXlm, Amm.Swap, Amm.AfterFee;
    case OpProgram(actor, asset, rate, total, start, end) =>
      AdminExactly(p, w.now, actor, asset, rate, total, start, end, 0);
      hide SetMiningProgram;
    case _ => hide Updated;
  }

  lemma RemoveAdmin(p: Pool, now: int, user: Address, lp: int)
    requires RemoveLiquidity(p, now, user, lp).Some?
    ensures RemoveLiquidity(p, now, user, lp).value.0.admin == p.admin
  {
    UpdateFrame(p, now);
    hide Updated, Entitled, Amm.Burn, RewardPurse;
  }

  /** Over every run and in every token: a user's wallet is what it was plus what the user's own calls brought in or took, by the
      amounts those calls settled on; nobody else's call touches it. */
  lemma {:induction false} WalletsOverRuns(w: World, ops: seq<Op>, coin: Coin, user: Address)
    requires Rewarded(w) && Fees(w.pool)
    ensures Get(PurseOf(Run(w, ops).pool, coin).wallets, user) == Get(PurseOf(w.pool, coin).wallets, user) + TotalBrought(w, ops, coin, user)
    decreases |ops|
  {
    if ops != [] {
      WalletStep(w, ops[0], coin, user);
      StepKeepsRewarded(w, ops[0]);
      FeesStay(w, ops[0]);
      hide Step, Rewarded, Fees, Brings, PurseOf;
      WalletsOverRuns(Step(w, ops[0]), ops[1..], coin, user);
    }
  }

  /** Over every run, the fees collected and those still accrued are together the fees accrued before and the cuts of all swaps. */
  lemma {:induction false} FeesOverRuns(w: World, ops: seq<Op>, coin: Coin)
    requires Fees(w.pool)
    ensures Accrued(Run(w, ops).pool, coin) + TotalCollected(w, ops, coin) == Accrued(w.pool, coin) + TotalCut(w, ops, coin)
    ensures Fees(Run(w, ops).pool)
    decreases |ops|
  {
    if ops != [] {
      FeeStep(w, ops[0], coin);
      FeesStay(w, ops[0]);
      hide Step, Fees, Cut, Collected, Accrued;
      FeesOverRuns(Step(w, ops[0]), ops[1..], coin);
    }
  }
}
