/** Whole-run properties of the liquidity pool: custody, share ledger, reserves, and reward solvency. */
module PoolProofs {
  import opened Base
  import opened Arith
  import opened Sums
  import opened PoolMath
  import opened Purses
  import opened PoolSpec
  import Amm

  // ---------- invariants ----------

  /** What the contract holds of each pool asset is the reserve plus the uncollected protocol fees. */
  ghost predicate Custody(p: Pool) {
    && p.xlm.held == p.reserveXlm + p.feesXlm
    && p.sxlm.held == p.reserveSxlm + p.feesSxlm
  }

  ghost predicate LpLedger(p: Pool) {
    && (forall u :: u in p.lp ==> 0 <= p.lp[u])
    && p.totalLp == Sum(p.lp)
  }

  ghost predicate Reserves(p: Pool) {
    && 0 <= p.protocolBps && 0 <= p.feeBps
    && Amm.Sound(p.reserveXlm, p.reserveSxlm, p.totalLp)
    && 0 <= p.feesXlm && 0 <= p.feesSxlm
  }

  ghost predicate RewardBooks(p: Pool) {
    && 0 <= p.acc
    && (forall u :: u in p.debt ==> 0 <= p.debt[u])
    && (p.program.None? ==> p.acc == 0)
    && (p.program.Some? ==>
          var g := p.program.value;
          && 0 < g.rate && 0 <= g.distributed <= g.total
          && p.last.Some? && g.start <= p.last.value
          && g.distributed <= g.rate * (p.last.value - g.start))
  }

  ghost function Distributed(p: Pool): int {
    if p.program.Some? then p.program.value.distributed else 0
  }

  /** What each holder could still be paid, in units of 1/PRECISION. */
  ghost function Owed(p: Pool): map<Address, int> {
    map u | u in p.lp :: Max(0, p.lp[u] * p.acc - PRECISION * Get(p.debt, u))
  }

  /** Rewards paid and still owed never exceed those distributed by more than the roundings taken. */
  ghost predicate Backed(w: World) {
    && 0 <= w.paid
    && PRECISION * w.paid + Sum(Owed(w.pool)) <= PRECISION * Distributed(w.pool) + (PRECISION - 1) * w.roundings
  }

  ghost predicate Inv(w: World) {
    Custody(w.pool) && LpLedger(w.pool) && RewardBooks(w.pool) && Backed(w)
  }

  // ---------- pool updates ----------

  lemma TotalNonneg(p: Pool)
    requires LpLedger(p)
    ensures 0 <= p.totalLp
  {
    SumNonneg(p.lp);
  }

  lemma UpdateBooks(p: Pool, now: int)
    requires LpLedger(p) && RewardBooks(p)
    ensures RewardBooks(Updated(p, now))
    ensures p.program.Some? ==>
      var g := p.program.value; var r := Reward(p, g, now);
      && 0 <= r
      && p.acc <= Updated(p, now).acc
      && (Updated(p, now).acc - p.acc) * p.totalLp <= r * PRECISION
      && Distributed(Updated(p, now)) == g.distributed + r
    ensures p.program.None? ==> Updated(p, now) == p
  {
    if p.program.Some? {
      TotalNonneg(p);
      var g := p.program.value;
      var last := p.last.value;
      var r := Reward(p, g, now);
      if r > 0 {
        Floor(r * PRECISION, p.totalLp);
        var stop := Min(now, g.end);
        assert g.rate * (stop - g.start) == g.rate * (stop - last) + g.rate * (last - g.start);
      } else if now > last && last < g.end {
        MulMono(last - g.start, Min(now, g.end) - g.start, g.rate);
      }
    }
  }

  /** A rise of the accumulator adds at most the rise times the shares to what is owed. */
  lemma OwedGrows(p: Pool, q: Pool)
    requires q.lp == p.lp && q.debt == p.debt && p.acc <= q.acc
    requires forall u :: u in p.lp ==> 0 <= p.lp[u]
    ensures Owed(q).Keys == Owed(p).Keys == p.lp.Keys
    ensures forall u :: u in p.lp ==> Owed(q)[u] <= Owed(p)[u] + (q.acc - p.acc) * p.lp[u]
  {
    forall u | u in p.lp
      ensures Owed(q)[u] <= Owed(p)[u] + (q.acc - p.acc) * p.lp[u]
    {
      hide Due;
      OwedAt(p, u);
      OwedAt(q, u);
      DueGrows(p.lp[u], p.acc, q.acc, Get(p.debt, u));
    }
  }

  lemma DueGrows(lp: int, acc: int, later: int, debt: int)
    requires 0 <= lp && acc <= later
    ensures Due(lp, later, debt) <= Due(lp, acc, debt) + (later - acc) * lp
  {
    assert lp * later == lp * acc + (later - acc) * lp;
    MulMono(0, later - acc, lp);
  }

  /** A pool update turns newly distributed rewards into entitlements and creates nothing else. */
  lemma UpdateOwed(p: Pool, now: int)
    requires LpLedger(p) && RewardBooks(p)
    ensures var q := Updated(p, now);
      Sum(Owed(q)) - Sum(Owed(p)) <= PRECISION * (Distributed(q) - Distributed(p))
  {
    hide Updated, Reward, Owed, RewardBooks, Sum;
    UpdateBooks(p, now);
    var q := Updated(p, now);
    UpdateFrame(p, now);
    OwedGrows(p, q);
    SumLinear(Owed(q), Owed(p), q.acc - p.acc, p.lp);
  }

  function Due(lp: int, acc: int, debt: int): int {
    Max(0, lp * acc - PRECISION * debt)
  }

  lemma OwedUpdate(p: Pool, user: Address, lp: int, d: int)
    ensures var q := p.(lp := p.lp[user := lp], debt := p.debt[user := d]);
      Sum(Owed(q)) == Sum(Owed(p)) - Get(Owed(p), user) + Due(lp, p.acc, d)
  {
    var q := p.(lp := p.lp[user := lp], debt := p.debt[user := d]);
    assert Owed(q) == Owed(p)[user := Due(lp, p.acc, d)];
    SumUpdate(Owed(p), user, Due(lp, p.acc, d));
  }

  lemma EntitledBounds(lp: int, acc: int)
    requires 0 <= lp && 0 <= acc
    ensures var d := Entitled(lp, acc);
      0 <= d && 0 <= lp * acc - PRECISION * d < PRECISION
  {}

  /** Re-entering at the current accumulator leaves less than one reward unit unaccounted for. */
  lemma SettleOwed(p: Pool, user: Address, lp: int)
    requires RewardBooks(p) && 0 <= lp
    ensures var d := Entitled(lp, p.acc);
      var q := p.(lp := p.lp[user := lp], debt := p.debt[user := d]);
      && 0 <= d
      && RewardBooks(q) && Distributed(q) == Distributed(p)
      && Sum(Owed(q)) <= Sum(Owed(p)) + PRECISION - 1
      && (user in p.lp && lp == p.lp[user] && Get(p.debt, user) <= d ==>
            Sum(Owed(q)) == Sum(Owed(p)) - PRECISION * (d - Get(p.debt, user)))
  {
    var d := Entitled(lp, p.acc);
    EntitledBounds(lp, p.acc);
    OwedUpdate(p, user, lp, d);
    OwedAt(p, user);
    hide Owed, Entitled;
  }

  lemma OwedAt(p: Pool, user: Address)
    ensures Get(Owed(p), user) == if user in p.lp then Due(p.lp[user], p.acc, Get(p.debt, user)) else 0
  {}

  /** The reward books and the entitlements depend on these fields only. */
  ghost predicate SameBooks(p: Pool, q: Pool) {
    && p.lp == q.lp && p.debt == q.debt && p.acc == q.acc
    && p.last == q.last && p.program == q.program
  }

  lemma BooksFrame(p: Pool, q: Pool)
    requires SameBooks(p, q)
    ensures Owed(p) == Owed(q) && Distributed(p) == Distributed(q)
    ensures RewardBooks(p) == RewardBooks(q)
  {}

  // ---------- one step ----------

  /** A pool update touches the accumulator, its clock and the program's distributed amount only. */
  lemma UpdateFrame(p: Pool, now: int)
    ensures var q := Updated(p, now);
      && q == p.(acc := q.acc, last := q.last, program := q.program)
      && (p.program.None? <==> q.program.None?)
  {}

  /** The position a user is left with, entered at the current accumulator. */
  function Positioned(q: Pool, user: Address, lp: int): Pool {
    q.(lp := q.lp[user := lp], debt := q.debt[user := Entitled(lp, q.acc)])
  }

  lemma AddBooks(p: Pool, now: int, user: Address, x: int, s: int)
    requires AddLiquidity(p, now, user, x, s).Some?
    ensures var (r, lp) := AddLiquidity(p, now, user, x, s).value;
      && lp > 0 && r.totalLp == p.totalLp + lp
      && SameBooks(Positioned(Updated(p, now), user, Get(p.lp, user) + lp), r)
  {
    UpdateFrame(p, now);
    MintPositive(p.reserveXlm, p.reserveSxlm, p.totalLp, x, s);
    hide Updated, Amm.Mint, Entitled;
  }

  lemma MintPositive(rX: int, rS: int, total: int, x: int, s: int)
    requires Amm.Mint(rX, rS, total, x, s).Some?
    ensures Amm.Mint(rX, rS, total, x, s).value.lp > 0
  {}

  lemma AddReserves(p: Pool, now: int, user: Address, x: int, s: int)
    requires AddLiquidity(p, now, user, x, s).Some?
    ensures var (r, lp) := AddLiquidity(p, now, user, x, s).value;
      && r.totalLp == p.totalLp + lp && SameFees(p, r)
      && r.xlm.held - r.reserveXlm == p.xlm.held - p.reserveXlm
      && r.sxlm.held - r.reserveSxlm == p.sxlm.held - p.reserveSxlm
      && Amm.Mint(p.reserveXlm, p.reserveSxlm, p.totalLp, x, s)
           == Some(Amm.Minted(r.reserveXlm - p.reserveXlm, r.reserveSxlm - p.reserveSxlm, lp))
  {
    UpdateFrame(p, now);
    hide Updated, Amm.Mint, Entitled;
  }

  ghost predicate SameFees(p: Pool, q: Pool) {
    p.feeBps == q.feeBps && p.protocolBps == q.protocolBps && p.feesXlm == q.feesXlm && p.feesSxlm == q.feesSxlm
  }

  lemma ClaimEffect(p: Pool, now: int, user: Address)
    requires ClaimRewards(p, now, user).Some?
    ensures var (r, paid) := ClaimRewards(p, now, user).value;
      var q := Updated(p, now);
      var due := Entitled(Get(p.lp, user), q.acc);
      && r == q.(debt := p.debt[user := due], rewards := r.rewards)
      && paid == (if Get(p.lp, user) > 0 then Max(0, due - Get(p.debt, user)) else 0)
  {
    UpdateFrame(p, now);
    hide Updated, Entitled, RewardPurse;
  }

  lemma RemoveBooks(p: Pool, now: int, user: Address, amount: int)
    requires RemoveLiquidity(p, now, user, amount).Some?
    ensures var r := RemoveLiquidity(p, now, user, amount).value.0;
      var q := Updated(p, now);
      var due := Entitled(Get(p.lp, user), q.acc) - Get(p.debt, user);
      && 0 < amount <= Get(p.lp, user) && user in p.lp
      && AutoClaim(q, user).Some?
      && AutoClaim(q, user).value.1 == (if q.program.Some? then Max(0, due) else 0)
      && r.totalLp == p.totalLp - amount
      && SameBooks(Positioned(q, user, p.lp[user] - amount), r)
  {
    UpdateFrame(p, now);
    hide Updated, Entitled, Amm.Burn, RewardPurse;
  }

  lemma RemoveReserves(p: Pool, now: int, user: Address, amount: int)
    requires RemoveLiquidity(p, now, user, amount).Some?
    ensures var (r, b) := RemoveLiquidity(p, now, user, amount).value;
      && 0 < amount <= Get(p.lp, user)
      && r.totalLp == p.totalLp - amount && SameFees(p, r)
      && r.reserveXlm == p.reserveXlm - b.0 && r.reserveSxlm == p.reserveSxlm - b.1
      && r.xlm.held == p.xlm.held - b.0 && r.sxlm.held == p.sxlm.held - b.1
      && Amm.Burn(p.reserveXlm, p.reserveSxlm, p.totalLp, amount) == Some(b)
  {
    UpdateFrame(p, now);
    hide Updated, Entitled, Amm.Burn, RewardPurse;
  }

  lemma AddLedger(p: Pool, now: int, user: Address, x: int, s: int)
    requires LpLedger(p) && AddLiquidity(p, now, user, x, s).Some?
    ensures LpLedger(AddLiquidity(p, now, user, x, s).value.0)
  {
    hide AddLiquidity, Updated, Entitled;
    AddBooks(p, now, user, x, s);
    UpdateFrame(p, now);
    SumUpdate(p.lp, user, Get(p.lp, user) + AddLiquidity(p, now, user, x, s).value.1);
  }

  lemma RemoveLedger(p: Pool, now: int, user: Address, lp: int)
    requires LpLedger(p) && RemoveLiquidity(p, now, user, lp).Some?
    ensures LpLedger(RemoveLiquidity(p, now, user, lp).value.0)
  {
    hide RemoveLiquidity, Updated, Entitled, AutoClaim;
    RemoveBooks(p, now, user, lp);
    UpdateFrame(p, now);
    SumUpdate(p.lp, user, Get(p.lp, user) - lp);
  }

  lemma LedgerStep(w: World, op: Op)
    requires LpLedger(w.pool)
    ensures LpLedger(Step(w, op).pool)
  {
    var p := w.pool;
    match op
    case OpAdd(user, x, s) =>
      hide AddLiquidity, Updated, LpLedger;
      if AddLiquidity(p, w.now, user, x, s).Some? { AddLedger(p, w.now, user, x, s); }
    case OpRemove(user, lp) =>
      hide RemoveLiquidity, Updated, LpLedger, AutoClaim;
      if RemoveLiquidity(p, w.now, user, lp).Some? { RemoveLedger(p, w.now, user, lp); }
    case _ =>
      LedgerUntouched(w, op);
      hide Step;
  }

  lemma LedgerUntouched(w: World, op: Op)
    requires !op.OpAdd? && !op.OpRemove?
    ensures Step(w, op).pool.lp == w.pool.lp && Step(w, op).pool.totalLp == w.pool.totalLp
  {
    UpdateFrame(w.pool, w.now);
    if op.OpClaim? && ClaimRewards(w.pool, w.now, op.user).Some? { ClaimEffect(w.pool, w.now, op.user); }
    hide Updated, Amm.Swap, ClaimRewards;
  }

  /** The reward half of the invariant, as preserved by each kind of step. */
  ghost predicate Rewarded(w: World) {
    LpLedger(w.pool) && RewardBooks(w.pool) && Backed(w)
  }

  /** Settling the clock alone keeps the reward books backed. */
  lemma UpdateKeepsBacked(w: World)
    requires Rewarded(w)
    ensures var q := Updated(w.pool, w.now);
      && RewardBooks(q) && Backed(World(q, w.now, w.paid, w.roundings))
      && 0 <= q.acc && forall u :: 0 <= Get(q.lp, u)
  {
    UpdateBooks(w.pool, w.now);
    UpdateOwed(w.pool, w.now);
    UpdateFrame(w.pool, w.now);
    hide Updated, Owed, Distributed;
  }

  lemma ClaimKeepsBacked(w: World, user: Address)
    requires Rewarded(w)
    requires ClaimRewards(w.pool, w.now, user).Some?
    ensures var (r, paid) := ClaimRewards(w.pool, w.now, user).value;
      RewardBooks(r) && Backed(World(r, w.now, w.paid + paid, w.roundings + if paid == 0 then 1 else 0))
  {
    var p := w.pool;
    ClaimEffect(p, w.now, user);
    var q := Updated(p, w.now);
    UpdateKeepsBacked(w);
    hide ClaimRewards, Updated, Entitled, Due, Reward, RewardBooks, Owed, Distributed, LpLedger;
    var r := ClaimRewards(p, w.now, user).value.0;
    var d := Entitled(Get(q.lp, user), q.acc);
    var settled := q.(debt := q.debt[user := d]);
    BooksFrame(settled, r);
    EntitledBounds(Get(q.lp, user), q.acc);
    if user in q.lp {
      assert q.lp[user := q.lp[user]] == q.lp;
      SettleOwed(q, user, q.lp[user]);
    } else {
      OwedIgnoresStrangers(q, user, d);
    }
  }

  /** Writing the debt of somebody without an LP record owes nobody anything. */
  lemma OwedIgnoresStrangers(p: Pool, user: Address, d: int)
    requires user !in p.lp && 0 <= d
    ensures var q := p.(debt := p.debt[user := d]);
      Owed(q) == Owed(p) && Distributed(q) == Distributed(p) && (RewardBooks(p) ==> RewardBooks(q))
  {}

  lemma AddKeepsBacked(w: World, user: Address, x: int, s: int)
    requires Rewarded(w)
    requires AddLiquidity(w.pool, w.now, user, x, s).Some?
    ensures var r := AddLiquidity(w.pool, w.now, user, x, s).value.0;
      RewardBooks(r) && Backed(World(r, w.now, w.paid, w.roundings + 1))
  {
    var p := w.pool;
    hide AddLiquidity, Updated, Entitled, Due, Reward, RewardBooks, Owed, Distributed, LpLedger;
    UpdateKeepsBacked(w);
    UpdateFrame(p, w.now);
    AddBooks(p, w.now, user, x, s);
    var q := Updated(p, w.now);
    var (r, minted) := AddLiquidity(p, w.now, user, x, s).value;
    var lp := Get(q.lp, user) + minted;
    SettleOwed(q, user, lp);
    BooksFrame(Positioned(q, user, lp), r);
  }

  /** Paying what a position is due and re-entering with fewer shares costs at most one rounding. */
  lemma SettleAndShrink(q: Pool, user: Address, lp: int)
    requires RewardBooks(q) && user in q.lp && 0 <= lp <= q.lp[user]
    ensures var due := Entitled(q.lp[user], q.acc) - Get(q.debt, user);
      && Sum(Owed(Positioned(q, user, lp))) <= Sum(Owed(q)) + PRECISION - 1 - PRECISION * Max(0, due)
      && (q.program.None? ==> due <= 0)
  {
    var held := q.lp[user];
    EntitledBounds(held, q.acc);
    EntitledBounds(lp, q.acc);
    OwedAt(q, user);
    assert q.acc == 0 ==> held * q.acc == 0;
    OwedUpdate(q, user, lp, Entitled(lp, q.acc));
    hide Entitled, Owed;
  }

  lemma RemoveKeepsBacked(w: World, user: Address, amount: int)
    requires Rewarded(w)
    requires RemoveLiquidity(w.pool, w.now, user, amount).Some?
    ensures var r := RemoveLiquidity(w.pool, w.now, user, amount).value.0;
      var paid := AutoClaim(Updated(w.pool, w.now), user).value.1;
      RewardBooks(r) && Backed(World(r, w.now, w.paid + paid, w.roundings + 1))
  {
    var p := w.pool;
    hide RemoveLiquidity, Updated, Entitled, Due, Reward, AutoClaim, RewardBooks, Owed, Distributed, LpLedger;
    UpdateKeepsBacked(w);
    UpdateFrame(p, w.now);
    RemoveBooks(p, w.now, user, amount);
    var q := Updated(p, w.now);
    var lp := q.lp[user] - amount;
    SettleOwed(q, user, lp);
    SettleAndShrink(q, user, lp);
    BooksFrame(Positioned(q, user, lp), RemoveLiquidity(p, w.now, user, amount).value.0);
  }

  /** Replacing the program clears the accumulator, so stale debts owe nothing under the new one. */
  lemma ProgramKeepsBacked(w: World, actor: Address, asset: Address, rate: int, total: int, start: int, end: int)
    requires Rewarded(w)
    requires SetMiningProgram(w.pool, w.now, actor, asset, rate, total, start, end).Some?
    ensures var r := SetMiningProgram(w.pool, w.now, actor, asset, rate, total, start, end).value.0;
      RewardBooks(r) && Backed(World(r, w.now, 0, 0))
  {
    UpdateBooks(w.pool, w.now);
    UpdateFrame(w.pool, w.now);
    hide Updated;
    var r := SetMiningProgram(w.pool, w.now, actor, asset, rate, total, start, end).value.0;
    forall u | u in r.lp
      ensures Owed(r)[u] == 0
    {
      assert r.lp[u] * 0 == 0;
    }
    AllZero(Owed(r));
  }

  lemma RewardStep(w: World, op: Op)
    requires Rewarded(w)
    ensures RewardBooks(Step(w, op).pool) && Backed(Step(w, op))
  {
    hide Updated, AddLiquidity, RemoveLiquidity, ClaimRewards, AutoClaim, RewardBooks, Backed, SetMiningProgram;
    var p := w.pool;
    match op
    case OpProgram(actor, asset, rate, total, start, end) =>
      if SetMiningProgram(p, w.now, actor, asset, rate, total, start, end).Some? {
        ProgramKeepsBacked(w, actor, asset, rate, total, start, end);
      }
    case OpClaim(user) => if ClaimRewards(p, w.now, user).Some? { ClaimKeepsBacked(w, user); }
    case OpAdd(user, x, s) => if AddLiquidity(p, w.now, user, x, s).Some? { AddKeepsBacked(w, user, x, s); }
    case OpRemove(user, lp) => if RemoveLiquidity(p, w.now, user, lp).Some? { RemoveKeepsBacked(w, user, lp); }
    case _ => QuietStep(w, op);
  }

  /** Swaps, fee collection, funding and time leave the reward books alone. */
  lemma QuietStep(w: World, op: Op)
    requires !op.OpProgram? && !op.OpClaim? && !op.OpAdd? && !op.OpRemove?
    requires RewardBooks(w.pool) && Backed(w)
    ensures RewardBooks(Step(w, op).pool) && Backed(Step(w, op))
  {
    QuietFrame(w, op);
    var v := Step(w, op);
    hide Step;
    BooksFrame(w.pool, v.pool);
  }

  lemma QuietFrame(w: World, op: Op)
    requires !op.OpProgram? && !op.OpClaim? && !op.OpAdd? && !op.OpRemove?
    ensures var v := Step(w, op);
      && v.paid == w.paid && v.roundings == w.roundings
      && v.pool.lp == w.pool.lp && v.pool.debt == w.pool.debt && v.pool.acc == w.pool.acc
      && v.pool.last == w.pool.last && v.pool.program == w.pool.program && v.pool.totalLp == w.pool.totalLp
  {
    hide Amm.Swap;
  }

  lemma CustodyStep(w: World, op: Op)
    requires Custody(w.pool)
    ensures Custody(Step(w, op).pool)
  {
    var p := w.pool;
    UpdateFrame(p, w.now);
    match op
    case OpAdd(user, x, s) =>
      if AddLiquidity(p, w.now, user, x, s).Some? { AddReserves(p, w.now, user, x, s); hide AddLiquidity, Updated; }
    case OpRemove(user, lp) =>
      if RemoveLiquidity(p, w.now, user, lp).Some? { RemoveReserves(p, w.now, user, lp); hide RemoveLiquidity, Updated; }
    case OpClaim(user) =>
      if ClaimRewards(p, w.now, user).Some? { ClaimEffect(p, w.now, user); hide ClaimRewards, Updated; }
    case _ =>
      hide Updated, Amm.SwapOut, Amm.AfterFee;
  }

  // ---------- reserves ----------

  /** What a swap that goes through needs to leave its incoming reserve positive: the protocol's part of the fee stays below
      reserve and input together. */
  predicate CutCovered(p: Pool, reserveIn: int, amount: int) {
    (amount - Amm.AfterFee(amount, p.feeBps)) * p.protocolBps < p.feeBps * (reserveIn + amount)
  }

  predicate SwapCovered(p: Pool, op: Op) {
    match op
    case OpSwapXlm(user, amount, minOut) => SwapXlmToSxlm(p, user, amount, minOut).Some? ==> CutCovered(p, p.reserveXlm, amount)
    case OpSwapSxlm(user, amount, minOut) => SwapSxlmToXlm(p, user, amount, minOut).Some? ==> CutCovered(p, p.reserveSxlm, amount)
    case _ => true
  }

  /** While the protocol's share is at most the swap fee every swap is covered. */
  lemma ShareWithinFeeIsCovered(p: Pool, op: Op)
    requires Reserves(p) && p.protocolBps <= p.feeBps
    ensures SwapCovered(p, op)
  {
    hide Amm.Swap, CutCovered;
    if op.OpSwapXlm? && SwapXlmToSxlm(p, op.user, op.amount, op.minOut).Some? {
      WithinFee(p, p.reserveXlm, p.reserveSxlm, op.amount, op.minOut);
    }
    if op.OpSwapSxlm? && SwapSxlmToXlm(p, op.user, op.amount, op.minOut).Some? {
      WithinFee(p, p.reserveSxlm, p.reserveXlm, op.amount, op.minOut);
    }
  }

  lemma WithinFee(p: Pool, rIn: int, rOut: int, amount: int, minOut: int)
    requires 0 <= p.protocolBps <= p.feeBps && 0 <= rIn
    requires Amm.Swap(rIn, rOut, amount, minOut, p.feeBps, p.protocolBps).Some?
    ensures CutCovered(p, rIn, amount)
  {
    Amm.SwapKeepsReserve(rIn, rOut, amount, minOut, p.feeBps, p.protocolBps);
    hide Amm.Swap, Amm.AfterFee;
  }

  /** A call keeps supply and reserves positive together if and only if it is not an uncovered swap. */
  lemma ReservesStep(w: World, op: Op)
    requires LpLedger(w.pool) && Reserves(w.pool)
    ensures Reserves(Step(w, op).pool) <==> SwapCovered(w.pool, op)
  {
    var p := w.pool;
    match op
    case OpAdd(user, x, s) =>
      if AddLiquidity(p, w.now, user, x, s).Some? {
        AddReserves(p, w.now, user, x, s);
        hide AddLiquidity, Amm.Mint;
        Amm.MintTakesAtMostOffered(p.reserveXlm, p.reserveSxlm, p.totalLp, x, s);
      }
    case OpRemove(user, lp) =>
      if RemoveLiquidity(p, w.now, user, lp).Some? {
        RemoveReserves(p, w.now, user, lp);
        SumMember(p.lp, user);
        hide RemoveLiquidity, Amm.Burn;
        Amm.BurnKeepsShareValue(p.reserveXlm, p.reserveSxlm, p.totalLp, lp);
      }
    case OpSwapXlm(user, amount, minOut) => SwapReserves(w, op);
    case OpSwapSxlm(user, amount, minOut) => SwapReserves(w, op);
    case _ => OtherReserves(w, op);
  }

  lemma SwapReserves(w: World, op: Op)
    requires op.OpSwapXlm? || op.OpSwapSxlm?
    requires Reserves(w.pool)
    ensures Reserves(Step(w, op).pool) <==> SwapCovered(w.pool, op)
  {
    var p := w.pool;
    hide Amm.Swap, Amm.AfterFee;
    if op.OpSwapXlm? && SwapXlmToSxlm(p, op.user, op.amount, op.minOut).Some? {
      SwapNeedsReserves(p.reserveXlm, p.reserveSxlm, op.amount, op.minOut, p.feeBps, p.protocolBps);
      Amm.SwapKeepsReserve(p.reserveXlm, p.reserveSxlm, op.amount, op.minOut, p.feeBps, p.protocolBps);
    }
    if op.OpSwapSxlm? && SwapSxlmToXlm(p, op.user, op.amount, op.minOut).Some? {
      SwapNeedsReserves(p.reserveSxlm, p.reserveXlm, op.amount, op.minOut, p.feeBps, p.protocolBps);
      Amm.SwapKeepsReserve(p.reserveSxlm, p.reserveXlm, op.amount, op.minOut, p.feeBps, p.protocolBps);
    }
  }

  lemma SwapNeedsReserves(rIn: int, rOut: int, amount: int, minOut: int, feeBps: int, protocolBps: int)
    requires Amm.Swap(rIn, rOut, amount, minOut, feeBps, protocolBps).Some?
    ensures rIn > 0 && rOut > 0
  {}

  lemma OtherReserves(w: World, op: Op)
    requires !op.OpAdd? && !op.OpRemove? && !op.OpSwapXlm? && !op.OpSwapSxlm?
    requires Reserves(w.pool)
    ensures Reserves(Step(w, op).pool)
  {
    UpdateFrame(w.pool, w.now);
    if op.OpClaim? && ClaimRewards(w.pool, w.now, op.user).Some? { ClaimEffect(w.pool, w.now, op.user); }
    hide Updated, ClaimRewards;
  }

  /** With a fee of at most 100% no divisor an entry point reaches is zero, except the fee itself in a pool without one. */
  lemma NoZeroDivisor(p: Pool, user: Address, amount: int)
    requires LpLedger(p) && Reserves(p) && amount > 0
    ensures p.totalLp != 0 ==> p.reserveXlm > 0 && p.reserveSxlm > 0
    ensures Get(p.lp, user) >= amount ==> p.totalLp > 0
    ensures p.reserveXlm > 0 && p.feeBps <= BPS ==> p.reserveXlm + Amm.AfterFee(amount, p.feeBps) > 0
    ensures p.reserveSxlm > 0 && p.feeBps <= BPS ==> p.reserveSxlm + Amm.AfterFee(amount, p.feeBps) > 0
  {
    SumMember(p.lp, user);
    TotalNonneg(p);
    if p.feeBps <= BPS {
      MulMono(p.feeBps, BPS, amount);
      Floor(amount * (BPS - p.feeBps), BPS);
    }
  }

  // ---------- runs ----------

  lemma {:induction false} RunKeepsInv(w: World, ops: seq<Op>)
    requires Inv(w)
    ensures Inv(Run(w, ops))
    decreases |ops|
  {
    if ops != [] {
      LedgerStep(w, ops[0]);
      RewardStep(w, ops[0]);
      CustodyStep(w, ops[0]);
      hide Step, Custody, LpLedger, RewardBooks, Backed;
      RunKeepsInv(Step(w, ops[0]), ops[1..]);
    }
  }

  /** Every swap of the run that goes through is covered. */
  ghost predicate SwapsCovered(w: World, ops: seq<Op>)
    decreases |ops|
  {
    ops == [] || (SwapCovered(w.pool, ops[0]) && SwapsCovered(Step(w, ops[0]), ops[1..]))
  }

  /** Supply and reserves are positive together in every state of the run. */
  ghost predicate ReservesThroughout(w: World, ops: seq<Op>)
    decreases |ops|
  {
    Reserves(w.pool) && (ops == [] || ReservesThroughout(Step(w, ops[0]), ops[1..]))
  }

  /** From deployment on, supply is positive exactly with both reserves throughout a run if and only if every swap that goes
      through is covered. */
  lemma {:induction false} RunKeepsReserves(w: World, ops: seq<Op>)
    requires LpLedger(w.pool) && Reserves(w.pool)
    ensures ReservesThroughout(w, ops) <==> SwapsCovered(w, ops)
    ensures LpLedger(Run(w, ops).pool) && (SwapsCovered(w, ops) ==> Reserves(Run(w, ops).pool))
    decreases |ops|
  {
    if ops != [] {
      var v := Step(w, ops[0]);
      LedgerStep(w, ops[0]);
      ReservesStep(w, ops[0]);
      assert ReservesThroughout(v, ops[1..]) ==> Reserves(v.pool);
      hide Step, LpLedger, Reserves, SwapCovered;
      if Reserves(v.pool) { RunKeepsReserves(v, ops[1..]); } else { RunKeepsLedger(v, ops[1..]); }
    }
  }

  lemma {:induction false} RunKeepsLedger(w: World, ops: seq<Op>)
    requires LpLedger(w.pool)
    ensures LpLedger(Run(w, ops).pool)
    decreases |ops|
  {
    if ops != [] {
      LedgerStep(w, ops[0]);
      hide Step, LpLedger;
      RunKeepsLedger(Step(w, ops[0]), ops[1..]);
    }
  }

  /** The freshly deployed contract satisfies every invariant; the fee is an unsigned number. */
  lemma InitialInv(admin: Address, feeBps: int, now: int, xlm: map<Address, int>, sxlm: map<Address, int>, rewards: map<Address, Purse>)
    ensures var w := Initial(admin, feeBps, now, xlm, sxlm, rewards);
      Inv(w) && (0 <= feeBps ==> Reserves(w.pool))
  {}

  /** What the books of one state guarantee about money. */
  ghost predicate Solvent(w: World) {
    && PRECISION * w.paid + Sum(Owed(w.pool)) <= PRECISION * Distributed(w.pool) + (PRECISION - 1) * w.roundings
    && w.paid <= Distributed(w.pool) + w.roundings
    && (w.roundings > 0 ==> w.paid < Distributed(w.pool) + w.roundings)
    && (w.pool.program.Some? ==>
          var g := w.pool.program.value;
          g.distributed <= g.total && g.distributed <= g.rate * (LastTime(w.pool, g) - g.start))
  }

  /** Reward solvency of the current program in every reachable state, across any number of replacements. */
  lemma RewardSolvency(w0: World, ops: seq<Op>)
    requires Inv(w0)
    ensures Solvent(Run(w0, ops))
  {
    hide *;
    RunKeepsInv(w0, ops);
    InvMeansSolvent(Run(w0, ops));
  }

  lemma InvMeansSolvent(w: World)
    requires Inv(w)
    ensures Solvent(w)
  {
    OwedNonneg(w.pool);
    hide Owed, Distributed, LpLedger, Custody;
  }

  lemma OwedNonneg(p: Pool)
    ensures 0 <= Sum(Owed(p))
  {
    SumNonneg(Owed(p));
  }

  // ---------- emission ----------

  /** Two consecutive windows book together what the joint window books. */
  lemma RewardSplits(p: Pool, t1: int, t2: int)
    requires RewardBooks(p) && p.totalLp > 0 && p.program.Some?
    requires p.last.value < t1 < t2 && t1 < p.program.value.end
    ensures var g, mid := p.program.value, Updated(p, t1);
      && mid == p.(acc := mid.acc, last := Some(t1), program := Some(g.(distributed := g.distributed + Reward(p, g, t1))))
      && 0 <= Reward(p, g, t1) && 0 <= Reward(mid, mid.program.value, t2)
      && Reward(p, g, t1) + Reward(mid, mid.program.value, t2) == Reward(p, g, t2)
  {
    var g, last := p.program.value, p.last.value;
    var e := Min(t2, g.end);
    assert g.rate * (e - last) == g.rate * (t1 - last) + g.rate * (e - t1);
    MulMono(0, t1 - last, g.rate);
    MulMono(0, e - t1, g.rate);
  }

  lemma AccrualSplits(r1: int, r2: int, total: int)
    requires 0 <= r1 && 0 <= r2 && 0 < total
    ensures var twice, once := TDiv(r1 * PRECISION, total) + TDiv(r2 * PRECISION, total), TDiv((r1 + r2) * PRECISION, total);
      0 <= twice <= once <= twice + 1
  {
    Floor(r1 * PRECISION, total);
    Floor(r2 * PRECISION, total);
    Floor((r1 + r2) * PRECISION, total);
    FloorSplit(r1 * PRECISION, r2 * PRECISION, total);
  }

  lemma EmissionSplits(p: Pool, t1: int, t2: int)
    requires RewardBooks(p) && p.totalLp > 0 && p.program.Some?
    requires p.last.value < t1 < t2 && t1 < p.program.value.end
    ensures var twice, once := Updated(Updated(p, t1), t2), Updated(p, t2);
      && twice == once.(acc := twice.acc)
      && twice.acc <= once.acc <= twice.acc + 1
  {
    var g, mid := p.program.value, Updated(p, t1);
    RewardSplits(p, t1, t2);
    AccrualSplits(Reward(p, g, t1), Reward(mid, mid.program.value, t2), p.totalLp);
    hide Reward, TDiv;
  }

  /** Updating at t1 and again at t2 books exactly what one update at t2 books; the accumulators differ by at most 1. */
  lemma EmissionPathIndependent(p: Pool, t1: int, t2: int)
    requires LpLedger(p) && RewardBooks(p) && p.totalLp > 0 && t1 <= t2
    ensures var twice, once := Updated(Updated(p, t1), t2), Updated(p, t2);
      && twice == once.(acc := twice.acc)
      && twice.acc <= once.acc <= twice.acc + 1
  {
    if p.program.Some? {
      if p.last.value < t1 < t2 && t1 < p.program.value.end {
        EmissionSplits(p, t1, t2);
      }
      hide Reward, LpLedger, TDiv;
    }
  }

  /** The projection is the accumulator a mutating update would store. */
  lemma ProjectionIsUpdate(p: Pool, now: int)
    ensures ProjectedAcc(p, now) == Updated(p, now).acc
  {}

  /** `pending_rewards` announces exactly what `claim_rewards` pays, and the claim fails only for lack of reward tokens. */
  lemma PendingIsPaid(p: Pool, now: int, user: Address)
    requires LpLedger(p) && RewardBooks(p)
    ensures var pending := PendingRewards(p, now, user);
      match ClaimRewards(p, now, user)
      case Some(r) => r.1 == pending
      case None => p.program.Some? && RewardPurse(p, p.program.value.asset).held < pending
  {
    ProjectionIsUpdate(p, now);
    UpdateFrame(p, now);
    UpdateBooks(p, now);
    AssetStays(p, now);
    var q := Updated(p, now);
    assert Get(q.lp, user) > 0 && q.program.None? ==> Get(q.lp, user) * q.acc == 0;
    hide Updated, ProjectedAcc;
  }

  lemma AssetStays(p: Pool, now: int)
    ensures p.program.Some? ==> Updated(p, now).program.Some? && Updated(p, now).program.value.asset == p.program.value.asset
  {}

  lemma PendingWithinOwed(p: Pool, now: int, user: Address)
    requires LpLedger(p) && RewardBooks(p) && user in p.lp
    ensures PRECISION * PendingRewards(p, now, user) <= Owed(Updated(p, now))[user]
  {}

  ghost function AllPending(p: Pool, now: int): map<Address, int> {
    map u | u in p.lp :: PendingRewards(p, now, u)
  }

  lemma AllPendingWithinOwed(p: Pool, now: int)
    requires LpLedger(p) && RewardBooks(p)
    ensures PRECISION * Sum(AllPending(p, now)) <= Sum(Owed(Updated(p, now)))
  {
    var owed := Owed(Updated(p, now));
    var pending := AllPending(p, now);
    forall u | u in p.lp
      ensures PRECISION * pending[u] <= owed[u]
    {
      PendingWithinOwed(p, now, u);
    }
    UpdateFrame(p, now);
    hide Updated, PendingRewards, RewardBooks, LpLedger, Due;
    SumScaled(pending, owed, PRECISION);
  }

  /** What all holders together see as pending, plus what was paid, stays within the distribution and its roundings. */
  lemma AllPendingCovered(w: World)
    requires Rewarded(w)
    ensures w.paid + Sum(AllPending(w.pool, w.now)) <= Distributed(Updated(w.pool, w.now)) + w.roundings
  {
    UpdateOwed(w.pool, w.now);
    AllPendingWithinOwed(w.pool, w.now);
    hide Updated, AllPending, Owed, Distributed, RewardBooks, LpLedger;
  }

  /** A contract holding what is distributed but unpaid, plus one unit per rounding, never refuses a claim. */
  lemma FundedClaimsSucceed(w: World, user: Address)
    requires Rewarded(w) && w.pool.program.Some?
    requires RewardPurse(w.pool, w.pool.program.value.asset).held >= Distributed(Updated(w.pool, w.now)) + w.roundings - w.paid
    ensures ClaimRewards(w.pool, w.now, user).Some?
  {
    PendingIsPaid(w.pool, w.now, user);
    AllPendingCovered(w);
    SumMember(AllPending(w.pool, w.now), user);
    hide ClaimRewards, Updated, ProjectedAcc;
  }

  // ---------- what a holder is owed at least ----------

  /** The operation leaves the user's position and the program as they are. */
  predicate LeavesAlone(op: Op, user: Address) {
    match op
    case OpProgram(_, _, _, _, _, _) => false
    case OpClaim(u) => u != user
    case OpAdd(u, _, _) => u != user
    case OpRemove(u, _) => u != user
    case _ => true
  }

  /** The reward one operation books. */
  ghost function Booked(w: World, op: Op): int {
    Distributed(Step(w, op).pool) - Distributed(w.pool)
  }

  /** The floored share of that reward for `lp` of all shares, in units of 1/PRECISION, less the rounding of the accumulator. */
  ghost function FairShare(w: World, op: Op, lp: int): int {
    if Booked(w, op) > 0 && w.pool.totalLp > 0 then (lp * (Booked(w, op) * PRECISION)) / w.pool.totalLp - lp else 0
  }

  ghost function FairShares(w: World, ops: seq<Op>, lp: int): int
    decreases |ops|
  {
    if ops == [] then 0 else FairShare(w, ops[0], lp) + FairShares(Step(w, ops[0]), ops[1..], lp)
  }

  lemma ShareOfAccrual(lp: int, reward: int, total: int)
    requires lp >= 0 && reward > 0 && total > 0
    ensures (lp * (reward * PRECISION)) / total - lp <= lp * TDiv(reward * PRECISION, total)
  {
    var n := reward * PRECISION;
    Floor(n, total);
    var q := n / total;
    assert (q + 1) * total == q * total + total;
    MulMono(n, (q + 1) * total, lp);
    assert lp * ((q + 1) * total) == (lp * q + lp) * total;
    MulMono(0, n, lp);
    MulMono(0, q, lp);
    FloorMono(lp * n, (lp * q + lp) * total, total);
    FloorUnique((lp * q + lp) * total, total, lp * q + lp);
  }

  /** The accumulator after any operation but a program change is that of a pool update or the old one. */
  lemma AccrualStep(w: World, op: Op, user: Address)
    requires LeavesAlone(op, user)
    ensures var q := Step(w, op).pool;
      && Get(q.lp, user) == Get(w.pool.lp, user) && Get(q.debt, user) == Get(w.pool.debt, user)
      && ((q.acc == w.pool.acc && q.program == w.pool.program)
          || (q.acc == Updated(w.pool, w.now).acc && q.program == Updated(w.pool, w.now).program))
  {
    var p := w.pool;
    UpdateFrame(p, w.now);
    match op
    case OpClaim(u) => if ClaimRewards(p, w.now, u).Some? { ClaimEffect(p, w.now, u); } hide ClaimRewards, Updated, Entitled;
    case OpAdd(u, x, s) => if AddLiquidity(p, w.now, u, x, s).Some? { AddBooks(p, w.now, u, x, s); } hide AddLiquidity, Updated, Entitled;
    case OpRemove(u, lp) =>
      if RemoveLiquidity(p, w.now, u, lp).Some? { RemoveBooks(p, w.now, u, lp); }
      hide RemoveLiquidity, Updated, Entitled, AutoClaim;
    case _ => QuietFrame(w, op); hide Step, Updated;
  }

  lemma UpdateAccrues(p: Pool, now: int)
    requires LpLedger(p) && RewardBooks(p)
    ensures var q := Updated(p, now); var r := Distributed(q) - Distributed(p);
      && 0 <= r
      && (r > 0 ==> p.totalLp > 0 && q.acc == p.acc + TDiv(r * PRECISION, p.totalLp))
      && (r == 0 ==> q.acc == p.acc)
  {
    TotalNonneg(p);
    hide TDiv, LpLedger;
  }

  lemma FairGain(lp: int, before: int, after: int, reward: int, total: int)
    requires 0 <= lp && 0 <= reward
    requires if reward > 0 then total > 0 && after == before + TDiv(reward * PRECISION, total) else after == before
    ensures lp * after >= lp * before + if reward > 0 then (lp * (reward * PRECISION)) / total - lp else 0
  {
    if reward > 0 {
      ShareOfAccrual(lp, reward, total);
      assert lp * after == lp * before + lp * TDiv(reward * PRECISION, total);
    }
  }

  lemma FairStep(w: World, op: Op, user: Address)
    requires Rewarded(w) && LeavesAlone(op, user)
    ensures var lp, q := Get(w.pool.lp, user), Step(w, op).pool;
      && Get(q.lp, user) == lp && Get(q.debt, user) == Get(w.pool.debt, user)
      && lp * q.acc >= lp * w.pool.acc + FairShare(w, op, lp)
  {
    hide Step, Updated, LpLedger, RewardBooks, Backed, TDiv;
    AccrualStep(w, op, user);
    UpdateAccrues(w.pool, w.now);
    HolderNonneg(w.pool, user);
    FairGain(Get(w.pool.lp, user), w.pool.acc, Step(w, op).pool.acc, Booked(w, op), w.pool.totalLp);
  }

  lemma HolderNonneg(p: Pool, user: Address)
    requires LpLedger(p)
    ensures 0 <= Get(p.lp, user)
  {
    hide Sum;
  }

  /** A holder who stays put, whatever everybody else does meanwhile, is owed at least the floored share of each booked reward:
      what is pending at the end, in units of 1/PRECISION, is short of the earlier entitlement and those shares by less than
      one unit. */
  lemma {:induction false} HolderIsOwed(w: World, ops: seq<Op>, user: Address)
    requires Rewarded(w)
    requires forall i :: 0 <= i < |ops| ==> LeavesAlone(ops[i], user)
    ensures var lp, z := Get(w.pool.lp, user), Run(w, ops);
      && Rewarded(z) && Get(z.pool.lp, user) == lp && Get(z.pool.debt, user) == Get(w.pool.debt, user)
      && lp * z.pool.acc >= lp * w.pool.acc + FairShares(w, ops, lp)
      && (lp > 0 ==>
           PRECISION * (PendingRewards(z.pool, z.now, user) + Get(w.pool.debt, user) + 1) > lp * w.pool.acc + FairShares(w, ops, lp))
    decreases |ops|
  {
    if ops == [] {
      if Get(w.pool.lp, user) > 0 { PendingAtLeast(w.pool, w.now, user); }
      hide PendingRewards, Rewarded;
    } else {
      LedgerStep(w, ops[0]);
      RewardStep(w, ops[0]);
      FairStep(w, ops[0], user);
      hide Step, LpLedger, RewardBooks, Backed, FairShare, PendingRewards;
      HolderIsOwed(Step(w, ops[0]), ops[1..], user);
    }
  }

  /** What is pending is at least what the accumulator already entitles to. */
  lemma PendingAtLeast(p: Pool, now: int, user: Address)
    requires LpLedger(p) && RewardBooks(p) && Get(p.lp, user) > 0
    ensures PRECISION * (PendingRewards(p, now, user) + Get(p.debt, user) + 1) > Get(p.lp, user) * p.acc
  {
    ProjectionIsUpdate(p, now);
    UpdateBooks(p, now);
    var lp, acc := Get(p.lp, user), Updated(p, now).acc;
    hide Updated, ProjectedAcc, LpLedger, Reward;
    MulMono(p.acc, acc, lp);
    EntitledBounds(lp, acc);
    hide Entitled;
  }

  /** Adding liquidity forfeits what the user had pending: nothing is paid, and nothing is pending afterwards. */
  lemma AddForfeitsPending(p: Pool, now: int, user: Address, x: int, s: int)
    requires AddLiquidity(p, now, user, x, s).Some?
    ensures var q := AddLiquidity(p, now, user, x, s).value.0;
      && q.rewards == p.rewards && PendingRewards(q, now, user) == 0
      && (PendingRewards(q, now, user) == PendingRewards(p, now, user) <==> PendingRewards(p, now, user) == 0)
  {
    UpdateFrame(p, now);
    UpdateSettles(p, now);
    AddBooks(p, now, user, x, s);
    AddPaysNoReward(p, now, user, x, s);
    var q := AddLiquidity(p, now, user, x, s).value.0;
    hide AddLiquidity, Updated, Entitled, TDiv;
  }

  lemma AddPaysNoReward(p: Pool, now: int, user: Address, x: int, s: int)
    requires AddLiquidity(p, now, user, x, s).Some?
    ensures AddLiquidity(p, now, user, x, s).value.0.rewards == p.rewards
  {
    UpdateFrame(p, now);
    hide Updated, Amm.Mint, Entitled;
  }

  /** After an update nothing more accrues at the same moment, whatever the share total. */
  lemma UpdateSettles(p: Pool, now: int)
    ensures var q := Updated(p, now);
      q.program.None? || now <= LastTime(q, q.program.value) || LastTime(q, q.program.value) >= q.program.value.end
  {}

  /** Depositing and then withdrawing exactly the minted shares, at any later time, returns at most the deposit. */
  lemma DepositRoundTrip(p: Pool, now: int, later: int, user: Address, x: int, s: int)
    requires Amm.Sound(p.reserveXlm, p.reserveSxlm, p.totalLp)
    requires AddLiquidity(p, now, user, x, s).Some?
    ensures var (q, lp) := AddLiquidity(p, now, user, x, s).value;
      var takenXlm, takenSxlm := q.xlm.held - p.xlm.held, q.sxlm.held - p.sxlm.held;
      && 0 < takenXlm <= x && 0 < takenSxlm <= s
      && match RemoveLiquidity(q, later, user, lp)
         case None => true
         case Some(r) => 0 < r.1.0 <= takenXlm && 0 < r.1.1 <= takenSxlm
  {
    AddReserves(p, now, user, x, s);
    hide AddLiquidity, Amm.Mint, Amm.Burn;
    Amm.MintTakesAtMostOffered(p.reserveXlm, p.reserveSxlm, p.totalLp, x, s);
    Amm.AddThenRemove(p.reserveXlm, p.reserveSxlm, p.totalLp, x, s);
    var (q, lp) := AddLiquidity(p, now, user, x, s).value;
    if RemoveLiquidity(q, later, user, lp).Some? {
      RemoveReserves(q, later, user, lp);
      hide RemoveLiquidity;
    }
  }
}
