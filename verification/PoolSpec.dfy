/** The liquidity pool contract as a state and one function per entry point; `None` is a panic. */
module PoolSpec {
  import opened Base
  import opened Arith
  import opened PoolMath
  import opened Purses
  import Amm

  datatype Program = Program(asset: Address, rate: int, total: int, distributed: int, start: int, end: int)

  datatype Pool = Pool(
    admin: Address,
    feeBps: int,
    protocolBps: int,
    reserveXlm: int,
    reserveSxlm: int,
    totalLp: int,
    lp: map<Address, int>,
    feesXlm: int,
    feesSxlm: int,
    program: Option<Program>,
    acc: int,
    last: Option<int>,
    debt: map<Address, int>,
    xlm: Purse,
    sxlm: Purse,
    rewards: map<Address, Purse>)

  function RewardPurse(p: Pool, asset: Address): Purse {
    if asset in p.rewards then p.rewards[asset] else EMPTY
  }

  function LastTime(p: Pool, g: Program): int {
    if p.last.Some? then p.last.value else g.start
  }

  /** The reward a pool update at `now` would book: 0 outside the window, without shares, or without budget. */
  function Reward(p: Pool, g: Program, now: int): int {
    if now <= LastTime(p, g) || LastTime(p, g) >= g.end || p.totalLp == 0 then 0
    else Max(0, Min(g.rate * (Min(now, g.end) - LastTime(p, g)), g.total - g.distributed))
  }

  function Updated(p: Pool, now: int): Pool {
    match p.program
    case None => p
    case Some(g) =>
      if now <= LastTime(p, g) || LastTime(p, g) >= g.end then p
      else
        var r := Reward(p, g, now);
        var q := p.(last := Some(Min(now, g.end)));
        if r == 0 then q
        else q.(acc := p.acc + TDiv(r * PRECISION, p.totalLp),
                program := Some(g.(distributed := g.distributed + r)))
  }

  /** The read-only projection used by `pending_rewards`. */
  function ProjectedAcc(p: Pool, now: int): int {
    if p.program.None? then p.acc
    else
      var g := p.program.value;
      var last := LastTime(p, g);
      if now <= last || last >= g.end || p.totalLp == 0 then p.acc
      else
        var raw := g.rate * ((if now > g.end then g.end else now) - last);
        var remaining := g.total - g.distributed;
        var reward := if raw > remaining then remaining else raw;
        if reward <= 0 then p.acc else p.acc + TDiv(reward * PRECISION, p.totalLp)
  }

  function Entitled(lp: int, acc: int): int {
    TDiv(lp * acc, PRECISION)
  }

  function PendingRewards(p: Pool, now: int, user: Address): int {
    var lp := Get(p.lp, user);
    if lp == 0 then 0 else Max(0, Entitled(lp, ProjectedAcc(p, now)) - Get(p.debt, user))
  }

  function SetMiningProgram(p: Pool, now: int, actor: Address, asset: Address, rate: int, total: int, start: int, end: int): Option<(Pool, ())> {
    if actor != p.admin || end <= start || rate <= 0 || total <= 0 then None
    else
      Some((Updated(p, now).(
              program := Some(Program(asset, rate, total, 0, start, end)),
              last := Some(start),
              acc := 0), ()))
  }

  function PayReward(p: Pool, asset: Address, user: Address, amount: int): Option<Pool> {
    var purse :- PayOut(RewardPurse(p, asset), user, amount);
    Some(p.(rewards := p.rewards[asset := purse]))
  }

  function ClaimRewards(p: Pool, now: int, user: Address): Option<(Pool, int)> {
    var q := Updated(p, now);
    var lp := Get(q.lp, user);
    var earned := if lp > 0 then Entitled(lp, q.acc) - Get(q.debt, user) else 0;
    var settled := q.(debt := q.debt[user := Entitled(lp, q.acc)]);
    if earned <= 0 then Some((settled, 0))
    else if q.program.None? then None
    else
      var paid :- PayReward(settled, q.program.value.asset, user, earned);
      Some((paid, earned))
  }

  /** `add_liquidity` once rewards are settled. */
  ghost function Deposit(q: Pool, user: Address, x: int, s: int): Option<(Pool, int)> {
    var m :- Amm.Mint(q.reserveXlm, q.reserveSxlm, q.totalLp, x, s);
    var xlm :- PullIn(q.xlm, user, m.xlm);
    var sxlm :- PullIn(q.sxlm, user, m.sxlm);
    var lp := Get(q.lp, user) + m.lp;
    Some((q.(reserveXlm := q.reserveXlm + m.xlm,
             reserveSxlm := q.reserveSxlm + m.sxlm,
             totalLp := q.totalLp + m.lp,
             lp := q.lp[user := lp],
             debt := q.debt[user := Entitled(lp, q.acc)],
             xlm := xlm,
             sxlm := sxlm), m.lp))
  }

  ghost function AddLiquidity(p: Pool, now: int, user: Address, x: int, s: int): Option<(Pool, int)> {
    Deposit(Updated(p, now), user, x, s)
  }

  /** The reward part of a withdrawal: pays what is owed if a program exists. */
  function AutoClaim(q: Pool, user: Address): Option<(Pool, int)> {
    var earned := Entitled(Get(q.lp, user), q.acc) - Get(q.debt, user);
    if earned > 0 && q.program.Some? then
      var paid :- PayReward(q, q.program.value.asset, user, earned);
      Some((paid, earned))
    else Some((q, 0))
  }

  /** `remove_liquidity` once rewards are settled. */
  ghost function Withdraw(q: Pool, user: Address, amount: int): Option<(Pool, (int, int))> {
    if amount <= 0 || Get(q.lp, user) < amount then None
    else
      var a :- AutoClaim(q, user);
      var b :- Amm.Burn(q.reserveXlm, q.reserveSxlm, q.totalLp, amount);
      var xlm :- PayOut(q.xlm, user, b.0);
      var sxlm :- PayOut(q.sxlm, user, b.1);
      var lp := Get(q.lp, user) - amount;
      Some((a.0.(reserveXlm := q.reserveXlm - b.0,
                 reserveSxlm := q.reserveSxlm - b.1,
                 totalLp := q.totalLp - amount,
                 lp := q.lp[user := lp],
                 debt := q.debt[user := Entitled(lp, q.acc)],
                 xlm := xlm,
                 sxlm := sxlm), b))
  }

  ghost function RemoveLiquidity(p: Pool, now: int, user: Address, amount: int): Option<(Pool, (int, int))> {
    Withdraw(Updated(p, now), user, amount)
  }

  function SwapXlmToSxlm(p: Pool, user: Address, amount: int, minOut: int): Option<(Pool, int)> {
    var t :- Amm.Swap(p.reserveXlm, p.reserveSxlm, amount, minOut, p.feeBps, p.protocolBps);
    var xlm :- PullIn(p.xlm, user, amount);
    var sxlm :- PayOut(p.sxlm, user, t.out);
    Some((p.(reserveXlm := t.reserveIn, reserveSxlm := t.reserveOut,
             feesXlm := p.feesXlm + t.cut, xlm := xlm, sxlm := sxlm), t.out))
  }

  function SwapSxlmToXlm(p: Pool, user: Address, amount: int, minOut: int): Option<(Pool, int)> {
    var t :- Amm.Swap(p.reserveSxlm, p.reserveXlm, amount, minOut, p.feeBps, p.protocolBps);
    var sxlm :- PullIn(p.sxlm, user, amount);
    var xlm :- PayOut(p.xlm, user, t.out);
    Some((p.(reserveSxlm := t.reserveIn, reserveXlm := t.reserveOut,
             feesSxlm := p.feesSxlm + t.cut, xlm := xlm, sxlm := sxlm), t.out))
  }

  function CollectXlm(p: Pool, actor: Address): Option<(Pool, int)> {
    if actor != p.admin then None
    else if p.feesXlm <= 0 then Some((p, 0))
    else
      var xlm :- PayOut(p.xlm, actor, p.feesXlm);
      Some((p.(feesXlm := 0, xlm := xlm), p.feesXlm))
  }

  function CollectSxlm(p: Pool, actor: Address): Option<(Pool, int)> {
    if actor != p.admin then None
    else if p.feesSxlm <= 0 then Some((p, 0))
    else
      var sxlm :- PayOut(p.sxlm, actor, p.feesSxlm);
      Some((p.(feesSxlm := 0, sxlm := sxlm), p.feesSxlm))
  }

  function SetProtocolFee(p: Pool, actor: Address, bps: int): Option<(Pool, ())> {
    if actor != p.admin || bps < 0 then None else Some((p.(protocolBps := bps), ()))
  }

  /** Somebody sends reward tokens to the contract, as a program's deployment requires. */
  function FundRewards(p: Pool, asset: Address, from: Address, amount: int): Option<(Pool, ())> {
    var purse :- PullIn(RewardPurse(p, asset), from, amount);
    Some((p.(rewards := p.rewards[asset := purse]), ()))
  }

  // ---------- runs ----------

  datatype Op =
    | OpProgram(actor: Address, asset: Address, rate: int, total: int, start: int, end: int)
    | OpClaim(user: Address)
    | OpAdd(user: Address, x: int, s: int)
    | OpRemove(user: Address, lp: int)
    | OpSwapXlm(user: Address, amount: int, minOut: int)
    | OpSwapSxlm(user: Address, amount: int, minOut: int)
    | OpCollectXlm(actor: Address)
    | OpCollectSxlm(actor: Address)
    | OpProtocolFee(actor: Address, bps: int)
    | OpFund(asset: Address, from: Address, amount: int)
    | OpTick(seconds: nat)

  /** The contract, the ledger clock, and the audit of the current program: rewards paid and roundings taken. */
  datatype World = World(pool: Pool, now: int, paid: int, roundings: nat)

  /** One transaction; a panic leaves everything as it was. */
  ghost function Step(w: World, op: Op): World {
    var p, now := w.pool, w.now;
    match op
    case OpProgram(actor, asset, rate, total, start, end) =>
      (match SetMiningProgram(p, now, actor, asset, rate, total, start, end)
       case None => w
       case Some(q) => w.(pool := q.0, paid := 0, roundings := 0))
    case OpClaim(user) =>
      (match ClaimRewards(p, now, user)
       case None => w
       case Some(r) => World(r.0, now, w.paid + r.1, w.roundings + if r.1 == 0 then 1 else 0))
    case OpAdd(user, x, s) =>
      (match AddLiquidity(p, now, user, x, s)
       case None => w
       case Some(r) => w.(pool := r.0, roundings := w.roundings + 1))
    case OpRemove(user, lp) =>
      (match RemoveLiquidity(p, now, user, lp)
       case None => w
       case Some(r) => World(r.0, now, w.paid + AutoClaim(Updated(p, now), user).value.1, w.roundings + 1))
    case OpSwapXlm(user, amount, minOut) => Plain(w, SwapXlmToSxlm(p, user, amount, minOut))
    case OpSwapSxlm(user, amount, minOut) => Plain(w, SwapSxlmToXlm(p, user, amount, minOut))
    case OpCollectXlm(actor) => Plain(w, CollectXlm(p, actor))
    case OpCollectSxlm(actor) => Plain(w, CollectSxlm(p, actor))
    case OpProtocolFee(actor, bps) => Plain(w, SetProtocolFee(p, actor, bps))
    case OpFund(asset, from, amount) => Plain(w, FundRewards(p, asset, from, amount))
    case OpTick(seconds) => w.(now := now + seconds)
  }

  function Plain<T>(w: World, r: Option<(Pool, T)>): World {
    match r case None => w case Some(v) => w.(pool := v.0)
  }

  ghost function Run(w: World, ops: seq<Op>): World
    decreases |ops|
  {
    if ops == [] then w else Run(Step(w, ops[0]), ops[1..])
  }

  /** The freshly initialized contract, with whatever tokens its future users hold. */
  function Initial(admin: Address, feeBps: int, now: int, xlm: map<Address, int>, sxlm: map<Address, int>, rewards: map<Address, Purse>): World {
    World(Pool(admin, feeBps, 5, 0, 0, 0, map[], 0, 0, None, 0, None, map[], Purse(0, xlm), Purse(0, sxlm), rewards), now, 0, 0)
  }
}
