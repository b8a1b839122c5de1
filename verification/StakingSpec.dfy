/** The staking contract as a state and one function per entry point; `None` is a panic. */
module StakingSpec {
  import opened Base
  import opened Arith
  import opened Purses

  const RATE := 10_000_000
  const BPS := 10_000
  const PROTOCOL_FEE_BPS := 1000
  const TARGET_BUFFER_BPS := 500
  const INSTANT_FEE_BPS := 30
  const MINIMUM_INITIAL_DEPOSIT := 1_000
  const MIN_COOLDOWN := 288
  const MAX_COOLDOWN := 2_592_000

  datatype Request = Request(user: Address, amount: int, unlock: int, claimed: bool)

  /** `sxlm` is the share token: its `held` part are the dead shares locked in the contract. */
  datatype Staking = Staking(
    admin: Address,
    staked: int,
    supply: int,
    buffer: int,
    treasury: int,
    cooldown: int,
    paused: bool,
    queue: map<nat, Request>,
    counter: nat,
    xlm: Purse,
    sxlm: Purse)

  function Initial(admin: Address, cooldown: nat, xlm: map<Address, int>): Staking {
    Staking(admin, 0, 0, 0, 0, cooldown, false, map[], 0, Purse(0, xlm), EMPTY)
  }

  function ExchangeRate(s: Staking): int {
    if s.supply == 0 then RATE else TDiv(s.staked * RATE, s.supply)
  }

  /** The value of all shares at the floored exchange rate. */
  function Intrinsic(s: Staking): int
    requires s.supply != 0
  {
    TDiv(s.supply * TDiv(s.staked * RATE, s.supply), RATE)
  }

  predicate Unchecked(s: Staking) { s.supply == 0 || s.staked == 0 }

  /** `check_integrity` does not panic. */
  predicate IntegrityOk(s: Staking) {
    Unchecked(s) || s.xlm.held >= Intrinsic(s)
  }

  function Checked<T>(r: Option<(Staking, T)>): Option<(Staking, T)> {
    if r.Some? && !IntegrityOk(r.value.0) then None else r
  }

  function MintTo(p: Purse, user: Address, amount: int): Purse {
    p.(wallets := p.wallets[user := Get(p.wallets, user) + amount])
  }

  function Burn(p: Purse, user: Address, amount: int): Option<Purse> {
    if amount < 0 || Get(p.wallets, user) < amount then None
    else Some(p.(wallets := p.wallets[user := Get(p.wallets, user) - amount]))
  }

  // ---------- deposits ----------

  function TargetBuffer(staked: int): int { TDiv(staked * TARGET_BUFFER_BPS, BPS) }

  /** The buffer after a deposit of `x` tops it up towards 5% of `staked`. */
  function TopUp(buffer: int, staked: int, x: int): int {
    buffer + Min(Max(TargetBuffer(staked) - buffer, 0), x)
  }

  function FirstDeposit(s: Staking, user: Address, x: int): Option<(Staking, int)> {
    if x < MINIMUM_INITIAL_DEPOSIT then None
    else
      var shares := x - MINIMUM_INITIAL_DEPOSIT;
      var locked := s.sxlm.(held := s.sxlm.held + MINIMUM_INITIAL_DEPOSIT);
      Some((s.(staked := x, supply := x, buffer := TopUp(s.buffer, x, x),
               sxlm := if shares > 0 then MintTo(locked, user, shares) else locked), shares))
  }

  function LaterDeposit(s: Staking, user: Address, x: int): Option<(Staking, int)> {
    if s.staked == 0 then None
    else
      var shares := TDiv(x * s.supply, s.staked);
      if shares <= 0 then None
      else
        Some((s.(staked := s.staked + x, supply := s.supply + shares,
                 buffer := TopUp(s.buffer, s.staked + x, x),
                 sxlm := MintTo(s.sxlm, user, shares)), shares))
  }

  /** The deposit before its closing integrity check; returns the shares announced to the user. */
  function DepositCore(s: Staking, user: Address, x: int): Option<(Staking, int)> {
    if s.paused || x <= 0 then None
    else
      var xlm :- PullIn(s.xlm, user, x);
      var t := s.(xlm := xlm);
      if Unchecked(s) then FirstDeposit(t, user, x) else LaterDeposit(t, user, x)
  }

  function Deposit(s: Staking, user: Address, x: int): Option<(Staking, int)> {
    Checked(DepositCore(s, user, x))
  }

  // ---------- withdrawals ----------

  /** XLM that `amount` shares stand for. */
  function Value(s: Staking, amount: int): int {
    if s.supply == 0 then 0 else TDiv(amount * s.staked, s.supply)
  }

  function RequestCore(s: Staking, ledger: int, user: Address, amount: int): Option<(Staking, int)> {
    var out := Value(s, amount);
    if s.paused || amount <= 0 || s.supply == 0 || out <= 0 then None
    else
      var sxlm :- Burn(s.sxlm, user, amount);
      var t := s.(sxlm := sxlm, supply := s.supply - amount);
      if s.buffer >= out then
        var xlm :- PayOut(s.xlm, user, out);
        Some((t.(buffer := s.buffer - out, staked := s.staked - out, xlm := xlm), out))
      else
        Some((t.(counter := s.counter + 1,
                 queue := s.queue[s.counter := Request(user, out, ledger + s.cooldown, false)]), out))
  }

  function RequestWithdrawal(s: Staking, ledger: int, user: Address, amount: int): Option<(Staking, int)> {
    Checked(RequestCore(s, ledger, user, amount))
  }

  function ClaimWithdrawal(s: Staking, ledger: int, user: Address, id: nat): Option<(Staking, int)> {
    if s.paused || id !in s.queue then None
    else
      var r := s.queue[id];
      if r.user != user || r.claimed || ledger < r.unlock then None
      else
        var xlm :- PayOut(s.xlm, user, r.amount);
        Some((s.(queue := s.queue[id := r.(claimed := true)], staked := s.staked - r.amount, xlm := xlm), r.amount))
  }

  function InstantFee(value: int): int { TDiv(value * INSTANT_FEE_BPS, BPS) }

  function InstantCore(s: Staking, user: Address, amount: int): Option<(Staking, int)> {
    var value := Value(s, amount);
    var payout := value - InstantFee(value);
    if s.paused || amount <= 0 || s.supply == 0 || value <= 0 || payout > s.xlm.held then None
    else
      var sxlm :- Burn(s.sxlm, user, amount);
      var xlm :- PayOut(s.xlm, user, payout);
      Some((s.(supply := s.supply - amount, staked := s.staked - value,
               buffer := s.buffer - Min(payout, s.buffer), sxlm := sxlm, xlm := xlm), payout))
  }

  function InstantWithdraw(s: Staking, user: Address, amount: int): Option<(Staking, int)> {
    Checked(InstantCore(s, user, amount))
  }

  // ---------- rewards, fees, slashing, pause ----------

  function AddRewards(s: Staking, actor: Address, amount: int): Option<(Staking, ())> {
    if actor != s.admin || amount <= 0 then None
    else
      var fee := TDiv(amount * PROTOCOL_FEE_BPS, BPS);
      Some((s.(treasury := s.treasury + fee, staked := s.staked + (amount - fee)), ()))
  }

  function WithdrawFees(s: Staking, actor: Address, amount: int): Option<(Staking, int)> {
    var w := if amount <= 0 then s.treasury else amount;
    if actor != s.admin || w <= 0 || w > s.treasury then None
    else
      var xlm :- PayOut(s.xlm, actor, w);
      Some((s.(treasury := s.treasury - w, xlm := xlm), w))
  }

  function ApplySlashing(s: Staking, actor: Address, amount: int): Option<(Staking, ())> {
    if actor != s.admin || amount <= 0 || amount > s.staked then None
    else Some((s.(staked := s.staked - amount), ()))
  }

  function SetPaused(s: Staking, actor: Address, paused: bool): Option<(Staking, ())> {
    if actor != s.admin then None else Some((s.(paused := paused), ()))
  }

  function TriggerPause(s: Staking): Option<(Staking, ())> {
    if s.supply == 0 || s.staked == 0 then None
    else if s.xlm.held < Intrinsic(s) then Some((s.(paused := true), ()))
    else None
  }

  function AddLiquidity(s: Staking, actor: Address, amount: int): Option<(Staking, ())> {
    if actor != s.admin || amount <= 0 then None
    else
      var xlm :- PullIn(s.xlm, actor, amount);
      Some((s.(buffer := s.buffer + amount, xlm := xlm), ()))
  }

  function SetCooldown(s: Staking, actor: Address, cooldown: int): Option<(Staking, ())> {
    if actor != s.admin || cooldown < MIN_COOLDOWN || cooldown > MAX_COOLDOWN then None
    else Some((s.(cooldown := cooldown), ()))
  }

  /** Share holders trade sXLM among themselves, outside this contract. */
  function TransferShares(s: Staking, from: Address, to: Address, amount: int): Option<(Staking, ())> {
    var burned :- Burn(s.sxlm, from, amount);
    Some((s.(sxlm := MintTo(burned, to, amount)), ()))
  }

  // ---------- runs ----------

  datatype Op =
    | OpDeposit(user: Address, amount: int)
    | OpRequest(user: Address, amount: int)
    | OpClaim(user: Address, id: nat)
    | OpInstant(user: Address, amount: int)
    | OpRewards(actor: Address, amount: int)
    | OpWithdrawFees(actor: Address, amount: int)
    | OpSlash(actor: Address, amount: int)
    | OpPause(actor: Address, paused: bool)
    | OpTrigger
    | OpLiquidity(actor: Address, amount: int)
    | OpCooldown(actor: Address, cooldown: int)
    | OpTransfer(from: Address, to: Address, amount: int)

  function After<T>(s: Staking, r: Option<(Staking, T)>): Staking {
    match r case None => s case Some(v) => v.0
  }

  /** One transaction at the given ledger; a panic leaves everything as it was. */
  function Step(s: Staking, ledger: int, op: Op): Staking {
    match op
    case OpDeposit(user, amount) => After(s, Deposit(s, user, amount))
    case OpRequest(user, amount) => After(s, RequestWithdrawal(s, ledger, user, amount))
    case OpClaim(user, id) => After(s, ClaimWithdrawal(s, ledger, user, id))
    case OpInstant(user, amount) => After(s, InstantWithdraw(s, user, amount))
    case OpRewards(actor, amount) => After(s, AddRewards(s, actor, amount))
    case OpWithdrawFees(actor, amount) => After(s, WithdrawFees(s, actor, amount))
    case OpSlash(actor, amount) => After(s, ApplySlashing(s, actor, amount))
    case OpPause(actor, paused) => After(s, SetPaused(s, actor, paused))
    case OpTrigger => After(s, TriggerPause(s))
    case OpLiquidity(actor, amount) => After(s, AddLiquidity(s, actor, amount))
    case OpCooldown(actor, cooldown) => After(s, SetCooldown(s, actor, cooldown))
    case OpTransfer(from, to, amount) => After(s, TransferShares(s, from, to, amount))
  }

  /** A run is a sequence of operations, each with the ledger it lands in. */
  function Run(s: Staking, ops: seq<(int, Op)>): Staking
    decreases |ops|
  {
    if ops == [] then s else Run(Step(s, ops[0].0, ops[0].1), ops[1..])
  }
}
