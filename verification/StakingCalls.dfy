/** What each staking call does, in numbers a caller can check: when it goes through, who pays whom and how much, and how the books
    move; that a queued withdrawal is paid once; and what wallets add up to over whole runs. */
module StakingCalls {
  import opened Base
  import opened Arith
  import opened Purses
  import opened StakingSpec
  import opened StakingProofs

  // ---------- rate and check ----------

  /** The published rate is the stake per share in fixed point, rounded down, and one without shares. */
  lemma RateExactly(s: Staking)
    requires 0 <= s.supply && 0 <= s.staked
    ensures if s.supply == 0 then ExchangeRate(s) == 10_000_000
            else IsFloor(ExchangeRate(s), s.staked * 10_000_000, s.supply)
  {
    if s.supply > 0 { TruncationIsFloor(s.staked * RATE, s.supply); }
    hide TDiv, IsFloor;
  }

  /** The integrity check passes exactly if nothing is staked or the contract holds the shares' worth at the floored rate. */
  lemma CheckExactly(s: Staking, rate: int, worth: int)
    requires 0 < s.supply && 0 <= s.staked
    requires IsFloor(rate, s.staked * 10_000_000, s.supply) && IsFloor(worth, s.supply * rate, 10_000_000)
    ensures IntegrityOk(s) <==> s.staked == 0 || worth <= s.xlm.held
  {
    TruncationIsFloor(s.staked * RATE, s.supply);
    OneFloor(rate, TDiv(s.staked * RATE, s.supply), s.staked * RATE, s.supply);
    MulMono(0, rate, s.supply);
    TruncationIsFloor(s.supply * rate, RATE);
    OneFloor(worth, TDiv(s.supply * rate, RATE), s.supply * rate, RATE);
    hide TDiv, IsFloor;
  }

  /** Shares are worth their part of the stake, rounded down. */
  lemma ValueIs(s: Staking, amount: int, value: int)
    requires 0 < s.supply && 0 <= s.staked && 0 <= amount && IsFloor(value, amount * s.staked, s.supply)
    ensures Value(s, amount) == value
  {
    MulMono(0, s.staked, amount);
    TruncationIsFloor(amount * s.staked, s.supply);
    OneFloor(value, TDiv(amount * s.staked, s.supply), amount * s.staked, s.supply);
  }

  // ---------- deposits ----------

  /** The buffer after a deposit of `x`: topped up towards 5% of the new stake, from this deposit only. */
  ghost predicate ToppedUp(before: int, after: int, staked: int, x: int, target: int) {
    && IsFloor(target, staked * 500, 10_000)
    && after == if target <= before then before else Min(target, before + x)
  }

  lemma TopUpIs(before: int, staked: int, x: int, target: int)
    requires 0 <= staked && 0 <= x && IsFloor(target, staked * 500, 10_000)
    ensures ToppedUp(before, TopUp(before, staked, x), staked, x, target)
  {
    TruncationIsFloor(staked * 500, 10_000);
    OneFloor(target, TDiv(staked * 500, 10_000), staked * 500, 10_000);
    hide TDiv, IsFloor;
  }

  /** Shares came into being in one wallet, and `locked` of them in the contract itself. */
  ghost predicate Minted(p: Purse, q: Purse, user: Address, amount: int, locked: int) {
    && q.held == p.held + locked
    && forall u :: Get(q.wallets, u) == Get(p.wallets, u) + if u == user then amount else 0
  }

  /** A deposit into an empty pool goes through exactly from the minimum up, for an unpaused contract and a user who holds it; the
      user pays it, gets a share per unit but the thousand locked for good, and stake and supply start at it. */
  lemma FirstDepositExactly(s: Staking, user: Address, x: int, target: int)
    requires Unchecked(s) && (x > 0 ==> IsFloor(target, x * 500, 10_000))
    ensures var r := DepositCore(s, user, x);
      && (r.Some? <==> !s.paused && 1_000 <= x <= Get(s.xlm.wallets, user))
      && (r.Some? ==>
           var t := r.value.0;
           && r.value.1 == x - 1_000
           && Pays(s.xlm, t.xlm, user, -x) && Minted(s.sxlm, t.sxlm, user, x - 1_000, 1_000)
           && ToppedUp(s.buffer, t.buffer, x, x, target)
           && t == s.(staked := x, supply := x, buffer := t.buffer, xlm := t.xlm, sxlm := t.sxlm))
  {
    TransfersPay(s.xlm, user, x);
    if x > 0 { TopUpIs(s.buffer, x, x, target); }
    hide TopUp, PullIn, ToppedUp, IsFloor;
  }

  /** A later deposit goes through exactly if it buys a share at the present rate; the user pays it and gets the floored number of
      shares, and stake and supply grow by both. */
  lemma LaterDepositExactly(s: Staking, user: Address, x: int, shares: int, target: int)
    requires 0 < s.supply && 0 < s.staked && 0 < x
    requires IsFloor(shares, x * s.supply, s.staked) && IsFloor(target, (s.staked + x) * 500, 10_000)
    ensures var r := DepositCore(s, user, x);
      && (r.Some? <==> !s.paused && x <= Get(s.xlm.wallets, user) && 0 < shares)
      && (r.Some? ==>
           var t := r.value.0;
           && r.value.1 == shares
           && Pays(s.xlm, t.xlm, user, -x) && Minted(s.sxlm, t.sxlm, user, shares, 0)
           && ToppedUp(s.buffer, t.buffer, s.staked + x, x, target)
           && t == s.(staked := s.staked + x, supply := s.supply + shares, buffer := t.buffer, xlm := t.xlm, sxlm := t.sxlm))
  {
    TransfersPay(s.xlm, user, x);
    TopUpIs(s.buffer, s.staked + x, x, target);
    MulPositive(x, s.supply);
    TruncationIsFloor(x * s.supply, s.staked);
    OneFloor(shares, TDiv(x * s.supply, s.staked), x * s.supply, s.staked);
    hide TopUp, PullIn, ToppedUp, IsFloor, TDiv;
  }

  /** Nothing goes through for nothing: no deposit, request or instant withdrawal without a positive amount, and no redemption from a
      pool without shares, which are then worth nothing. */
  lemma NothingForNothing(s: Staking, ledger: int, user: Address, amount: int)
    ensures amount <= 0 ==> DepositCore(s, user, amount) == None
    ensures amount <= 0 || s.supply == 0 ==> RequestCore(s, ledger, user, amount) == None && InstantCore(s, user, amount) == None
    ensures s.supply == 0 ==> Value(s, amount) == 0
  {
    hide FirstDeposit, LaterDeposit, PullIn, PayOut, Burn, InstantFee;
  }

  /** The calls that end with the integrity check go through exactly if the check then passes. */
  lemma ChecksExactly(s: Staking, ledger: int, user: Address, amount: int)
    ensures var r, c := Deposit(s, user, amount), DepositCore(s, user, amount);
      (r.Some? <==> c.Some? && IntegrityOk(c.value.0)) && (r.Some? ==> r == c)
    ensures var r, c := RequestWithdrawal(s, ledger, user, amount), RequestCore(s, ledger, user, amount);
      (r.Some? <==> c.Some? && IntegrityOk(c.value.0)) && (r.Some? ==> r == c)
    ensures var r, c := InstantWithdraw(s, user, amount), InstantCore(s, user, amount);
      (r.Some? <==> c.Some? && IntegrityOk(c.value.0)) && (r.Some? ==> r == c)
  {
    hide DepositCore, RequestCore, InstantCore, IntegrityOk;
  }

  // ---------- withdrawals ----------

  /** A withdrawal request goes through exactly if the shares are held and worth something, and, from a buffer that covers it, paid.
      With such a buffer the user is paid the value at once, and stake and buffer fall by it. Otherwise a claim of that value is
      queued under the next number, unlocking after the cooldown, and only the supply falls. */
  lemma RequestExactly(s: Staking, ledger: int, user: Address, amount: int, value: int)
    requires 0 < s.supply && 0 <= s.staked && 0 < amount && IsFloor(value, amount * s.staked, s.supply)
    ensures var r := RequestCore(s, ledger, user, amount);
      && (r.Some? <==>
           !s.paused && 0 < value && amount <= Get(s.sxlm.wallets, user) && (value <= s.buffer ==> value <= s.xlm.held))
      && (r.Some? ==>
           var t := r.value.0;
           && r.value.1 == value && Minted(s.sxlm, t.sxlm, user, -amount, 0)
           && if value <= s.buffer
              then
                && Pays(s.xlm, t.xlm, user, value)
                && t == s.(supply := s.supply - amount, staked := s.staked - value, buffer := s.buffer - value, xlm := t.xlm, sxlm := t.sxlm)
              else
                t == s.(supply := s.supply - amount, counter := s.counter + 1, sxlm := t.sxlm,
                        queue := s.queue[s.counter := Request(user, value, ledger + s.cooldown, false)]))
  {
    ValueIs(s, amount, value);
    TransfersPay(s.xlm, user, value);
    hide Value, PayOut, IsFloor;
  }

  /** An instant withdrawal goes through exactly if the shares are held and worth something and the contract holds the payout, which
      is the value less 0.3% rounded down; stake and supply fall by value and shares, the buffer by the payout as far as it goes. */
  lemma InstantExactly(s: Staking, user: Address, amount: int, value: int, fee: int)
    requires 0 < s.supply && 0 <= s.staked && 0 < amount
    requires IsFloor(value, amount * s.staked, s.supply) && IsFloor(fee, value * 30, 10_000) && 0 <= value
    ensures var r := InstantCore(s, user, amount);
      && (r.Some? <==> !s.paused && 0 < value && amount <= Get(s.sxlm.wallets, user) && value - fee <= s.xlm.held)
      && (r.Some? ==>
           var t := r.value.0;
           && r.value.1 == value - fee && Pays(s.xlm, t.xlm, user, value - fee) && Minted(s.sxlm, t.sxlm, user, -amount, 0)
           && t == s.(supply := s.supply - amount, staked := s.staked - value, buffer := s.buffer - Min(value - fee, s.buffer),
                      xlm := t.xlm, sxlm := t.sxlm))
  {
    ValueIs(s, amount, value);
    TruncationIsFloor(value * 30, 10_000);
    OneFloor(fee, TDiv(value * 30, 10_000), value * 30, 10_000);
    FeeBounds(value);
    TransfersPay(s.xlm, user, value - fee);
    hide Value, PayOut, IsFloor, TDiv;
  }

  // ---------- queued withdrawals are paid once ----------

  /** A claim goes through exactly for the queued user, unpaused, from the unlock ledger on, not claimed before, and with the contract
      holding the amount; it pays the queued amount to that user, marks it, and lowers the stake by it. */
  lemma ClaimExactly(s: Staking, ledger: int, user: Address, id: nat)
    ensures var r := ClaimWithdrawal(s, ledger, user, id);
      && (r.Some? <==>
           && !s.paused && id in s.queue
           && var q := s.queue[id];
           q.user == user && !q.claimed && q.unlock <= ledger && 0 <= q.amount <= s.xlm.held)
      && (r.Some? ==>
           var t, q := r.value.0, s.queue[id];
           && r.value.1 == q.amount && Pays(s.xlm, t.xlm, user, q.amount)
           && t == s.(queue := s.queue[id := Request(q.user, q.amount, q.unlock, true)], staked := s.staked - q.amount, xlm := t.xlm))
  {
    if id in s.queue { TransfersPay(s.xlm, user, s.queue[id].amount); }
    hide PayOut;
  }

  /** Queue numbers are below the counter. */
  ghost predicate Numbered(s: Staking) { forall id :: id in s.queue ==> id < s.counter }

  predicate Spent(s: Staking, id: nat) { id in s.queue && s.queue[id].claimed }

  /** One if the operation is a claim of that number that goes through. */
  function Claims(s: Staking, ledger: int, op: Op, id: nat): nat {
    if op.OpClaim? && op.id == id && ClaimWithdrawal(s, ledger, op.user, id).Some? then 1 else 0
  }

  function PaidOn(s: Staking, ledger: int, op: Op, id: nat): int {
    if Claims(s, ledger, op, id) == 1 then ClaimWithdrawal(s, ledger, op.user, id).value.1 else 0
  }

  function TotalClaims(s: Staking, ops: seq<(int, Op)>, id: nat): nat
    decreases |ops|
  {
    if ops == [] then 0 else Claims(s, ops[0].0, ops[0].1, id) + TotalClaims(Step(s, ops[0].0, ops[0].1), ops[1..], id)
  }

  function TotalPaidOn(s: Staking, ops: seq<(int, Op)>, id: nat): int
    decreases |ops|
  {
    if ops == [] then 0 else PaidOn(s, ops[0].0, ops[0].1, id) + TotalPaidOn(Step(s, ops[0].0, ops[0].1), ops[1..], id)
  }

  /** Once queued, a request keeps its user, amount and unlock ledger. */
  ghost predicate SameRequest(s: Staking, t: Staking, id: nat) {
    id in s.queue ==> id in t.queue && t.queue[id] == s.queue[id].(claimed := t.queue[id].claimed)
  }

  lemma ClaimStep(s: Staking, ledger: int, op: Op, id: nat)
    requires Numbered(s)
    ensures var t := Step(s, ledger, op);
      && Numbered(t) && SameRequest(s, t, id)
      && Claims(s, ledger, op, id) == (if Spent(t, id) then 1 else 0) - (if Spent(s, id) then 1 else 0)
      && (Claims(s, ledger, op, id) == 1 ==> id in t.queue && PaidOn(s, ledger, op, id) == t.queue[id].amount)
  {
    hide TDiv, TopUp, IntegrityOk, MintTo, Burn, Value, InstantFee, Intrinsic, PullIn, PayOut;
  }

  /** Over every run, for every number: it is claimed as often as its mark is set in the run, so at most once and never after it was
      marked; all that is ever paid for it is the queued amount, if it is claimed, or nothing. */
  lemma {:induction false} ClaimedOnce(s: Staking, ops: seq<(int, Op)>, id: nat)
    requires Numbered(s)
    ensures var z, claims := Run(s, ops), TotalClaims(s, ops, id);
      && Numbered(z) && SameRequest(s, z, id)
      && claims == (if Spent(z, id) then 1 else 0) - (if Spent(s, id) then 1 else 0)
      && (Spent(s, id) ==> Spent(z, id))
      && TotalPaidOn(s, ops, id) == (if claims == 1 && id in z.queue then z.queue[id].amount else 0)
      && (claims == 1 ==> id in z.queue)
    decreases |ops|
  {
    if ops != [] {
      ClaimStep(s, ops[0].0, ops[0].1, id);
      hide Step, Claims, PaidOn, Numbered;
      ClaimedOnce(Step(s, ops[0].0, ops[0].1), ops[1..], id);
    }
  }

  // ---------- administration ----------

  /** Booked rewards: a tenth, rounded down, to the treasury and the rest to the stake. */
  lemma RewardsExactly(s: Staking, actor: Address, amount: int, fee: int)
    requires amount > 0 ==> IsFloor(fee, amount * 1_000, 10_000)
    ensures var r := AddRewards(s, actor, amount);
      && (r.Some? <==> actor == s.admin && amount > 0)
      && (r.Some? ==> r.value.0 == s.(treasury := s.treasury + fee, staked := s.staked + amount - fee))
  {
    if amount > 0 {
      TruncationIsFloor(amount * 1_000, 10_000);
      OneFloor(fee, TDiv(amount * 1_000, 10_000), amount * 1_000, 10_000);
    }
    hide TDiv, IsFloor;
  }

  /** The rest of the administration: who may do it, within which bounds, and what it moves. */
  lemma AdminExactly(s: Staking, actor: Address, amount: int, paused: bool)
    ensures var r, w := WithdrawFees(s, actor, amount), if amount <= 0 then s.treasury else amount;
      && (r.Some? <==> actor == s.admin && 0 < w <= s.treasury && w <= s.xlm.held)
      && (r.Some? ==>
           r.value.1 == w && Pays(s.xlm, r.value.0.xlm, actor, w) && r.value.0 == s.(treasury := s.treasury - w, xlm := r.value.0.xlm))
    ensures var r := ApplySlashing(s, actor, amount);
      && (r.Some? <==> actor == s.admin && 0 < amount <= s.staked)
      && (r.Some? ==> r.value.0 == s.(staked := s.staked - amount))
    ensures var r := SetPaused(s, actor, paused);
      && (r.Some? <==> actor == s.admin)
      && (r.Some? ==> r.value.0 == s.(paused := paused))
    ensures var r := AddLiquidity(s, actor, amount);
      && (r.Some? <==> actor == s.admin && 0 < amount <= Get(s.xlm.wallets, actor))
      && (r.Some? ==>
           Pays(s.xlm, r.value.0.xlm, actor, -amount) && r.value.0 == s.(buffer := s.buffer + amount, xlm := r.value.0.xlm))
    ensures Unchecked(s) ==> TriggerPause(s) == None
    ensures var r := SetCooldown(s, actor, amount);
      && (r.Some? <==> actor == s.admin && 288 <= amount <= 2_592_000)
      && (r.Some? ==> r.value.0 == s.(cooldown := amount))
  {
    TransfersPay(s.xlm, actor, if amount <= 0 then s.treasury else amount);
    TransfersPay(s.xlm, actor, amount);
    hide PullIn, PayOut;
  }

  // ---------- wallets over whole runs ----------

  /** The caller whose XLM an operation may move. */
  function Caller(op: Op): Option<Address> {
    match op
    case OpDeposit(user, _) => Some(user)
    case OpRequest(user, _) => Some(user)
    case OpClaim(user, _) => Some(user)
    case OpInstant(user, _) => Some(user)
    case OpWithdrawFees(actor, _) => Some(actor)
    case OpLiquidity(actor, _) => Some(actor)
    case _ => None
  }

  /** What it brings into the caller's XLM wallet: minus what was put in, or what the call paid out at once. */
  function Brings(s: Staking, ledger: int, op: Op): int {
    match op
    case OpDeposit(user, amount) => if Deposit(s, user, amount).Some? then -amount else 0
    case OpRequest(user, amount) =>
      var r := RequestWithdrawal(s, ledger, user, amount);
      if r.Some? && r.value.1 <= s.buffer then r.value.1 else 0
    case OpClaim(user, id) => if ClaimWithdrawal(s, ledger, user, id).Some? then s.queue[id].amount else 0
    case OpInstant(user, amount) => if InstantWithdraw(s, user, amount).Some? then InstantWithdraw(s, user, amount).value.1 else 0
    case OpWithdrawFees(actor, amount) => if WithdrawFees(s, actor, amount).Some? then WithdrawFees(s, actor, amount).value.1 else 0
    case OpLiquidity(actor, amount) => if AddLiquidity(s, actor, amount).Some? then -amount else 0
    case _ => 0
  }

  /** How it moves a user's shares: minted by own deposits, burnt by own withdrawals, and passed on by their holder. */
  function SharesMoved(s: Staking, ledger: int, op: Op, user: Address): int {
    match op
    case OpDeposit(u, amount) => if u == user && Deposit(s, u, amount).Some? then Deposit(s, u, amount).value.1 else 0
    case OpRequest(u, amount) => if u == user && RequestWithdrawal(s, ledger, u, amount).Some? then -amount else 0
    case OpInstant(u, amount) => if u == user && InstantWithdraw(s, u, amount).Some? then -amount else 0
    case OpTransfer(from, to, amount) =>
      if TransferShares(s, from, to, amount).None? then 0
      else (if user == to then amount else 0) - if user == from then amount else 0
    case _ => 0
  }

  ghost predicate MovedBy(s: Staking, ledger: int, op: Op, user: Address, t: Staking) {
    && Get(t.xlm.wallets, user) == Get(s.xlm.wallets, user) + (if Caller(op) == Some(user) then Brings(s, ledger, op) else 0)
    && Get(t.sxlm.wallets, user) == Get(s.sxlm.wallets, user) + SharesMoved(s, ledger, op, user)
  }

  lemma MovedStep(s: Staking, ledger: int, op: Op, user: Address)
    ensures MovedBy(s, ledger, op, user, Step(s, ledger, op))
  {
    match op
    case OpDeposit(u, amount) => DepositMoved(s, ledger, u, amount, user); hide Step, MovedBy;
    case OpRequest(u, amount) => RequestMoved(s, ledger, u, amount, user); hide Step, MovedBy;
    case OpInstant(u, amount) => InstantMoved(s, ledger, u, amount, user); hide Step, MovedBy;
    case OpClaim(u, id) => ClaimExactly(s, ledger, u, id); hide ClaimWithdrawal;
    case OpWithdrawFees(actor, amount) => AdminExactly(s, actor, amount, false); hide WithdrawFees;
    case OpLiquidity(actor, amount) => AdminExactly(s, actor, amount, false); hide AddLiquidity;
    case _ => hide Intrinsic, TDiv;
  }

  lemma DepositMoved(s: Staking, ledger: int, u: Address, amount: int, user: Address)
    ensures MovedBy(s, ledger, OpDeposit(u, amount), user, Step(s, ledger, OpDeposit(u, amount)))
  {
    TransfersPay(s.xlm, u, amount);
    hide IntegrityOk, TopUp, TDiv, PullIn;
  }

  lemma RequestMoved(s: Staking, ledger: int, u: Address, amount: int, user: Address)
    ensures MovedBy(s, ledger, OpRequest(u, amount), user, Step(s, ledger, OpRequest(u, amount)))
  {
    TransfersPay(s.xlm, u, Value(s, amount));
    hide IntegrityOk, Value, PayOut;
  }

  lemma InstantMoved(s: Staking, ledger: int, u: Address, amount: int, user: Address)
    ensures MovedBy(s, ledger, OpInstant(u, amount), user, Step(s, ledger, OpInstant(u, amount)))
  {
    TransfersPay(s.xlm, u, Value(s, amount) - InstantFee(Value(s, amount)));
    hide IntegrityOk, Value, InstantFee, PayOut;
  }

  function TotalBrought(s: Staking, ops: seq<(int, Op)>, user: Address): int
    decreases |ops|
  {
    if ops == [] then 0
    else (if Caller(ops[0].1) == Some(user) then Brings(s, ops[0].0, ops[0].1) else 0)
         + TotalBrought(Step(s, ops[0].0, ops[0].1), ops[1..], user)
  }

  function TotalShares(s: Staking, ops: seq<(int, Op)>, user: Address): int
    decreases |ops|
  {
    if ops == [] then 0
    else SharesMoved(s, ops[0].0, ops[0].1, user) + TotalShares(Step(s, ops[0].0, ops[0].1), ops[1..], user)
  }

  /** Over every run: a user's XLM moves by the user's own calls only, by what they put in or were paid; a user's shares are those
      minted for the user less those the user redeemed, plus and minus transfers. */
  lemma {:induction false} WalletsOverRuns(s: Staking, ops: seq<(int, Op)>, user: Address)
    ensures var z := Run(s, ops);
      && Get(z.xlm.wallets, user) == Get(s.xlm.wallets, user) + TotalBrought(s, ops, user)
      && Get(z.sxlm.wallets, user) == Get(s.sxlm.wallets, user) + TotalShares(s, ops, user)
    decreases |ops|
  {
    if ops != [] {
      MovedStep(s, ops[0].0, ops[0].1, user);
      hide Step, Brings, SharesMoved;
      WalletsOverRuns(Step(s, ops[0].0, ops[0].1), ops[1..], user);
    }
  }

  /** A transfer goes through exactly for a non-negative amount the sender holds. */
  lemma TransferExactly(s: Staking, from: Address, to: Address, amount: int)
    ensures var r := TransferShares(s, from, to, amount);
      && (r.Some? <==> 0 <= amount <= Get(s.sxlm.wallets, from))
      && (r.Some? ==> r.value.0 == s.(sxlm := s.sxlm.(wallets := r.value.0.sxlm.wallets)))
  {}

  /** A deployment holds and owes nothing. */
  lemma DeployedExactly(admin: Address, cooldown: nat, xlm: map<Address, int>)
    ensures var s := Initial(admin, cooldown, xlm);
      && s.admin == admin && s.cooldown == cooldown && !s.paused && s.xlm == Purse(0, xlm) && s.sxlm == Purse(0, map[])
      && s.staked == 0 && s.supply == 0 && s.buffer == 0 && s.treasury == 0 && s.queue == map[] && s.counter == 0 && Numbered(s)
  {}
}
