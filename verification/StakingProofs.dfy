/** Whole-run properties of staking: ledger conservation, the circuit breaker, and the exchange rate. */
module StakingProofs {
  import opened Base
  import opened Arith
  import opened Sums
  import opened Purses
  import opened StakingSpec

  // ---------- conservation ----------

  /** XLM held beyond what stakers and the treasury are booked for. */
  function Slack(s: Staking): int {
    s.xlm.held - s.staked - s.treasury
  }

  /** The part of `Slack` an operation creates: liquidity added, instant fees, slashes and an overwritten total
      count up, gross rewards booked count down, everything else is neutral. */
  function Credit(s: Staking, ledger: int, op: Op): int {
    match op
    case OpDeposit(user, amount) => if Deposit(s, user, amount).Some? && Unchecked(s) then s.staked else 0
    case OpInstant(user, amount) => if InstantWithdraw(s, user, amount).Some? then InstantFee(Value(s, amount)) else 0
    case OpRewards(actor, amount) => if AddRewards(s, actor, amount).Some? then -amount else 0
    case OpSlash(actor, amount) => if ApplySlashing(s, actor, amount).Some? then amount else 0
    case OpLiquidity(actor, amount) => if AddLiquidity(s, actor, amount).Some? then amount else 0
    case _ => 0
  }

  function Credits(s: Staking, ops: seq<(int, Op)>): int
    decreases |ops|
  {
    if ops == [] then 0
    else Credit(s, ops[0].0, ops[0].1) + Credits(Step(s, ops[0].0, ops[0].1), ops[1..])
  }

  lemma SlackStep(s: Staking, ledger: int, op: Op)
    ensures Slack(Step(s, ledger, op)) == Slack(s) + Credit(s, ledger, op)
  {
    hide TDiv, TopUp, IntegrityOk, MintTo, Burn, Value, InstantFee, Intrinsic;
  }

  lemma {:induction false} SlackOverRuns(s: Staking, ops: seq<(int, Op)>)
    ensures Slack(Run(s, ops)) == Slack(s) + Credits(s, ops)
    decreases |ops|
  {
    if ops != [] {
      SlackStep(s, ops[0].0, ops[0].1);
      hide Step, Slack, Credit;
      SlackOverRuns(Step(s, ops[0].0, ops[0].1), ops[1..]);
    }
  }

  // ---------- the circuit breaker ----------

  /** The intrinsic value is the booked stake up to rounding: staked - supply/RATE - 1 < value <= staked. */
  lemma IntrinsicBounds(s: Staking)
    requires s.supply > 0 && s.staked >= 0
    ensures 0 <= Intrinsic(s) <= s.staked
    ensures Intrinsic(s) * RATE > s.staked * RATE - s.supply - RATE
  {}

  /** Whatever the signs of the totals, the check asks for no more than the booked stake. */
  lemma IntrinsicAtMostStake(s: Staking)
    requires s.supply != 0
    ensures Intrinsic(s) <= Max(s.staked, 0)
  {}

  /** The contract never goes below zero and covers the booked stake. */
  ghost predicate Backed(s: Staking) {
    0 <= s.xlm.held && s.staked <= s.xlm.held
  }

  lemma BackedPassesCheck(s: Staking)
    requires Backed(s)
    ensures IntegrityOk(s)
  {}

  /** From a backed state no user operation is stopped by the integrity check, and the state stays backed. */
  lemma UserOpsKeepBacked(s: Staking, ledger: int, user: Address, amount: int, id: nat)
    requires Backed(s)
    ensures Deposit(s, user, amount) == DepositCore(s, user, amount)
    ensures RequestWithdrawal(s, ledger, user, amount) == RequestCore(s, ledger, user, amount)
    ensures InstantWithdraw(s, user, amount) == InstantCore(s, user, amount)
    ensures Backed(Step(s, ledger, OpDeposit(user, amount)))
    ensures Backed(Step(s, ledger, OpRequest(user, amount)))
    ensures Backed(Step(s, ledger, OpInstant(user, amount)))
    ensures Backed(Step(s, ledger, OpClaim(user, id)))
  {
    CoresKeepBacked(s, ledger, user, amount, id);
    if DepositCore(s, user, amount).Some? { BackedPassesCheck(DepositCore(s, user, amount).value.0); }
    if RequestCore(s, ledger, user, amount).Some? { BackedPassesCheck(RequestCore(s, ledger, user, amount).value.0); }
    if InstantCore(s, user, amount).Some? { BackedPassesCheck(InstantCore(s, user, amount).value.0); }
    hide DepositCore, RequestCore, InstantCore, ClaimWithdrawal, Backed, IntegrityOk;
  }

  /** What booked rewards add to the stake. */
  function NetReward(amount: int): int { amount - TDiv(amount * PROTOCOL_FEE_BPS, BPS) }

  /** Rewards and fee withdrawals that go through stay within what is held beyond the booked stake. */
  predicate WithinHoldings(s: Staking, op: Op) {
    match op
    case OpRewards(actor, amount) => AddRewards(s, actor, amount).Some? ==> NetReward(amount) <= s.xlm.held - s.staked
    case OpWithdrawFees(actor, amount) =>
      WithdrawFees(s, actor, amount).Some? ==> WithdrawFees(s, actor, amount).value.1 <= s.xlm.held - s.staked
    case _ => true
  }

  /** Only booking rewards and withdrawing fees can take the contract out of a backed state, and they do if and only if they
      exceed what is held beyond the stake. */
  lemma BackedStep(s: Staking, ledger: int, op: Op)
    requires Backed(s)
    ensures Backed(Step(s, ledger, op)) <==> WithinHoldings(s, op)
  {
    match op
    case OpDeposit(user, amount) => UserOpsKeepBacked(s, ledger, user, amount, 0); hide Step, Backed;
    case OpRequest(user, amount) => UserOpsKeepBacked(s, ledger, user, amount, 0); hide Step, Backed;
    case OpInstant(user, amount) => UserOpsKeepBacked(s, ledger, user, amount, 0); hide Step, Backed;
    case OpClaim(user, id) => UserOpsKeepBacked(s, ledger, user, 0, id); hide Step, Backed;
    case _ => hide TDiv, Intrinsic;
  }

  ghost predicate BackedThroughout(s: Staking, ops: seq<(int, Op)>)
    decreases |ops|
  {
    Backed(s) && (ops == [] || BackedThroughout(Step(s, ops[0].0, ops[0].1), ops[1..]))
  }

  predicate AllWithinHoldings(s: Staking, ops: seq<(int, Op)>)
    decreases |ops|
  {
    ops == [] || (WithinHoldings(s, ops[0].1) && AllWithinHoldings(Step(s, ops[0].0, ops[0].1), ops[1..]))
  }

  /** The contract stays backed throughout a run if and only if every booking of rewards and every withdrawal of fees stays within
      what is held beyond the stake; then the breaker never trips. */
  lemma {:induction false} BackedOverRuns(s: Staking, ops: seq<(int, Op)>)
    requires Backed(s)
    ensures BackedThroughout(s, ops) <==> AllWithinHoldings(s, ops)
    ensures AllWithinHoldings(s, ops) ==>
      Backed(Run(s, ops)) && IntegrityOk(Run(s, ops)) && TriggerPause(Run(s, ops)) == None
    decreases |ops|
  {
    if ops != [] {
      var t := Step(s, ops[0].0, ops[0].1);
      BackedStep(s, ops[0].0, ops[0].1);
      assert BackedThroughout(t, ops[1..]) ==> Backed(t);
      hide Step, Backed, IntegrityOk, TriggerPause, WithinHoldings;
      if Backed(t) { BackedOverRuns(t, ops[1..]); }
    } else {
      BackedPassesCheck(s);
      if !Unchecked(s) { TriggerIsTheCheck(s); }
    }
  }

  lemma CoresKeepBacked(s: Staking, ledger: int, user: Address, amount: int, id: nat)
    requires Backed(s)
    ensures DepositCore(s, user, amount).Some? ==> Backed(DepositCore(s, user, amount).value.0)
    ensures RequestCore(s, ledger, user, amount).Some? ==> Backed(RequestCore(s, ledger, user, amount).value.0)
    ensures InstantCore(s, user, amount).Some? ==> Backed(InstantCore(s, user, amount).value.0)
    ensures ClaimWithdrawal(s, ledger, user, id).Some? ==> Backed(ClaimWithdrawal(s, ledger, user, id).value.0)
  {}

  lemma FeeBounds(value: int)
    requires value >= 0
    ensures 0 <= InstantFee(value) <= value
  {}

  /** With non-zero totals the public breaker pauses exactly the states in which the integrity check would panic. */
  lemma TriggerIsTheCheck(s: Staking)
    requires !Unchecked(s)
    ensures match TriggerPause(s)
            case Some(r) => !IntegrityOk(s) && r.0 == s.(paused := true)
            case None => IntegrityOk(s)
  {}

  // ---------- shares ----------

  /** Nobody's balance is negative, and once there is a supply the dead shares are locked. */
  ghost predicate Holders(s: Staking) {
    && (forall u :: u in s.sxlm.wallets ==> 0 <= s.sxlm.wallets[u])
    && 0 <= s.sxlm.held
    && (s.supply != 0 ==> MINIMUM_INITIAL_DEPOSIT <= s.sxlm.held)
  }

  /** Shares that exist but that the booked supply does not know about. */
  ghost function Gap(s: Staking): int {
    s.sxlm.held + Sum(s.sxlm.wallets) - s.supply
  }

  /** Supply is the dead shares plus everybody's balance. */
  ghost predicate Shares(s: Staking) {
    Holders(s) && Gap(s) == 0
  }

  /** A deposit that finds a pool whose stake is wiped out while shares are still around, and goes through. */
  predicate Restarts(s: Staking, op: Op) {
    op.OpDeposit? && s.staked == 0 && s.supply != 0 && Deposit(s, op.user, op.amount).Some?
  }

  /** The supply that such a deposit overwrites. */
  function Forgotten(s: Staking, op: Op): int {
    if Restarts(s, op) then s.supply else 0
  }

  lemma MintHolders(s: Staking, t: Staking, user: Address, amount: int)
    requires Holders(s) && 0 <= amount
    requires t.sxlm == MintTo(s.sxlm, user, amount)
    requires t.supply != 0 ==> MINIMUM_INITIAL_DEPOSIT <= s.sxlm.held
    ensures Holders(t) && Gap(t) == Gap(s) + amount - (t.supply - s.supply)
  {
    SumUpdate(s.sxlm.wallets, user, Get(s.sxlm.wallets, user) + amount);
  }

  lemma BurnHolders(s: Staking, t: Staking, user: Address, amount: int)
    requires Holders(s) && Burn(s.sxlm, user, amount).Some? && s.supply != 0
    requires t.sxlm == Burn(s.sxlm, user, amount).value && t.supply == s.supply - amount
    ensures Holders(t) && Gap(t) == Gap(s) && t.supply + Gap(t) >= s.sxlm.held
  {
    SumUpdate(s.sxlm.wallets, user, Get(s.sxlm.wallets, user) - amount);
    SumNonneg(t.sxlm.wallets);
  }

  lemma FirstDepositHolders(s: Staking, user: Address, x: int)
    requires Holders(s) && FirstDeposit(s, user, x).Some?
    ensures var t := FirstDeposit(s, user, x).value.0;
      Holders(t) && Gap(t) == Gap(s) + s.supply
  {
    SumUpdate(s.sxlm.wallets, user, Get(s.sxlm.wallets, user) + x - MINIMUM_INITIAL_DEPOSIT);
    hide TopUp;
  }

  lemma SameHolders(s: Staking, t: Staking)
    requires Holders(s) && t.sxlm == s.sxlm && t.supply == s.supply
    ensures Holders(t) && Gap(t) == Gap(s)
  {}

  lemma DepositHolders(s: Staking, user: Address, x: int)
    requires Holders(s) && Deposit(s, user, x).Some?
    ensures var t := Deposit(s, user, x).value.0;
      Holders(t) && Gap(t) == Gap(s) + (if Unchecked(s) then s.supply else 0)
  {
    var k := s.(xlm := PullIn(s.xlm, user, x).value);
    SameHolders(s, k);
    if Unchecked(s) {
      FirstDepositHolders(k, user, x);
    } else {
      var r := Deposit(s, user, x).value;
      MintHolders(s, r.0, user, r.1);
    }
    hide IntegrityOk, TopUp, TDiv;
  }

  lemma WithdrawHolders(s: Staking, ledger: int, user: Address, amount: int)
    requires Holders(s)
    ensures RequestWithdrawal(s, ledger, user, amount).Some? ==>
      var t := RequestWithdrawal(s, ledger, user, amount).value.0;
      Holders(t) && Gap(t) == Gap(s) && t.supply + Gap(t) >= s.sxlm.held
    ensures InstantWithdraw(s, user, amount).Some? ==>
      var t := InstantWithdraw(s, user, amount).value.0;
      Holders(t) && Gap(t) == Gap(s) && t.supply + Gap(t) >= s.sxlm.held
  {
    hide IntegrityOk, Value, InstantFee, Holders, Gap;
    if RequestWithdrawal(s, ledger, user, amount).Some? {
      BurnHolders(s, RequestWithdrawal(s, ledger, user, amount).value.0, user, amount);
    }
    if InstantWithdraw(s, user, amount).Some? {
      BurnHolders(s, InstantWithdraw(s, user, amount).value.0, user, amount);
    }
  }

  lemma TransferHolders(s: Staking, from: Address, to: Address, amount: int)
    requires Holders(s) && TransferShares(s, from, to, amount).Some?
    ensures var t := TransferShares(s, from, to, amount).value.0;
      Holders(t) && Gap(t) == Gap(s)
  {
    var burned := Get(s.sxlm.wallets, from) - amount;
    SumUpdate(s.sxlm.wallets, from, burned);
    var mid := s.sxlm.wallets[from := burned];
    SumUpdate(mid, to, Get(mid, to) + amount);
  }

  /** Every step keeps the balances sane and widens the gap by exactly the supply a restart forgets. */
  lemma GapStep(s: Staking, ledger: int, op: Op)
    requires Holders(s)
    ensures var t := Step(s, ledger, op);
      Holders(t) && Gap(t) == Gap(s) + Forgotten(s, op)
  {
    match op
    case OpDeposit(user, amount) =>
      if Deposit(s, user, amount).Some? { DepositHolders(s, user, amount); }
      hide Deposit, Holders, Gap;
    case OpRequest(user, amount) =>
      WithdrawHolders(s, ledger, user, amount);
      hide RequestWithdrawal, Holders, Gap;
    case OpInstant(user, amount) =>
      WithdrawHolders(s, ledger, user, amount);
      hide InstantWithdraw, Holders, Gap;
    case OpTransfer(from, to, amount) =>
      if TransferShares(s, from, to, amount).Some? { TransferHolders(s, from, to, amount); }
      hide TransferShares, Holders, Gap;
    case _ =>
      hide Holders, Gap, Intrinsic, TDiv;
      SameHolders(s, Step(s, ledger, op));
  }

  /** The share ledger survives a step if and only if the step is not a restart. */
  lemma SharesStep(s: Staking, ledger: int, op: Op)
    requires Shares(s)
    ensures Shares(Step(s, ledger, op)) <==> !Restarts(s, op)
  {
    GapStep(s, ledger, op);
    hide Step, Holders, Gap, Deposit;
  }

  function ForgottenBy(s: Staking, ops: seq<(int, Op)>): int
    decreases |ops|
  {
    if ops == [] then 0 else Forgotten(s, ops[0].1) + ForgottenBy(Step(s, ops[0].0, ops[0].1), ops[1..])
  }

  /** The ledger holds in every state of the run. */
  ghost predicate SharesThroughout(s: Staking, ops: seq<(int, Op)>)
    decreases |ops|
  {
    Shares(s) && (ops == [] || SharesThroughout(Step(s, ops[0].0, ops[0].1), ops[1..]))
  }

  predicate NeverRestarts(s: Staking, ops: seq<(int, Op)>)
    decreases |ops|
  {
    ops == [] || (!Restarts(s, ops[0].1) && NeverRestarts(Step(s, ops[0].0, ops[0].1), ops[1..]))
  }

  /** Over every run the gap widens by exactly the supplies that restarts forget: the supply is again the dead shares plus
      all balances if and only if nothing was forgotten on balance. */
  lemma {:induction false} GapOverRuns(s: Staking, ops: seq<(int, Op)>)
    requires Holders(s)
    ensures Holders(Run(s, ops)) && Gap(Run(s, ops)) == Gap(s) + ForgottenBy(s, ops)
    ensures Shares(Run(s, ops)) <==> Gap(s) + ForgottenBy(s, ops) == 0
    decreases |ops|
  {
    if ops != [] {
      GapStep(s, ops[0].0, ops[0].1);
      hide Step, Holders, Gap, Forgotten;
      GapOverRuns(Step(s, ops[0].0, ops[0].1), ops[1..]);
    }
  }

  /** From deployment on, the supply is the dead shares plus all balances throughout a run if and only if no restart
      goes through. */
  lemma {:induction false} SharesOverRuns(s: Staking, ops: seq<(int, Op)>)
    requires Shares(s)
    ensures SharesThroughout(s, ops) <==> NeverRestarts(s, ops)
    ensures NeverRestarts(s, ops) ==> Shares(Run(s, ops))
    decreases |ops|
  {
    if ops != [] {
      var t := Step(s, ops[0].0, ops[0].1);
      SharesStep(s, ops[0].0, ops[0].1);
      assert SharesThroughout(t, ops[1..]) ==> Shares(t);
      hide Step, Shares, Restarts;
      if Shares(t) { SharesOverRuns(t, ops[1..]); }
    }
  }

  lemma InitialShares(admin: Address, cooldown: nat, xlm: map<Address, int>)
    ensures Shares(Initial(admin, cooldown, xlm)) && Backed(Initial(admin, cooldown, xlm)) && Slack(Initial(admin, cooldown, xlm)) == 0
  {}

  /** A restart is reachable from deployment: one holder deposits, the whole stake is slashed, another user deposits. */
  function Restart(admin: Address, holder: Address, x: int, user: Address, y: int): seq<(int, Op)> {
    [(1, OpDeposit(holder, x)), (2, OpSlash(admin, x)), (3, OpDeposit(user, y))]
  }

  /** Whatever the amounts, that run ends with a booked supply short of all shares by exactly the first deposit. */
  lemma RestartForgetsHolders(admin: Address, cooldown: nat, holder: Address, x: int, user: Address, y: int)
    requires holder != user && x >= MINIMUM_INITIAL_DEPOSIT && y >= MINIMUM_INITIAL_DEPOSIT
    ensures var z := Run(Initial(admin, cooldown, map[holder := x, user := y]), Restart(admin, holder, x, user, y));
      !Shares(z) && Gap(z) == x && z.supply == y
  {
    var s := Initial(admin, cooldown, map[holder := x, user := y]);
    var ops := Restart(admin, holder, x, user, y);
    FirstDepositWorks(s, holder, x);
    var s1 := Step(s, 1, ops[0].1);
    var s2 := Step(s1, 2, ops[1].1);
    assert s2 == s1.(staked := 0);
    FirstDepositWorks(s2, user, y);
    var s3 := Step(s2, 3, ops[2].1);
    InitialShares(admin, cooldown, map[holder := x, user := y]);
    GapOverRuns(s, ops);
    hide Step, Deposit, Holders, Gap, Shares;
    assert ops[1..] == [ops[1], ops[2]] && ops[1..][1..] == [ops[2]] && ops[1..][1..][1..] == [];
    assert Run(s, ops) == Run(s1, ops[1..]) == Run(s2, [ops[2]]) == Run(s3, [ops[2]][1..]) == s3;
    assert ForgottenBy(s, ops) == ForgottenBy(s1, ops[1..]);
    assert ForgottenBy(s1, ops[1..]) == ForgottenBy(s2, [ops[2]]) == s2.supply + ForgottenBy(s3, [ops[2]][1..]);
  }

  lemma FirstDepositWorks(s: Staking, user: Address, x: int)
    requires !s.paused && Unchecked(s) && x >= MINIMUM_INITIAL_DEPOSIT
    requires Get(s.xlm.wallets, user) >= x && s.xlm.held >= 0
    ensures Deposit(s, user, x).Some?
    ensures var t := Deposit(s, user, x).value.0;
      && t.staked == x == t.supply && t.paused == s.paused && t.admin == s.admin
      && t.xlm == Purse(s.xlm.held + x, s.xlm.wallets[user := Get(s.xlm.wallets, user) - x])
  {
    var t := FirstDeposit(s.(xlm := PullIn(s.xlm, user, x).value), user, x).value.0;
    IntrinsicAtMostStake(t);
    hide Intrinsic, TopUp, MintTo;
  }

  // ---------- the exchange rate ----------

  /** `t` values a share at least as highly as `s`. */
  ghost predicate RateKept(s: Staking, t: Staking) {
    t.staked * s.supply >= s.staked * t.supply
  }

  ghost predicate Live(s: Staking) {
    Shares(s) && s.supply > 0 && s.staked > 0
  }

  lemma MintedAtRate(x: int, supply: int, staked: int)
    requires x > 0 && supply > 0 && staked > 0
    ensures var m := TDiv(x * supply, staked);
      0 <= m && m * staked <= x * supply && (staked + x) * supply >= staked * (supply + m)
  {
    assert x * supply > 0;
    Floor(x * supply, staked);
    var m := (x * supply) / staked;
    assert staked * (supply + m) == staked * supply + m * staked;
    assert (staked + x) * supply == staked * supply + x * supply;
  }

  lemma RedeemedAtRate(amount: int, supply: int, staked: int)
    requires amount > 0 && supply > 0 && staked > 0
    ensures var out := TDiv(amount * staked, supply);
      0 <= out && (staked - out) * supply >= staked * (supply - amount)
      && staked * supply >= staked * (supply - amount)
  {
    assert amount * staked > 0;
    Floor(amount * staked, supply);
    var out := (amount * staked) / supply;
    assert (staked - out) * supply == staked * supply - out * supply;
    assert staked * (supply - amount) == staked * supply - amount * staked;
  }

  /** A slash, or a delayed claim of a positive amount, that goes through. */
  predicate Lowers(s: Staking, ledger: int, op: Op) {
    match op
    case OpSlash(actor, amount) => ApplySlashing(s, actor, amount).Some?
    case OpClaim(user, id) => ClaimWithdrawal(s, ledger, user, id).Some? && ClaimWithdrawal(s, ledger, user, id).value.1 > 0
    case _ => false
  }

  /** Once stake and supply are positive, the exchange rate falls exactly in slashes and delayed claims that take something. */
  lemma RateStep(s: Staking, ledger: int, op: Op)
    requires Live(s)
    ensures RateKept(s, Step(s, ledger, op)) <==> !Lowers(s, ledger, op)
    ensures RateKept(s, Step(s, ledger, op)) ==> Live(Step(s, ledger, op))
  {
    if op.OpSlash? || op.OpClaim? { TakenFromRate(s, ledger, op); } else { OtherRate(s, ledger, op); }
    hide Step, Live, RateKept, Lowers;
  }

  lemma TakenFromRate(s: Staking, ledger: int, op: Op)
    requires Live(s) && (op.OpSlash? || op.OpClaim?)
    ensures RateKept(s, Step(s, ledger, op)) <==> !Lowers(s, ledger, op)
    ensures RateKept(s, Step(s, ledger, op)) ==> Live(Step(s, ledger, op))
  {
    var t := Step(s, ledger, op);
    SharesStep(s, ledger, op);
    hide Shares;
    assert t.supply == s.supply && t.staked <= s.staked;
    assert Lowers(s, ledger, op) <==> t.staked < s.staked;
    hide Step, Lowers;
    if t.staked < s.staked { MulStrict(t.staked, s.staked, s.supply); }
  }

  lemma OtherRate(s: Staking, ledger: int, op: Op)
    requires Live(s) && !op.OpSlash? && !op.OpClaim?
    ensures RateKept(s, Step(s, ledger, op)) && Live(Step(s, ledger, op))
  {
    var t := Step(s, ledger, op);
    SharesStep(s, ledger, op);
    assert !Restarts(s, op);
    match op
    case OpDeposit(user, amount) =>
      hide TDiv, TopUp, IntegrityOk, Shares, MintTo;
      if Deposit(s, user, amount).Some? { MintedAtRate(amount, s.supply, s.staked); }
    case OpRequest(user, amount) => WithdrawRate(s, ledger, op);
    case OpInstant(user, amount) => WithdrawRate(s, ledger, op);
    case OpRewards(actor, amount) =>
      if AddRewards(s, actor, amount).Some? {
        Floor(amount * PROTOCOL_FEE_BPS, BPS);
        MulMono(s.staked, t.staked, s.supply);
      }
      hide Shares;
    case _ =>
      hide Shares, Intrinsic, Burn;
  }

  lemma WithdrawRate(s: Staking, ledger: int, op: Op)
    requires Live(s) && (op.OpRequest? || op.OpInstant?)
    ensures RateKept(s, Step(s, ledger, op)) && Step(s, ledger, op).supply > 0 && Step(s, ledger, op).staked > 0
  {
    var t := Step(s, ledger, op);
    WithdrawHolders(s, ledger, op.user, op.amount);
    if op.amount > 0 { RedeemedAtRate(op.amount, s.supply, s.staked); }
    assert s.sxlm.held > 0;
    hide TDiv, IntegrityOk, Shares, Burn, InstantFee;
    assert RateKept(s, t) && t.supply > 0;
    PositiveStake(s, t);
  }

  lemma PositiveStake(s: Staking, t: Staking)
    requires s.staked > 0 && s.supply > 0 && t.supply > 0 && RateKept(s, t)
    ensures t.staked > 0
  {
    assert s.staked * t.supply > 0;
    if t.staked <= 0 { MulMono(t.staked, 0, s.supply); }
  }

  lemma RateTransitive(s: Staking, t: Staking, u: Staking)
    requires s.supply > 0 && t.supply > 0 && u.supply > 0
    requires RateKept(s, t) && RateKept(t, u)
    ensures RateKept(s, u)
  {
    var a, b, c := s.staked, t.staked, u.staked;
    var x, y, z := s.supply, t.supply, u.supply;
    MulMono(a * y, b * x, z);
    MulMono(b * z, c * y, x);
    assert (a * y) * z == (a * z) * y;
    assert (b * x) * z == (b * z) * x;
    assert (c * y) * x == (c * x) * y;
    if c * x < a * z { MulStrict(c * x, a * z, y); }
  }

  lemma FloorRatioMono(a: int, x: int, b: int, y: int)
    requires a >= 0 && b >= 0 && x > 0 && y > 0 && b * x >= a * y
    ensures a / x <= b / y
  {
    var q := a / x;
    Floor(a, x);
    MulMono(q * x, a, y);
    assert (q * x) * y == (q * y) * x;
    if b < q * y { MulStrict(b, q * y, x); }
    FloorGalois(b, y, q);
  }

  /** The published, floored rate inherits the order. */
  lemma PublishedRateKept(s: Staking, t: Staking)
    requires s.staked > 0 && s.supply > 0 && t.staked > 0 && t.supply > 0 && RateKept(s, t)
    ensures 0 <= ExchangeRate(s) <= ExchangeRate(t)
  {
    Floor(s.staked * RATE, s.supply);
    Floor(t.staked * RATE, t.supply);
    assert (t.staked * RATE) * s.supply == (t.staked * s.supply) * RATE;
    assert (s.staked * RATE) * t.supply == (s.staked * t.supply) * RATE;
    FloorRatioMono(s.staked * RATE, s.supply, t.staked * RATE, t.supply);
  }

  /** No call of the run lowers the exact rate. */
  ghost predicate RateNeverFalls(s: Staking, ops: seq<(int, Op)>)
    decreases |ops|
  {
    ops == [] || (RateKept(s, Step(s, ops[0].0, ops[0].1)) && RateNeverFalls(Step(s, ops[0].0, ops[0].1), ops[1..]))
  }

  predicate NeverLowers(s: Staking, ops: seq<(int, Op)>)
    decreases |ops|
  {
    ops == [] || (!Lowers(s, ops[0].0, ops[0].1) && NeverLowers(Step(s, ops[0].0, ops[0].1), ops[1..]))
  }

  /** The exchange rate never falls in a run if and only if no slash and no delayed claim takes something; then it ends no
      lower than it began, exactly and as published. */
  lemma {:induction false} RateOverRuns(s: Staking, ops: seq<(int, Op)>)
    requires Live(s)
    ensures RateNeverFalls(s, ops) <==> NeverLowers(s, ops)
    ensures NeverLowers(s, ops) ==>
      Live(Run(s, ops)) && RateKept(s, Run(s, ops)) && ExchangeRate(s) <= ExchangeRate(Run(s, ops))
    decreases |ops|
  {
    if ops != [] {
      var t := Step(s, ops[0].0, ops[0].1);
      RateStep(s, ops[0].0, ops[0].1);
      hide Step, ExchangeRate, Shares, Lowers;
      if RateKept(s, t) {
        PublishedRateKept(s, t);
        RateOverRuns(t, ops[1..]);
        if NeverLowers(t, ops[1..]) { RateTransitive(s, t, Run(s, ops)); }
      }
      hide RateKept, Live;
    }
  }

  /** A withdrawal of the shares' value without a fee, as far as the totals go. */
  function FeeFree(s: Staking, amount: int): Staking {
    s.(staked := s.staked - Value(s, amount), supply := s.supply - amount)
  }

  /** The instant route books the full value out of the stake: its fee changes neither total, so it raises no exchange rate; it
      stays in the contract as slack. The buffered request, where it is possible, leaves the same totals without a fee. */
  lemma InstantFeeLeavesRate(s: Staking, ledger: int, user: Address, amount: int)
    requires InstantCore(s, user, amount).Some?
    ensures var instant, free := InstantCore(s, user, amount).value.0, FeeFree(s, amount);
      && instant.staked == free.staked && instant.supply == free.supply
      && ExchangeRate(instant) == ExchangeRate(free)
      && Slack(instant) == Slack(s) + InstantFee(Value(s, amount))
    ensures s.buffer >= Value(s, amount) && RequestCore(s, ledger, user, amount).Some? ==>
      var buffered, free := RequestCore(s, ledger, user, amount).value.0, FeeFree(s, amount);
      && buffered.staked == free.staked && buffered.supply == free.supply && Slack(buffered) == Slack(s)
  {
    hide Value, InstantFee, Burn, TDiv;
  }

  // ---------- the buffer ----------

  lemma TargetIsATwentieth(x: int)
    requires x >= 0
    ensures TargetBuffer(x) == x / 20 <= x
  {
    Floor(x, 20);
    FloorUnique(x * TARGET_BUFFER_BPS, BPS, x / 20);
  }

  /** A first deposit lifts the buffer to a twentieth of itself, never by the whole deposit. */
  lemma SeedIsATwentieth(s: Staking, user: Address, x: int)
    requires s.buffer >= 0 && FirstDeposit(s, user, x).Some?
    ensures var t := FirstDeposit(s, user, x).value.0;
      t.buffer == Max(s.buffer, x / 20) && t.buffer < s.buffer + x
  {
    TargetIsATwentieth(x);
    hide TargetBuffer, MintTo;
  }

  lemma TopUpNonneg(buffer: int, staked: int, x: int)
    requires buffer >= 0 && x >= 0
    ensures TopUp(buffer, staked, x) >= buffer
  {
    hide TargetBuffer;
  }

  lemma BufferStep(s: Staking, ledger: int, op: Op)
    requires s.buffer >= 0
    ensures Step(s, ledger, op).buffer >= 0
  {
    match op
    case OpDeposit(_, amount) =>
      if amount > 0 { TopUpNonneg(s.buffer, amount, amount); TopUpNonneg(s.buffer, s.staked + amount, amount); }
      hide TopUp, TDiv, IntegrityOk, MintTo;
    case _ => hide IntegrityOk, Intrinsic, Value, InstantFee, Burn, MintTo;
  }

  /** The buffer is never negative in any run, so `SeedIsATwentieth` speaks of every first deposit. */
  lemma {:induction false} BufferOverRuns(s: Staking, ops: seq<(int, Op)>)
    requires s.buffer >= 0
    ensures Run(s, ops).buffer >= 0
    decreases |ops|
  {
    if ops != [] {
      BufferStep(s, ops[0].0, ops[0].1);
      hide Step;
      BufferOverRuns(Step(s, ops[0].0, ops[0].1), ops[1..]);
    }
  }

  // ---------- deposit and redeem ----------

  lemma RedeemAtMost(x: int, supply: int, staked: int)
    requires x > 0 && supply > 0 && staked > 0
    ensures var m := TDiv(x * supply, staked);
      m > 0 ==> TDiv(m * (staked + x), supply + m) <= x
  {
    MintedAtRate(x, supply, staked);
    var m := TDiv(x * supply, staked);
    if m > 0 {
      var n := m * (staked + x);
      assert n == m * staked + m * x;
      assert (x + 1) * (supply + m) == x * supply + x * m + supply + m;
      assert n > 0;
      Floor(n, supply + m);
      FloorGalois(n, supply + m, x + 1);
    }
  }

  /** What a deposit into a live pool is worth right after it: never more than was paid in, and short of it by less than
      one unit plus the value of one share. */
  lemma DepositKeepsItsValue(s: Staking, user: Address, x: int)
    requires s.supply > 0 && s.staked > 0 && Deposit(s, user, x).Some?
    ensures var (t, shares) := Deposit(s, user, x).value;
      && shares > 0 && t.supply == s.supply + shares
      && Value(t, shares) <= x
      && (x - Value(t, shares) - 1) * t.supply < s.staked
  {
    ValueOfDeposit(s, user, x);
    RedeemAtLeast(x, s.supply, s.staked);
    hide TDiv, IntegrityOk, TopUp, MintTo;
  }

  lemma RedeemAtLeast(x: int, supply: int, staked: int)
    requires x > 0 && supply > 0 && staked > 0
    ensures var m := TDiv(x * supply, staked);
      m > 0 ==> (x - TDiv(m * (staked + x), supply + m) - 1) * (supply + m) < staked
  {
    assert x * supply > 0;
    Floor(x * supply, staked);
    var m := (x * supply) / staked;
    if m > 0 {
      var n := m * (staked + x);
      assert n > 0;
      Floor(n, supply + m);
      var v := n / (supply + m);
      assert n == m * staked + m * x;
      assert (x - v - 1) * (supply + m) == x * supply + x * m - v * (supply + m) - (supply + m);
    }
  }

  /** Redeeming exactly the shares a deposit minted, by either route, yields at most the deposit. */
  lemma DepositThenRedeem(s: Staking, user: Address, x: int, ledger: int)
    requires s.supply >= 0 && s.staked >= 0
    requires Deposit(s, user, x).Some?
    ensures var (t, shares) := Deposit(s, user, x).value;
      && (RequestWithdrawal(t, ledger, user, shares).Some? ==> RequestWithdrawal(t, ledger, user, shares).value.1 <= x)
      && (InstantWithdraw(t, user, shares).Some? ==> InstantWithdraw(t, user, shares).value.1 <= x)
  {
    var (t, shares) := Deposit(s, user, x).value;
    ValueOfDeposit(s, user, x);
    if Value(t, shares) > 0 { FeeBounds(Value(t, shares)); }
    hide Deposit, Value, InstantFee, IntegrityOk, Burn;
  }

  lemma ValueOfDeposit(s: Staking, user: Address, x: int)
    requires s.supply >= 0 && s.staked >= 0
    requires Deposit(s, user, x).Some?
    ensures var (t, shares) := Deposit(s, user, x).value; Value(t, shares) <= x
  {
    if Unchecked(s) {
      var shares := x - MINIMUM_INITIAL_DEPOSIT;
      FloorUnique(shares * x, x, shares);
    } else {
      RedeemAtMost(x, s.supply, s.staked);
    }
    hide TDiv, IntegrityOk, TopUp, MintTo;
  }
}
