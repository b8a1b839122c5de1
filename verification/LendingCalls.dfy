/** What each lending call does, in numbers a caller can check: when it goes through, who pays whom and how much, and which
    positions move; and what that adds up to over whole runs. */
module LendingCalls {
  import opened Base
  import opened Arith
  import opened Purses
  import opened LendingSpec
  import opened LendingProofs
  import opened LendingSafety

  // ---------- values ----------

  /** What one asset contributes: balance times price times threshold or borrowing factor, rounded down once. */
  lemma TermExactly(c: AssetConfig, amount: int, useLt: bool)
    requires 0 <= amount && 0 <= c.price && 0 <= c.cf && 0 <= c.lt
    ensures IsFloor(Term(c, amount, useLt), amount * c.price * (if useLt then c.lt else c.cf), 10_000 * 10_000_000)
  {
    TermNonneg(c, amount, useLt);
    var n := amount * c.price * Factor(c, useLt);
    MulMono(0, c.price, amount);
    MulMono(0, Factor(c, useLt), amount * c.price);
    TruncationIsFloor(n, BPS * RATE);
    hide TDiv, IsFloor;
    if amount == 0 { assert n == 0; NothingFloors(BPS * RATE); }
  }

  lemma NothingFloors(d: int)
    requires d > 0
    ensures IsFloor(0, 0, d)
  {}

  /** A weighted position is the sum of these contributions, asset by asset; the plain value likewise, without factors. */
  lemma PositionsAdd(l: Lending, user: Address, assets: seq<Address>, asset: Address, useLt: bool, value: int)
    requires 0 <= Get(l.col, (user, asset)) && 0 <= Config(l, asset).price
    requires IsFloor(value, Get(l.col, (user, asset)) * Config(l, asset).price, 10_000_000)
    ensures Weighted(l, user, [], useLt) == 0 == PositionValue(l, user, [])
    ensures Weighted(l, user, assets + [asset], useLt)
         == Weighted(l, user, assets, useLt) + Term(Config(l, asset), Get(l.col, (user, asset)), useLt)
    ensures PositionValue(l, user, assets + [asset]) == PositionValue(l, user, assets) + value
  {
    assert (assets + [asset])[..|assets|] == assets;
    var amount, price := Get(l.col, (user, asset)), Config(l, asset).price;
    MulMono(0, price, amount);
    TruncationIsFloor(amount * price, RATE);
    OneFloor(value, TDiv(amount * price, RATE), amount * price, RATE);
    hide Term, Config, TDiv, IsFloor;
    if amount == 0 { assert amount * price == 0; NothingFloors(RATE); OneFloor(value, 0, 0, RATE); }
  }

  /** The health factor compares threshold-weighted collateral with debt, in fixed point and rounded down. */
  lemma HealthExactly(l: Lending, user: Address)
    requires Priced(l) && 0 <= Get(l.debt, user)
    ensures match HealthFactor(l, user)
            case None => Get(l.debt, user) == 0
            case Some(h) => Get(l.debt, user) > 0 && IsFloor(h, Weighted(l, user, l.assets, true) * 10_000_000, Get(l.debt, user))
  {
    WeightedNonneg(l, user, true);
    if Get(l.debt, user) > 0 { TruncationIsFloor(Weighted(l, user, l.assets, true) * RATE, Get(l.debt, user)); }
    hide Weighted, TDiv, IsFloor;
  }

  // ---------- money ----------

  function Wallet(l: Lending, token: Address, user: Address): int { Get(PurseIn(l.tokens, token).wallets, user) }

  lemma ReceiveExactly(l: Lending, token: Address, from: Address, amount: int)
    ensures var k := Receive(l, token, from, amount);
      && (k.Some? <==> 0 <= amount <= Wallet(l, token, from))
      && (k.Some? ==> k.value == l.(tokens := k.value.tokens) && PaysIn(l.tokens, k.value.tokens, token, from, -amount))
  {
    TransfersPay(TokenPurse(l, token), from, amount);
    hide PullIn;
  }

  lemma SendExactly(l: Lending, token: Address, to: Address, amount: int)
    ensures var k := Send(l, token, to, amount);
      && (k.Some? <==> 0 <= amount <= PurseIn(l.tokens, token).held)
      && (k.Some? ==> k.value == l.(tokens := k.value.tokens) && PaysIn(l.tokens, k.value.tokens, token, to, amount))
  {
    TransfersPay(TokenPurse(l, token), to, amount);
    hide PayOut;
  }

  // ---------- positions ----------

  /** A deposit goes through exactly for a positive amount of a supported asset the user holds; it moves that amount. */
  lemma DepositExactly(l: Lending, user: Address, asset: Address, amount: int)
    ensures var r := Deposit(l, user, asset, amount);
      && (r.Some? <==> 0 < amount <= Wallet(l, asset, user) && asset in l.assets)
      && (r.Some? ==>
           && PaysIn(l.tokens, r.value.0.tokens, asset, user, -amount)
           && r.value.0 == l.(col := l.col[(user, asset) := Get(l.col, (user, asset)) + amount],
                              totalCol := l.totalCol[asset := Get(l.totalCol, asset) + amount], tokens := r.value.0.tokens))
  {
    ReceiveExactly(l, asset, user, amount);
    hide Receive, PaysIn, Wallet;
  }

  /** A withdrawal goes through exactly if the balance and the contract's holding suffice and what is left covers the debt by the
      borrowing factor. */
  lemma WithdrawExactly(l: Lending, user: Address, asset: Address, amount: int)
    requires Priced(l)
    ensures var r, left := Withdraw(l, user, asset, amount), l.col[(user, asset) := Get(l.col, (user, asset)) - amount];
      && (r.Some? <==>
           && 0 < amount <= Get(l.col, (user, asset)) && amount <= PurseIn(l.tokens, asset).held
           && (Get(l.debt, user) > 0 ==> Get(l.debt, user) <= Weighted(l.(col := left), user, l.assets, false)))
      && (r.Some? ==>
           && PaysIn(l.tokens, r.value.0.tokens, asset, user, amount)
           && r.value.0 == l.(col := left, totalCol := l.totalCol[asset := Get(l.totalCol, asset) - amount], tokens := r.value.0.tokens))
  {
    var rest := Get(l.col, (user, asset)) - amount;
    var j := l.(col := l.col[(user, asset) := rest]);
    SendExactly(l, asset, user, amount);
    hide Send, PaysIn, Weighted, WeightedWith;
    OverrideIsUpdate(l, user, l.assets, asset, rest, false);
    if 0 < amount && 0 <= rest {
      LeftPriced(l, j, user, asset, rest);
      WeightedNonneg(j, user, false);
      if Get(l.debt, user) > 0 { CoverIff(Weighted(j, user, l.assets, false), Get(l.debt, user)); }
    }
    hide TDiv, Priced;
  }

  lemma LeftPriced(l: Lending, j: Lending, user: Address, asset: Address, rest: int)
    requires Priced(l) && j == l.(col := l.col[(user, asset) := rest]) && 0 <= rest <= Get(l.col, (user, asset))
    ensures Priced(j)
  {
    SameFactored(l, j);
    hide Factored;
  }

  /** A loan goes through exactly if the debt including it stays within the borrowing limit and the contract holds the amount. */
  lemma BorrowExactly(l: Lending, user: Address, amount: int)
    ensures var r, b := Borrow(l, user, amount), Get(l.debt, user) + amount;
      && (r.Some? <==> 0 < amount <= PurseIn(l.tokens, l.native).held && b <= Weighted(l, user, l.assets, false))
      && (r.Some? ==>
           && PaysIn(l.tokens, r.value.0.tokens, l.native, user, amount)
           && r.value.0 == l.(debt := l.debt[user := b], totalBorrowed := l.totalBorrowed + amount, tokens := r.value.0.tokens))
  {
    SendExactly(l, l.native, user, amount);
    hide Send, PaysIn, Weighted;
  }

  /** A repayment takes the smaller of the offer and the debt, and goes through exactly if the user holds that. */
  lemma RepayExactly(l: Lending, user: Address, amount: int)
    requires 0 <= Get(l.debt, user)
    ensures var r, paid := Repay(l, user, amount), Min(amount, Get(l.debt, user));
      && (r.Some? <==> 0 < amount && paid <= Wallet(l, l.native, user))
      && (r.Some? ==>
           && r.value.1 == paid
           && PaysIn(l.tokens, r.value.0.tokens, l.native, user, -paid)
           && r.value.0 == l.(debt := l.debt[user := Get(l.debt, user) - paid], totalBorrowed := l.totalBorrowed - paid,
                              tokens := r.value.0.tokens))
  {
    var paid := Min(amount, Get(l.debt, user));
    ReceiveExactly(l, l.native, user, paid);
    hide Receive, PaysIn, Wallet;
  }

  // ---------- liquidation ----------

  /** The numbers of a liquidation: `claim` is the debt plus bonus, `units` what it buys at the price, both rounded down, and the
      seizure is that or the whole balance, whichever is smaller. */
  ghost predicate SeizureNumbers(l: Lending, borrower: Address, asset: Address, claim: int, units: int, seized: int) {
    && IsFloor(claim, Get(l.debt, borrower) * (10_000 + l.bonus), 10_000)
    && IsFloor(units, claim * 10_000_000, Config(l, asset).price)
    && seized == Min(units, Get(l.col, (borrower, asset)))
  }

  lemma TargetIs(l: Lending, borrower: Address, asset: Address, claim: int, units: int, seized: int)
    requires Priced(l) && 0 < Get(l.debt, borrower) && 0 < Get(l.col, (borrower, asset))
    requires SeizureNumbers(l, borrower, asset, claim, units, seized)
    ensures SeizeTarget(l, Get(l.debt, borrower), asset) == Some(units) && 0 <= units
    ensures ToSeize(l, borrower, asset) == seized
  {
    var debt, price := Get(l.debt, borrower), Config(l, asset).price;
    PriceOfHeld(l, borrower, asset);
    MulMono(0, BPS + l.bonus, debt);
    TruncationIsFloor(debt * (BPS + l.bonus), BPS);
    OneFloor(claim, TDiv(debt * (BPS + l.bonus), BPS), debt * (BPS + l.bonus), BPS);
    TruncationIsFloor(claim * RATE, price);
    OneFloor(units, TDiv(claim * RATE, price), claim * RATE, price);
    hide TDiv, IsFloor, Priced, Config;
  }

  lemma PriceOfHeld(l: Lending, borrower: Address, asset: Address)
    requires Priced(l)
    ensures Config(l, asset).price > 0 && l.bonus >= 0
    ensures 0 < Get(l.col, (borrower, asset)) ==> asset in l.assets
  {}

  /** A liquidation goes through exactly if the threshold-weighted collateral does not cover the debt, there is collateral of that
      asset, the liquidator holds the debt, and the contract, repayment included, holds the seizure. The liquidator pays the whole
      debt and receives the seizure; the debt is gone and the balance lower by the seizure, and nothing else moves. */
  lemma LiquidateExactly(l: Lending, liquidator: Address, borrower: Address, asset: Address, claim: int, units: int, seized: int)
    requires Priced(l) && SeizureNumbers(l, borrower, asset, claim, units, seized)
    ensures var r, b, held := Liquidate(l, liquidator, borrower, asset), Get(l.debt, borrower), Get(l.col, (borrower, asset));
      && (r.Some? <==>
           && 0 < b && 0 < held && Weighted(l, borrower, l.assets, true) < b && b <= Wallet(l, l.native, liquidator)
           && (0 < seized ==> seized <= PurseIn(l.tokens, asset).held + if asset == l.native then b else 0))
      && (r.Some? ==>
           var k := r.value.0;
           && r.value.1 == seized && 0 <= seized
           && (seized == held || IsFloor(seized, claim * 10_000_000, Config(l, asset).price))
           && k == l.(debt := l.debt[borrower := 0], totalBorrowed := l.totalBorrowed - b,
                      col := l.col[(borrower, asset) := held - seized],
                      totalCol := l.totalCol[asset := Get(l.totalCol, asset) - seized], tokens := k.tokens)
           && Exchanged(l, k, liquidator, l.native, b, asset, seized))
  {
    hide Liquidate, Weighted, Priced, SeizeTarget, ToSeize, IsFloor, Exchanged;
    var b := Get(l.debt, borrower);
    LiquidationEnabled(l, liquidator, borrower, asset);
    if 0 < b && 0 < Get(l.col, (borrower, asset)) {
      TargetIs(l, borrower, asset, claim, units, seized);
      if Liquidate(l, liquidator, borrower, asset).Some? { LiquidateMoves(l, liquidator, borrower, asset, units); }
    }
  }

  /** One user handed over `out` of one token and got `back` of another, possibly the same. */
  ghost predicate Exchanged(l: Lending, k: Lending, user: Address, token: Address, out: int, other: Address, back: int) {
    && (forall t :: PurseIn(k.tokens, t).held
          == PurseIn(l.tokens, t).held + (if t == token then out else 0) - (if t == other then back else 0))
    && (forall t, u :: Wallet(k, t, u)
          == Wallet(l, t, u) - (if t == token && u == user then out else 0) + (if t == other && u == user then back else 0))
  }

  lemma LiquidateMoves(l: Lending, liquidator: Address, borrower: Address, asset: Address, units: int)
    requires Liquidate(l, liquidator, borrower, asset).Some? && 0 <= units && 0 < Get(l.col, (borrower, asset))
    requires SeizeTarget(l, Get(l.debt, borrower), asset) == Some(units)
    ensures var (k, seized) := Liquidate(l, liquidator, borrower, asset).value;
      var b, held := Get(l.debt, borrower), Get(l.col, (borrower, asset));
      && seized == Min(units, held)
      && k == l.(debt := l.debt[borrower := 0], totalBorrowed := l.totalBorrowed - b,
                 col := l.col[(borrower, asset) := held - seized],
                 totalCol := l.totalCol[asset := Get(l.totalCol, asset) - seized], tokens := k.tokens)
      && Exchanged(l, k, liquidator, l.native, b, asset, seized)
  {
    hide Receive, Send, Weighted, SeizeTarget, TDiv, PaysIn, Exchanged;
    var b, seized := Get(l.debt, borrower), Min(units, Get(l.col, (borrower, asset)));
    ReceiveExactly(l, l.native, liquidator, b);
    var j := Receive(l, l.native, liquidator, b).value;
    var mid := SetDebt(j, borrower, 0, l.totalBorrowed - b);
    SendExactly(mid, asset, liquidator, seized);
    SameTarget(l, j, b, asset);
    var k := Liquidate(l, liquidator, borrower, asset).value.0;
    if seized == 0 { NothingPaid(mid, k, asset, liquidator); }
    TwoPayments(l, mid, k, liquidator, l.native, b, asset, seized);
  }

  lemma SameTarget(l: Lending, j: Lending, b: int, asset: Address)
    requires j == l.(tokens := j.tokens)
    ensures SeizeTarget(j, b, asset) == SeizeTarget(l, b, asset)
  {}

  lemma NothingPaid(l: Lending, k: Lending, token: Address, user: Address)
    requires k.tokens == l.tokens
    ensures PaysIn(l.tokens, k.tokens, token, user, 0)
  {}

  lemma TwoPayments(l: Lending, m: Lending, k: Lending, user: Address, token: Address, out: int, other: Address, back: int)
    requires PaysIn(l.tokens, m.tokens, token, user, -out) && PaysIn(m.tokens, k.tokens, other, user, back)
    ensures Exchanged(l, k, user, token, out, other, back)
  {
    hide PurseIn;
  }

  // ---------- administration ----------

  /** Who may set what: the admin configures an asset with factors in order of at most 100%, a positive price and at most ten assets,
      sets a positive price, and sets a bonus of at most 30%. Anybody may copy a positive live rate into a configured asset. Each
      changes that one value. */
  lemma AdminExactly(l: Lending, actor: Address, asset: Address, cf: int, lt: int, price: int, bps: int)
    ensures var r := Configure(l, actor, asset, cf, lt, price);
      && (r.Some? <==> actor == l.admin && 0 < cf <= lt <= 10_000 && price > 0 && (asset in l.assets || |l.assets| < 10))
      && (r.Some? ==> r.value.0 == l.(assets := if asset in l.assets then l.assets else l.assets + [asset],
                                      cfg := l.cfg[asset := AssetConfig(cf, lt, price)]))
    ensures var r := UpdatePrice(l, actor, asset, price);
      && (r.Some? <==> actor == l.admin && price > 0)
      && (r.Some? ==>
           var c := if asset in l.cfg then l.cfg[asset].(price := price) else AssetConfig(7_000, 8_000, price);
           r.value.0 == l.(cfg := l.cfg[asset := c]))
    ensures var r := SyncPrice(l, asset, price);
      && (r.Some? <==> price > 0 && asset in l.cfg)
      && (r.Some? ==> r.value.0 == l.(cfg := l.cfg[asset := l.cfg[asset].(price := price)]))
    ensures var r := UpdateBonus(l, actor, bps);
      && (r.Some? <==> actor == l.admin && 0 <= bps <= 3_000)
      && (r.Some? ==> r.value.0 == l.(bonus := bps))
  {}

  /** A deployment supports sXLM at price one, with the given factors and a bonus of 5%, and nobody has a position. */
  lemma DeployedExactly(admin: Address, sxlm: Address, native: Address, cf: nat, lt: nat, tokens: map<Address, Purse>)
    ensures var l := Initial(admin, sxlm, native, cf, lt, tokens);
      && l.admin == admin && l.native == native && l.bonus == 500 && l.tokens == tokens
      && l.assets == [sxlm] && l.cfg == map[sxlm := AssetConfig(cf, lt, 10_000_000)]
      && l.col == map[] && l.debt == map[] && l.totalCol == map[] && l.totalBorrowed == 0
      && DebtsNonneg(l)
  {}

  // ---------- wallets and positions over whole runs ----------

  function Caller(op: Op): Option<Address> {
    match op
    case OpDeposit(user, _, _) => Some(user)
    case OpWithdraw(user, _, _) => Some(user)
    case OpBorrow(user, _) => Some(user)
    case OpRepay(user, _) => Some(user)
    case OpLiquidate(liquidator, _, _) => Some(liquidator)
    case OpFund(_, from, _) => Some(from)
    case _ => None
  }

  /** What the operation brings into its caller's wallet. */
  function Brings(l: Lending, op: Op, token: Address): int {
    match op
    case OpDeposit(user, asset, amount) => if Deposit(l, user, asset, amount).Some? && token == asset then -amount else 0
    case OpWithdraw(user, asset, amount) => if Withdraw(l, user, asset, amount).Some? && token == asset then amount else 0
    case OpBorrow(user, amount) => if Borrow(l, user, amount).Some? && token == l.native then amount else 0
    case OpRepay(user, amount) => if Repay(l, user, amount).Some? && token == l.native then -Repay(l, user, amount).value.1 else 0
    case OpLiquidate(liquidator, borrower, asset) =>
      var r := Liquidate(l, liquidator, borrower, asset);
      if r.None? then 0
      else (if token == asset then r.value.1 else 0) - if token == l.native then Get(l.debt, borrower) else 0
    case OpFund(asset, from, amount) => if Receive(l, asset, from, amount).Some? && token == asset then -amount else 0
    case _ => 0
  }

  /** How the operation moves a user's collateral: own deposits and withdrawals, and what a liquidation of the user seized. */
  function CollateralMoved(l: Lending, op: Op, user: Address, asset: Address): int {
    match op
    case OpDeposit(u, a, amount) => if u == user && a == asset && Deposit(l, u, a, amount).Some? then amount else 0
    case OpWithdraw(u, a, amount) => if u == user && a == asset && Withdraw(l, u, a, amount).Some? then -amount else 0
    case OpLiquidate(liquidator, u, a) =>
      if u == user && a == asset && Liquidate(l, liquidator, u, a).Some? then -Liquidate(l, liquidator, u, a).value.1 else 0
    case _ => 0
  }

  /** How it moves a user's debt: own loans and repayments, and a liquidation clears it. */
  function DebtMoved(l: Lending, op: Op, user: Address): int {
    match op
    case OpBorrow(u, amount) => if u == user && Borrow(l, u, amount).Some? then amount else 0
    case OpRepay(u, amount) => if u == user && Repay(l, u, amount).Some? then -Repay(l, u, amount).value.1 else 0
    case OpLiquidate(liquidator, u, a) => if u == user && Liquidate(l, liquidator, u, a).Some? then -Get(l.debt, u) else 0
    case _ => 0
  }

  /** What one step does to a wallet and to a position. */
  ghost predicate MovedBy(l: Lending, op: Op, token: Address, user: Address, k: Lending) {
    && Wallet(k, token, user) == Wallet(l, token, user) + (if Caller(op) == Some(user) then Brings(l, op, token) else 0)
    && Get(k.col, (user, token)) == Get(l.col, (user, token)) + CollateralMoved(l, op, user, token)
    && Get(k.debt, user) == Get(l.debt, user) + DebtMoved(l, op, user)
    && k.native == l.native
  }

  lemma SomeNumbers(l: Lending, borrower: Address, asset: Address) returns (claim: int, units: int, seized: int)
    requires Priced(l) && 0 <= Get(l.debt, borrower)
    ensures SeizureNumbers(l, borrower, asset, claim, units, seized)
  {
    var debt, price := Get(l.debt, borrower), Config(l, asset).price;
    PriceOfHeld(l, borrower, asset);
    claim := TDiv(debt * (BPS + l.bonus), BPS);
    units := TDiv(claim * RATE, price);
    seized := Min(units, Get(l.col, (borrower, asset)));
    MulMono(0, BPS + l.bonus, debt);
    TruncationIsFloor(debt * (BPS + l.bonus), BPS);
    TruncationIsFloor(claim * RATE, price);
    hide TDiv, IsFloor, Priced, Config;
  }

  ghost predicate DebtsNonneg(l: Lending) { forall u :: 0 <= Get(l.debt, u) }

  lemma LiquidateMoved(l: Lending, liquidator: Address, borrower: Address, asset: Address, token: Address, user: Address)
    requires Priced(l) && DebtsNonneg(l)
    ensures var op := OpLiquidate(liquidator, borrower, asset); MovedBy(l, op, token, user, Step(l, op))
  {
    hide Liquidate, Priced, SeizureNumbers, Weighted, IsFloor, Wallet, PurseIn;
    var claim, units, seized := SomeNumbers(l, borrower, asset);
    LiquidateExactly(l, liquidator, borrower, asset, claim, units, seized);
  }

  lemma MovedStep(l: Lending, op: Op, token: Address, user: Address)
    requires Priced(l) && DebtsNonneg(l)
    ensures MovedBy(l, op, token, user, Step(l, op))
  {
    hide Priced, DebtsNonneg, Step, MovedBy;
    match op
    case OpDeposit(u, asset, amount) => CollateralStep(l, op, token, user);
    case OpWithdraw(u, asset, amount) => CollateralStep(l, op, token, user);
    case OpBorrow(u, amount) => LoanStep(l, op, token, user);
    case OpRepay(u, amount) => LoanStep(l, op, token, user);
    case OpLiquidate(liquidator, borrower, asset) => LiquidateMoved(l, liquidator, borrower, asset, token, user);
    case OpFund(asset, from, amount) => LoanStep(l, op, token, user);
    case _ => AdminMoved(l, op, token, user);
  }

  lemma CollateralStep(l: Lending, op: Op, token: Address, user: Address)
    requires Priced(l) && (op.OpDeposit? || op.OpWithdraw?)
    ensures MovedBy(l, op, token, user, Step(l, op))
  {
    hide Priced, Weighted, PurseIn, Deposit, Withdraw;
    if op.OpDeposit? { DepositExactly(l, op.user, op.asset, op.amount); } else { WithdrawExactly(l, op.user, op.asset, op.amount); }
  }

  lemma LoanStep(l: Lending, op: Op, token: Address, user: Address)
    requires DebtsNonneg(l) && (op.OpBorrow? || op.OpRepay? || op.OpFund?)
    ensures MovedBy(l, op, token, user, Step(l, op))
  {
    hide Weighted, PurseIn, Borrow, Repay, Receive;
    if op.OpBorrow? { BorrowExactly(l, op.user, op.amount); }
    else if op.OpRepay? { RepayExactly(l, op.user, op.amount); }
    else { ReceiveExactly(l, op.token, op.from, op.amount); }
  }

  lemma AdminMoved(l: Lending, op: Op, token: Address, user: Address)
    requires op.OpConfigure? || op.OpPrice? || op.OpSync? || op.OpBonus?
    ensures MovedBy(l, op, token, user, Step(l, op))
  {
    AdminFrame(l, op);
    hide Step;
  }

  lemma DebtsStay(l: Lending, op: Op)
    requires Priced(l) && DebtsNonneg(l)
    ensures DebtsNonneg(Step(l, op))
  {
    forall u ensures 0 <= Get(Step(l, op).debt, u) {
      MovedStep(l, op, l.native, u);
      NotBelowZero(l, op, u);
      hide Step, DebtMoved;
    }
  }

  lemma NotBelowZero(l: Lending, op: Op, user: Address)
    requires DebtsNonneg(l)
    ensures 0 <= Get(l.debt, user) + DebtMoved(l, op, user)
  {
    match op
    case OpBorrow(u, amount) => hide Weighted, Send;
    case OpRepay(u, amount) => hide Receive;
    case OpLiquidate(liquidator, u, a) => hide Liquidate;
    case _ =>
  }

  function TotalBrought(l: Lending, ops: seq<Op>, token: Address, user: Address): int
    decreases |ops|
  {
    if ops == [] then 0
    else (if Caller(ops[0]) == Some(user) then Brings(l, ops[0], token) else 0) + TotalBrought(Step(l, ops[0]), ops[1..], token, user)
  }

  function TotalCollateral(l: Lending, ops: seq<Op>, user: Address, asset: Address): int
    decreases |ops|
  {
    if ops == [] then 0 else CollateralMoved(l, ops[0], user, asset) + TotalCollateral(Step(l, ops[0]), ops[1..], user, asset)
  }

  function TotalDebt(l: Lending, ops: seq<Op>, user: Address): int
    decreases |ops|
  {
    if ops == [] then 0 else DebtMoved(l, ops[0], user) + TotalDebt(Step(l, ops[0]), ops[1..], user)
  }

  /** Over every run: a wallet moves by its owner's own calls only; a user's collateral is the deposits less the withdrawals and what
      was seized in liquidations of that user, and the debt the loans less the repayments and what liquidators repaid. */
  lemma {:induction false} PositionsOverRuns(l: Lending, ops: seq<Op>, token: Address, user: Address)
    requires Priced(l) && DebtsNonneg(l)
    ensures var z := Run(l, ops);
      && Wallet(z, token, user) == Wallet(l, token, user) + TotalBrought(l, ops, token, user)
      && Get(z.col, (user, token)) == Get(l.col, (user, token)) + TotalCollateral(l, ops, user, token)
      && Get(z.debt, user) == Get(l.debt, user) + TotalDebt(l, ops, user)
    decreases |ops|
  {
    if ops != [] {
      MovedStep(l, ops[0], token, user);
      DebtsStay(l, ops[0]);
      PricedStep(l, ops[0]);
      hide Step, Priced, DebtsNonneg, Brings, CollateralMoved, DebtMoved, Wallet;
      PositionsOverRuns(Step(l, ops[0]), ops[1..], token, user);
    }
  }
}
