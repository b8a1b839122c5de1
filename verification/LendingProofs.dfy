/** Whole-run properties of lending: ledger conservation, liquidation limits, and safety of healthy positions. */
module LendingProofs {
  import opened Base
  import opened Arith
  import opened Sums
  import opened Purses
  import opened LendingSpec

  // ---------- conservation ----------

  /** All users' balances of one collateral asset. */
  ghost function Balances(l: Lending, asset: Address): map<(Address, Address), int> {
    map k | k in l.col && k.1 == asset :: l.col[k]
  }

  ghost predicate Ledger(l: Lending) {
    && (forall k :: k in l.col ==> 0 <= l.col[k])
    && (forall u :: u in l.debt ==> 0 <= l.debt[u])
    && (forall a :: Get(l.totalCol, a) == Sum(Balances(l, a)))
    && l.totalBorrowed == Sum(l.debt)
  }

  /** Tokens of one kind held beyond the recorded collateral, counting loans as still held. */
  ghost function Equity(l: Lending, token: Address): int {
    TokenPurse(l, token).held - Get(l.totalCol, token) + if token == l.native then l.totalBorrowed else 0
  }

  ghost function Donated(l: Lending, op: Op, token: Address): int {
    if op.OpFund? && op.token == token && Receive(l, token, op.from, op.amount).Some? then op.amount else 0
  }

  ghost function DonatedBy(l: Lending, ops: seq<Op>, token: Address): int
    decreases |ops|
  {
    if ops == [] then 0 else Donated(l, ops[0], token) + DonatedBy(Step(l, ops[0]), ops[1..], token)
  }

  lemma ReceiveEffect(l: Lending, token: Address, from: Address, amount: int)
    requires Receive(l, token, from, amount).Some?
    ensures var k := Receive(l, token, from, amount).value;
      && 0 <= amount && k == l.(tokens := k.tokens)
      && (forall t :: TokenPurse(k, t).held == TokenPurse(l, t).held + if t == token then amount else 0)
  {}

  lemma SendEffect(l: Lending, token: Address, to: Address, amount: int)
    requires Send(l, token, to, amount).Some?
    ensures var k := Send(l, token, to, amount).value;
      && 0 <= amount <= TokenPurse(l, token).held && k == l.(tokens := k.tokens)
      && (forall t :: TokenPurse(k, t).held == TokenPurse(l, t).held - if t == token then amount else 0)
  {}

  lemma SetColLedger(l: Lending, user: Address, asset: Address, amount: int, total: int)
    requires Ledger(l) && 0 <= amount
    requires total == Get(l.totalCol, asset) - Get(l.col, (user, asset)) + amount
    ensures Ledger(SetCol(l, user, asset, amount, total))
  {
    var k := SetCol(l, user, asset, amount, total);
    forall a
      ensures Get(k.totalCol, a) == Sum(Balances(k, a))
    {
      if a == asset {
        assert Balances(k, a) == Balances(l, a)[(user, asset) := amount];
        SumUpdate(Balances(l, a), (user, asset), amount);
      } else {
        assert Balances(k, a) == Balances(l, a);
      }
    }
  }

  lemma SetDebtLedger(l: Lending, user: Address, amount: int, total: int)
    requires Ledger(l) && 0 <= amount
    requires total == l.totalBorrowed - Get(l.debt, user) + amount
    ensures Ledger(SetDebt(l, user, amount, total))
  {
    SumUpdate(l.debt, user, amount);
    var k := SetDebt(l, user, amount, total);
    assert forall a :: Balances(k, a) == Balances(l, a);
  }

  lemma LedgerFrame(l: Lending, k: Lending)
    requires Ledger(l)
    requires k.col == l.col && k.totalCol == l.totalCol && k.debt == l.debt && k.totalBorrowed == l.totalBorrowed
    ensures Ledger(k)
  {}

  // ---------- the effect of each entry point ----------

  /** The contract's holding of `token` grew by `delta`; no other holding changed. */
  ghost predicate HeldChange(l: Lending, k: Lending, token: Address, delta: int) {
    forall t :: TokenPurse(k, t).held == TokenPurse(l, t).held + if t == token then delta else 0
  }

  /** One user's balance of one asset moved by `delta`, together with the asset's total and the tokens held. */
  ghost predicate ColMove(l: Lending, k: Lending, user: Address, asset: Address, delta: int) {
    && k == SetCol(l, user, asset, Get(l.col, (user, asset)) + delta, Get(l.totalCol, asset) + delta).(tokens := k.tokens)
    && HeldChange(l, k, asset, delta)
  }

  /** One user's debt moved by `delta`, together with the total, against native tokens. */
  ghost predicate DebtMove(l: Lending, k: Lending, user: Address, delta: int) {
    && k == SetDebt(l, user, Get(l.debt, user) + delta, l.totalBorrowed + delta).(tokens := k.tokens)
    && HeldChange(l, k, l.native, -delta)
  }

  lemma DepositEffect(l: Lending, user: Address, asset: Address, amount: int)
    requires Deposit(l, user, asset, amount).Some?
    ensures amount > 0 && asset in l.assets
    ensures ColMove(l, Deposit(l, user, asset, amount).value.0, user, asset, amount)
  {}

  lemma WithdrawEffect(l: Lending, user: Address, asset: Address, amount: int)
    requires Withdraw(l, user, asset, amount).Some?
    ensures amount > 0 && Get(l.col, (user, asset)) >= amount
    ensures Get(l.debt, user) > 0 ==>
      TDiv(WeightedWith(l, user, l.assets, asset, Get(l.col, (user, asset)) - amount, false) * RATE, Get(l.debt, user)) >= RATE
    ensures ColMove(l, Withdraw(l, user, asset, amount).value.0, user, asset, -amount)
  {}

  lemma BorrowEffect(l: Lending, user: Address, amount: int)
    requires Borrow(l, user, amount).Some?
    ensures amount > 0 && Get(l.debt, user) + amount <= Weighted(l, user, l.assets, false)
    ensures DebtMove(l, Borrow(l, user, amount).value.0, user, amount)
  {}

  lemma RepayEffect(l: Lending, user: Address, amount: int)
    requires Repay(l, user, amount).Some?
    ensures Repay(l, user, amount).value.1 == Min(amount, Get(l.debt, user)) >= 0
    ensures DebtMove(l, Repay(l, user, amount).value.0, user, -Min(amount, Get(l.debt, user)))
  {
    ReceiveEffect(l, l.native, user, Min(amount, Get(l.debt, user)));
    hide Receive, TokenPurse;
  }

  /** A liquidation repays the whole debt of one user and then moves collateral of one asset out of that user's balance. */
  lemma LiquidateEffect(l: Lending, liquidator: Address, borrower: Address, asset: Address) returns (mid: Lending)
    requires Sane(l)
    requires Liquidate(l, liquidator, borrower, asset).Some?
    ensures 0 < Get(l.debt, borrower) && 0 < Get(l.col, (borrower, asset))
    ensures DebtMove(l, mid, borrower, -Get(l.debt, borrower))
    ensures ColMove(mid, Liquidate(l, liquidator, borrower, asset).value.0, borrower, asset, -Liquidate(l, liquidator, borrower, asset).value.1)
  {
    var b := Get(l.debt, borrower);
    SeizureBounded(l, liquidator, borrower, asset);
    ReceiveEffect(l, l.native, liquidator, b);
    var j := Receive(l, l.native, liquidator, b).value;
    mid := SetDebt(j, borrower, 0, l.totalBorrowed - b);
    HeldFrame(l, j, mid);
    hide Receive, Weighted, SeizeTarget, TDiv, Seize, TokenPurse;
    SeizeEffect(mid, liquidator, borrower, asset, Liquidate(l, liquidator, borrower, asset).value.1);
  }

  lemma SeizeEffect(l: Lending, liquidator: Address, borrower: Address, asset: Address, seized: int)
    requires 0 <= seized && Seize(l, liquidator, borrower, asset, seized).Some?
    ensures ColMove(l, Seize(l, liquidator, borrower, asset, seized).value.0, borrower, asset, -seized)
  {
    if seized > 0 {
      SendEffect(l, asset, liquidator, seized);
    }
    HeldFrame(l, l, l);
    hide Send, TokenPurse;
  }

  lemma HeldFrame(l: Lending, j: Lending, k: Lending)
    requires j.tokens == k.tokens
    ensures forall t :: TokenPurse(j, t) == TokenPurse(k, t)
  {}

  lemma SeizeBound(b: int, bonus: int, price: int)
    requires b > 0 && bonus >= 0 && price > 0
    ensures var target := TDiv(TDiv(b * (BPS + bonus), BPS) * RATE, price);
      0 <= target && target * price * BPS <= b * (BPS + bonus) * RATE
  {}

  /** The seizure stays within what is available and within the debt plus bonus at the configured price. */
  lemma SeizureBounded(l: Lending, liquidator: Address, borrower: Address, asset: Address)
    requires Sane(l)
    requires Liquidate(l, liquidator, borrower, asset).Some?
    ensures var seized := Liquidate(l, liquidator, borrower, asset).value.1;
      && 0 <= seized <= Get(l.col, (borrower, asset))
      && seized * Config(l, asset).price * BPS <= Get(l.debt, borrower) * (BPS + l.bonus) * RATE
  {
    var price := Config(l, asset).price;
    var b := Get(l.debt, borrower);
    SeizeBound(b, l.bonus, price);
    var target := SeizeTarget(l, b, asset).value;
    hide Receive, Send, Weighted, TDiv, SetCol, SetDebt, SeizeTarget;
    var seized := Liquidate(l, liquidator, borrower, asset).value.1;
    assert seized == Min(target, Get(l.col, (borrower, asset)));
    MulMono(seized, target, price);
  }

  // ---------- conservation over runs ----------

  /** Prices are positive and the bonus is not negative: every setter checks it. */
  ghost predicate Sane(l: Lending) {
    l.bonus >= 0 && forall a :: a in l.cfg ==> l.cfg[a].price > 0
  }

  ghost predicate SameEquity(l: Lending, k: Lending) {
    forall t :: Equity(k, t) == Equity(l, t)
  }

  lemma ColMoveBooks(l: Lending, k: Lending, user: Address, asset: Address, delta: int)
    requires Ledger(l) && ColMove(l, k, user, asset, delta) && 0 <= Get(l.col, (user, asset)) + delta
    ensures Ledger(k) && SameEquity(l, k)
  {
    hide Ledger, SameEquity, ColMove;
    ColMoveEquity(l, k, user, asset, delta);
    ColMoveLedger(l, k, user, asset, delta);
  }

  lemma ColMoveLedger(l: Lending, k: Lending, user: Address, asset: Address, delta: int)
    requires Ledger(l) && ColMove(l, k, user, asset, delta) && 0 <= Get(l.col, (user, asset)) + delta
    ensures Ledger(k)
  {
    hide Ledger, HeldChange;
    var m := SetCol(l, user, asset, Get(l.col, (user, asset)) + delta, Get(l.totalCol, asset) + delta);
    SetColLedger(l, user, asset, Get(l.col, (user, asset)) + delta, Get(l.totalCol, asset) + delta);
    LedgerFrame(m, k);
  }

  lemma ColMoveEquity(l: Lending, k: Lending, user: Address, asset: Address, delta: int)
    requires ColMove(l, k, user, asset, delta)
    ensures SameEquity(l, k)
  {
    hide TokenPurse;
  }

  lemma DebtMoveBooks(l: Lending, k: Lending, user: Address, delta: int)
    requires Ledger(l) && DebtMove(l, k, user, delta) && 0 <= Get(l.debt, user) + delta
    ensures Ledger(k) && SameEquity(l, k)
  {
    var m := SetDebt(l, user, Get(l.debt, user) + delta, l.totalBorrowed + delta);
    SetDebtLedger(l, user, Get(l.debt, user) + delta, l.totalBorrowed + delta);
    LedgerFrame(m, k);
    hide Ledger, TokenPurse;
  }

  lemma LiquidateBooks(l: Lending, liquidator: Address, borrower: Address, asset: Address)
    requires Ledger(l) && Sane(l)
    requires Liquidate(l, liquidator, borrower, asset).Some?
    ensures var k := Liquidate(l, liquidator, borrower, asset).value.0; Ledger(k) && SameEquity(l, k)
  {
    hide Liquidate, ColMove, Ledger, Equity, HeldChange, Sane, TDiv;
    SeizureBounded(l, liquidator, borrower, asset);
    var mid := LiquidateEffect(l, liquidator, borrower, asset);
    assert Get(mid.col, (borrower, asset)) == Get(l.col, (borrower, asset));
    hide DebtMove;
    DebtMoveBooks(l, mid, borrower, -Get(l.debt, borrower));
    var (k, seized) := Liquidate(l, liquidator, borrower, asset).value;
    ColMoveBooks(mid, k, borrower, asset, -seized);
  }

  lemma FundBooks(l: Lending, token: Address, from: Address, amount: int)
    requires Ledger(l) && Receive(l, token, from, amount).Some?
    ensures var k := Receive(l, token, from, amount).value;
      Ledger(k) && forall t :: Equity(k, t) == Equity(l, t) + if t == token then amount else 0
  {}

  lemma AdminFrame(l: Lending, op: Op)
    requires op.OpConfigure? || op.OpPrice? || op.OpSync? || op.OpBonus?
    ensures var k := Step(l, op);
      k == l.(bonus := k.bonus, assets := k.assets, cfg := k.cfg)
  {}

  lemma AdminBooks(l: Lending, op: Op)
    requires op.OpConfigure? || op.OpPrice? || op.OpSync? || op.OpBonus?
    requires Ledger(l)
    ensures Ledger(Step(l, op)) && SameEquity(l, Step(l, op))
  {
    AdminFrame(l, op);
    hide Step;
    LedgerFrame(l, Step(l, op));
    HeldFrame(l, l, Step(l, op));
    hide Ledger, TokenPurse;
  }

  lemma LedgerStep(l: Lending, op: Op)
    requires Ledger(l) && Sane(l)
    ensures Ledger(Step(l, op))
    ensures forall t :: Equity(Step(l, op), t) == Equity(l, t) + Donated(l, op, t)
  {
    hide Ledger, Equity, Deposit, Withdraw, Borrow, Repay, Liquidate, Receive, Sane, ColMove, DebtMove;
    var k := Step(l, op);
    match op
    case OpDeposit(user, asset, amount) =>
      if Deposit(l, user, asset, amount).Some? {
        Positions(l, user, asset);
        DepositEffect(l, user, asset, amount);
        ColMoveBooks(l, k, user, asset, amount);
      }
    case OpWithdraw(user, asset, amount) =>
      if Withdraw(l, user, asset, amount).Some? {
        WithdrawEffect(l, user, asset, amount);
        ColMoveBooks(l, k, user, asset, -amount);
      }
    case OpBorrow(user, amount) =>
      if Borrow(l, user, amount).Some? {
        Positions(l, user, user);
        BorrowEffect(l, user, amount);
        DebtMoveBooks(l, k, user, amount);
      }
    case OpRepay(user, amount) =>
      if Repay(l, user, amount).Some? {
        RepayEffect(l, user, amount);
        DebtMoveBooks(l, k, user, -Min(amount, Get(l.debt, user)));
      }
    case OpLiquidate(liquidator, borrower, asset) =>
      if Liquidate(l, liquidator, borrower, asset).Some? { LiquidateBooks(l, liquidator, borrower, asset); }
    case OpFund(token, from, amount) => if Receive(l, token, from, amount).Some? { FundBooks(l, token, from, amount); }
    case _ => AdminBooks(l, op);
  }

  lemma Positions(l: Lending, user: Address, asset: Address)
    requires Ledger(l)
    ensures 0 <= Get(l.col, (user, asset)) && 0 <= Get(l.debt, user)
  {}

  lemma SaneStep(l: Lending, op: Op)
    requires Sane(l)
    ensures Sane(Step(l, op)) && Step(l, op).native == l.native
  {
    hide Weighted, WeightedWith, TDiv;
  }

  /** In every run: totals equal the sums of the positions, and each token's equity moves only by donations. */
  lemma {:induction false} ConservationOverRuns(l: Lending, ops: seq<Op>)
    requires Ledger(l) && Sane(l)
    ensures Ledger(Run(l, ops)) && Sane(Run(l, ops))
    ensures forall t :: Equity(Run(l, ops), t) == Equity(l, t) + DonatedBy(l, ops, t)
    decreases |ops|
  {
    if ops != [] {
      LedgerStep(l, ops[0]);
      SaneStep(l, ops[0]);
      hide Step, Ledger, Sane, Equity, Donated;
      ConservationOverRuns(Step(l, ops[0]), ops[1..]);
    }
  }
}
