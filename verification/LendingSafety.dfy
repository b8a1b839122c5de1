/** Safety of lending positions: while no factor or price falls, no position ever becomes liquidatable. */
module LendingSafety {
  import opened Base
  import opened Arith
  import opened LendingSpec
  import opened LendingProofs
  import Purses
  import Sums

  // ---------- weighted collateral ----------

  lemma TermNonneg(c: AssetConfig, amount: int, useLt: bool)
    requires 0 <= amount && 0 <= c.price && 0 <= Factor(c, useLt)
    ensures 0 <= Term(c, amount, useLt)
    ensures Term(c, amount, useLt) == (amount * c.price * Factor(c, useLt)) / (BPS * RATE)
  {}

  /** A contribution grows with the amount, the price and the factor. */
  lemma TermMono(c: AssetConfig, a: int, f: bool, d: AssetConfig, b: int, g: bool)
    requires 0 <= a <= b && 0 <= c.price <= d.price && 0 <= Factor(c, f) <= Factor(d, g)
    ensures 0 <= Term(c, a, f) <= Term(d, b, g)
  {
    TermNonneg(c, a, f);
    TermNonneg(d, b, g);
    Product3(a, c.price, Factor(c, f), b, d.price, Factor(d, g));
    FloorMono(a * c.price * Factor(c, f), b * d.price * Factor(d, g), BPS * RATE);
  }

  lemma Product3(a: int, p: int, f: int, b: int, q: int, g: int)
    requires 0 <= a <= b && 0 <= p <= q && 0 <= f <= g
    ensures 0 <= a * p * f <= b * q * g
  {
    MulMono(a, b, p);
    MulMono(p, q, b);
    MulMono(0, a, p);
    MulMono(a * p, b * q, f);
    MulMono(f, g, b * q);
    MulMono(0, a * p, f);
  }

  ghost predicate PointwiseLe(l: Lending, k: Lending, user: Address, assets: seq<Address>, f: bool, g: bool) {
    forall a :: a in assets ==>
      0 <= Term(Config(l, a), Get(l.col, (user, a)), f) <= Term(Config(k, a), Get(k.col, (user, a)), g)
  }

  lemma {:induction false} WeightedMono(l: Lending, k: Lending, user: Address, assets: seq<Address>, f: bool, g: bool)
    requires PointwiseLe(l, k, user, assets, f, g)
    ensures 0 <= Weighted(l, user, assets, f) <= Weighted(k, user, assets, g)
  {
    if assets != [] {
      var n := |assets| - 1;
      assert assets[n] in assets;
      hide Term;
      WeightedMono(l, k, user, assets[..n], f, g);
    }
  }

  /** Weighted collateral is monotone in every balance, price and factor. */
  lemma WeightedGrows(l: Lending, k: Lending, user: Address, assets: seq<Address>, f: bool, g: bool)
    requires forall a :: a in assets ==> 0 <= Get(l.col, (user, a)) <= Get(k.col, (user, a))
    requires forall a :: a in assets ==>
      && 0 <= Config(l, a).price <= Config(k, a).price
      && 0 <= Factor(Config(l, a), f) <= Factor(Config(k, a), g)
    ensures 0 <= Weighted(l, user, assets, f) <= Weighted(k, user, assets, g)
  {
    forall a | a in assets
      ensures 0 <= Term(Config(l, a), Get(l.col, (user, a)), f) <= Term(Config(k, a), Get(k.col, (user, a)), g)
    {
      TermMono(Config(l, a), Get(l.col, (user, a)), f, Config(k, a), Get(k.col, (user, a)), g);
    }
    hide Term, Config, Factor;
    WeightedMono(l, k, user, assets, f, g);
  }

  /** The withdrawal check's loop computes the weighted collateral of the position as it will be. */
  lemma {:induction false} OverrideIsUpdate(l: Lending, user: Address, assets: seq<Address>, asset: Address, amount: int, useLt: bool)
    ensures WeightedWith(l, user, assets, asset, amount, useLt)
         == Weighted(l.(col := l.col[(user, asset) := amount]), user, assets, useLt)
  {
    if assets != [] {
      OverrideIsUpdate(l, user, assets[..|assets| - 1], asset, amount, useLt);
      hide Term;
    }
  }

  /** The weighted collateral reads one user's balances and the configurations, nothing else. */
  lemma {:induction false} WeightedFrame(l: Lending, k: Lending, user: Address, assets: seq<Address>, useLt: bool)
    requires k.cfg == l.cfg
    requires forall a :: a in assets ==> Get(k.col, (user, a)) == Get(l.col, (user, a))
    ensures Weighted(k, user, assets, useLt) == Weighted(l, user, assets, useLt)
  {
    if assets != [] {
      var n := |assets| - 1;
      assert assets[n] in assets;
      hide Term;
      WeightedFrame(l, k, user, assets[..n], useLt);
    }
  }

  /** The scaled, floored comparison decides exactly whether the collateral covers the debt. */
  lemma CoverIff(w: int, b: int)
    requires 0 <= w && 0 < b
    ensures TDiv(w * RATE, b) >= RATE <==> w >= b
  {}

  // ---------- safety ----------

  /** No balance is negative, and only supported assets are held. */
  ghost predicate Placed(col: map<(Address, Address), int>, assets: seq<Address>) {
    forall k :: k in col ==> 0 <= col[k] && (col[k] > 0 ==> k.1 in assets)
  }

  /** Factors ordered and non-negative on every supported asset, and no collateral outside the supported list. */
  ghost predicate Configured(l: Lending) {
    && Sane(l)
    && Placed(l.col, l.assets)
    && (forall a :: a in l.assets ==> 0 <= Config(l, a).cf <= Config(l, a).lt)
  }

  ghost predicate Covered(l: Lending, user: Address) {
    0 <= Get(l.debt, user) <= Weighted(l, user, l.assets, false)
  }

  ghost predicate Safe(l: Lending) {
    Configured(l) && forall u :: Covered(l, u)
  }

  /** The operation lowers no price and no factor of a supported asset. */
  ghost predicate Favourable(l: Lending, op: Op) {
    match op
    case OpConfigure(_, asset, cf, lt, price) =>
      asset in l.assets ==> cf >= Config(l, asset).cf && lt >= Config(l, asset).lt && price >= Config(l, asset).price
    case OpPrice(_, asset, price) => asset in l.assets ==> price >= Config(l, asset).price
    case OpSync(asset, live) => asset in l.assets ==> live >= Config(l, asset).price
    case _ => true
  }

  lemma PointwiseSelf(l: Lending, user: Address)
    requires Configured(l)
    ensures PointwiseLe(l, l, user, l.assets, false, true)
    ensures PointwiseLe(l, l, user, l.assets, false, false) && PointwiseLe(l, l, user, l.assets, true, true)
  {
    forall a | a in l.assets
      ensures 0 <= Term(Config(l, a), Get(l.col, (user, a)), false) <= Term(Config(l, a), Get(l.col, (user, a)), true)
    {
      TermMono(Config(l, a), Get(l.col, (user, a)), false, Config(l, a), Get(l.col, (user, a)), true);
    }
  }

  /** Collateral factors below liquidation thresholds make the borrowing limit the tighter one. */
  lemma LimitBelowThreshold(l: Lending, user: Address)
    requires Configured(l)
    ensures 0 <= Weighted(l, user, l.assets, false) <= Weighted(l, user, l.assets, true)
  {
    PointwiseSelf(l, user);
    WeightedMono(l, l, user, l.assets, false, true);
  }

  /** Prices, balances and thresholds non-negative, and no collateral outside the supported list; nothing about the order of the
      factors, which the constructor does not check. */
  ghost predicate Priced(l: Lending) {
    && Sane(l)
    && Placed(l.col, l.assets)
    && Factored(l)
  }

  lemma WeightedNonneg(l: Lending, user: Address, useLt: bool)
    requires Priced(l)
    ensures 0 <= Weighted(l, user, l.assets, useLt)
  {
    forall a | a in l.assets
      ensures 0 <= Term(Config(l, a), Get(l.col, (user, a)), useLt) <= Term(Config(l, a), Get(l.col, (user, a)), useLt)
    {
      TermNonneg(Config(l, a), Get(l.col, (user, a)), useLt);
    }
    hide Term, Config;
    WeightedMono(l, l, user, l.assets, useLt, useLt);
  }

  /** No factor is negative. */
  ghost predicate Factored(l: Lending) {
    forall a :: a in l.assets ==> 0 <= Config(l, a).cf && 0 <= Config(l, a).lt
  }

  lemma PricedConfig(l: Lending, op: Op)
    requires Factored(l)
    ensures Factored(Step(l, op)) && forall a :: a in l.assets ==> a in Step(l, op).assets
  {
    hide Step, Factored, Config;
    match op
    case OpConfigure(actor, asset, cf, lt, price) => ConfigureFactored(l, actor, asset, cf, lt, price);
    case OpPrice(actor, asset, price) => PriceFactored(l, op);
    case OpSync(asset, live) => PriceFactored(l, op);
    case _ =>
      KeepsConfig(l, op);
      SameFactored(l, Step(l, op));
  }

  lemma SameFactored(l: Lending, t: Lending)
    requires Factored(l) && SameConfig(l, t)
    ensures Factored(t)
  {
    assert forall a :: Config(t, a) == Config(l, a);
  }

  lemma ConfigureFactored(l: Lending, actor: Address, asset: Address, cf: int, lt: int, price: int)
    requires Factored(l)
    ensures var t := Step(l, OpConfigure(actor, asset, cf, lt, price));
      Factored(t) && forall a :: a in l.assets ==> a in t.assets
  {
    var t := Step(l, OpConfigure(actor, asset, cf, lt, price));
    if Configure(l, actor, asset, cf, lt, price).Some? { WriteOne(l, t, asset, AssetConfig(cf, lt, price)); }
    hide Config;
  }

  lemma PriceFactored(l: Lending, op: Op)
    requires Factored(l) && (op.OpPrice? || op.OpSync?)
    ensures Factored(Step(l, op)) && Step(l, op).assets == l.assets
  {
    var t := Step(l, op);
    if t != l {
      var price := if op.OpPrice? then op.price else op.live;
      WriteOne(l, t, op.asset, Config(l, op.asset).(price := price));
      hide Step, Config;
    }
  }

  lemma WriteOne(l: Lending, t: Lending, asset: Address, c: AssetConfig)
    requires t.cfg == l.cfg[asset := c]
    ensures Config(t, asset) == c && forall a :: a != asset ==> Config(t, a) == Config(l, a)
  {}

  lemma MovePlaced(l: Lending, t: Lending, user: Address, asset: Address, delta: int)
    requires ColMove(l, t, user, asset, delta) && Placed(l.col, l.assets)
    requires 0 <= Get(l.col, (user, asset)) + delta && (delta > 0 ==> asset in l.assets)
    ensures Placed(t.col, t.assets)
  {
    hide HeldChange;
  }

  lemma PricedBalances(l: Lending, op: Op)
    requires Sane(l) && Placed(l.col, l.assets)
    ensures Step(l, op).col == l.col || Placed(Step(l, op).col, Step(l, op).assets)
  {
    hide Deposit, Withdraw, Borrow, Repay, Liquidate, Receive, ColMove, Placed, Sane;
    match op
    case OpDeposit(user, asset, amount) =>
      if Deposit(l, user, asset, amount).Some? {
        DepositEffect(l, user, asset, amount);
        BalanceNonneg(l, user, asset);
        MovePlaced(l, Step(l, op), user, asset, amount);
      }
    case OpWithdraw(user, asset, amount) =>
      if Withdraw(l, user, asset, amount).Some? {
        WithdrawEffect(l, user, asset, amount);
        MovePlaced(l, Step(l, op), user, asset, -amount);
      }
    case OpBorrow(user, amount) => if Borrow(l, user, amount).Some? { BorrowEffect(l, user, amount); }
    case OpRepay(user, amount) => if Repay(l, user, amount).Some? { RepayEffect(l, user, amount); }
    case OpLiquidate(liquidator, borrower, asset) =>
      if Liquidate(l, liquidator, borrower, asset).Some? { LiquidatePlaced(l, liquidator, borrower, asset); }
    case OpFund(token, from, amount) => if Receive(l, token, from, amount).Some? { ReceiveEffect(l, token, from, amount); }
    case _ =>
      AdminFrame(l, op);
      hide Step;
  }

  lemma BalanceNonneg(l: Lending, user: Address, asset: Address)
    requires Placed(l.col, l.assets)
    ensures 0 <= Get(l.col, (user, asset))
  {}

  lemma LiquidatePlaced(l: Lending, liquidator: Address, borrower: Address, asset: Address)
    requires Sane(l) && Placed(l.col, l.assets) && Liquidate(l, liquidator, borrower, asset).Some?
    ensures var t := Liquidate(l, liquidator, borrower, asset).value.0; Placed(t.col, t.assets)
  {
    hide Liquidate, Placed, Sane;
    var (t, seized) := Liquidate(l, liquidator, borrower, asset).value;
    SeizureBounded(l, liquidator, borrower, asset);
    var mid := LiquidateEffect(l, liquidator, borrower, asset);
    hide HeldChange, ColMove, SeizeTarget;
    MovePlaced(mid, t, borrower, asset, -seized);
  }

  lemma PricedStep(l: Lending, op: Op)
    requires Priced(l)
    ensures Priced(Step(l, op))
  {
    SaneStep(l, op);
    PricedBalances(l, op);
    PricedConfig(l, op);
    hide Step, Sane, Config;
  }

  /** From any deployment on, ordered factors or not, so that `LiquidationEnabled` speaks of every reachable state. */
  lemma {:induction false} PricedOverRuns(l: Lending, ops: seq<Op>)
    requires Priced(l)
    ensures Priced(Run(l, ops))
    decreases |ops|
  {
    if ops != [] {
      PricedStep(l, ops[0]);
      hide Step, Priced;
      PricedOverRuns(Step(l, ops[0]), ops[1..]);
    }
  }

  /** What a liquidation would hand over. */
  function ToSeize(l: Lending, borrower: Address, asset: Address): int {
    match SeizeTarget(l, Get(l.debt, borrower), asset)
    case None => 0
    case Some(target) => Min(target, Get(l.col, (borrower, asset)))
  }

  /** A position is liquidatable exactly when debt exceeds the threshold-weighted collateral, the liquidator can pay, and the
      contract holds what is to be seized; the repayment just received counts when the collateral is the native token. */
  lemma LiquidationEnabled(l: Lending, liquidator: Address, borrower: Address, asset: Address)
    requires Priced(l)
    ensures Liquidate(l, liquidator, borrower, asset).Some? <==>
      && Get(l.debt, borrower) > 0
      && Get(l.col, (borrower, asset)) > 0
      && Weighted(l, borrower, l.assets, true) < Get(l.debt, borrower)
      && Get(TokenPurse(l, l.native).wallets, liquidator) >= Get(l.debt, borrower)
      && (ToSeize(l, borrower, asset) > 0 ==>
           TokenPurse(l, asset).held + (if asset == l.native then Get(l.debt, borrower) else 0) >= ToSeize(l, borrower, asset))
  {
    var b := Get(l.debt, borrower);
    WeightedNonneg(l, borrower, true);
    if b > 0 { CoverIff(Weighted(l, borrower, l.assets, true), b); }
    hide Weighted, TDiv;
  }

  lemma SafeMeansHealthy(l: Lending, liquidator: Address, borrower: Address, asset: Address)
    requires Configured(l) && Covered(l, borrower)
    ensures Liquidate(l, liquidator, borrower, asset) == None
    ensures HealthFactor(l, borrower).Some? ==> HealthFactor(l, borrower).value >= RATE
  {
    LimitBelowThreshold(l, borrower);
    if Get(l.debt, borrower) > 0 {
      CoverIff(Weighted(l, borrower, l.assets, true), Get(l.debt, borrower));
    }
    hide Weighted, TDiv;
  }

  // ---------- peaks ----------

  /** Price times factor: what one unit of an asset counts for, before scaling. */
  function Worth(c: AssetConfig, useLt: bool): int { c.price * Factor(c, useLt) }

  function Limit(peak: int, amount: int): int {
    if amount == 0 then 0 else TDiv(amount * peak, BPS * RATE)
  }

  /** A position valued at given worths instead of the current ones. */
  function Ceiling(l: Lending, peaks: map<Address, int>, user: Address, assets: seq<Address>): int {
    if assets == [] then 0
    else
      var n := |assets| - 1;
      Ceiling(l, peaks, user, assets[..n]) + Limit(Get(peaks, assets[n]), Get(l.col, (user, assets[n])))
  }

  function Worths(l: Lending, useLt: bool): map<Address, int> {
    map a | a in l.assets :: Worth(Config(l, a), useLt)
  }

  /** `peaks` lie between what each asset currently lends and where it currently liquidates. */
  ghost predicate Bracketed(l: Lending, peaks: map<Address, int>) {
    && (forall a :: a in peaks ==> a in l.assets)
    && (forall a :: a in l.assets ==> Worth(Config(l, a), false) <= Get(peaks, a) <= Worth(Config(l, a), true))
  }

  ghost predicate Within(l: Lending, peaks: map<Address, int>, user: Address) {
    0 <= Get(l.debt, user) <= Ceiling(l, peaks, user, l.assets)
  }

  /** Every debt was within a borrowing limit that the assets once had and that still liquidates nobody. */
  ghost predicate Steady(l: Lending, peaks: map<Address, int>) {
    Configured(l) && Bracketed(l, peaks) && forall u :: Within(l, peaks, u)
  }

  /** The highest lending worth each supported asset has had, with the present one. */
  function Raised(l: Lending, peaks: map<Address, int>): map<Address, int> {
    map a | a in l.assets :: Max(Get(peaks, a), Worth(Config(l, a), false))
  }

  /** After the operation each supported asset still liquidates at no less than it ever lent. */
  ghost predicate Tolerable(l: Lending, peaks: map<Address, int>, op: Op) {
    forall a :: a in l.assets ==> Get(peaks, a) <= Worth(Config(Step(l, op), a), true)
  }

  lemma WorthOrder(l: Lending, a: Address)
    requires Configured(l) && a in l.assets
    ensures 0 <= Worth(Config(l, a), false) <= Worth(Config(l, a), true)
  {
    MulMono(0, Config(l, a).cf, Config(l, a).price);
    MulMono(Config(l, a).cf, Config(l, a).lt, Config(l, a).price);
  }

  lemma TermIsLimit(c: AssetConfig, amount: int, useLt: bool)
    ensures Term(c, amount, useLt) == Limit(Worth(c, useLt), amount)
  {
    assert amount * c.price * Factor(c, useLt) == amount * (c.price * Factor(c, useLt));
    hide TDiv;
  }

  lemma LimitMono(p: int, a: int, q: int, b: int)
    requires 0 <= p <= q && 0 <= a <= b
    ensures 0 <= Limit(p, a) <= Limit(q, b)
  {
    MulMono(0, p, a);
    MulMono(p, q, a);
    MulMono(a, b, q);
    Floor(a * p, BPS * RATE);
    Floor(b * q, BPS * RATE);
    FloorMono(a * p, b * q, BPS * RATE);
  }

  lemma {:induction false} CeilingMono(l: Lending, p: map<Address, int>, k: Lending, q: map<Address, int>, user: Address, assets: seq<Address>)
    requires forall a :: a in assets ==>
      0 <= Get(p, a) <= Get(q, a) && 0 <= Get(l.col, (user, a)) <= Get(k.col, (user, a))
    ensures 0 <= Ceiling(l, p, user, assets) <= Ceiling(k, q, user, assets)
  {
    if assets != [] {
      var last := assets[|assets| - 1];
      assert last in assets;
      LimitMono(Get(p, last), Get(l.col, (user, last)), Get(q, last), Get(k.col, (user, last)));
      hide Limit;
      CeilingMono(l, p, k, q, user, assets[..|assets| - 1]);
    }
  }

  /** At the current worths the ceiling is the weighted collateral. */
  lemma {:induction false} CeilingIsWeighted(l: Lending, w: map<Address, int>, user: Address, assets: seq<Address>, useLt: bool)
    requires forall a :: a in assets ==> Get(w, a) == Worth(Config(l, a), useLt)
    ensures Ceiling(l, w, user, assets) == Weighted(l, user, assets, useLt)
  {
    if assets != [] {
      var last := assets[|assets| - 1];
      assert last in assets;
      TermIsLimit(Config(l, last), Get(l.col, (user, last)), useLt);
      hide Term, Limit, Worth;
      CeilingIsWeighted(l, w, user, assets[..|assets| - 1], useLt);
    }
  }

  /** The ceiling lies between borrowing limit and liquidation threshold. */
  lemma CeilingBracketed(l: Lending, peaks: map<Address, int>, user: Address)
    requires Configured(l) && Bracketed(l, peaks)
    ensures Weighted(l, user, l.assets, false) <= Ceiling(l, peaks, user, l.assets) <= Weighted(l, user, l.assets, true)
  {
    forall a | a in l.assets ensures 0 <= Worth(Config(l, a), false) && 0 <= Get(l.col, (user, a)) { WorthOrder(l, a); }
    CeilingIsWeighted(l, Worths(l, false), user, l.assets, false);
    CeilingIsWeighted(l, Worths(l, true), user, l.assets, true);
    hide Worth, Weighted, Ceiling;
    CeilingMono(l, Worths(l, false), l, peaks, user, l.assets);
    CeilingMono(l, peaks, l, Worths(l, true), user, l.assets);
  }

  lemma SteadyMeansHealthy(l: Lending, peaks: map<Address, int>, liquidator: Address, borrower: Address, asset: Address)
    requires Steady(l, peaks)
    ensures Get(l.debt, borrower) <= Weighted(l, borrower, l.assets, true)
    ensures Liquidate(l, liquidator, borrower, asset) == None
  {
    assert Within(l, peaks, borrower);
    CeilingBracketed(l, peaks, borrower);
    hide Weighted, Ceiling, Bracketed;
    LiquidationEnabled(l, liquidator, borrower, asset);
  }

  // ---------- preservation ----------

  /** Peaks that already bracket the configuration are not raised by it. */
  lemma RaisedFrame(l: Lending, k: Lending, peaks: map<Address, int>)
    requires Bracketed(l, peaks) && k.cfg == l.cfg && k.assets == l.assets
    ensures forall a :: a in l.assets ==> Get(Raised(k, peaks), a) == Get(peaks, a)
    ensures Bracketed(k, Raised(k, peaks))
  {
    assert forall a :: Config(k, a) == Config(l, a);
    hide Worth;
  }

  /** With configurations untouched it is enough that every debt stays within its ceiling. */
  lemma BalancesSteady(l: Lending, k: Lending, peaks: map<Address, int>)
    requires Steady(l, peaks) && Configured(k) && k.cfg == l.cfg && k.assets == l.assets
    requires forall u :: Within(k, peaks, u)
    ensures Steady(k, Raised(k, peaks))
  {
    RaisedFrame(l, k, peaks);
    assert Bracketed(l, peaks) && Configured(l);
    forall a | a in l.assets ensures 0 <= Get(peaks, a) { WorthOrder(l, a); }
    hide Worth, Bracketed, Raised, Ceiling, Steady;
    forall u ensures Within(k, Raised(k, peaks), u) {
      assert Within(k, peaks, u);
      forall a | a in k.assets ensures 0 <= Get(k.col, (u, a)) {}
      CeilingMono(k, peaks, k, Raised(k, peaks), u, k.assets);
    }
    assert Steady(k, Raised(k, peaks)) by { SteadyOf(k, Raised(k, peaks)); }
  }

  lemma SteadyOf(l: Lending, peaks: map<Address, int>)
    requires Configured(l) && Bracketed(l, peaks) && forall u :: Within(l, peaks, u)
    ensures Steady(l, peaks)
  {}

  lemma SteadyAt(l: Lending, peaks: map<Address, int>)
    requires Steady(l, peaks)
    ensures Configured(l) && Bracketed(l, peaks) && forall u :: Within(l, peaks, u)
    ensures forall a :: a in l.assets ==> 0 <= Get(peaks, a)
    ensures forall u, a :: 0 <= Get(l.col, (u, a))
  {
    forall a | a in l.assets ensures 0 <= Get(peaks, a) { WorthOrder(l, a); }
    hide Worth, Ceiling;
  }

  lemma ColMoveSteady(l: Lending, k: Lending, peaks: map<Address, int>, user: Address, asset: Address, delta: int)
    requires Steady(l, peaks) && ColMove(l, k, user, asset, delta) && 0 <= Get(l.col, (user, asset)) + delta
    requires delta > 0 ==> asset in l.assets
    requires delta <= 0 ==> Get(l.debt, user) <= Ceiling(k, peaks, user, l.assets)
    ensures Steady(k, Raised(k, peaks))
  {
    hide HeldChange, Steady, Bracketed, Ceiling, Raised;
    SteadyAt(l, peaks);
    forall u ensures Within(k, peaks, u) {
      assert Within(l, peaks, u);
      if u != user || delta > 0 { CeilingMono(l, peaks, k, peaks, u, l.assets); }
    }
    ColMoveConfigured(l, k, user, asset, delta);
    BalancesSteady(l, k, peaks);
  }

  lemma ColMoveConfigured(l: Lending, k: Lending, user: Address, asset: Address, delta: int)
    requires Configured(l) && ColMove(l, k, user, asset, delta) && 0 <= Get(l.col, (user, asset)) + delta
    requires delta > 0 ==> asset in l.assets
    ensures Configured(k)
  {
    assert forall a :: Config(k, a) == Config(l, a);
    hide HeldChange, Config;
  }

  lemma DebtMoveSteady(l: Lending, k: Lending, peaks: map<Address, int>, user: Address, delta: int)
    requires Steady(l, peaks) && DebtMove(l, k, user, delta)
    requires 0 <= Get(l.debt, user) + delta <= Ceiling(l, peaks, user, l.assets)
    ensures Steady(k, Raised(k, peaks))
  {
    hide HeldChange, Steady, Bracketed, Ceiling, Raised;
    SteadyAt(l, peaks);
    forall u ensures Within(k, peaks, u) {
      assert Within(l, peaks, u);
      CeilingMono(l, peaks, k, peaks, u, l.assets);
    }
    assert forall a :: Config(k, a) == Config(l, a);
    assert Configured(k);
    BalancesSteady(l, k, peaks);
  }

  /** A withdrawal that goes through leaves the user within the borrowing limit. */
  lemma WithdrawnCovered(l: Lending, user: Address, asset: Address, amount: int)
    requires Withdraw(l, user, asset, amount).Some?
    requires Configured(Withdraw(l, user, asset, amount).value.0)
    ensures Get(l.debt, user) <= Weighted(Withdraw(l, user, asset, amount).value.0, user, l.assets, false) || Get(l.debt, user) <= 0
  {
    var left := Get(l.col, (user, asset)) - amount;
    WithdrawEffect(l, user, asset, amount);
    var k := Withdraw(l, user, asset, amount).value.0;
    hide Withdraw, HeldChange, WeightedWith, Configured;
    OverrideIsUpdate(l, user, l.assets, asset, left, false);
    WeightedFrame(l.(col := l.col[(user, asset) := left]), k, user, l.assets, false);
    LimitBelowThreshold(k, user);
    if Get(l.debt, user) > 0 { CoverIff(Weighted(k, user, l.assets, false), Get(l.debt, user)); }
    hide Weighted, TDiv;
  }

  lemma WithdrawSteady(l: Lending, peaks: map<Address, int>, user: Address, asset: Address, amount: int)
    requires Steady(l, peaks) && Withdraw(l, user, asset, amount).Some?
    ensures var k := Withdraw(l, user, asset, amount).value.0; Steady(k, Raised(k, peaks))
  {
    hide *;
    SteadyAt(l, peaks);
    var k := Withdraw(l, user, asset, amount).value.0;
    WithdrawEffect(l, user, asset, amount);
    ColMoveConfigured(l, k, user, asset, -amount);
    ColMoveAssets(l, k, user, asset, -amount);
    BracketedFrame(l, k, peaks);
    WithdrawnCovered(l, user, asset, amount);
    CeilingBracketed(k, peaks, user);
    LimitBelowThreshold(k, user);
    ColMoveSteady(l, k, peaks, user, asset, -amount);
  }

  lemma ColMoveAssets(l: Lending, k: Lending, user: Address, asset: Address, delta: int)
    requires ColMove(l, k, user, asset, delta)
    ensures k.cfg == l.cfg && k.assets == l.assets && k.debt == l.debt
  {
    hide HeldChange;
  }

  lemma BracketedFrame(l: Lending, k: Lending, peaks: map<Address, int>)
    requires Bracketed(l, peaks) && k.cfg == l.cfg && k.assets == l.assets
    ensures Bracketed(k, peaks)
  {
    assert forall a :: Config(k, a) == Config(l, a);
    hide Worth, Config;
  }

  /** `k` is `l` with one configuration written, possibly of a new asset. */
  ghost predicate ConfigWritten(l: Lending, k: Lending, asset: Address, c: AssetConfig) {
    && k == l.(cfg := l.cfg[asset := c], assets := k.assets)
    && (k.assets == l.assets || k.assets == l.assets + [asset])
    && c.price > 0
    && (asset in k.assets ==> 0 <= c.cf <= c.lt)
  }

  lemma WrittenConfig(l: Lending, k: Lending, asset: Address, c: AssetConfig)
    requires ConfigWritten(l, k, asset, c)
    ensures forall a :: Config(k, a) == if a == asset then c else Config(l, a)
    ensures forall a :: a in k.assets ==> a in l.assets || a == asset
    ensures forall a :: a in l.assets ==> a in k.assets
  {}

  lemma WrittenConfigured(l: Lending, k: Lending, asset: Address, c: AssetConfig)
    requires Configured(l) && ConfigWritten(l, k, asset, c)
    ensures Configured(k)
  {
    WrittenConfig(l, k, asset, c);
    hide Config;
  }

  lemma WrittenBracketed(l: Lending, k: Lending, peaks: map<Address, int>, asset: Address, c: AssetConfig)
    requires Bracketed(l, peaks) && Configured(k) && ConfigWritten(l, k, asset, c)
    requires asset in l.assets ==> Get(peaks, asset) <= Worth(c, true)
    ensures Bracketed(k, Raised(k, peaks))
    ensures forall a :: a in k.assets ==> 0 <= Get(Raised(k, peaks), a)
  {
    WrittenConfig(l, k, asset, c);
    forall a | a in k.assets
      ensures 0 <= Worth(Config(k, a), false) <= Get(Raised(k, peaks), a) <= Worth(Config(k, a), true)
    {
      WorthOrder(k, a);
      hide Config, Worth, Configured;
    }
    hide Config, Worth, Configured;
  }

  lemma ConfigSteady(l: Lending, k: Lending, peaks: map<Address, int>, asset: Address, c: AssetConfig)
    requires Steady(l, peaks) && ConfigWritten(l, k, asset, c)
    requires asset in l.assets ==> Get(peaks, asset) <= Worth(c, true)
    ensures Steady(k, Raised(k, peaks))
  {
    hide Steady, Ceiling, Worth, Bracketed, Configured, Config, Raised;
    SteadyAt(l, peaks);
    WrittenConfigured(l, k, asset, c);
    WrittenBracketed(l, k, peaks, asset, c);
    forall u ensures Within(k, Raised(k, peaks), u) {
      assert Within(l, peaks, u);
      ExtendedCeiling(l, k, peaks, u);
    }
    SteadyOf(k, Raised(k, peaks));
  }

  lemma ExtendedCeiling(l: Lending, k: Lending, peaks: map<Address, int>, user: Address)
    requires k.col == l.col && (k.assets == l.assets || exists a :: k.assets == l.assets + [a])
    requires forall a :: a in l.assets ==> 0 <= Get(peaks, a)
    requires forall a :: a in k.assets ==> 0 <= Get(l.col, (user, a)) && 0 <= Get(Raised(k, peaks), a)
    ensures Ceiling(l, peaks, user, l.assets) <= Ceiling(k, Raised(k, peaks), user, k.assets)
  {
    var q := Raised(k, peaks);
    hide Worth;
    assert forall a :: a in l.assets ==> a in k.assets;
    CeilingMono(l, peaks, k, q, user, l.assets);
    if k.assets != l.assets {
      var a :| k.assets == l.assets + [a];
      assert k.assets[..|l.assets|] == l.assets && a in k.assets;
      LimitMono(0, 0, Get(q, a), Get(k.col, (user, a)));
    }
    hide Limit, Raised;
  }

  /** The three administrative price and factor operations write one configuration or panic. */
  lemma AdminWrites(l: Lending, op: Op)
    requires Configured(l) && (op.OpConfigure? || op.OpPrice? || op.OpSync?)
    ensures var k := Step(l, op); k == l || ConfigWritten(l, k, op.asset, Config(k, op.asset))
  {
    hide Receive, Send, Weighted;
    match op
    case OpConfigure(actor, asset, cf, lt, price) => hide Sane;
    case OpPrice(actor, asset, price) =>
    case OpSync(asset, live) =>
  }

  /** A price or factor change keeps everybody steady as long as it is tolerable. */
  lemma AdminSteady(l: Lending, peaks: map<Address, int>, op: Op)
    requires Steady(l, peaks) && Tolerable(l, peaks, op)
    requires op.OpConfigure? || op.OpPrice? || op.OpSync? || op.OpBonus?
    ensures Steady(Step(l, op), Raised(Step(l, op), peaks))
  {
    var k := Step(l, op);
    SteadyAt(l, peaks);
    hide Steady, Raised, Bracketed, Worth, Config, Configured;
    if op.OpBonus? {
      BonusNonneg(l);
      MoneySteady(l, k, peaks);
    } else {
      AdminWrites(l, op);
      hide Step, ConfigWritten;
      if k == l { BalancesSteady(l, k, peaks); } else { ConfigSteady(l, k, peaks, op.asset, Config(k, op.asset)); }
    }
  }

  /** Bonus and token holdings play no part. */
  lemma MoneySteady(l: Lending, k: Lending, peaks: map<Address, int>)
    requires Steady(l, peaks) && k == l.(bonus := k.bonus, tokens := k.tokens) && k.bonus >= 0
    ensures Steady(k, Raised(k, peaks))
  {
    SteadyAt(l, peaks);
    assert forall a :: Config(k, a) == Config(l, a);
    assert Configured(k);
    hide Steady, Bracketed, Ceiling, Raised, Configured;
    forall u ensures Within(k, peaks, u) {
      assert Within(l, peaks, u);
      CeilingMono(l, peaks, k, peaks, u, l.assets);
    }
    BalancesSteady(l, k, peaks);
  }

  lemma SteadyStep(l: Lending, peaks: map<Address, int>, op: Op)
    requires Steady(l, peaks) && Tolerable(l, peaks, op)
    ensures Steady(Step(l, op), Raised(Step(l, op), peaks))
  {
    hide Deposit, Withdraw, Borrow, Repay, Liquidate, Receive, ColMove, DebtMove, Weighted, Ceiling, Steady, Raised, Bracketed, Configured,
         Tolerable;
    var k := Step(l, op);
    SteadyAt(l, peaks);
    match op
    case OpDeposit(user, asset, amount) =>
      if Deposit(l, user, asset, amount).Some? {
        DepositEffect(l, user, asset, amount);
        ColMoveSteady(l, k, peaks, user, asset, amount);
      } else { BalancesSteady(l, k, peaks); }
    case OpWithdraw(user, asset, amount) =>
      if Withdraw(l, user, asset, amount).Some? { WithdrawSteady(l, peaks, user, asset, amount); }
      else { BalancesSteady(l, k, peaks); }
    case OpBorrow(user, amount) =>
      if Borrow(l, user, amount).Some? {
        assert Within(l, peaks, user);
        CeilingBracketed(l, peaks, user);
        BorrowEffect(l, user, amount);
        DebtMoveSteady(l, k, peaks, user, amount);
      } else { BalancesSteady(l, k, peaks); }
    case OpRepay(user, amount) =>
      if Repay(l, user, amount).Some? {
        assert Within(l, peaks, user);
        RepayEffect(l, user, amount);
        DebtMoveSteady(l, k, peaks, user, -Min(amount, Get(l.debt, user)));
      } else { BalancesSteady(l, k, peaks); }
    case OpLiquidate(liquidator, borrower, asset) =>
      SteadyMeansHealthy(l, peaks, liquidator, borrower, asset);
      BalancesSteady(l, k, peaks);
    case OpFund(token, from, amount) =>
      if Receive(l, token, from, amount).Some? {
        ReceiveEffect(l, token, from, amount);
        BonusNonneg(l);
        MoneySteady(l, k, peaks);
      } else { BalancesSteady(l, k, peaks); }
    case _ => AdminSteady(l, peaks, op);
  }

  lemma BonusNonneg(l: Lending)
    requires Configured(l)
    ensures l.bonus >= 0
  {}

  // ---------- runs ----------

  /** Along the run each supported asset always liquidates at no less than it has lent at any time before. */
  ghost predicate TolerableRun(l: Lending, peaks: map<Address, int>, ops: seq<Op>)
    decreases |ops|
  {
    ops == [] || (Tolerable(l, peaks, ops[0]) && TolerableRun(Step(l, ops[0]), Raised(Step(l, ops[0]), peaks), ops[1..]))
  }

  /** Prices and factors may fall: any interleaving of all users' operations in which no asset's price times threshold falls
      below a price times collateral factor it had before leaves every position unliquidatable. */
  lemma {:induction false} NoLiquidationInTolerableRuns(l: Lending, peaks: map<Address, int>, ops: seq<Op>)
    requires Steady(l, peaks) && TolerableRun(l, peaks, ops)
    ensures var k := Run(l, ops);
      && (forall u :: Get(k.debt, u) <= Weighted(k, u, k.assets, true))
      && (forall liquidator, borrower, asset :: Liquidate(k, liquidator, borrower, asset) == None)
    decreases |ops|
  {
    hide Step, Steady, Weighted, Liquidate, Tolerable, Raised, Configured;
    if ops != [] {
      var t := Step(l, ops[0]);
      SteadyStep(l, peaks, ops[0]);
      NoLiquidationInTolerableRuns(t, Raised(t, peaks), ops[1..]);
      assert Run(l, ops) == Run(t, ops[1..]);
    } else {
      forall u ensures Get(l.debt, u) <= Weighted(l, u, l.assets, true) {
        SteadyMeansHealthy(l, peaks, u, u, u);
      }
      forall liquidator, borrower, asset ensures Liquidate(l, liquidator, borrower, asset) == None {
        SteadyMeansHealthy(l, peaks, liquidator, borrower, asset);
      }
    }
  }

  // ---------- one price change, exactly ----------

  ghost predicate SameConfig(l: Lending, k: Lending) {
    k.cfg == l.cfg && k.assets == l.assets
  }

  /** Whatever the positions within these peaks, writing `c` for `asset` leaves all of them unliquidatable. */
  ghost predicate Harmless(l: Lending, peaks: map<Address, int>, asset: Address, c: AssetConfig) {
    forall k: Lending, u :: SameConfig(l, k) && Steady(k, peaks) ==>
      Get(k.debt, u) <= Weighted(k.(cfg := k.cfg[asset := c]), u, k.assets, true)
  }

  /** A position of one asset, one scaling unit of it, borrowed up to its ceiling. */
  function Single(l: Lending, peaks: map<Address, int>, user: Address, asset: Address): Lending {
    var k := l.(col := map[(user, asset) := BPS * RATE], debt := map[]);
    k.(debt := map[user := Ceiling(k, peaks, user, l.assets)])
  }

  lemma UnitLimit(peak: int)
    requires 0 <= peak
    ensures Limit(peak, BPS * RATE) == peak
  {
    FloorUnique(BPS * RATE * peak, BPS * RATE, peak);
  }

  /** Valued at a lower worth of its asset, that position is worth strictly less. */
  lemma {:induction false} SingleFalls(k: Lending, p: map<Address, int>, q: map<Address, int>, user: Address, asset: Address, assets: seq<Address>)
    requires k.col == map[(user, asset) := BPS * RATE]
    requires 0 <= Get(q, asset) < Get(p, asset)
    ensures Ceiling(k, q, user, assets) <= Ceiling(k, p, user, assets)
    ensures asset in assets ==> Ceiling(k, q, user, assets) < Ceiling(k, p, user, assets)
  {
    if assets != [] {
      var rest, last := assets[..|assets| - 1], assets[|assets| - 1];
      assert assets == rest + [last];
      SingleFalls(k, p, q, user, asset, rest);
      UnitLimit(Get(p, asset));
      UnitLimit(Get(q, asset));
      SingleLimits(k, p, user, asset, last);
      SingleLimits(k, q, user, asset, last);
      hide Limit;
    }
  }

  lemma SingleLimits(k: Lending, p: map<Address, int>, user: Address, asset: Address, a: Address)
    requires k.col == map[(user, asset) := BPS * RATE]
    ensures Limit(Get(p, a), Get(k.col, (user, a))) == if a == asset then Limit(Get(p, asset), BPS * RATE) else 0
  {}

  lemma SingleSteady(l: Lending, peaks: map<Address, int>, user: Address, asset: Address)
    requires Configured(l) && Bracketed(l, peaks) && asset in l.assets
    ensures Steady(Single(l, peaks, user, asset), peaks)
  {
    var k := Single(l, peaks, user, asset);
    assert forall a :: Config(k, a) == Config(l, a);
    assert Configured(k);
    BracketedFrame(l, k, peaks);
    forall a | a in l.assets ensures 0 <= Get(peaks, a) { WorthOrder(l, a); }
    hide Worth, Bracketed, Configured, Config;
    forall u ensures Within(k, peaks, u) {
      CeilingMono(k, peaks, k, peaks, u, k.assets);
      CeilingSame(k, l.(col := k.col, debt := map[]), peaks, user, l.assets);
    }
    SteadyOf(k, peaks);
  }

  lemma {:induction false} CeilingSame(l: Lending, k: Lending, peaks: map<Address, int>, user: Address, assets: seq<Address>)
    requires k.col == l.col
    ensures Ceiling(l, peaks, user, assets) == Ceiling(k, peaks, user, assets)
  {
    if assets != [] {
      hide Limit;
      CeilingSame(l, k, peaks, user, assets[..|assets| - 1]);
    }
  }

  /** The weighted collateral after writing a configuration, as a ceiling. */
  lemma Rewritten(k: Lending, asset: Address, c: AssetConfig, user: Address)
    requires asset in k.assets
    ensures var m := k.(cfg := k.cfg[asset := c]);
      Weighted(m, user, k.assets, true) == Ceiling(k, Worths(k, true)[asset := Worth(c, true)], user, k.assets)
  {
    var m := k.(cfg := k.cfg[asset := c]);
    assert forall a :: Config(m, a) == if a == asset then c else Config(k, a);
    hide Worth, Config;
    CeilingIsWeighted(m, Worths(k, true)[asset := Worth(c, true)], user, k.assets, true);
    CeilingSame(m, k, Worths(k, true)[asset := Worth(c, true)], user, k.assets);
  }

  /** A new configuration endangers no position within the peaks if and only if it liquidates at no less than the peak. */
  lemma HarmlessIff(l: Lending, peaks: map<Address, int>, asset: Address, c: AssetConfig)
    requires Configured(l) && Bracketed(l, peaks) && asset in l.assets && 0 <= Worth(c, true)
    ensures Harmless(l, peaks, asset, c) <==> Get(peaks, asset) <= Worth(c, true)
  {
    if Get(peaks, asset) <= Worth(c, true) {
      forall k: Lending, u | SameConfig(l, k) && Steady(k, peaks)
        ensures Get(k.debt, u) <= Weighted(k.(cfg := k.cfg[asset := c]), u, k.assets, true)
      {
        HarmlessWrite(k, peaks, asset, c, u);
      }
    } else {
      var user := asset;
      var k := Single(l, peaks, user, asset);
      SingleSteady(l, peaks, user, asset);
      SingleHarmed(l, peaks, user, asset, c);
      assert SameConfig(l, k);
      hide Steady, Weighted, Single;
    }
  }

  lemma HarmlessWrite(k: Lending, peaks: map<Address, int>, asset: Address, c: AssetConfig, u: Address)
    requires Steady(k, peaks) && asset in k.assets && Get(peaks, asset) <= Worth(c, true)
    ensures Get(k.debt, u) <= Weighted(k.(cfg := k.cfg[asset := c]), u, k.assets, true)
  {
    SteadyAt(k, peaks);
    assert Within(k, peaks, u);
    Rewritten(k, asset, c, u);
    var q := Worths(k, true)[asset := Worth(c, true)];
    hide Worth, Weighted, Ceiling, Steady, Configured;
    CeilingMono(k, peaks, k, q, u, k.assets);
  }

  lemma SingleHarmed(l: Lending, peaks: map<Address, int>, user: Address, asset: Address, c: AssetConfig)
    requires Configured(l) && Bracketed(l, peaks) && asset in l.assets && 0 <= Worth(c, true) < Get(peaks, asset)
    ensures var k := Single(l, peaks, user, asset);
      Weighted(k.(cfg := k.cfg[asset := c]), user, k.assets, true) < Get(k.debt, user)
  {
    var k := Single(l, peaks, user, asset);
    Rewritten(k, asset, c, user);
    var q := Worths(k, true)[asset := Worth(c, true)];
    SingleFalls(k, peaks, q, user, asset, l.assets);
    CeilingSame(k, l.(col := k.col, debt := map[]), peaks, user, l.assets);
    hide Worth, Weighted, Ceiling, Worths, Configured, Bracketed;
  }

  /** Safe positions are those within the current borrowing limits. */
  lemma SafeIsSteady(l: Lending)
    requires Configured(l)
    ensures Bracketed(l, Worths(l, false))
    ensures Safe(l) <==> Steady(l, Worths(l, false))
  {
    forall a | a in l.assets ensures Worth(Config(l, a), false) <= Worth(Config(l, a), true) { WorthOrder(l, a); }
    hide Worth, Weighted, Ceiling;
    forall u ensures Covered(l, u) <==> Within(l, Worths(l, false), u) {
      CeilingIsWeighted(l, Worths(l, false), u, l.assets, false);
    }
  }

  /** One price sync, at its sharpest: it makes no position that is within its borrowing limit liquidatable, whatever the
      positions, if and only if live rate times liquidation threshold reaches old price times collateral factor. */
  lemma SyncHarmlessIff(l: Lending, asset: Address, live: int)
    requires Configured(l) && asset in l.assets && asset in l.cfg && live > 0
    ensures (forall k: Lending, u :: SameConfig(l, k) && Safe(k) ==>
               Get(k.debt, u) <= Weighted(Step(k, OpSync(asset, live)), u, k.assets, true))
       <==> live * Config(l, asset).lt >= Config(l, asset).price * Config(l, asset).cf
  {
    var c := l.cfg[asset].(price := live);
    var peaks := Worths(l, false);
    SafeIsSteady(l);
    MulMono(0, c.lt, live);
    HarmlessIff(l, peaks, asset, c);
    forall k: Lending | SameConfig(l, k)
      ensures Safe(k) <==> Steady(k, peaks)
      ensures Step(k, OpSync(asset, live)) == k.(cfg := k.cfg[asset := c])
    {
      SafeSameConfig(l, k);
    }
    hide Step, Safe, Steady, Weighted, Configured;
  }

  lemma SafeSameConfig(l: Lending, k: Lending)
    requires Configured(l) && SameConfig(l, k)
    ensures Safe(k) <==> Steady(k, Worths(l, false))
  {
    assert forall a :: Config(k, a) == Config(l, a);
    assert Worths(k, false) == Worths(l, false);
    hide Worth, Weighted, Ceiling, Config;
    if Configured(k) { SafeIsSteady(k); }
  }

  // ---------- the special case in which nothing falls ----------

  lemma FavourableIsTolerable(l: Lending, op: Op)
    requires Safe(l) && Favourable(l, op)
    ensures Tolerable(l, Worths(l, false), op)
    ensures forall a :: a in Step(l, op).assets ==>
      Get(Raised(Step(l, op), Worths(l, false)), a) == Worth(Config(Step(l, op), a), false)
  {
    var k := Step(l, op);
    ConfigAfter(l, op);
    assert Configured(l);
    hide Safe, Step;
    forall a | a in l.assets
      ensures Worth(Config(l, a), false) <= Worth(Config(k, a), true)
      ensures Worth(Config(l, a), false) <= Worth(Config(k, a), false)
    {
      MulMono(Config(l, a).price, Config(k, a).price, Config(l, a).cf);
      MulMono(Config(l, a).cf, Config(k, a).cf, Config(k, a).price);
      MulMono(Config(l, a).cf, Config(k, a).lt, Config(k, a).price);
    }
    forall a | a in k.assets && a !in l.assets ensures 0 <= Worth(Config(k, a), false) {
      MulMono(0, Config(k, a).cf, Config(k, a).price);
    }
    hide Worth;
  }

  /** What a favourable operation does to configurations. */
  lemma ConfigAfter(l: Lending, op: Op)
    requires Configured(l) && Favourable(l, op)
    ensures var k := Step(l, op);
      && (forall a :: a in l.assets ==>
            && a in k.assets
            && Config(l, a).price <= Config(k, a).price && Config(l, a).cf <= Config(k, a).cf && Config(l, a).lt <= Config(k, a).lt)
      && (forall a :: a in k.assets && a !in l.assets ==> 0 <= Config(k, a).cf && 0 <= Config(k, a).price)
      && (forall a :: a in k.assets ==> 0 <= Config(k, a).cf <= Config(k, a).lt)
  {
    var k := Step(l, op);
    hide Step;
    match op
    case OpConfigure(actor, asset, cf, lt, price) => AdminConfig(l, op, asset);
    case OpPrice(actor, asset, price) => AdminConfig(l, op, asset);
    case OpSync(asset, live) => AdminConfig(l, op, asset);
    case _ =>
      KeepsConfig(l, op);
      assert forall a :: Config(k, a) == Config(l, a);
  }

  lemma AdminConfig(l: Lending, op: Op, asset: Address)
    requires Configured(l) && Favourable(l, op)
    requires (op.OpConfigure? || op.OpPrice? || op.OpSync?) && op.asset == asset
    ensures var k := Step(l, op);
      && (forall a :: a != asset ==> Config(k, a) == Config(l, a))
      && (asset in l.assets ==>
           Config(l, asset).price <= Config(k, asset).price && Config(l, asset).cf <= Config(k, asset).cf && Config(l, asset).lt <= Config(k, asset).lt)
      && (asset in k.assets ==> 0 <= Config(k, asset).cf <= Config(k, asset).lt && 0 <= Config(k, asset).price)
      && (k.assets == l.assets || k.assets == l.assets + [asset])
  {
    var k := Step(l, op);
    AdminWrites(l, op);
    if k == l {
      hide Step;
    } else {
      WrittenConfig(l, k, asset, Config(k, asset));
      WrittenValues(l, op);
      hide Step, Config;
    }
  }

  lemma WrittenValues(l: Lending, op: Op)
    requires op.OpConfigure? || op.OpPrice? || op.OpSync?
    ensures var k := Step(l, op);
      k == l || match op
        case OpConfigure(_, asset, cf, lt, price) => Config(k, asset) == AssetConfig(cf, lt, price)
        case OpPrice(_, asset, price) => Config(k, asset) == Config(l, asset).(price := price)
        case OpSync(asset, live) => Config(k, asset) == Config(l, asset).(price := live)
        case _ => true
  {}

  lemma KeepsConfig(l: Lending, op: Op)
    requires !op.OpPrice? && !op.OpConfigure? && !op.OpSync?
    ensures SameConfig(l, Step(l, op))
  {
    hide Weighted, WeightedWith, TDiv, SeizeTarget, Purses.PullIn, Purses.PayOut, Receive, Send;
    match op
    case OpDeposit(user, asset, amount) =>
      if Deposit(l, user, asset, amount).Some? { DepositEffect(l, user, asset, amount); }
    case OpWithdraw(user, asset, amount) =>
      if Withdraw(l, user, asset, amount).Some? { WithdrawEffect(l, user, asset, amount); }
    case OpBorrow(user, amount) =>
      if Borrow(l, user, amount).Some? { BorrowEffect(l, user, amount); }
    case OpRepay(user, amount) =>
      if Repay(l, user, amount).Some? { RepayEffect(l, user, amount); }
    case OpFund(token, from, amount) =>
      if Receive(l, token, from, amount).Some? { ReceiveEffect(l, token, from, amount); }
    case OpLiquidate(liquidator, borrower, asset) => LiquidateKeepsConfig(l, liquidator, borrower, asset);
    case _ =>
  }

  lemma LiquidateKeepsConfig(l: Lending, liquidator: Address, borrower: Address, asset: Address)
    ensures Liquidate(l, liquidator, borrower, asset).Some? ==>
      SameConfig(l, Liquidate(l, liquidator, borrower, asset).value.0)
  {
    hide Weighted, TDiv, SeizeTarget, TokenPurse, Purses.PullIn, Purses.PayOut;
  }

  /** Every operation that lowers no price and no factor keeps every user within the borrowing limit. */
  lemma SafeStep(l: Lending, op: Op)
    requires Safe(l) && Favourable(l, op)
    ensures Safe(Step(l, op))
  {
    var k, peaks := Step(l, op), Worths(l, false);
    assert Configured(l);
    SafeIsSteady(l);
    FavourableIsTolerable(l, op);
    SteadyStep(l, peaks, op);
    hide Step, Steady, Tolerable, Favourable, Safe, Configured;
    SteadyAt(k, Raised(k, peaks));
    assert Raised(k, peaks) == Worths(k, false);
    SafeIsSteady(k);
  }

  ghost predicate FavourableRun(l: Lending, ops: seq<Op>)
    decreases |ops|
  {
    ops == [] || (Favourable(l, ops[0]) && FavourableRun(Step(l, ops[0]), ops[1..]))
  }

  /** Any interleaving of all users' operations keeps every position within its borrowing limit, which is within its
      liquidation threshold, so no liquidation ever succeeds. */
  lemma {:induction false} NoLiquidationInFavourableRuns(l: Lending, ops: seq<Op>)
    requires Safe(l) && FavourableRun(l, ops)
    ensures var k := Run(l, ops);
      && Safe(k)
      && (forall u :: Get(k.debt, u) <= Weighted(k, u, k.assets, false) <= Weighted(k, u, k.assets, true))
      && (forall liquidator, borrower, asset :: Liquidate(k, liquidator, borrower, asset) == None)
    decreases |ops|
  {
    hide Step, Configured, Weighted, Liquidate;
    if ops != [] {
      SafeStep(l, ops[0]);
      NoLiquidationInFavourableRuns(Step(l, ops[0]), ops[1..]);
    } else {
      forall u
        ensures Get(l.debt, u) <= Weighted(l, u, l.assets, false) <= Weighted(l, u, l.assets, true)
      {
        assert Covered(l, u);
        LimitBelowThreshold(l, u);
      }
      forall liquidator, borrower, asset
        ensures Liquidate(l, liquidator, borrower, asset) == None
      {
        assert Covered(l, borrower);
        SafeMeansHealthy(l, liquidator, borrower, asset);
      }
    }
  }

  /** The constructor does not compare the two factors: a deployment starts safe if and only if the first asset's factor is at most
      its threshold. Its books balance and its values are non-negative in any case. */
  lemma InitialSafe(admin: Address, sxlm: Address, native: Address, cf: nat, lt: nat, tokens: map<Address, Purses.Purse>)
    ensures var l := Initial(admin, sxlm, native, cf, lt, tokens);
      && (Safe(l) <==> cf <= lt) && Ledger(l) && Priced(l)
  {
    var l := Initial(admin, sxlm, native, cf, lt, tokens);
    assert Config(l, sxlm).cf == cf && Config(l, sxlm).lt == lt;
    if cf <= lt {
      forall u ensures Covered(l, u) { LimitBelowThreshold(l, u); }
    }
    forall a ensures Get(l.totalCol, a) == Sums.Sum(Balances(l, a)) { assert Balances(l, a) == map[]; }
  }

  /** With factors of at most 100% a weighted position is worth no more than its plain value. */
  lemma {:induction false} WeightedBelowValue(l: Lending, user: Address, assets: seq<Address>, useLt: bool)
    requires forall a :: a in assets ==>
      0 <= Get(l.col, (user, a)) && 0 <= Config(l, a).price && 0 <= Factor(Config(l, a), useLt) <= BPS
    ensures Weighted(l, user, assets, useLt) <= PositionValue(l, user, assets)
  {
    if assets != [] {
      var n := |assets| - 1;
      var last := assets[n];
      assert last in assets;
      TermBelowValue(Config(l, last), Get(l.col, (user, last)), useLt);
      hide Term, TDiv, Factor;
      WeightedBelowValue(l, user, assets[..n], useLt);
    }
  }

  lemma TermBelowValue(c: AssetConfig, amount: int, useLt: bool)
    requires 0 <= amount && 0 <= c.price && 0 <= Factor(c, useLt) <= BPS
    ensures Term(c, amount, useLt) <= if amount == 0 then 0 else TDiv(amount * c.price, RATE)
  {
    var v, f := amount * c.price, Factor(c, useLt);
    MulMono(0, amount, c.price);
    TermNonneg(c, amount, useLt);
    MulMono(f, BPS, v);
    Floor(v * f, BPS * RATE);
    Floor(v, RATE);
    FloorGalois(v, RATE, (v * f) / (BPS * RATE));
  }
}
