/** The lending contract as a state and one function per entry point; `None` is a panic. */
module LendingSpec {
  import opened Base
  import opened Arith
  import opened Purses

  const BPS := 10_000
  const RATE := 10_000_000
  const DEFAULT_BONUS := 500
  const MAX_ASSETS := 10

  datatype AssetConfig = AssetConfig(cf: int, lt: int, price: int)

  datatype Lending = Lending(
    admin: Address,
    native: Address,
    bonus: int,
    assets: seq<Address>,
    cfg: map<Address, AssetConfig>,
    col: map<(Address, Address), int>,
    totalCol: map<Address, int>,
    debt: map<Address, int>,
    totalBorrowed: int,
    tokens: map<Address, Purse>)

  function Config(l: Lending, asset: Address): AssetConfig {
    if asset in l.cfg then l.cfg[asset] else AssetConfig(7000, 8000, RATE)
  }

  function TokenPurse(l: Lending, token: Address): Purse {
    if token in l.tokens then l.tokens[token] else EMPTY
  }

  function Factor(c: AssetConfig, useLt: bool): int {
    if useLt then c.lt else c.cf
  }

  /** One asset's contribution to a weighted position. */
  function Term(c: AssetConfig, amount: int, useLt: bool): int {
    if amount == 0 then 0 else TDiv(amount * c.price * Factor(c, useLt), BPS * RATE)
  }

  function Weighted(l: Lending, user: Address, assets: seq<Address>, useLt: bool): int {
    if assets == [] then 0
    else
      var n := |assets| - 1;
      Weighted(l, user, assets[..n], useLt) + Term(Config(l, assets[n]), Get(l.col, (user, assets[n])), useLt)
  }

  /** The same sum with one balance replaced, as the withdrawal check computes it. */
  function WeightedWith(l: Lending, user: Address, assets: seq<Address>, asset: Address, amount: int, useLt: bool): int {
    if assets == [] then 0
    else
      var n := |assets| - 1;
      WeightedWith(l, user, assets[..n], asset, amount, useLt)
      + Term(Config(l, assets[n]), if assets[n] == asset then amount else Get(l.col, (user, assets[n])), useLt)
  }

  /** `get_position`: unweighted collateral value. */
  function PositionValue(l: Lending, user: Address, assets: seq<Address>): int {
    if assets == [] then 0
    else
      var n := |assets| - 1;
      var amount := Get(l.col, (user, assets[n]));
      PositionValue(l, user, assets[..n]) + if amount == 0 then 0 else TDiv(amount * Config(l, assets[n]).price, RATE)
  }

  /** `health_factor`; `None` is the contract's `i128::MAX` for a position without debt. */
  function HealthFactor(l: Lending, user: Address): Option<int> {
    var b := Get(l.debt, user);
    if b == 0 then None else Some(TDiv(Weighted(l, user, l.assets, true) * RATE, b))
  }

  // ---------- administration ----------

  function Configure(l: Lending, actor: Address, asset: Address, cf: int, lt: int, price: int): Option<(Lending, ())> {
    if actor != l.admin || !(0 < cf <= 10_000) || !(0 < lt <= 10_000) || cf > lt || price <= 0 then None
    else if asset !in l.assets && |l.assets| >= MAX_ASSETS then None
    else
      Some((l.(assets := if asset in l.assets then l.assets else l.assets + [asset],
               cfg := l.cfg[asset := AssetConfig(cf, lt, price)]), ()))
  }

  function UpdatePrice(l: Lending, actor: Address, asset: Address, price: int): Option<(Lending, ())> {
    if actor != l.admin || price <= 0 then None
    else Some((l.(cfg := l.cfg[asset := Config(l, asset).(price := price)]), ()))
  }

  /** `live` is what the staking contract's `get_exchange_rate` answers. */
  function SyncPrice(l: Lending, asset: Address, live: int): Option<(Lending, ())> {
    if live <= 0 || asset !in l.cfg then None
    else Some((l.(cfg := l.cfg[asset := l.cfg[asset].(price := live)]), ()))
  }

  function UpdateBonus(l: Lending, actor: Address, bps: int): Option<(Lending, ())> {
    if actor != l.admin || bps < 0 || bps > 3000 then None
    else Some((l.(bonus := bps), ()))
  }

  // ---------- lending ----------

  function SetCol(l: Lending, user: Address, asset: Address, amount: int, total: int): Lending {
    l.(col := l.col[(user, asset) := amount], totalCol := l.totalCol[asset := total])
  }

  function SetDebt(l: Lending, user: Address, amount: int, total: int): Lending {
    l.(debt := l.debt[user := amount], totalBorrowed := total)
  }

  function Receive(l: Lending, token: Address, from: Address, amount: int): Option<Lending> {
    var purse :- PullIn(TokenPurse(l, token), from, amount);
    Some(l.(tokens := l.tokens[token := purse]))
  }

  function Send(l: Lending, token: Address, to: Address, amount: int): Option<Lending> {
    var purse :- PayOut(TokenPurse(l, token), to, amount);
    Some(l.(tokens := l.tokens[token := purse]))
  }

  function Deposit(l: Lending, user: Address, asset: Address, amount: int): Option<(Lending, ())> {
    if amount <= 0 || asset !in l.assets then None
    else
      var k :- Receive(l, asset, user, amount);
      Some((SetCol(k, user, asset, Get(l.col, (user, asset)) + amount, Get(l.totalCol, asset) + amount), ()))
  }

  function Withdraw(l: Lending, user: Address, asset: Address, amount: int): Option<(Lending, ())> {
    var left := Get(l.col, (user, asset)) - amount;
    var b := Get(l.debt, user);
    if amount <= 0 || left < 0 then None
    else if b > 0 && TDiv(WeightedWith(l, user, l.assets, asset, left, false) * RATE, b) < RATE then None
    else
      var k :- Send(l, asset, user, amount);
      Some((SetCol(k, user, asset, left, Get(l.totalCol, asset) - amount), ()))
  }

  function Borrow(l: Lending, user: Address, amount: int): Option<(Lending, ())> {
    var b := Get(l.debt, user) + amount;
    if amount <= 0 || b > Weighted(l, user, l.assets, false) || TokenPurse(l, l.native).held < amount then None
    else
      var k :- Send(l, l.native, user, amount);
      Some((SetDebt(k, user, b, l.totalBorrowed + amount), ()))
  }

  function Repay(l: Lending, user: Address, amount: int): Option<(Lending, int)> {
    var b := Get(l.debt, user);
    var paid := Min(amount, b);
    if amount <= 0 then None
    else
      var k :- Receive(l, l.native, user, paid);
      Some((SetDebt(k, user, b - paid, l.totalBorrowed - paid), paid))
  }

  /** Collateral units worth the debt plus bonus, before the cap at what is available. */
  function SeizeTarget(l: Lending, debt: int, asset: Address): Option<int> {
    var price := Config(l, asset).price;
    if price == 0 then None else Some(TDiv(TDiv(debt * (BPS + l.bonus), BPS) * RATE, price))
  }

  /** Hands `seized` units of a borrower's collateral to the liquidator. */
  function Seize(l: Lending, liquidator: Address, borrower: Address, asset: Address, seized: int): Option<(Lending, int)> {
    var k :- if seized > 0 then Send(l, asset, liquidator, seized) else Some(l);
    Some((SetCol(k, borrower, asset, Get(l.col, (borrower, asset)) - seized, Get(l.totalCol, asset) - seized), seized))
  }

  /** Returns the seized amount. */
  function Liquidate(l: Lending, liquidator: Address, borrower: Address, asset: Address): Option<(Lending, int)> {
    var b := Get(l.debt, borrower);
    var available := Get(l.col, (borrower, asset));
    if b <= 0 || asset !in l.assets || available <= 0 then None
    else if TDiv(Weighted(l, borrower, l.assets, true) * RATE, b) >= RATE then None
    else
      var k :- Receive(l, l.native, liquidator, b);
      var target :- SeizeTarget(l, b, asset);
      Seize(SetDebt(k, borrower, 0, l.totalBorrowed - b), liquidator, borrower, asset, Min(target, available))
  }

  // ---------- runs ----------

  datatype Op =
    | OpConfigure(actor: Address, asset: Address, cf: int, lt: int, price: int)
    | OpPrice(actor: Address, asset: Address, price: int)
    | OpSync(asset: Address, live: int)
    | OpBonus(actor: Address, bps: int)
    | OpDeposit(user: Address, asset: Address, amount: int)
    | OpWithdraw(user: Address, asset: Address, amount: int)
    | OpBorrow(user: Address, amount: int)
    | OpRepay(user: Address, amount: int)
    | OpLiquidate(liquidator: Address, borrower: Address, asset: Address)
    | OpFund(token: Address, from: Address, amount: int)

  function After<T>(l: Lending, r: Option<(Lending, T)>): Lending {
    match r case None => l case Some(v) => v.0
  }

  /** One transaction; a panic leaves everything as it was. `OpFund` is a plain token transfer to the contract. */
  function Step(l: Lending, op: Op): Lending {
    match op
    case OpConfigure(actor, asset, cf, lt, price) => After(l, Configure(l, actor, asset, cf, lt, price))
    case OpPrice(actor, asset, price) => After(l, UpdatePrice(l, actor, asset, price))
    case OpSync(asset, live) => After(l, SyncPrice(l, asset, live))
    case OpBonus(actor, bps) => After(l, UpdateBonus(l, actor, bps))
    case OpDeposit(user, asset, amount) => After(l, Deposit(l, user, asset, amount))
    case OpWithdraw(user, asset, amount) => After(l, Withdraw(l, user, asset, amount))
    case OpBorrow(user, amount) => After(l, Borrow(l, user, amount))
    case OpRepay(user, amount) => After(l, Repay(l, user, amount))
    case OpLiquidate(liquidator, borrower, asset) => After(l, Liquidate(l, liquidator, borrower, asset))
    case OpFund(token, from, amount) =>
      (match Receive(l, token, from, amount) case None => l case Some(k) => k)
  }

  function Run(l: Lending, ops: seq<Op>): Lending
    decreases |ops|
  {
    if ops == [] then l else Run(Step(l, ops[0]), ops[1..])
  }

  function Initial(admin: Address, sxlm: Address, native: Address, cf: nat, lt: nat, tokens: map<Address, Purse>): Lending {
    Lending(admin, native, DEFAULT_BONUS, [sxlm], map[sxlm := AssetConfig(cf, lt, RATE)], map[], map[], map[], 0, tokens)
  }
}
