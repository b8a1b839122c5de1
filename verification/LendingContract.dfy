/** The lending contract in its own form: one key-value store written key by key, collateral summed in loops.
    A call that panics returns `Panicked`; `Transact` then discards its writes, as the host does. */
module LendingContractModel {
  import opened Base
  import opened Arith
  import opened Purses
  import opened Spec = LendingSpec

  class LendingContract {
    var store: Lending

    constructor (admin: Address, sxlm: Address, native: Address, cf: nat, lt: nat, tokens: map<Address, Purse>)
      ensures store == Initial(admin, sxlm, native, cf, lt, tokens)
    {
      store := Lending(admin, native, DEFAULT_BONUS, [sxlm], map[sxlm := AssetConfig(cf, lt, RATE)], map[], map[], map[], 0, tokens);
    }

    // ---------- weighted collateral ----------

    method ComputeWeightedCollateral(user: Address, useLt: bool) returns (weighted: int)
      ensures weighted == Weighted(store, user, store.assets, useLt)
    {
      var assets := store.assets;
      weighted := 0;
      for i := 0 to |assets|
        invariant weighted == Weighted(store, user, assets[..i], useLt)
      {
        assert assets[..i + 1][..i] == assets[..i];
        var asset := assets[i];
        var col := Get(store.col, (user, asset));
        if col == 0 {
          continue;
        }
        var cfg := Config(store, asset);
        var factor := if useLt then cfg.lt else cfg.cf;
        weighted := weighted + TDiv(col * cfg.price * factor, BPS * RATE);
      }
      assert assets[..|assets|] == assets;
    }

    method ComputeWeightedCollateralWithOverride(user: Address, overrideAsset: Address, overrideAmount: int, useLt: bool) returns (weighted: int)
      ensures weighted == WeightedWith(store, user, store.assets, overrideAsset, overrideAmount, useLt)
    {
      var assets := store.assets;
      weighted := 0;
      for i := 0 to |assets|
        invariant weighted == WeightedWith(store, user, assets[..i], overrideAsset, overrideAmount, useLt)
      {
        assert assets[..i + 1][..i] == assets[..i];
        var asset := assets[i];
        var col := if asset == overrideAsset then overrideAmount else Get(store.col, (user, asset));
        if col == 0 {
          continue;
        }
        var cfg := Config(store, asset);
        var factor := if useLt then cfg.lt else cfg.cf;
        weighted := weighted + TDiv(col * cfg.price * factor, BPS * RATE);
      }
      assert assets[..|assets|] == assets;
    }

    method GetPosition(user: Address) returns (value: int, borrowed: int)
      ensures value == PositionValue(store, user, store.assets) && borrowed == Get(store.debt, user)
    {
      var assets := store.assets;
      borrowed := Get(store.debt, user);
      value := 0;
      for i := 0 to |assets|
        invariant value == PositionValue(store, user, assets[..i])
      {
        assert assets[..i + 1][..i] == assets[..i];
        var col := Get(store.col, (user, assets[i]));
        if col == 0 {
          continue;
        }
        value := value + TDiv(col * Config(store, assets[i]).price, RATE);
      }
      assert assets[..|assets|] == assets;
    }

    method GetHealthFactor(user: Address) returns (hf: Option<int>)
      ensures hf == HealthFactor(store, user)
    {
      var borrowed := Get(store.debt, user);
      if borrowed == 0 {
        return None;
      }
      var weighted := ComputeWeightedCollateral(user, true);
      hf := Some(TDiv(weighted * RATE, borrowed));
    }

    // ---------- administration ----------

    method ConfigureAsset(actor: Address, asset: Address, cf: int, lt: int, price: int) returns (r: Outcome<()>)
      modifies this
      ensures Did(Spec.Configure(old(store), actor, asset, cf, lt, price), store, r)
    {
      if actor != store.admin || !(cf > 0 && cf <= 10_000) || !(lt > 0 && lt <= 10_000) || !(cf <= lt) || !(price > 0) {
        return Panicked;
      }
      var config := AssetConfig(cf, lt, price);
      var assets := store.assets;
      if asset !in assets {
        if !(|assets| < MAX_ASSETS) {
          return Panicked;
        }
        assets := assets + [asset];
        store := store.(assets := assets);
      }
      store := store.(cfg := store.cfg[asset := config]);
      r := Returned(());
    }

    method UpdateAssetPrice(actor: Address, asset: Address, price: int) returns (r: Outcome<()>)
      modifies this
      ensures Did(Spec.UpdatePrice(old(store), actor, asset, price), store, r)
    {
      if actor != store.admin || !(price > 0) {
        return Panicked;
      }
      var config := Config(store, asset);
      store := store.(cfg := store.cfg[asset := config.(price := price)]);
      r := Returned(());
    }

    method SyncSxlmPrice(asset: Address, live: int) returns (r: Outcome<()>)
      modifies this
      ensures Did(Spec.SyncPrice(old(store), asset, live), store, r)
    {
      if live <= 0 {
        return Panicked;
      }
      if asset !in store.cfg {
        return Panicked;
      }
      var config := store.cfg[asset];
      store := store.(cfg := store.cfg[asset := config.(price := live)]);
      r := Returned(());
    }

    method UpdateLiquidationBonus(actor: Address, bps: int) returns (r: Outcome<()>)
      modifies this
      ensures Did(Spec.UpdateBonus(old(store), actor, bps), store, r)
    {
      if actor != store.admin || bps < 0 || !(bps <= 3000) {
        return Panicked;
      }
      store := store.(bonus := bps);
      r := Returned(());
    }

    // ---------- lending ----------

    method DepositCollateral(user: Address, asset: Address, amount: int) returns (r: Outcome<()>)
      modifies this
      ensures Did(Spec.Deposit(old(store), user, asset, amount), store, r)
    {
      if !(amount > 0) || asset !in store.assets {
        return Panicked;
      }
      var paid := PullIn(TokenPurse(store, asset), user, amount);
      if paid.None? {
        return Panicked;
      }
      store := store.(tokens := store.tokens[asset := paid.value]);
      var current := Get(store.col, (user, asset));
      store := store.(col := store.col[(user, asset) := current + amount]);
      var total := Get(store.totalCol, asset);
      store := store.(totalCol := store.totalCol[asset := total + amount]);
      r := Returned(());
    }

    method WithdrawCollateral(user: Address, asset: Address, amount: int) returns (r: Outcome<()>)
      modifies this
      ensures Did(Spec.Withdraw(old(store), user, asset, amount), store, r)
    {
      hide TDiv, WeightedWith;
      if !(amount > 0) {
        return Panicked;
      }
      var current := Get(store.col, (user, asset));
      if !(current >= amount) {
        return Panicked;
      }
      var left := current - amount;
      var borrowed := Get(store.debt, user);
      if borrowed > 0 {
        var weighted := ComputeWeightedCollateralWithOverride(user, asset, left, false);
        var hf := TDiv(weighted * RATE, borrowed);
        if !(hf >= RATE) {
          return Panicked;
        }
      }
      store := store.(col := store.col[(user, asset) := left]);
      var total := Get(store.totalCol, asset);
      store := store.(totalCol := store.totalCol[asset := total - amount]);
      var paid := PayOut(TokenPurse(store, asset), user, amount);
      if paid.None? {
        return Panicked;
      }
      store := store.(tokens := store.tokens[asset := paid.value]);
      r := Returned(());
    }

    method BorrowXlm(user: Address, amount: int) returns (r: Outcome<()>)
      modifies this
      ensures Did(Spec.Borrow(old(store), user, amount), store, r)
    {
      hide Weighted;
      if !(amount > 0) {
        return Panicked;
      }
      var borrowed := Get(store.debt, user) + amount;
      var maxBorrow := ComputeWeightedCollateral(user, false);
      if !(borrowed <= maxBorrow) {
        return Panicked;
      }
      var native := store.native;
      if !(TokenPurse(store, native).held >= amount) {
        return Panicked;
      }
      store := store.(debt := store.debt[user := borrowed]);
      var total := store.totalBorrowed;
      store := store.(totalBorrowed := total + amount);
      var paid := PayOut(TokenPurse(store, native), user, amount);
      if paid.None? {
        return Panicked;
      }
      store := store.(tokens := store.tokens[native := paid.value]);
      r := Returned(());
    }

    method RepayXlm(user: Address, amount: int) returns (r: Outcome<int>)
      modifies this
      ensures Did(Spec.Repay(old(store), user, amount), store, r)
    {
      if !(amount > 0) {
        return Panicked;
      }
      var borrowed := Get(store.debt, user);
      var repaid := if amount > borrowed then borrowed else amount;
      var native := store.native;
      var paid := PullIn(TokenPurse(store, native), user, repaid);
      if paid.None? {
        return Panicked;
      }
      store := store.(tokens := store.tokens[native := paid.value]);
      store := store.(debt := store.debt[user := borrowed - repaid]);
      var total := store.totalBorrowed;
      store := store.(totalBorrowed := total - repaid);
      r := Returned(repaid);
    }

    method LiquidatePosition(liquidator: Address, borrower: Address, asset: Address) returns (r: Outcome<int>)
      modifies this
      ensures Did(Spec.Liquidate(old(store), liquidator, borrower, asset), store, r)
    {
      hide Weighted, TDiv;
      var borrowed := Get(store.debt, borrower);
      if !(borrowed > 0) || asset !in store.assets {
        return Panicked;
      }
      var weightedLt := ComputeWeightedCollateral(borrower, true);
      var hf := TDiv(weightedLt * RATE, borrowed);
      if !(hf < RATE) {
        return Panicked;
      }
      var available := Get(store.col, (borrower, asset));
      if !(available > 0) {
        return Panicked;
      }
      var native := store.native;
      var paid := PullIn(TokenPurse(store, native), liquidator, borrowed);
      if paid.None? {
        return Panicked;
      }
      store := store.(tokens := store.tokens[native := paid.value]);
      var toSeize := CollateralToSeize(borrowed, asset);
      if toSeize.None? {
        return Panicked;
      }
      var toSend := if toSeize.value > available then available else toSeize.value;
      store := store.(debt := store.debt[borrower := 0]);
      var totalBorrowed := store.totalBorrowed;
      store := store.(totalBorrowed := totalBorrowed - borrowed);
      hide Spec.Seize, SeizeTarget;
      r := SendCollateral(liquidator, borrower, asset, toSend);
    }

    /** Units of collateral worth the debt plus bonus; `None` on a zero price. */
    method CollateralToSeize(borrowed: int, asset: Address) returns (target: Option<int>)
      ensures target == SeizeTarget(store, borrowed, asset)
    {
      var cfg := Config(store, asset);
      var debtWithBonus := TDiv(borrowed * (BPS + store.bonus), BPS);
      if cfg.price == 0 {
        return None;
      }
      target := Some(TDiv(debtWithBonus * RATE, cfg.price));
    }

    method SendCollateral(liquidator: Address, borrower: Address, asset: Address, toSend: int) returns (r: Outcome<int>)
      modifies this
      ensures Did(Spec.Seize(old(store), liquidator, borrower, asset, toSend), store, r)
    {
      if toSend > 0 {
        var sent := PayOut(TokenPurse(store, asset), liquidator, toSend);
        if sent.None? {
          return Panicked;
        }
        store := store.(tokens := store.tokens[asset := sent.value]);
      }
      var remaining := Get(store.col, (borrower, asset)) - toSend;
      store := store.(col := store.col[(borrower, asset) := remaining]);
      var total := Get(store.totalCol, asset);
      store := store.(totalCol := store.totalCol[asset := total - toSend]);
      r := Returned(toSend);
    }

    // ---------- the host ----------

    /** One transaction: runs the call and discards its writes if it panicked. */
    method Transact(op: Op) returns (ok: bool)
      modifies this
      ensures store == Step(old(store), op)
    {
      hide Configure, UpdatePrice, SyncPrice, UpdateBonus, Deposit, Withdraw, Borrow, Repay, Liquidate, Receive;
      var before := store;
      ok := true;
      match op {
        case OpConfigure(actor, asset, cf, lt, price) =>
          var r := ConfigureAsset(actor, asset, cf, lt, price);
          ok := r.Returned?;
        case OpPrice(actor, asset, price) =>
          var r := UpdateAssetPrice(actor, asset, price);
          ok := r.Returned?;
        case OpSync(asset, live) =>
          var r := SyncSxlmPrice(asset, live);
          ok := r.Returned?;
        case OpBonus(actor, bps) =>
          var r := UpdateLiquidationBonus(actor, bps);
          ok := r.Returned?;
        case OpDeposit(user, asset, amount) =>
          var r := DepositCollateral(user, asset, amount);
          ok := r.Returned?;
        case OpWithdraw(user, asset, amount) =>
          var r := WithdrawCollateral(user, asset, amount);
          ok := r.Returned?;
        case OpBorrow(user, amount) =>
          var r := BorrowXlm(user, amount);
          ok := r.Returned?;
        case OpRepay(user, amount) =>
          var r := RepayXlm(user, amount);
          ok := r.Returned?;
        case OpLiquidate(liquidator, borrower, asset) =>
          var r := LiquidatePosition(liquidator, borrower, asset);
          ok := r.Returned?;
        case OpFund(token, from, amount) =>
          var sent := Receive(store, token, from, amount);
          ok := sent.Some?;
          if ok { store := sent.value; }
      }
      if !ok {
        store := before;
      }
    }
  }
}
