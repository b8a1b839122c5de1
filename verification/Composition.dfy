/** Staking and lending together: the live exchange rate feeds the collateral price. */
module Composition {
  import opened Base
  import Arith
  import opened Purses
  import S = StakingSpec
  import SP = StakingProofs
  import L = LendingSpec
  import opened LendingSafety

  datatype System = System(staking: S.Staking, lending: L.Lending)

  datatype Act =
    | Stake(ledger: int, sop: S.Op)
    | Lend(lop: L.Op)
    | Sync(asset: Address)

  /** `Sync` reads the staking contract's rate at the moment it runs. */
  function Step(y: System, act: Act): System {
    match act
    case Stake(ledger, op) => y.(staking := S.Step(y.staking, ledger, op))
    case Lend(op) => y.(lending := L.Step(y.lending, op))
    case Sync(asset) => y.(lending := L.Step(y.lending, L.OpSync(asset, S.ExchangeRate(y.staking))))
  }

  function Run(y: System, acts: seq<Act>): System
    decreases |acts|
  {
    if acts == [] then y else Run(Step(y, acts[0]), acts[1..])
  }

  /** Staking is live, every position is within peaks that liquidate nobody, and sXLM at the live rate would liquidate at no
      less than it ever lent. */
  ghost predicate Aligned(y: System, peaks: map<Address, int>, sxlm: Address) {
    && SP.Live(y.staking)
    && Steady(y.lending, peaks)
    && sxlm in y.lending.assets
    && Get(peaks, sxlm) <= S.ExchangeRate(y.staking) * L.Config(y.lending, sxlm).lt
  }

  function Peaks(y: System, peaks: map<Address, int>): map<Address, int> { Raised(y.lending, peaks) }

  /** Slashes and delayed claims only as far as the pool stays live and sXLM at the new rate still liquidates at no less than it
      ever lent; price and factor changes, syncs of other assets among them, only as far as they are tolerable; and sXLM never
      lends more by hand than it would liquidate at the live rate. Every other staking call and a sync of sXLM are benign. */
  ghost predicate Benign(y: System, peaks: map<Address, int>, sxlm: Address, act: Act) {
    match act
    case Stake(ledger, op) =>
      var t := S.Step(y.staking, ledger, op);
      SP.Lowers(y.staking, ledger, op) ==>
        SP.Live(t) && Get(peaks, sxlm) <= S.ExchangeRate(t) * L.Config(y.lending, sxlm).lt
    case Lend(op) =>
      var k := L.Step(y.lending, op);
      Tolerable(y.lending, peaks, op) && Get(Raised(k, peaks), sxlm) <= S.ExchangeRate(y.staking) * L.Config(k, sxlm).lt
    case Sync(asset) => asset == sxlm || Tolerable(y.lending, peaks, L.OpSync(asset, S.ExchangeRate(y.staking)))
  }

  ghost predicate BenignRun(y: System, peaks: map<Address, int>, sxlm: Address, acts: seq<Act>)
    decreases |acts|
  {
    acts == [] || (Benign(y, peaks, sxlm, acts[0]) && BenignRun(Step(y, acts[0]), Peaks(Step(y, acts[0]), peaks), sxlm, acts[1..]))
  }

  /** A sync touches the price of one asset. */
  lemma SyncConfig(l: L.Lending, asset: Address, live: int)
    ensures var k := L.Step(l, L.OpSync(asset, live));
      && k.assets == l.assets
      && (forall a :: a != asset ==> L.Config(k, a) == L.Config(l, a))
      && (k == l || L.Config(k, asset) == L.Config(l, asset).(price := live))
  {}

  /** At a rate that reaches the peak, syncing sXLM itself is tolerable, and leaves the peak within reach of the rate. */
  lemma SyncOfSxlm(l: L.Lending, peaks: map<Address, int>, sxlm: Address, rate: int)
    requires Steady(l, peaks) && sxlm in l.assets && 0 <= rate
    requires Get(peaks, sxlm) <= rate * L.Config(l, sxlm).lt
    ensures var op := L.OpSync(sxlm, rate);
      && Tolerable(l, peaks, op)
      && Get(Raised(L.Step(l, op), peaks), sxlm) <= rate * L.Config(L.Step(l, op), sxlm).lt
  {
    SteadyAt(l, peaks);
    SyncConfig(l, sxlm, rate);
    Arith.MulMono(L.Config(l, sxlm).cf, L.Config(l, sxlm).lt, rate);
    hide Steady, L.Step, L.Config;
  }

  /** Syncing another asset leaves sXLM's peak and configuration alone. */
  lemma SyncOfOther(l: L.Lending, peaks: map<Address, int>, sxlm: Address, asset: Address, rate: int)
    requires Steady(l, peaks) && sxlm in l.assets && asset != sxlm
    ensures var k := L.Step(l, L.OpSync(asset, rate));
      sxlm in k.assets && Get(Raised(k, peaks), sxlm) == Get(peaks, sxlm) && L.Config(k, sxlm) == L.Config(l, sxlm)
  {
    SteadyAt(l, peaks);
    SyncConfig(l, asset, rate);
    hide Steady, L.Step, L.Config, Worth;
  }

  lemma StillSupported(l: L.Lending, op: L.Op, asset: Address)
    requires asset in l.assets
    ensures asset in L.Step(l, op).assets
  {
    if !op.OpPrice? && !op.OpConfigure? && !op.OpSync? {
      KeepsConfig(l, op);
      hide L.Step;
    }
  }

  lemma RateRises(y: System, ledger: int, op: S.Op)
    requires SP.Live(y.staking) && !SP.Lowers(y.staking, ledger, op)
    ensures var t := S.Step(y.staking, ledger, op);
      SP.Live(t) && 0 <= S.ExchangeRate(y.staking) <= S.ExchangeRate(t)
  {
    SP.RateStep(y.staking, ledger, op);
    SP.PublishedRateKept(y.staking, S.Step(y.staking, ledger, op));
    hide S.Step, S.ExchangeRate, SP.Shares, SP.Lowers;
  }

  lemma RateNonneg(s: S.Staking)
    requires SP.Live(s)
    ensures 0 <= S.ExchangeRate(s)
  {
    SP.PublishedRateKept(s, s);
    hide S.ExchangeRate, SP.Shares;
  }

  predicate LowersNothing(y: System, act: Act) {
    act.Stake? ==> !SP.Lowers(y.staking, act.ledger, act.sop)
  }

  predicate NeverLowers(y: System, acts: seq<Act>)
    decreases |acts|
  {
    acts == [] || (LowersNothing(y, acts[0]) && NeverLowers(Step(y, acts[0]), acts[1..]))
  }

  lemma AlignedStep(y: System, peaks: map<Address, int>, sxlm: Address, act: Act)
    requires Aligned(y, peaks, sxlm) && Benign(y, peaks, sxlm, act)
    ensures Aligned(Step(y, act), Peaks(Step(y, act), peaks), sxlm)
    ensures LowersNothing(y, act) ==> S.ExchangeRate(y.staking) <= S.ExchangeRate(Step(y, act).staking)
  {
    hide S.Step, L.Step, S.ExchangeRate, Steady, SP.Live, SP.Lowers, Tolerable, Raised;
    SteadyAt(y.lending, peaks);
    match act
    case Stake(ledger, op) =>
      IdleSteady(y.lending, peaks);
      if !SP.Lowers(y.staking, ledger, op) {
        RateRises(y, ledger, op);
        Arith.MulMono(S.ExchangeRate(y.staking), S.ExchangeRate(S.Step(y.staking, ledger, op)), L.Config(y.lending, sxlm).lt);
      }
    case Lend(op) =>
      SteadyStep(y.lending, peaks, op);
      StillSupported(y.lending, op, sxlm);
    case Sync(asset) =>
      var op := L.OpSync(asset, S.ExchangeRate(y.staking));
      RateNonneg(y.staking);
      if asset == sxlm { SyncOfSxlm(y.lending, peaks, sxlm, S.ExchangeRate(y.staking)); }
      else { SyncOfOther(y.lending, peaks, sxlm, asset, S.ExchangeRate(y.staking)); }
      SteadyStep(y.lending, peaks, op);
      StillSupported(y.lending, op, sxlm);
  }

  /** Doing nothing raises no peak. */
  lemma IdleSteady(l: L.Lending, peaks: map<Address, int>)
    requires Steady(l, peaks)
    ensures Steady(l, Raised(l, peaks))
    ensures forall a :: a in l.assets ==> Get(Raised(l, peaks), a) == Get(peaks, a)
  {
    SteadyAt(l, peaks);
    BalancesSteady(l, l, peaks);
    RaisedFrame(l, l, peaks);
    hide Steady, Raised;
  }

  /** Over such runs of both contracts, with any number of price syncs, no position ever becomes liquidatable; and unless a slash
      or a delayed claim takes something, the rate never falls. */
  lemma {:induction false} SyncsNeverLiquidate(y: System, peaks: map<Address, int>, sxlm: Address, acts: seq<Act>)
    requires Aligned(y, peaks, sxlm) && BenignRun(y, peaks, sxlm, acts)
    ensures var z := Run(y, acts);
      && (NeverLowers(y, acts) ==> S.ExchangeRate(y.staking) <= S.ExchangeRate(z.staking))
      && forall liquidator, borrower, asset :: L.Liquidate(z.lending, liquidator, borrower, asset) == None
    decreases |acts|
  {
    hide Step, S.ExchangeRate, L.Liquidate, Benign, Peaks, Steady, LowersNothing;
    if acts != [] {
      var t := Step(y, acts[0]);
      AlignedStep(y, peaks, sxlm, acts[0]);
      SyncsNeverLiquidate(t, Peaks(t, peaks), sxlm, acts[1..]);
      assert Run(y, acts) == Run(t, acts[1..]);
    } else {
      forall liquidator, borrower, asset ensures L.Liquidate(y.lending, liquidator, borrower, asset) == None {
        SteadyMeansHealthy(y.lending, peaks, liquidator, borrower, asset);
      }
    }
  }

  /** Freshly priced at the rate, a safe lending contract is aligned: the theorem applies to it. */
  lemma SafeIsAligned(y: System, sxlm: Address)
    requires SP.Live(y.staking) && Safe(y.lending) && sxlm in y.lending.assets
    requires L.Config(y.lending, sxlm).price <= S.ExchangeRate(y.staking)
    ensures Aligned(y, Worths(y.lending, false), sxlm)
  {
    hide S.ExchangeRate, L.Weighted, Ceiling, SP.Live;
    assert Configured(y.lending);
    SafeIsSteady(y.lending);
    var c := L.Config(y.lending, sxlm);
    Arith.MulMono(c.price, S.ExchangeRate(y.staking), c.cf);
    Arith.MulMono(c.cf, c.lt, S.ExchangeRate(y.staking));
    RateNonneg(y.staking);
    hide Safe, Steady, L.Config;
  }

  /** A borrower with 1000 units of `usdc` at the given price and a debt of 5000. */
  function Example(user: Address, usdc: Address, sxlm: Address, native: Address, staker: Address, price: int): L.Lending {
    L.Lending(staker, native, 500, [sxlm, usdc],
              map[sxlm := L.AssetConfig(7000, 8000, S.RATE), usdc := L.AssetConfig(7000, 8000, price)],
              map[(user, usdc) := 1_000], map[usdc := 1_000], map[user := 5_000], 5_000,
              map[usdc := Purse(1_000, map[]), native := Purse(0, map[staker := 9_000])])
  }

  lemma ExampleWeight(user: Address, usdc: Address, sxlm: Address, native: Address, staker: Address, price: nat)
    requires user != staker && usdc != sxlm && usdc != native && sxlm != native
    ensures var l := Example(user, usdc, sxlm, native, staker, price);
      L.Weighted(l, user, l.assets, true) == 1_000 * price * 8_000 / (L.BPS * L.RATE)
  {
    var l := Example(user, usdc, sxlm, native, staker, price);
    assert l.assets[..1] == [sxlm] && [sxlm][..0] == [];
    assert L.Weighted(l, user, [sxlm], true) == 0;
  }

  /** Exactly which syncs of an asset are harmless to positions within their borrowing limits is `LendingSafety.SyncHarmlessIff`;
      here one is not: the asset's price is pulled down to the rate and a healthy borrower becomes liquidatable. */
  lemma SyncOfOtherAssetLowersPrice(user: Address, usdc: Address, sxlm: Address, native: Address, staker: Address)
    requires user != staker && usdc != sxlm && usdc != native && sxlm != native
    ensures var l := Example(user, usdc, sxlm, native, staker, 10 * S.RATE);
      var s := S.Staking(staker, 2_000, 2_000, 0, 0, 288, false, map[], 0, Purse(2_000, map[]), Purse(1_000, map[staker := 1_000]));
      && L.Liquidate(l, staker, user, usdc) == None
      && L.Liquidate(Step(System(s, l), Sync(usdc)).lending, staker, user, usdc).Some?
  {
    var l := Example(user, usdc, sxlm, native, staker, 10 * S.RATE);
    var k := Example(user, usdc, sxlm, native, staker, S.RATE);
    var s := S.Staking(staker, 2_000, 2_000, 0, 0, 288, false, map[], 0, Purse(2_000, map[]), Purse(1_000, map[staker := 1_000]));
    assert S.ExchangeRate(s) == S.RATE;
    ExampleWeight(user, usdc, sxlm, native, staker, 10 * S.RATE);
    ExampleWeight(user, usdc, sxlm, native, staker, S.RATE);
    hide L.Weighted, S.ExchangeRate;
    assert Step(System(s, l), Sync(usdc)).lending == k;
    assert L.SeizeTarget(k, 5_000, usdc) == Some(5_250);
  }
}
