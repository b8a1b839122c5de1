/** The two off-chain quote formulas, compared with the trade the contract makes on the same reserves and fee. */
module Quotes {
  import opened Base
  import opened Arith
  import opened PoolMath
  import opened Amm

  datatype Quote = Quote(out: int, minOut: int)

  /** dex-integration's `applyConstantProductQuote`. */
  function ConstantProductQuote(rIn: int, rOut: int, amount: int, feeBps: int): int {
    if rIn <= 0 || rOut <= 0 || amount <= 0 then 0
    else
      var a := TDiv(amount * (BPS - feeBps), BPS);
      if a <= 0 then 0 else rOut - TDiv(rIn * rOut, rIn + a)
  }

  /** dex-integration's `quoteExactIn`, bigint part; `None` is the thrown error. */
  function DexQuote(rIn: int, rOut: int, amount: int, feeBps: int, slippageBps: int): Option<Quote> {
    var out := ConstantProductQuote(rIn, rOut, amount, feeBps);
    if amount <= 0 || rIn <= 0 || rOut <= 0 || out <= 0 then None
    else Some(Quote(out, TDiv(out * Max(0, 10_000 - slippageBps), 10_000)))
  }

  /** liquidity-engine's `quoteExactIn`, bigint part. */
  function EngineQuote(rIn: int, rOut: int, amount: int, feeBps: int, slippageBps: int): Quote {
    var a := TDiv(amount * (10_000 - feeBps), 10_000);
    var out := if rIn + a == 0 then 0 else TDiv(rOut * a, rIn + a);
    Quote(out, TDiv(out * (10_000 - slippageBps), 10_000))
  }

  /** The contract accepts exactly the dex quotes that do not drain the pool, at exactly the quoted output. */
  lemma DexQuoteIsTheTrade(rIn: int, rOut: int, amount: int, feeBps: int, slippageBps: int)
    requires feeBps >= 0
    ensures var q := DexQuote(rIn, rOut, amount, feeBps, slippageBps);
      SwapOut(rIn, rOut, amount, feeBps) ==
        if q.Some? && q.value.out < rOut then Some(q.value.out) else None
  {
    if feeBps > 0 && SwapOut(rIn, rOut, amount, feeBps).Some? {
      SwapNeedsFee(rIn, rOut, amount, SwapOut(rIn, rOut, amount, feeBps).value, feeBps, 0);
    } else if feeBps == 0 && amount > 0 {
      FloorUnique(amount * BPS, BPS, amount);
    }
  }

  /** The engine rounds the other way: never above the contract's output and at most one stroop below. */
  lemma EngineQuoteIsTheFloor(rIn: int, rOut: int, amount: int, feeBps: int, slippageBps: int)
    requires feeBps > 0
    requires SwapOut(rIn, rOut, amount, feeBps).Some?
    ensures var out := SwapOut(rIn, rOut, amount, feeBps).value;
      var q := EngineQuote(rIn, rOut, amount, feeBps, slippageBps).out;
      var m := rIn + AfterFee(amount, feeBps);
      && m > 0
      && q == out - (if (rIn * rOut) % m == 0 then 0 else 1)
  {
    var out := SwapOut(rIn, rOut, amount, feeBps).value;
    SwapNeedsFee(rIn, rOut, amount, out, feeBps, 0);
    QuoteShape(rIn, rOut, amount, feeBps);
    var a := AfterFee(amount, feeBps);
    var m := rIn + a;
    var left, rest := (rIn * rOut) / m, (rIn * rOut) % m;
    hide AfterFee;
    MulSplits(rIn, a, rOut);
    MulSplits(rOut, left, m);
    MulSplits(out, 1, m);
    MulPositive(rOut, a);
    assert rOut * a == (rOut - left) * m - rest;
    FloorUnique(rOut * a, m, if rest == 0 then out else out - 1);
  }

  lemma SlippageLowers(out: int, keep: int)
    requires out >= 0 && keep <= 10_000
    ensures TDiv(out * keep, 10_000) <= out
  {}

  /** Whatever non-negative slippage was asked for, both minimum outputs pass the contract's slippage check. */
  lemma QuotedMinimumPasses(rIn: int, rOut: int, amount: int, feeBps: int, protocolBps: int, slippageBps: int)
    requires feeBps > 0 && slippageBps >= 0
    requires SwapOut(rIn, rOut, amount, feeBps).Some?
    ensures var d := DexQuote(rIn, rOut, amount, feeBps, slippageBps);
      && d.Some?
      && Swap(rIn, rOut, amount, d.value.minOut, feeBps, protocolBps).Some?
      && Swap(rIn, rOut, amount, EngineQuote(rIn, rOut, amount, feeBps, slippageBps).minOut, feeBps, protocolBps).Some?
  {
    DexQuoteIsTheTrade(rIn, rOut, amount, feeBps, slippageBps);
    var d := DexQuote(rIn, rOut, amount, feeBps, slippageBps).value;
    SlippageLowers(d.out, Max(0, 10_000 - slippageBps));
    EngineQuoteIsTheFloor(rIn, rOut, amount, feeBps, slippageBps);
    var e := EngineQuote(rIn, rOut, amount, feeBps, slippageBps);
    assert e.out >= 0;
    SlippageLowers(e.out, 10_000 - slippageBps);
  }

  /** The dex quote in numbers: `a` is the input after the fee and `kept` the reserve left, rounded down. It is refused without
      reserves, input or output; else it is what is not kept, and the minimum is that less the slippage, rounded down. */
  lemma DexQuoteExactly(rIn: int, rOut: int, amount: int, feeBps: int, slippageBps: int, a: int, kept: int)
    requires rIn > 0 && rOut > 0 && amount > 0 && 0 <= feeBps <= 10_000 && slippageBps >= 0
    requires IsFloor(a, amount * (10_000 - feeBps), 10_000) && IsFloor(kept, rIn * rOut, rIn + a)
    ensures var q := DexQuote(rIn, rOut, amount, feeBps, slippageBps);
      && (q.Some? <==> 0 < a && kept < rOut)
      && (q.Some? ==>
           && q.value.out == rOut - kept
           && (slippageBps >= 10_000 ==> q.value.minOut == 0)
           && (slippageBps < 10_000 ==> IsFloor(q.value.minOut, q.value.out * (10_000 - slippageBps), 10_000)))
  {
    AfterFeeIs(amount, feeBps, a);
    MulPositive(rIn, rOut);
    TruncationIsFloor(rIn * rOut, rIn + a);
    OneFloor(kept, TDiv(rIn * rOut, rIn + a), rIn * rOut, rIn + a);
    if kept < rOut { KeptIs(rOut - kept, Max(0, 10_000 - slippageBps)); }
    hide AfterFee, TDiv, IsFloor;
  }

  lemma KeptIs(out: int, keep: int)
    requires out >= 0 && keep >= 0
    ensures IsFloor(TDiv(out * keep, 10_000), out * keep, 10_000)
    ensures keep == 0 ==> TDiv(out * keep, 10_000) == 0
  {
    MulMono(0, keep, out);
    TruncationIsFloor(out * keep, 10_000);
  }

  /** The engine's quote in the same numbers: the output rounded down, and the minimum below it. */
  lemma EngineQuoteExactly(rIn: int, rOut: int, amount: int, feeBps: int, slippageBps: int, a: int)
    requires rIn > 0 && rOut > 0 && amount > 0 && 0 <= feeBps <= 10_000 && 0 <= slippageBps <= 10_000
    requires IsFloor(a, amount * (10_000 - feeBps), 10_000)
    ensures var q := EngineQuote(rIn, rOut, amount, feeBps, slippageBps);
      && IsFloor(q.out, rOut * a, rIn + a)
      && IsFloor(q.minOut, q.out * (10_000 - slippageBps), 10_000)
  {
    AfterFeeIs(amount, feeBps, a);
    MulMono(0, a, rOut);
    TruncationIsFloor(rOut * a, rIn + a);
    KeptIs(TDiv(rOut * a, rIn + a), 10_000 - slippageBps);
    hide TDiv, IsFloor;
  }

  /** Nothing is quoted for nothing: without reserves or input the dex refuses, and an empty reserve side the engine quotes as 0. */
  lemma NothingQuoted(rIn: int, rOut: int, amount: int, feeBps: int, slippageBps: int)
    ensures rIn <= 0 || rOut <= 0 || amount <= 0 ==>
      ConstantProductQuote(rIn, rOut, amount, feeBps) == 0 && DexQuote(rIn, rOut, amount, feeBps, slippageBps) == None
    ensures rIn == 0 && 0 <= amount && amount * (10_000 - feeBps) == 0 ==> EngineQuote(rIn, rOut, amount, feeBps, slippageBps).out == 0
  {}
}
