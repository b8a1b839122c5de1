/** Pricing of one trade, one deposit and one withdrawal, with the contract's own rounding. */
module Amm {
  import opened Base
  import opened Arith
  import opened PoolMath

  // ---------- swaps ----------

  /** An accepted trade: what the trader gets, both reserves afterwards, the protocol's share of the fee. */
  datatype Trade = Trade(out: int, reserveIn: int, reserveOut: int, cut: int)

  function AfterFee(amount: int, feeBps: int): int {
    TDiv(amount * (BPS - feeBps), BPS)
  }

  function SwapOut(reserveIn: int, reserveOut: int, amount: int, feeBps: int): Option<int> {
    var a := AfterFee(amount, feeBps);
    if amount <= 0 || reserveIn <= 0 || reserveOut <= 0 || reserveIn + a == 0 then None
    else
      var out := reserveOut - TDiv(reserveIn * reserveOut, reserveIn + a);
      if 0 < out < reserveOut then Some(out) else None
  }

  function Swap(reserveIn: int, reserveOut: int, amount: int, minOut: int, feeBps: int, protocolBps: int): Option<Trade> {
    var out :- SwapOut(reserveIn, reserveOut, amount, feeBps);
    if out < minOut || feeBps == 0 then None
    else
      var cut := TDiv((amount - AfterFee(amount, feeBps)) * protocolBps, feeBps);
      Some(Trade(out, reserveIn + amount - cut, reserveOut - out, cut))
  }

  lemma AfterFeeBounds(amount: int, feeBps: int)
    requires amount > 0 && feeBps >= 0
    requires AfterFee(amount, feeBps) > 0
    ensures feeBps < BPS && AfterFee(amount, feeBps) <= amount
  {}

  /** Without an effective input there is no output to pay. */
  lemma NoInputNoOutput(rIn: int, rOut: int, a: int)
    requires rIn > 0 && rOut > 0 && a <= 0 && rIn + a != 0
    ensures var out := rOut - TDiv(rIn * rOut, rIn + a); out <= 0 || out >= rOut
  {
    var k := rIn * rOut;
    assert k > 0;
    if rIn + a > 0 {
      Floor(k, rIn + a);
      MulMono(rIn + a, rIn, rOut);
      FloorGalois(k, rIn + a, rOut);
    } else {
      Floor(k, -(rIn + a));
    }
  }

  /** A pool with a zero fee, or a fee of 100% and more, refuses every trade. */
  lemma SwapNeedsFee(rIn: int, rOut: int, amount: int, minOut: int, feeBps: int, protocolBps: int)
    requires feeBps >= 0
    requires Swap(rIn, rOut, amount, minOut, feeBps, protocolBps).Some?
    ensures 0 < feeBps < BPS && 0 < AfterFee(amount, feeBps) <= amount
  {
    hide AfterFee, TDiv;
    var a := AfterFee(amount, feeBps);
    if a > 0 {
      AfterFeeBounds(amount, feeBps);
    } else {
      NoInputNoOutput(rIn, rOut, a);
    }
  }

  /** The input whose effective part is exactly `reserve`. */
  function MatchingInput(reserve: int, feeBps: int): int
    requires feeBps < BPS
  {
    (reserve * BPS + (BPS - feeBps) - 1) / (BPS - feeBps)
  }

  lemma MatchingInputWorks(reserve: int, feeBps: int)
    requires reserve > 0 && 0 < feeBps < BPS
    ensures MatchingInput(reserve, feeBps) > 0 && AfterFee(MatchingInput(reserve, feeBps), feeBps) == reserve
  {
    var d := BPS - feeBps;
    var n := reserve * BPS + d - 1;
    Floor(n, d);
    var amount := n / d;
    assert reserve * BPS <= amount * d < reserve * BPS + BPS;
    FloorUnique(amount * d, BPS, reserve);
    if amount <= 0 { MulMono(amount, 0, d); }
  }

  /** A pool with something to trade accepts some swap if and only if its fee is strictly between 0 and 100%. */
  lemma TradesIff(rIn: int, rOut: int, feeBps: int, protocolBps: int)
    requires rIn > 0 && rOut > 1 && feeBps >= 0
    ensures (exists amount :: Swap(rIn, rOut, amount, 0, feeBps, protocolBps).Some?) <==> 0 < feeBps < BPS
  {
    if 0 < feeBps < BPS {
      var amount := MatchingInput(rIn, feeBps);
      MatchingInputWorks(rIn, feeBps);
      HalfOut(rIn, rOut);
      hide AfterFee, MatchingInput;
      assert SwapOut(rIn, rOut, amount, feeBps) == Some(rOut - rOut / 2);
      assert Swap(rIn, rOut, amount, 0, feeBps, protocolBps).Some?;
    } else {
      forall amount ensures Swap(rIn, rOut, amount, 0, feeBps, protocolBps) == None {
        if Swap(rIn, rOut, amount, 0, feeBps, protocolBps).Some? { SwapNeedsFee(rIn, rOut, amount, 0, feeBps, protocolBps); }
      }
      hide Swap;
    }
  }

  /** Doubling the incoming reserve pays out half of the other. */
  lemma HalfOut(rIn: int, rOut: int)
    requires rIn > 0 && rOut > 1
    ensures TDiv(rIn * rOut, rIn + rIn) == rOut / 2 && 0 < rOut / 2 < rOut
  {
    var h, r := rOut / 2, rOut % 2;
    assert rIn * rOut == h * (rIn + rIn) + r * rIn;
    MulMono(0, r, rIn);
    MulMono(r, 1, rIn);
    FloorUnique(rIn * rOut, rIn + rIn, h);
    assert rIn * rOut >= 0;
  }

  /** Facts about an accepted quote in terms of plain floors. */
  lemma QuoteShape(rIn: int, rOut: int, amount: int, feeBps: int)
    requires rIn > 0 && rOut > 0 && amount > 0
    requires 0 < AfterFee(amount, feeBps)
    ensures var m := rIn + AfterFee(amount, feeBps);
      var left := (rIn * rOut) / m;
      && TDiv(rIn * rOut, m) == left
      && 0 <= left < rOut
      && left * m == rIn * rOut - (rIn * rOut) % m
  {
    var m := rIn + AfterFee(amount, feeBps);
    var k := rIn * rOut;
    var a := AfterFee(amount, feeBps);
    hide AfterFee;
    MulPositive(rIn, rOut);
    Floor(k, m);
    FloorGalois(k, m, rOut);
    MulSplits(rIn, a, rOut);
    MulPositive(rOut, a);
  }

  /** The retained part of the fee: what stays in the pool for liquidity providers. */
  function LpFee(t: Trade, amount: int, feeBps: int): int {
    amount - AfterFee(amount, feeBps) - t.cut
  }

  /** The exact product law of an accepted swap. */
  lemma ConstantProductLaw(rIn: int, rOut: int, amount: int, minOut: int, feeBps: int, protocolBps: int)
    requires feeBps >= 0
    requires Swap(rIn, rOut, amount, minOut, feeBps, protocolBps).Some?
    ensures var t := Swap(rIn, rOut, amount, minOut, feeBps, protocolBps).value;
      var k := rIn * rOut;
      var m := rIn + AfterFee(amount, feeBps);
      && m > 0
      && t.reserveIn * t.reserveOut == k - k % m + LpFee(t, amount, feeBps) * t.reserveOut
      && (t.reserveIn * t.reserveOut >= k <==> LpFee(t, amount, feeBps) * t.reserveOut >= k % m)
  {
    SwapNeedsFee(rIn, rOut, amount, minOut, feeBps, protocolBps);
    QuoteShape(rIn, rOut, amount, feeBps);
    var t := Swap(rIn, rOut, amount, minOut, feeBps, protocolBps).value;
    var m := rIn + AfterFee(amount, feeBps);
    assert t.reserveIn == m + LpFee(t, amount, feeBps);
    assert t.reserveIn * t.reserveOut == t.reserveOut * m + LpFee(t, amount, feeBps) * t.reserveOut;
  }

  /** The trade keeps the incoming reserve positive exactly when the fee does not outweigh reserve and input. */
  lemma SwapKeepsReserve(rIn: int, rOut: int, amount: int, minOut: int, feeBps: int, protocolBps: int)
    requires feeBps >= 0 && protocolBps >= 0
    requires Swap(rIn, rOut, amount, minOut, feeBps, protocolBps).Some?
    ensures var t := Swap(rIn, rOut, amount, minOut, feeBps, protocolBps).value;
      && t.cut >= 0
      && 0 < t.reserveOut < rOut
      && (t.reserveIn > 0 <==> (amount - AfterFee(amount, feeBps)) * protocolBps < feeBps * (rIn + amount))
      && (protocolBps <= feeBps ==> t.reserveIn > rIn && 0 <= LpFee(t, amount, feeBps))
  {
    SwapNeedsFee(rIn, rOut, amount, minOut, feeBps, protocolBps);
    QuoteShape(rIn, rOut, amount, feeBps);
    CutBounds(amount - AfterFee(amount, feeBps), feeBps, protocolBps, rIn + amount);
  }

  lemma CutBounds(fee: int, feeBps: int, protocolBps: int, limit: int)
    requires fee >= 0 && feeBps > 0 && protocolBps >= 0
    ensures var cut := TDiv(fee * protocolBps, feeBps);
      && cut >= 0
      && (cut < limit <==> fee * protocolBps < feeBps * limit)
      && (protocolBps <= feeBps ==> cut <= fee)
  {
    var n := fee * protocolBps;
    MulMono(0, protocolBps, fee);
    assert n >= 0;
    hide *;
    CutOf(n, feeBps, limit);
    if protocolBps <= feeBps {
      MulMono(protocolBps, feeBps, fee);
      CutOf(n, feeBps, fee + 1);
      Distribute(feeBps, fee);
    }
  }

  lemma CutOf(n: int, feeBps: int, limit: int)
    requires n >= 0 && feeBps > 0
    ensures var cut := TDiv(n, feeBps); cut >= 0 && (cut < limit <==> n < feeBps * limit)
  {
    Floor(n, feeBps);
    FloorGalois(n, feeBps, limit);
  }

  lemma Distribute(a: int, b: int)
    ensures a * (b + 1) == b * a + a
  {}

  /** A trade in numbers: `a` is the input after the fee and `kept` the output reserve it leaves, both rounded down. The trade goes
      through exactly if it leaves something, takes something, and takes what was asked for; the rest of the output reserve is
      paid, and of the fee the protocol gets the floored share `protocolBps / feeBps`, the incoming reserve the rest. */
  lemma SwapExactly(rIn: int, rOut: int, amount: int, minOut: int, feeBps: int, protocolBps: int, a: int, kept: int)
    requires amount > 0 && rIn > 0 && rOut > 0 && 0 <= feeBps <= 10_000 && protocolBps >= 0
    requires IsFloor(a, amount * (10_000 - feeBps), 10_000) && IsFloor(kept, rIn * rOut, rIn + a)
    ensures var r := Swap(rIn, rOut, amount, minOut, feeBps, protocolBps);
      && (r.Some? <==> 0 < kept < rOut && minOut <= rOut - kept && feeBps > 0)
      && (r.Some? ==>
           var t := r.value;
           && t.out == rOut - kept && t.reserveOut == kept
           && IsFloor(t.cut, (amount - a) * protocolBps, feeBps)
           && t.reserveIn == rIn + amount - t.cut)
  {
    hide SwapOut, IsFloor;
    AfterFeeIs(amount, feeBps, a);
    OutIs(rIn, rOut, amount, feeBps, a, kept);
    if feeBps > 0 { CutIs(amount, feeBps, protocolBps); }
    hide AfterFee, TDiv;
  }

  lemma AfterFeeIs(amount: int, feeBps: int, a: int)
    requires amount > 0 && 0 <= feeBps <= BPS && IsFloor(a, amount * (BPS - feeBps), BPS)
    ensures AfterFee(amount, feeBps) == a && 0 <= a <= amount
  {
    var n := amount * (BPS - feeBps);
    MulMono(0, BPS - feeBps, amount);
    MulMono(BPS - feeBps, BPS, amount);
    TruncationIsFloor(n, BPS);
    OneFloor(a, AfterFee(amount, feeBps), n, BPS);
  }

  lemma OutIs(rIn: int, rOut: int, amount: int, feeBps: int, a: int, kept: int)
    requires amount > 0 && rIn > 0 && rOut > 0 && AfterFee(amount, feeBps) == a >= 0 && IsFloor(kept, rIn * rOut, rIn + a)
    ensures SwapOut(rIn, rOut, amount, feeBps) == if 0 < kept < rOut then Some(rOut - kept) else None
  {
    hide AfterFee;
    MulPositive(rIn, rOut);
    TruncationIsFloor(rIn * rOut, rIn + a);
    OneFloor(kept, TDiv(rIn * rOut, rIn + a), rIn * rOut, rIn + a);
    hide TDiv, IsFloor;
  }

  lemma CutIs(amount: int, feeBps: int, protocolBps: int)
    requires amount > 0 && 0 < feeBps <= BPS && protocolBps >= 0 && 0 <= AfterFee(amount, feeBps) <= amount
    ensures var fee := amount - AfterFee(amount, feeBps);
      IsFloor(TDiv(fee * protocolBps, feeBps), fee * protocolBps, feeBps)
  {
    hide AfterFee;
    var fee := amount - AfterFee(amount, feeBps);
    MulMono(0, protocolBps, fee);
    TruncationIsFloor(fee * protocolBps, feeBps);
  }

  /** A 1 bps pool with the default protocol share of 5 bps: an accepted trade empties the incoming reserve. */
  lemma ProtocolShareAboveFee()
    ensures var t := Swap(3, 1_000, 2, 1, 1, 5);
      t.Some? && t.value.out == 250 && t.value.cut == 5 && t.value.reserveIn == 0
  {}

  // ---------- liquidity ----------

  datatype Minted = Minted(xlm: int, sxlm: int, lp: int)

  ghost function Mint(rX: int, rS: int, total: int, x: int, s: int): Option<Minted> {
    if x <= 0 || s <= 0 || (total != 0 && (rX == 0 || rS == 0)) then None
    else
      var m :=
        if total == 0 then Minted(x, s, Root(x * s))
        else
          var byX, byS := TDiv(x * total, rX), TDiv(s * total, rS);
          if byX < byS then Minted(x, TDiv(byX * rS, total), byX)
          else Minted(TDiv(byS * rX, total), s, byS);
      if m.lp > 0 && m.xlm > 0 && m.sxlm > 0 then Some(m) else None
  }

  function Burn(rX: int, rS: int, total: int, lp: int): Option<(int, int)> {
    if lp <= 0 || total == 0 then None
    else
      var x, s := TDiv(lp * rX, total), TDiv(lp * rS, total);
      if x > 0 && s > 0 then Some((x, s)) else None
  }

  /** A pool without shares is empty; a pool with shares has both reserves. */
  ghost predicate Sound(rX: int, rS: int, total: int) {
    && rX >= 0 && rS >= 0 && total >= 0
    && (total > 0 <==> rX > 0) && (total > 0 <==> rS > 0)
  }

  /** One side of a proportional deposit: the matched amount never exceeds the offer, and buys no more than its share. */
  lemma Matched(r: int, total: int, offer: int, lp: int)
    requires r > 0 && total > 0 && offer > 0
    requires 0 <= lp <= (offer * total) / r
    ensures (lp * r) / total <= offer
    ensures lp * r <= offer * total
  {}

  /** What `Mint` takes, in plain floors. */
  lemma MintShape(rX: int, rS: int, total: int, x: int, s: int)
    requires Sound(rX, rS, total) && total > 0
    requires Mint(rX, rS, total, x, s).Some?
    ensures var m := Mint(rX, rS, total, x, s).value;
      && 0 < m.xlm <= x && 0 < m.sxlm <= s && 0 < m.lp
      && m.lp * rX <= x * total && m.lp * rS <= s * total
      && (m.xlm == x || m.xlm == (m.lp * rX) / total)
      && (m.sxlm == s || m.sxlm == (m.lp * rS) / total)
  {
    var m := Mint(rX, rS, total, x, s).value;
    assert x * total > 0 && s * total > 0;
    Floor(x * total, rX);
    Floor(s * total, rS);
    Matched(rX, total, x, m.lp);
    Matched(rS, total, s, m.lp);
    assert m.lp * rX > 0 && m.lp * rS > 0;
    Floor(m.lp * rX, total);
    Floor(m.lp * rS, total);
  }

  /** A deposit in numbers: `lp` is the largest number of shares that both offers pay for. It goes through exactly if all three
      amounts are positive; the side that pays for no further share is taken in full, sXLM if both are such sides, and the other
      one in proportion, rounded down. */
  lemma MintExactly(rX: int, rS: int, total: int, x: int, s: int, lp: int)
    requires Sound(rX, rS, total) && total > 0 && x > 0 && s > 0
    requires 0 <= lp && lp * rX <= x * total && lp * rS <= s * total
    requires (lp + 1) * rX > x * total || (lp + 1) * rS > s * total
    ensures var m, fromS := Mint(rX, rS, total, x, s), s * total < (lp + 1) * rS;
      && (m.Some? <==> 0 < lp && total <= lp * if fromS then rX else rS)
      && (m.Some? ==>
           && m.value.lp == lp
           && if fromS then m.value.sxlm == s && IsFloor(m.value.xlm, lp * rX, total)
              else m.value.xlm == x && IsFloor(m.value.sxlm, lp * rS, total))
  {
    var byX, byS := TDiv(x * total, rX), TDiv(s * total, rS);
    MulPositive(x, total);
    MulPositive(s, total);
    LargestIs(rX, x * total, lp, byX);
    LargestIs(rS, s * total, lp, byS);
    MulMono(0, rX, lp);
    MulMono(0, rS, lp);
    PositiveShare(lp * rX, total);
    PositiveShare(lp * rS, total);
    hide TDiv, IsFloor;
  }

  lemma LargestIs(r: int, n: int, lp: int, most: int)
    requires r > 0 && n > 0 && most == TDiv(n, r) && lp * r <= n
    ensures lp <= most && (most == lp <==> (lp + 1) * r > n)
  {
    Floor(n, r);
    FloorGalois(n, r, lp);
    FloorGalois(n, r, lp + 1);
  }

  lemma PositiveShare(n: int, total: int)
    requires n >= 0 && total > 0
    ensures IsFloor(TDiv(n, total), n, total) && (TDiv(n, total) > 0 <==> n >= total)
  {
    TruncationIsFloor(n, total);
    FloorGalois(n, total, 1);
  }

  /** The first deposit: all of both offers, and as many shares as the root of their product, rounded down. */
  lemma FirstMintExactly(rX: int, rS: int, x: int, s: int, root: int)
    requires x > 0 && s > 0 && 0 <= root && root * root <= x * s && x * s < (root + 1) * (root + 1)
    ensures Mint(rX, rS, 0, x, s) == Some(Minted(x, s, root))
  {
    MulPositive(x, s);
    RootUnique(x * s, root, Root(x * s));
  }

  /** A withdrawal in numbers: it goes through exactly if both floored shares are positive. */
  lemma BurnExactly(rX: int, rS: int, total: int, lp: int)
    requires Sound(rX, rS, total) && total > 0
    ensures var b := Burn(rX, rS, total, lp);
      && (b.Some? <==> lp > 0 && lp * rX >= total && lp * rS >= total)
      && (b.Some? ==> IsFloor(b.value.0, lp * rX, total) && IsFloor(b.value.1, lp * rS, total))
  {
    if lp > 0 {
      MulPositive(lp, rX);
      MulPositive(lp, rS);
      PositiveShare(lp * rX, total);
      PositiveShare(lp * rS, total);
    }
    hide TDiv, IsFloor;
  }

  /** Shares are minted for the scarcer side of the offer, which is taken in full; one share more would exceed it. */
  lemma MintIsTheLargest(rX: int, rS: int, total: int, x: int, s: int)
    requires Sound(rX, rS, total) && total > 0
    requires Mint(rX, rS, total, x, s).Some?
    ensures var m := Mint(rX, rS, total, x, s).value;
      || (m.xlm == x && (m.lp + 1) * rX > x * total)
      || (m.sxlm == s && (m.lp + 1) * rS > s * total)
  {}

  /** `add_liquidity` takes no more than offered; the first mint is the root of the product. */
  lemma MintTakesAtMostOffered(rX: int, rS: int, total: int, x: int, s: int)
    requires Sound(rX, rS, total)
    requires Mint(rX, rS, total, x, s).Some?
    ensures var m := Mint(rX, rS, total, x, s).value;
      && 0 < m.xlm <= x && 0 < m.sxlm <= s && 0 < m.lp
      && Sound(rX + m.xlm, rS + m.sxlm, total + m.lp)
      && (total == 0 ==> m.lp * m.lp <= x * s < (m.lp + 1) * (m.lp + 1))
  {
    if total > 0 {
      MintShape(rX, rS, total, x, s);
    } else {
      assert x * s > 0;
    }
  }

  /** Redeeming `lp` of `total + lp` shares of `r + d` gives back no more than `d`. */
  lemma RedeemAtMost(r: int, total: int, d: int, lp: int)
    requires r >= 0 && total >= 0 && d > 0 && lp > 0
    requires lp * r < (d + 1) * total || (r == 0 && total == 0)
    ensures (lp * (r + d)) / (total + lp) <= d
  {
    var n := lp * (r + d);
    assert n == lp * r + lp * d;
    assert (d + 1) * (total + lp) == (d + 1) * total + d * lp + lp;
    assert lp * d == d * lp;
    assert n >= 0;
    FloorGalois(n, total + lp, d + 1);
  }

  /** Adding liquidity and burning exactly the minted shares returns at most the deposit, in both assets. */
  lemma AddThenRemove(rX: int, rS: int, total: int, x: int, s: int)
    requires Sound(rX, rS, total)
    requires Mint(rX, rS, total, x, s).Some?
    ensures var m := Mint(rX, rS, total, x, s).value;
      var b := Burn(rX + m.xlm, rS + m.sxlm, total + m.lp, m.lp);
      b.Some? ==> 0 < b.value.0 <= m.xlm && 0 < b.value.1 <= m.sxlm
  {
    var m := Mint(rX, rS, total, x, s).value;
    MintTakesAtMostOffered(rX, rS, total, x, s);
    if total > 0 {
      MintShape(rX, rS, total, x, s);
      OneSide(rX, total, x, m.xlm, m.lp);
      OneSide(rS, total, s, m.sxlm, m.lp);
    }
    RedeemAtMost(rX, total, m.xlm, m.lp);
    RedeemAtMost(rS, total, m.sxlm, m.lp);
    assert m.lp * (rX + m.xlm) > 0 && m.lp * (rS + m.sxlm) > 0;
  }

  lemma OneSide(r: int, total: int, offer: int, d: int, lp: int)
    requires r > 0 && total > 0 && lp > 0
    requires lp * r <= offer * total
    requires d == offer || d == (lp * r) / total
    ensures lp * r < (d + 1) * total
  {}

  /** A withdrawal pays the exact share of each reserve rounded down; it never lowers either reserve per remaining share,
      and never empties a pool that still has shares. */
  lemma BurnKeepsShareValue(rX: int, rS: int, total: int, lp: int)
    requires Sound(rX, rS, total) && lp <= total
    requires Burn(rX, rS, total, lp).Some?
    ensures var b := Burn(rX, rS, total, lp).value;
      && b.0 * total <= lp * rX < (b.0 + 1) * total
      && b.1 * total <= lp * rS < (b.1 + 1) * total
      && (rX - b.0) * total >= rX * (total - lp)
      && (rS - b.1) * total >= rS * (total - lp)
      && Sound(rX - b.0, rS - b.1, total - lp)
  {
    ShareOf(rX, total, lp);
    ShareOf(rS, total, lp);
  }

  lemma ShareOf(r: int, total: int, lp: int)
    requires r > 0 && 0 < lp <= total
    ensures TDiv(lp * r, total) == (lp * r) / total
    ensures ((lp * r) / total) * total <= lp * r < ((lp * r) / total + 1) * total
    ensures (r - (lp * r) / total) * total >= r * (total - lp)
    ensures (lp * r) / total <= r
    ensures (lp * r) / total == r <==> lp == total
  {
    var n, q := lp * r, (lp * r) / total;
    MulPositive(lp, r);
    Floor(n, total);
    MulSplits(q, 1, total);
    MulSplits(r, q, total);
    MulSplits(total, lp, r);
    MulSplits(r, 1, total);
    MulMono(lp, total, r);
    FloorGalois(n, total, r + 1);
    if lp < total {
      MulStrict(lp, total, r);
      FloorGalois(n, total, r);
    } else {
      FloorUnique(n, total, r);
    }
  }

  /** Nothing is traded for nothing: no swap without input or reserves, no deposit without both offers, no withdrawal without shares. */
  lemma NothingForNothing(rIn: int, rOut: int, total: int, x: int, s: int, minOut: int, feeBps: int, protocolBps: int)
    ensures x <= 0 || rIn <= 0 || rOut <= 0 ==> Swap(rIn, rOut, x, minOut, feeBps, protocolBps) == None
    ensures x <= 0 || s <= 0 ==> Mint(rIn, rOut, total, x, s) == None
    ensures total == 0 || (x <= 0 && Sound(rIn, rOut, total)) ==> Burn(rIn, rOut, total, x) == None
  {
    hide TDiv;
  }
}
