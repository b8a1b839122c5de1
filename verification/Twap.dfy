/** The time-weighted average price: the loop over observations against the integral of a step function. */
module Twap {
  import opened Base

  /** Times in milliseconds; prices as exact reals. */
  datatype Observation = Observation(at: real, price: real)

  // ---------- the price at a moment ----------

  /** The observation in force at `t`: the latest at or before it, the later entry among equals. */
  function Current(obs: seq<Observation>, t: real): Option<Observation> {
    if obs == [] then None
    else
      var n := |obs| - 1;
      var prev := Current(obs[..n], t);
      if obs[n].at <= t && (prev.None? || prev.value.at <= obs[n].at) then Some(obs[n]) else prev
  }

  /** The earliest observation, the earlier entry among equals. */
  function First(obs: seq<Observation>): Observation
    requires obs != []
  {
    var n := |obs| - 1;
    if n == 0 || obs[n].at < First(obs[..n]).at then obs[n] else First(obs[..n])
  }

  /** The step function: the price in force, the first price before any observation. Any order of observations will do. */
  function PriceAt(obs: seq<Observation>, t: real): real
    requires obs != []
  {
    match Current(obs, t) case Some(o) => o.price case None => First(obs).price
  }

  // ---------- sorting ----------

  predicate Sorted(s: seq<Observation>) {
    forall i, j :: 0 <= i < j < |s| ==> s[i].at <= s[j].at
  }

  /** Inserts behind everything that is not later: a stable step. */
  function Insert(s: seq<Observation>, o: Observation): seq<Observation> {
    if s == [] then [o]
    else
      var n := |s| - 1;
      if s[n].at <= o.at then s + [o] else Insert(s[..n], o) + [s[n]]
  }

  /** The stable sort by time. */
  function SortByTime(obs: seq<Observation>): seq<Observation> {
    if obs == [] then [] else Insert(SortByTime(obs[..|obs| - 1]), obs[|obs| - 1])
  }

  lemma LastApart(s: seq<Observation>)
    requires s != []
    ensures multiset(s) == multiset(s[..|s| - 1]) + multiset{s[|s| - 1]}
  {
    assert s == s[..|s| - 1] + [s[|s| - 1]];
  }

  lemma InsertUnfolds(s: seq<Observation>, o: Observation)
    requires s != []
    ensures var n := |s| - 1;
      Insert(s, o) == if s[n].at <= o.at then s + [o] else Insert(s[..n], o) + [s[n]]
  {}

  lemma {:induction false} InsertKeeps(s: seq<Observation>, o: Observation)
    ensures |Insert(s, o)| == |s| + 1 && multiset(Insert(s, o)) == multiset(s) + multiset{o}
    decreases |s|
  {
    if s != [] {
      InsertUnfolds(s, o);
      LastApart(s);
      hide Insert;
      InsertKeeps(s[..|s| - 1], o);
    }
  }

  /** What is inserted behind everything not later than it is bounded by what it was inserted into. */
  lemma {:induction false} InsertBelow(s: seq<Observation>, o: Observation, at: real)
    requires o.at <= at && forall i :: 0 <= i < |s| ==> s[i].at <= at
    ensures forall i :: 0 <= i < |Insert(s, o)| ==> Insert(s, o)[i].at <= at
    decreases |s|
  {
    if s != [] {
      InsertUnfolds(s, o);
      hide Insert;
      InsertBelow(s[..|s| - 1], o, at);
    }
  }

  lemma {:induction false} InsertSorts(s: seq<Observation>, o: Observation)
    requires Sorted(s)
    ensures Sorted(Insert(s, o))
    decreases |s|
  {
    if s != [] {
      InsertUnfolds(s, o);
      hide Insert;
      if s[|s| - 1].at > o.at {
        InsertSorts(s[..|s| - 1], o);
        InsertBelow(s[..|s| - 1], o, s[|s| - 1].at);
      }
    }
  }

  lemma SortUnfolds(obs: seq<Observation>)
    requires obs != []
    ensures SortByTime(obs) == Insert(SortByTime(obs[..|obs| - 1]), obs[|obs| - 1])
  {
    hide Insert;
  }

  lemma {:induction false} SortSorts(obs: seq<Observation>)
    ensures Sorted(SortByTime(obs)) && multiset(SortByTime(obs)) == multiset(obs) && |SortByTime(obs)| == |obs|
    decreases |obs|
  {
    if obs != [] {
      hide Insert, Sorted, SortByTime;
      var rest, last := obs[..|obs| - 1], obs[|obs| - 1];
      SortUnfolds(obs);
      LastApart(obs);
      SortSorts(rest);
      InsertSorts(SortByTime(rest), last);
      InsertKeeps(SortByTime(rest), last);
    } else {
      assert SortByTime(obs) == [];
      hide SortByTime;
    }
  }

  lemma CurrentAppend(s: seq<Observation>, o: Observation, t: real)
    ensures var prev := Current(s, t);
      Current(s + [o], t) == if o.at <= t && (prev.None? || prev.value.at <= o.at) then Some(o) else prev
  {}

  /** Inserting in place of appending does not change which observation is in force. */
  lemma {:induction false} InsertKeepsCurrent(s: seq<Observation>, o: Observation, t: real)
    requires Sorted(s)
    ensures Current(Insert(s, o), t) == Current(s + [o], t)
    decreases |s|
  {
    if s != [] {
      var n := |s| - 1;
      if s[n].at > o.at {
        InsertKeepsCurrent(s[..n], o, t);
        CurrentAppend(Insert(s[..n], o), s[n], t);
        CurrentAppend(s[..n], o, t);
        CurrentAppend(s, o, t);
        CurrentAppend(s[..n], s[n], t);
        assert s == s[..n] + [s[n]];
        CurrentIn(s[..n], t);
      }
    } else {
      assert s + [o] == [o];
    }
  }

  lemma {:induction false} CurrentIn(s: seq<Observation>, t: real)
    ensures Current(s, t).Some? ==> Current(s, t).value in s && Current(s, t).value.at <= t
    ensures Current(s, t).None? ==> forall o :: o in s ==> t < o.at
    ensures forall o :: o in s && o.at <= t ==> Current(s, t).Some? && o.at <= Current(s, t).value.at
    decreases |s|
  {
    if s != [] {
      CurrentIn(s[..|s| - 1], t);
      assert s == s[..|s| - 1] + [s[|s| - 1]];
    }
  }

  lemma FirstAppend(s: seq<Observation>, o: Observation)
    ensures First(s + [o]) == if s == [] || o.at < First(s).at then o else First(s)
  {}

  lemma {:induction false} FirstOfSorted(s: seq<Observation>)
    requires s != [] && Sorted(s)
    ensures First(s) == s[0]
    decreases |s|
  {
    if |s| > 1 {
      FirstOfSorted(s[..|s| - 1]);
    }
  }

  lemma {:induction false} InsertKeepsFirst(s: seq<Observation>, o: Observation)
    requires Sorted(s)
    ensures First(Insert(s, o)) == First(s + [o])
  {
    InsertSorts(s, o);
    FirstOfSorted(Insert(s, o));
    FirstAppend(s, o);
    if s != [] {
      FirstOfSorted(s);
      InsertHead(s, o);
    }
  }

  lemma {:induction false} InsertHead(s: seq<Observation>, o: Observation)
    requires s != [] && Sorted(s)
    ensures Insert(s, o)[0] == if o.at < s[0].at then o else s[0]
    decreases |s|
  {
    if |s| > 1 { InsertHead(s[..|s| - 1], o); }
  }

  lemma {:induction false} SortKeepsCurrent(obs: seq<Observation>, t: real)
    ensures Current(SortByTime(obs), t) == Current(obs, t)
    decreases |obs|
  {
    hide Sorted, Insert;
    if obs != [] {
      var n := |obs| - 1;
      SortKeepsCurrent(obs[..n], t);
      SortSorts(obs[..n]);
      InsertKeepsCurrent(SortByTime(obs[..n]), obs[n], t);
      CurrentAppend(SortByTime(obs[..n]), obs[n], t);
    }
  }

  lemma {:induction false} SortKeepsFirst(obs: seq<Observation>)
    requires obs != []
    ensures SortByTime(obs) != [] && First(SortByTime(obs)) == First(obs)
    decreases |obs|
  {
    hide Sorted, Insert;
    var n := |obs| - 1;
    SortSorts(obs);
    SortSorts(obs[..n]);
    if n > 0 { SortKeepsFirst(obs[..n]); }
    InsertKeepsFirst(SortByTime(obs[..n]), obs[n]);
    FirstAppend(SortByTime(obs[..n]), obs[n]);
  }

  /** Sorting keeps the step function, ties included. */
  lemma SortKeepsPrice(obs: seq<Observation>, t: real)
    requires obs != []
    ensures SortByTime(obs) != [] && PriceAt(SortByTime(obs), t) == PriceAt(obs, t)
  {
    SortKeepsFirst(obs);
    SortKeepsCurrent(obs, t);
    hide Current, First, SortByTime;
  }

  // ---------- the integral ----------

  function Area(p: real, a: real, b: real): real { p * (b - a) }

  lemma AreaSplit(p: real, a: real, b: real, c: real)
    ensures Area(p, a, b) + Area(p, b, c) == Area(p, a, c)
    ensures Area(p, a, a) == 0.0
  {}

  lemma AreaBetween(lo: real, p: real, hi: real, a: real, b: real)
    requires lo <= p <= hi && a <= b
    ensures Area(lo, a, b) <= Area(p, a, b) <= Area(hi, a, b)
  {}

  /** The integral of the step function of sorted observations over [a, b], taken apart from the last observation backwards. */
  function Integral(s: seq<Observation>, a: real, b: real): real
    requires s != [] && a <= b
    decreases |s|
  {
    var n := |s| - 1;
    if n == 0 || s[n].at <= a then Area(s[n].price, a, b)
    else if b <= s[n].at then Integral(s[..n], a, b)
    else Integral(s[..n], a, s[n].at) + Area(s[n].price, s[n].at, b)
  }

  lemma {:induction false} IntegralAdditive(s: seq<Observation>, a: real, b: real, c: real)
    requires s != [] && a <= b <= c
    ensures Integral(s, a, b) + Integral(s, b, c) == Integral(s, a, c)
    decreases |s|
  {
    hide Area;
    var n := |s| - 1;
    var at := s[n].at;
    if n == 0 || at <= a {
      AreaSplit(s[n].price, a, b, c);
    } else if c <= at {
      IntegralAdditive(s[..n], a, b, c);
      if b == at { IntegralEmpty(s, b); IntegralEmpty(s[..n], b); }
    } else if b <= at {
      IntegralAdditive(s[..n], a, b, at);
      if b == at { IntegralEmpty(s[..n], b); }
    } else {
      AreaSplit(s[n].price, at, b, c);
    }
  }

  lemma {:induction false} IntegralEmpty(s: seq<Observation>, a: real)
    requires s != []
    ensures Integral(s, a, a) == 0.0
    decreases |s|
  {
    var n := |s| - 1;
    if n > 0 && a < s[n].at { IntegralEmpty(s[..n], a); }
  }

  lemma PriceOfSorted(s: seq<Observation>, t: real)
    requires s != [] && Sorted(s)
    ensures var n := |s| - 1;
      PriceAt(s, t) == if n == 0 || s[n].at <= t then s[n].price else PriceAt(s[..n], t)
  {
    var n := |s| - 1;
    assert s == s[..n] + [s[n]];
    CurrentAppend(s[..n], s[n], t);
    CurrentIn(s[..n], t);
    if n > 0 {
      FirstOfSorted(s);
      FirstOfSorted(s[..n]);
    }
  }

  ghost predicate ConstantOn(s: seq<Observation>, a: real, b: real, p: real)
    requires s != []
  {
    forall t :: a <= t < b ==> PriceAt(s, t) == p
  }

  /** Where the price does not change, the integral is price times length. */
  lemma {:induction false} IntegralOfConstant(s: seq<Observation>, a: real, b: real, p: real)
    requires s != [] && Sorted(s) && a <= b && ConstantOn(s, a, b, p)
    ensures Integral(s, a, b) == Area(p, a, b)
    decreases |s|
  {
    hide Area, Sorted;
    var n := |s| - 1;
    AreaSplit(p, a, b, b);
    if a == b {
      IntegralEmpty(s, a);
    } else {
      PriceOfSorted(s, a);
      if n > 0 && a < s[n].at {
        var mid := if b <= s[n].at then b else s[n].at;
        EarlierConstant(s, a, mid, p);
        IntegralOfConstant(s[..n], a, mid, p);
        AreaSplit(p, a, mid, b);
        if s[n].at < b { PriceOfSorted(s, s[n].at); }
      }
    }
  }

  lemma EarlierConstant(s: seq<Observation>, a: real, b: real, p: real)
    requires |s| > 1 && Sorted(s) && b <= s[|s| - 1].at
    ensures Sorted(s[..|s| - 1])
    ensures ConstantOn(s, a, b, p) <==> ConstantOn(s[..|s| - 1], a, b, p)
  {
    var r := s[..|s| - 1];
    forall t | a <= t < b ensures PriceAt(s, t) == PriceAt(r, t) { PriceOfSorted(s, t); }
    if ConstantOn(s, a, b, p) {
      forall t | a <= t < b ensures PriceAt(r, t) == p { assert PriceAt(s, t) == p; }
    }
  }

  lemma LastConstant(s: seq<Observation>, a: real, b: real)
    requires s != [] && Sorted(s) && (|s| == 1 || s[|s| - 1].at <= a)
    ensures ConstantOn(s, a, b, s[|s| - 1].price)
  {
    forall t | a <= t < b ensures PriceAt(s, t) == s[|s| - 1].price { PriceOfSorted(s, t); }
    hide PriceAt;
  }

  /** What makes `f` an integral of the step function up to `end`: it is additive over adjacent intervals, and price times
      length on intervals of constant price. */
  ghost predicate IsIntegral(f: (real, real) -> real, s: seq<Observation>, end: real)
    requires s != []
  {
    && (forall a, b, c :: a <= b <= c <= end ==> f(a, b) + f(b, c) == f(a, c))
    && (forall a, b, p :: a <= b <= end && ConstantOn(s, a, b, p) ==> f(a, b) == Area(p, a, b))
  }

  /** There is only one such functional, the one defined above. */
  lemma {:induction false} IntegralIsTheOnlyOne(f: (real, real) -> real, s: seq<Observation>, end: real, a: real, b: real)
    requires s != [] && Sorted(s) && IsIntegral(f, s, end) && a <= b <= end
    ensures f(a, b) == Integral(s, a, b)
    decreases |s|
  {
    hide Area, Sorted, ConstantOn;
    var n := |s| - 1;
    if n == 0 || s[n].at <= a {
      LastConstant(s, a, b);
    } else {
      var mid := if b <= s[n].at then b else s[n].at;
      EarlierIntegral(f, s, end, mid);
      IntegralIsTheOnlyOne(f, s[..n], mid, a, mid);
      if s[n].at < b {
        LastConstant(s, mid, b);
        assert f(a, mid) + f(mid, b) == f(a, b);
      }
    }
  }

  lemma EarlierIntegral(f: (real, real) -> real, s: seq<Observation>, end: real, mid: real)
    requires |s| > 1 && Sorted(s) && IsIntegral(f, s, end) && mid <= end && mid <= s[|s| - 1].at
    ensures Sorted(s[..|s| - 1]) && IsIntegral(f, s[..|s| - 1], mid)
  {
    hide ConstantOn, Area;
    var r := s[..|s| - 1];
    forall a, b, p | a <= b <= mid && ConstantOn(r, a, b, p) ensures f(a, b) == Area(p, a, b) {
      EarlierConstant(s, a, b, p);
    }
  }

  /** The defined integral is one. */
  lemma IntegralIsOne(s: seq<Observation>, end: real)
    requires s != [] && Sorted(s)
    ensures IsIntegral((a: real, b: real) => if a <= b then Integral(s, a, b) else 0.0, s, end)
  {
    hide Area, ConstantOn, Integral;
    var f := (a: real, b: real) => if a <= b then Integral(s, a, b) else 0.0;
    forall a, b, c | a <= b <= c <= end ensures f(a, b) + f(b, c) == f(a, c) { IntegralAdditive(s, a, b, c); }
    forall a, b, p | a <= b <= end && ConstantOn(s, a, b, p) ensures f(a, b) == Area(p, a, b) { IntegralOfConstant(s, a, b, p); }
  }

  /** The integral of prices between `lo` and `hi` is between theirs. */
  lemma {:induction false} IntegralBounds(s: seq<Observation>, a: real, b: real, lo: real, hi: real)
    requires s != [] && a <= b && forall o :: o in s ==> lo <= o.price <= hi
    ensures Area(lo, a, b) <= Integral(s, a, b) <= Area(hi, a, b)
    decreases |s|
  {
    hide Area;
    var n := |s| - 1;
    assert s[n] in s;
    if n > 0 && a < s[n].at {
      var mid := if b <= s[n].at then b else s[n].at;
      IntegralBounds(s[..n], a, mid, lo, hi);
      AreaSplit(lo, a, mid, b);
      AreaSplit(hi, a, mid, b);
      AreaBetween(lo, s[n].price, hi, mid, b);
    } else {
      AreaBetween(lo, s[n].price, hi, a, b);
    }
  }

  // ---------- the loop ----------

  datatype Confidence = High | Medium | Low

  datatype Snapshot = Snapshot(spotPrice: real, twapPrice: real, deviationBps: real, sampleCount: nat, confidence: Confidence)

  datatype Answer = Answered(snapshot: Snapshot) | Refused(error: string)

  function Confident(samples: nat, windowSeconds: real): Confidence {
    if samples >= 5 && windowSeconds >= 900.0 then High else if samples >= 2 then Medium else Low
  }

  function Abs(x: real): (r: real)
    ensures 0.0 <= r && (r == x || r == -x)
  {
    if x < 0.0 then -x else x
  }

  /** Up to `now`, the running sum extended at the active price is the integral over the observations seen so far. */
  ghost predicate Extends(seen: seq<Observation>, start: real, now: real, weighted: real, activePrice: real, segmentStart: real) {
    && start <= segmentStart <= now && seen != []
    && forall x :: segmentStart <= x <= now ==> weighted + Area(activePrice, segmentStart, x) == Integral(seen, start, x)
  }

  lemma FirstSegment(seen: seq<Observation>, start: real, now: real, segmentEnd: real)
    requires seen != [] && (|seen| == 1 || seen[|seen| - 1].at <= start) && start <= segmentEnd <= now
    ensures Extends(seen, start, now, Area(seen[|seen| - 1].price, start, segmentEnd), seen[|seen| - 1].price, segmentEnd)
  {}

  lemma NextSegment(seen: seq<Observation>, o: Observation, start: real, now: real,
                    weighted: real, activePrice: real, segmentStart: real, segmentEnd: real)
    requires Extends(seen, start, now, weighted, activePrice, segmentStart)
    requires start < o.at && segmentStart <= segmentEnd && segmentEnd == if o.at <= now then o.at else now
    ensures Extends(seen + [o], start, now, weighted + Area(activePrice, segmentStart, segmentEnd), o.price, segmentEnd)
  {
    hide Area;
    assert (seen + [o])[..|seen|] == seen;
    var sum := weighted + Area(activePrice, segmentStart, segmentEnd);
    assert sum == Integral(seen, start, segmentEnd);
    forall x | segmentEnd <= x <= now ensures sum + Area(o.price, segmentEnd, x) == Integral(seen + [o], start, x) {
      AreaSplit(o.price, segmentEnd, segmentEnd, x);
    }
  }

  /** Integrates from `start` to `now`, beginning with the observation in force at `start`, or with the first. */
  method Weigh(sorted: seq<Observation>, anchor: nat, start: real, now: real) returns (weighted: real)
    requires Sorted(sorted) && anchor < |sorted| && start < now
    requires anchor > 0 ==> sorted[anchor].at < start
    ensures weighted == Integral(sorted, start, now)
  {
    hide Area, Extends, Integral;
    var segmentStart := start;
    var activePrice := sorted[anchor].price;
    weighted := 0.0;
    var i := anchor;
    while i < |sorted|
      invariant anchor <= i <= |sorted|
      invariant start <= segmentStart <= now
      invariant i == anchor ==> activePrice == sorted[anchor].price
      invariant i == anchor || sorted[i - 1].at <= start ==> segmentStart == start && weighted == 0.0
      invariant i > anchor ==> Extends(sorted[..i], start, now, weighted, activePrice, segmentStart)
      invariant i > anchor ==> segmentStart <= sorted[i - 1].at || segmentStart == start
    {
      var at := sorted[i].at;
      assert sorted[..i + 1] == sorted[..i] + [sorted[i]];
      ghost var seen := sorted[..i + 1];
      if at <= start {
        FirstSegment(seen, start, now, start);
        AreaSplit(sorted[i].price, start, start, start);
        activePrice := sorted[i].price;
      } else {
        var segmentEnd := if at <= now then at else now;
        if i == anchor {
          FirstSegment(seen, start, now, segmentEnd);
        } else {
          NextSegment(sorted[..i], sorted[i], start, now, weighted, activePrice, segmentStart, segmentEnd);
        }
        AreaSplit(activePrice, segmentStart, segmentEnd, segmentEnd);
        if segmentEnd > segmentStart {
          weighted := weighted + Area(activePrice, segmentStart, segmentEnd);
        }
        activePrice := sorted[i].price;
        segmentStart := segmentEnd;
      }
      i := i + 1;
    }
    assert sorted[..i] == sorted;
    Finish(sorted, start, now, weighted, activePrice, segmentStart);
    if now > segmentStart {
      weighted := weighted + Area(activePrice, segmentStart, now);
    }
  }

  lemma Finish(s: seq<Observation>, start: real, now: real, weighted: real, activePrice: real, segmentStart: real)
    requires Extends(s, start, now, weighted, activePrice, segmentStart)
    ensures weighted + Area(activePrice, segmentStart, now) == Integral(s, start, now)
    ensures segmentStart == now ==> weighted == Integral(s, start, now)
  {}

  /** The snapshot: the time-weighted average over the window, the last price, and how far they are apart. */
  method ComputeTwapPrice(observations: seq<Observation>, windowSeconds: real, now: real) returns (r: Answer)
    ensures windowSeconds <= 0.0 ==> r == Refused("windowSeconds must be positive")
    ensures windowSeconds > 0.0 && observations == [] ==> r == Refused("At least one observation is required")
    ensures windowSeconds > 0.0 && observations != [] ==>
      var s := SortByTime(observations);
      var start := now - windowSeconds * 1000.0;
      && |s| == |observations| && start <= now
      && r.Answered?
      && r.snapshot.twapPrice * (now - start) == Integral(s, start, now)
      && r.snapshot.spotPrice == s[|s| - 1].price
      && r.snapshot.deviationBps ==
           (if r.snapshot.twapPrice > 0.0
            then Abs((r.snapshot.spotPrice - r.snapshot.twapPrice) / r.snapshot.twapPrice) * 10_000.0 else 0.0)
      && r.snapshot.sampleCount == |observations|
      && (r.snapshot.confidence.High? <==> |observations| >= 5 && windowSeconds >= 900.0)
      && (r.snapshot.confidence.Low? <==> |observations| == 1)
  {
    hide Area, Integral, SortByTime, Abs;
    if windowSeconds <= 0.0 {
      return Refused("windowSeconds must be positive");
    }
    var sorted := SortByTime(observations);
    SortSorts(observations);
    if |sorted| == 0 {
      return Refused("At least one observation is required");
    }
    var windowStart := now - windowSeconds * 1000.0;
    var firstFuture := 0;
    while firstFuture < |sorted| && !(sorted[firstFuture].at >= windowStart)
      invariant 0 <= firstFuture <= |sorted|
      invariant forall k :: 0 <= k < firstFuture ==> sorted[k].at < windowStart
    {
      firstFuture := firstFuture + 1;
    }
    var anchor := if firstFuture == |sorted| || firstFuture == 0 then 0 else firstFuture - 1;
    var weighted := Weigh(sorted, anchor, windowStart, now);
    var twap := weighted / (windowSeconds * 1000.0);
    var spot := sorted[|sorted| - 1].price;
    var deviation := if twap > 0.0 then Abs((spot - twap) / twap) * 10_000.0 else 0.0;
    Unscale(weighted, windowSeconds * 1000.0);
    r := Answered(Snapshot(spot, twap, deviation, |sorted|, Confident(|sorted|, windowSeconds)));
  }

  lemma Unscale(x: real, w: real)
    requires w > 0.0
    ensures (x / w) * w == x
  {}

  // ---------- what the average means ----------

  /** Whatever order the observations come in, the average times the window is the integral of "the last observation at or
      before t": it equals every functional that is additive and right on constant stretches of that price. */
  lemma AverageIsTheIntegral(observations: seq<Observation>, start: real, now: real, f: (real, real) -> real)
    requires observations != [] && start <= now && IsIntegral(f, observations, now)
    ensures SortByTime(observations) != [] && f(start, now) == Integral(SortByTime(observations), start, now)
  {
    var s := SortByTime(observations);
    SortSorts(observations);
    hide Area, Integral, SortByTime, PriceAt, Sorted;
    forall a, b, p ensures ConstantOn(s, a, b, p) <==> ConstantOn(observations, a, b, p) {
      forall t { SortKeepsPrice(observations, t); }
    }
    IntegralIsTheOnlyOne(f, s, now, start, now);
  }

  /** The average lies between the lowest and the highest price observed. */
  lemma AverageBetweenPrices(observations: seq<Observation>, start: real, now: real, average: real, lo: real, hi: real)
    requires observations != [] && start < now && forall o :: o in observations ==> lo <= o.price <= hi
    requires SortByTime(observations) != [] && average * (now - start) == Integral(SortByTime(observations), start, now)
    ensures lo <= average <= hi
  {
    var s := SortByTime(observations);
    SortSorts(observations);
    forall o | o in s ensures lo <= o.price <= hi {
      assert o in multiset(s);
    }
    IntegralBounds(s, start, now, lo, hi);
    Divided(lo, average, hi, start, now);
    hide Area, Integral, SortByTime;
  }

  lemma Divided(lo: real, average: real, hi: real, start: real, now: real)
    requires start < now
    ensures Area(lo, start, now) <= average * (now - start) <= Area(hi, start, now) ==> lo <= average <= hi
  {}

  // ---------- the liquidity engine's variant ----------

  lemma SpanGrows(obs: seq<Observation>, i: nat)
    requires Sorted(obs) && 0 < i < |obs|
    ensures obs[0].at <= obs[i - 1].at <= obs[i].at
    ensures Integral(obs[..i + 1], obs[0].at, obs[i].at)
         == Integral(obs[..i], obs[0].at, obs[i - 1].at) + Area(obs[i - 1].price, obs[i - 1].at, obs[i].at)
  {
    hide Area;
    assert obs[..i + 1][..i] == obs[..i];
    IntegralAdditive(obs[..i], obs[0].at, obs[i - 1].at, obs[i].at);
    if obs[0].at == obs[i].at {
      IntegralEmpty(obs[..i + 1], obs[0].at);
      IntegralEmpty(obs[..i], obs[0].at);
      AreaSplit(obs[i - 1].price, obs[0].at, obs[0].at, obs[0].at);
    }
  }

  /** The stretch from the last observation but one to the last, or nothing if it does not run forward in time. */
  ghost function LastGap(obs: seq<Observation>): real
    requires |obs| >= 2
  {
    var n := |obs| - 1;
    if obs[n - 1].at < obs[n].at then obs[n].at - obs[n - 1].at else 0.0
  }

  /** The lengths of all forward stretches between neighbouring observations. */
  ghost function ForwardSpan(obs: seq<Observation>): real {
    if |obs| < 2 then 0.0 else ForwardSpan(obs[..|obs| - 1]) + LastGap(obs)
  }

  /** The same stretches, each times the price it starts with. */
  ghost function ForwardArea(obs: seq<Observation>): real {
    if |obs| < 2 then 0.0 else ForwardArea(obs[..|obs| - 1]) + Area(obs[|obs| - 2].price, 0.0, LastGap(obs))
  }

  /** Observations out of order are counted over more time than they span: the forward stretches add up to the span
      if and only if the observations are in order, and to more otherwise. */
  lemma {:induction false} SpanIffSorted(obs: seq<Observation>)
    requires obs != []
    ensures 0.0 <= ForwardSpan(obs) && obs[|obs| - 1].at - obs[0].at <= ForwardSpan(obs)
    ensures ForwardSpan(obs) == obs[|obs| - 1].at - obs[0].at <==> Sorted(obs)
    decreases |obs|
  {
    var n := |obs| - 1;
    if n > 0 {
      SpanIffSorted(obs[..n]);
      assert obs[..n][0] == obs[0] && obs[..n][n - 1] == obs[n - 1];
      if Sorted(obs) { assert Sorted(obs[..n]) && obs[n - 1].at <= obs[n].at; }
      if Sorted(obs[..n]) && obs[n - 1].at <= obs[n].at {
        forall i, j | 0 <= i < j < |obs| ensures obs[i].at <= obs[j].at {
          assert obs[..n][i] == obs[i] && (j < n ==> obs[..n][j] == obs[j]) && (i < n - 1 ==> obs[..n][i].at <= obs[..n][n - 1].at);
        }
      }
    }
  }

  /** In order, the forward stretches are the integral over the whole span. */
  lemma {:induction false} ForwardIsIntegral(obs: seq<Observation>)
    requires obs != [] && Sorted(obs)
    ensures ForwardArea(obs) == Integral(obs, obs[0].at, obs[|obs| - 1].at)
    decreases |obs|
  {
    var n := |obs| - 1;
    if n == 0 {
      IntegralEmpty(obs, obs[0].at);
    } else {
      assert Sorted(obs[..n]) && obs[n - 1].at <= obs[n].at;
      hide Integral, Sorted, Area, ForwardArea;
      ForwardIsIntegral(obs[..n]);
      SpanGrows(obs, n);
      assert obs[..n + 1] == obs && obs[..n][0] == obs[0] && obs[..n][n - 1] == obs[n - 1];
      ForwardStep(obs);
      AreaShift(obs[n - 1].price, obs[n - 1].at, obs[n].at);
    }
  }

  lemma AreaShift(p: real, a: real, b: real)
    ensures Area(p, a, b) == Area(p, 0.0, b - a)
  {}

  lemma AreaJoin(p: real, span: real, gap: real)
    ensures Area(p, 0.0, span + gap) == Area(p, 0.0, span) + Area(p, 0.0, gap)
  {}

  lemma ForwardStep(obs: seq<Observation>)
    requires |obs| >= 2
    ensures LastGap(obs) >= 0.0
    ensures ForwardSpan(obs) == ForwardSpan(obs[..|obs| - 1]) + LastGap(obs)
    ensures ForwardArea(obs) == ForwardArea(obs[..|obs| - 1]) + Area(obs[|obs| - 2].price, 0.0, LastGap(obs))
  {
    hide Area;
  }

  /** In any order, the forward stretches carry prices between the lowest and the highest. */
  lemma {:induction false} ForwardBounds(obs: seq<Observation>, lo: real, hi: real)
    requires forall o :: o in obs ==> lo <= o.price <= hi
    ensures Area(lo, 0.0, ForwardSpan(obs)) <= ForwardArea(obs) <= Area(hi, 0.0, ForwardSpan(obs))
    decreases |obs|
  {
    if |obs| < 2 {
      assert ForwardSpan(obs) == ForwardArea(obs) == 0.0;
    } else {
      hide Area, ForwardSpan, ForwardArea, LastGap;
      var n := |obs| - 1;
      ForwardBounds(obs[..n], lo, hi);
      ForwardStep(obs);
      assert obs[n - 1] in obs;
      AreaBetween(lo, obs[n - 1].price, hi, 0.0, LastGap(obs));
      AreaJoin(lo, ForwardSpan(obs[..n]), LastGap(obs));
      AreaJoin(hi, ForwardSpan(obs[..n]), LastGap(obs));
    }
  }

  /** The engine's average, whatever the order of the observations, lies between the lowest and the highest price. */
  lemma EngineBetweenPrices(obs: seq<Observation>, twapPrice: real, lo: real, hi: real)
    requires ForwardSpan(obs) > 0.0 && Area(twapPrice, 0.0, ForwardSpan(obs)) == ForwardArea(obs)
    requires forall o :: o in obs ==> lo <= o.price <= hi
    ensures lo <= twapPrice <= hi
  {
    ForwardBounds(obs, lo, hi);
    hide ForwardSpan, ForwardArea;
    assert Area(twapPrice, 0.0, ForwardSpan(obs)) == twapPrice * (ForwardSpan(obs) - 0.0);
    hide Area;
    Divided(lo, twapPrice, hi, 0.0, ForwardSpan(obs));
  }

  /** The newest price never counts, for however long it has been in force. */
  lemma NewestPriceIsUncounted(obs: seq<Observation>, price: real)
    requires |obs| >= 2
    ensures var n := |obs| - 1;
      var other := obs[n := obs[n].(price := price)];
      ForwardSpan(other) == ForwardSpan(obs) && ForwardArea(other) == ForwardArea(obs)
  {
    var n := |obs| - 1;
    assert obs[n := obs[n].(price := price)][..n] == obs[..n];
  }

  // ---------- when the engine's average is the average over a window ----------

  /** `x` is what the engine answers for observations in order that span some time: see `EngineTwapPrice`. */
  ghost predicate EngineAverage(obs: seq<Observation>, x: real) {
    && obs != [] && Sorted(obs) && obs[0].at < obs[|obs| - 1].at
    && Area(x, obs[0].at, obs[|obs| - 1].at) == Integral(obs, obs[0].at, obs[|obs| - 1].at)
  }

  /** `x` is the average price over a window. */
  ghost predicate WindowAverage(obs: seq<Observation>, start: real, now: real, x: real) {
    obs != [] && start < now && Area(x, start, now) == Integral(obs, start, now)
  }

  /** How far the step function exceeds the constant `x` over a stretch, negated for a stretch that runs backwards. */
  ghost function Surplus(obs: seq<Observation>, x: real, a: real, b: real): real
    requires obs != []
  {
    if a <= b then Integral(obs, a, b) - Area(x, a, b) else Area(x, b, a) - Integral(obs, b, a)
  }

  lemma SurplusAdds(obs: seq<Observation>, x: real, a: real, b: real, c: real)
    requires obs != []
    ensures Surplus(obs, x, a, b) + Surplus(obs, x, b, c) == Surplus(obs, x, a, c)
  {
    var lo, hi := if a <= b then a else b, if a <= b then b else a;
    hide Area, Integral;
    AreaSplit(x, lo, hi, c);
    AreaSplit(x, lo, c, hi);
    AreaSplit(x, c, lo, hi);
    if hi <= c { IntegralAdditive(obs, lo, hi, c); }
    else if lo <= c { IntegralAdditive(obs, lo, c, hi); }
    else { IntegralAdditive(obs, c, lo, hi); }
  }

  lemma SurplusDetermines(obs: seq<Observation>, x: real, y: real, a: real, b: real)
    requires obs != [] && a < b && Area(y, a, b) == Integral(obs, a, b)
    ensures Surplus(obs, x, a, b) == 0.0 <==> x == y
  {
    hide Integral;
    if Area(x, a, b) == Area(y, a, b) { AreaDetermines(x, y, a, b); }
    hide Area;
  }

  lemma AreaDetermines(p: real, q: real, a: real, b: real)
    requires a < b && Area(p, a, b) == Area(q, a, b)
    ensures p == q
  {}

  /** Whatever the window, before, inside or beyond the observations: the engine's average is the window's if and only if what
      it counts before the window outweighs it by exactly as much as what it leaves out behind the newest observation. */
  lemma EngineIsWindowIff(obs: seq<Observation>, start: real, now: real, engine: real, window: real)
    requires EngineAverage(obs, engine) && WindowAverage(obs, start, now, window)
    ensures engine == window <==> Surplus(obs, window, obs[0].at, start) == Surplus(obs, window, obs[|obs| - 1].at, now)
  {
    var first, last := obs[0].at, obs[|obs| - 1].at;
    hide Sorted, Surplus, Integral, Area;
    SurplusDetermines(obs, window, engine, first, last);
    SurplusDetermines(obs, window, window, start, now);
    SurplusAdds(obs, window, first, start, now);
    SurplusAdds(obs, window, first, last, now);
  }

  /** A surplus over a stretch of one price vanishes if and only if the stretch does or that price is the constant. */
  lemma SurplusOfConstant(obs: seq<Observation>, x: real, a: real, b: real, p: real)
    requires obs != [] && Sorted(obs) && a <= b && ConstantOn(obs, a, b, p)
    ensures Surplus(obs, x, a, b) == 0.0 <==> a == b || x == p
  {
    IntegralOfConstant(obs, a, b, p);
    AreaSplit(x, a, b, b);
    AreaSplit(p, a, b, b);
    hide Integral, ConstantOn, Sorted;
    if a < b && Area(x, a, b) == Area(p, a, b) { AreaDetermines(x, p, a, b); }
    hide Area;
  }

  /** When time has passed since the newest observation: over the window from the oldest one to now, the engine is right
      if and only if the newest price is its average already. */
  lemma WholeHistoryIff(obs: seq<Observation>, now: real, engine: real, window: real)
    requires EngineAverage(obs, engine) && obs[|obs| - 1].at < now && WindowAverage(obs, obs[0].at, now, window)
    ensures engine == window <==> engine == obs[|obs| - 1].price
  {
    var first, last := obs[0].at, obs[|obs| - 1].at;
    LastConstant(obs, last, now);
    SurplusOfConstant(obs, engine, last, now, obs[|obs| - 1].price);
    hide Sorted, Surplus, Integral, Area, ConstantOn;
    SurplusDetermines(obs, engine, engine, first, last);
    SurplusDetermines(obs, engine, window, first, now);
    SurplusAdds(obs, engine, first, last, now);
  }

  /** As the service calls it, the newest observation is at `now` and the rows older than the window are an anchor, here of any
      length: the engine is right if and only if the stretch before the window has the window's average. */
  lemma AnchoredIff(obs: seq<Observation>, start: real, engine: real, window: real)
    requires EngineAverage(obs, engine) && WindowAverage(obs, start, obs[|obs| - 1].at, window)
    ensures engine == window <==> Surplus(obs, window, obs[0].at, start) == 0.0
  {
    var last := obs[|obs| - 1].at;
    EngineIsWindowIff(obs, start, last, engine, window);
    SurplusAdds(obs, window, last, last, last);
    hide Sorted, Surplus, Integral, Area;
  }

  /** With one anchor row, as that query returns it, the engine is right if and only if the anchor's price is the window's
      average; it is counted from its own time on instead of from the start of the window. */
  lemma OneAnchorIff(obs: seq<Observation>, start: real, engine: real, window: real)
    requires EngineAverage(obs, engine) && WindowAverage(obs, start, obs[|obs| - 1].at, window)
    requires |obs| > 1 && obs[0].at < start <= obs[1].at
    ensures engine == window <==> window == obs[0].price
  {
    AnchoredIff(obs, start, engine, window);
    FirstStretch(obs, obs[0].at, start);
    SurplusOfConstant(obs, window, obs[0].at, start, obs[0].price);
    hide Sorted, Surplus, Integral, Area, ConstantOn;
  }

  /** Without an anchor row nothing older than the window is counted, and the engine only leaves out the time before the first
      observation, in which that price is taken to hold. */
  lemma NoAnchorIff(obs: seq<Observation>, start: real, engine: real, window: real)
    requires EngineAverage(obs, engine) && WindowAverage(obs, start, obs[|obs| - 1].at, window)
    requires start <= obs[0].at
    ensures engine == window <==> start == obs[0].at || window == obs[0].price
  {
    AnchoredIff(obs, start, engine, window);
    FirstStretch(obs, start, obs[0].at);
    SurplusOfConstant(obs, window, start, obs[0].at, obs[0].price);
    hide Sorted, Integral, Area, ConstantOn;
  }

  /** Up to the second observation the first price is in force. */
  lemma {:induction false} FirstStretch(s: seq<Observation>, a: real, b: real)
    requires s != [] && Sorted(s) && (|s| > 1 ==> b <= s[1].at || b <= s[0].at)
    ensures ConstantOn(s, a, b, s[0].price)
    decreases |s|
  {
    var n := |s| - 1;
    if n == 0 {
      LastConstant(s, a, b);
    } else {
      assert s[1].at <= s[n].at && s[0].at <= s[1].at;
      assert Sorted(s[..n]) && s[..n][0] == s[0] && (n > 1 ==> s[..n][1] == s[1]);
      FirstStretch(s[..n], a, b);
      EarlierConstant(s, a, b, s[0].price);
    }
  }

  /** One price is in force at all times up to `now`. */
  ghost predicate OnePrice(obs: seq<Observation>, now: real, p: real)
    requires obs != []
  {
    forall t :: t < now ==> PriceAt(obs, t) == p
  }

  /** The engine is right about every window that ends now. */
  ghost predicate RightForEveryWindow(obs: seq<Observation>, now: real, engine: real)
    requires obs != []
  {
    forall start :: start < now ==> Area(engine, start, now) == Integral(obs, start, now)
  }

  /** The window may be ignored altogether if and only if one price has been in force throughout. */
  lemma EveryWindowIff(obs: seq<Observation>, now: real, engine: real)
    requires EngineAverage(obs, engine) && obs[|obs| - 1].at <= now
    ensures RightForEveryWindow(obs, now, engine) <==> exists p :: OnePrice(obs, now, p)
  {
    var first, last := obs[0].at, obs[|obs| - 1].at;
    hide Sorted, Area, Integral, PriceAt;
    if RightForEveryWindow(obs, now, engine) {
      forall t | t < now ensures PriceAt(obs, t) == engine { PriceIsEngine(obs, now, engine, t); }
      assert OnePrice(obs, now, engine);
    }
    if p :| OnePrice(obs, now, p) {
      assert ConstantOn(obs, first, last, p);
      IntegralOfConstant(obs, first, last, p);
      AreaDetermines(engine, p, first, last);
      forall start | start < now ensures Area(engine, start, now) == Integral(obs, start, now) {
        assert ConstantOn(obs, start, now, p);
        IntegralOfConstant(obs, start, now, p);
      }
    }
  }

  lemma PriceIsEngine(obs: seq<Observation>, now: real, engine: real, t: real)
    requires obs != [] && Sorted(obs) && t < now && RightForEveryWindow(obs, now, engine)
    ensures PriceAt(obs, t) == engine
  {
    hide Sorted, Area, Integral, PriceAt;
    var b := NextChange(obs, t, now);
    var p := PriceAt(obs, t);
    IntegralOfConstant(obs, t, b, p);
    assert Area(engine, t, now) == Integral(obs, t, now);
    IntegralAdditive(obs, t, b, now);
    AreaSplit(engine, t, b, now);
    if b < now {
      assert Area(engine, b, now) == Integral(obs, b, now);
    } else {
      IntegralEmpty(obs, now);
      AreaSplit(engine, t, now, now);
    }
    AreaDetermines(engine, p, t, b);
  }

  /** A moment after `t` up to which the price stays what it is at `t`. */
  lemma {:induction false} NextChange(s: seq<Observation>, t: real, now: real) returns (b: real)
    requires s != [] && Sorted(s) && t < now
    ensures t < b <= now && ConstantOn(s, t, b, PriceAt(s, t))
    decreases |s|
  {
    hide PriceAt;
    var n := |s| - 1;
    PriceOfSorted(s, t);
    if n == 0 || s[n].at <= t {
      b := now;
      LastConstant(s, t, b);
    } else {
      b := NextChange(s[..n], t, if now <= s[n].at then now else s[n].at);
      EarlierConstant(s, t, b, PriceAt(s, t));
    }
  }

  /** Observations that span no time: the engine answers the newest price, which is the window's average if and only if the window
      starts no earlier than they do, or they opened at that price. */
  lemma OneMomentIff(obs: seq<Observation>, start: real, now: real, window: real)
    requires obs != [] && Sorted(obs) && obs[0].at == obs[|obs| - 1].at <= now && WindowAverage(obs, start, now, window)
    ensures var newest := obs[|obs| - 1].price;
      window == newest <==> obs[0].at <= start || obs[0].price == newest
  {
    var at, newest := obs[0].at, obs[|obs| - 1].price;
    SurplusDetermines(obs, newest, window, start, now);
    if at <= start {
      LastConstant(obs, start, now);
      SurplusOfConstant(obs, newest, start, now, newest);
    } else {
      FirstStretch(obs, start, at);
      SurplusOfConstant(obs, newest, start, at, obs[0].price);
      LastConstant(obs, at, now);
      SurplusOfConstant(obs, newest, at, now, newest);
      SurplusAdds(obs, newest, start, at, now);
    }
    hide Sorted, Surplus, Integral, Area, ConstantOn;
  }

  /** The service's shape: an anchor row at price 1 ten seconds before the window, price 3 from its start on. The window's average
      is 3, the engine's is 2. */
  lemma AnchorIsOvercounted()
    ensures var obs := [Observation(0.0, 1.0), Observation(10_000.0, 3.0), Observation(20_000.0, 3.0)];
      EngineAverage(obs, 2.0) && WindowAverage(obs, 10_000.0, 20_000.0, 3.0)
  {
    var obs := [Observation(0.0, 1.0), Observation(10_000.0, 3.0), Observation(20_000.0, 3.0)];
    assert obs[..2] == [obs[0], obs[1]] && [obs[0], obs[1]][..1] == [obs[0]];
    assert Integral([obs[0]], 0.0, 10_000.0) == 10_000.0;
    assert Integral([obs[0], obs[1]], 0.0, 20_000.0) == 40_000.0;
    assert Integral([obs[0], obs[1]], 10_000.0, 20_000.0) == 30_000.0;
  }

  /** The smallest failure of the other kind: of two observations the newer is not counted, however long ago it was. */
  lemma WindowMatters(older: Observation, newer: Observation, now: real, engine: real, window: real)
    requires older.at < newer.at < now
    requires EngineAverage([older, newer], engine) && WindowAverage([older, newer], newer.at, now, window)
    ensures engine == older.price && window == newer.price && (engine == window <==> older.price == newer.price)
  {
    var obs := [older, newer];
    assert Sorted(obs);
    FirstStretch(obs, older.at, newer.at);
    SurplusDetermines(obs, older.price, engine, older.at, newer.at);
    SurplusOfConstant(obs, older.price, older.at, newer.at, older.price);
    LastConstant(obs, newer.at, now);
    SurplusDetermines(obs, newer.price, window, newer.at, now);
    SurplusOfConstant(obs, newer.price, newer.at, now, newer.price);
    hide Sorted, Surplus, Integral, Area, ConstantOn;
  }

  /** One turn of the engine's loop, in seconds. */
  lemma LoopTurn(obs: seq<Observation>, weightedSum: real, totalWeight: real)
    requires |obs| >= 2
    requires totalWeight * 1000.0 == ForwardSpan(obs[..|obs| - 1]) && weightedSum * 1000.0 == ForwardArea(obs[..|obs| - 1])
    ensures var n := |obs| - 1;
      var seconds := (obs[n].at - obs[n - 1].at) / 1000.0;
      && (seconds > 0.0 ==>
           && (totalWeight + seconds) * 1000.0 == ForwardSpan(obs)
           && (weightedSum + Area(obs[n - 1].price, 0.0, seconds)) * 1000.0 == ForwardArea(obs))
      && (seconds <= 0.0 ==> totalWeight * 1000.0 == ForwardSpan(obs) && weightedSum * 1000.0 == ForwardArea(obs))
  {
    var n := |obs| - 1;
    var p, gap := obs[n - 1].price, obs[n].at - obs[n - 1].at;
    ForwardStep(obs);
    AreaInSeconds(p, gap);
    hide ForwardSpan, ForwardArea, Area;
  }

  lemma AreaInSeconds(p: real, gap: real)
    ensures Area(p, 0.0, gap / 1000.0) * 1000.0 == Area(p, 0.0, gap)
    ensures Area(p, 0.0, 0.0) == 0.0
  {}

  lemma Averaged(weightedSum: real, totalWeight: real, area: real, span: real)
    requires totalWeight > 0.0 && totalWeight * 1000.0 == span && weightedSum * 1000.0 == area
    ensures span > 0.0 && Area(weightedSum / totalWeight, 0.0, span) == area
  {
    Unscale(weightedSum, totalWeight);
    var q := weightedSum / totalWeight;
    assert q * (totalWeight * 1000.0) == (q * totalWeight) * 1000.0;
  }

  /** The other average takes no account of the window. It is the average over the forward stretches, whatever the order of
      the observations; in order, that is the same integral, but over the whole span from the first to the last of them. */
  method EngineTwapPrice(obs: seq<Observation>) returns (twapPrice: real, spotPrice: real)
    ensures spotPrice == if obs == [] then 1.0 else obs[|obs| - 1].price
    ensures ForwardSpan(obs) == 0.0 ==> twapPrice == spotPrice
    ensures ForwardSpan(obs) != 0.0 ==> Area(twapPrice, 0.0, ForwardSpan(obs)) == ForwardArea(obs)
    ensures obs != [] && Sorted(obs) ==>
      var first, last := obs[0].at, obs[|obs| - 1].at;
      first <= last && if first == last then twapPrice == spotPrice else Area(twapPrice, first, last) == Integral(obs, first, last)
  {
    spotPrice := if |obs| > 0 then obs[|obs| - 1].price else 1.0;
    if obs != [] { SpanIffSorted(obs); }
    if obs != [] && Sorted(obs) {
      ForwardIsIntegral(obs);
      assert ForwardSpan(obs) == obs[|obs| - 1].at - obs[0].at;
    }
    if |obs| < 2 {
      return spotPrice, spotPrice;
    }
    var weightedSum, totalWeight := 0.0, 0.0;
    var i := 1;
    assert ForwardSpan(obs[..i]) == ForwardArea(obs[..i]) == 0.0;
    hide Integral, Sorted, ForwardSpan, ForwardArea, Area;
    while i < |obs|
      invariant 1 <= i <= |obs|
      invariant 0.0 <= totalWeight && totalWeight * 1000.0 == ForwardSpan(obs[..i])
      invariant weightedSum * 1000.0 == ForwardArea(obs[..i])
    {
      assert obs[..i + 1][..i] == obs[..i];
      LoopTurn(obs[..i + 1], weightedSum, totalWeight);
      var deltaSeconds := (obs[i].at - obs[i - 1].at) / 1000.0;
      if deltaSeconds > 0.0 {
        weightedSum := weightedSum + Area(obs[i - 1].price, 0.0, deltaSeconds);
        totalWeight := totalWeight + deltaSeconds;
      }
      i := i + 1;
    }
    assert obs[..i] == obs;
    twapPrice := if totalWeight > 0.0 then weightedSum / totalWeight else spotPrice;
    assert ForwardSpan(obs) > 0.0 <==> totalWeight > 0.0;
    if totalWeight > 0.0 {
      Averaged(weightedSum, totalWeight, ForwardArea(obs), ForwardSpan(obs));
      if Sorted(obs) { AreaShift(twapPrice, obs[0].at, obs[|obs| - 1].at); }
    }
  }
}
