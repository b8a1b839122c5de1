/** Shared vocabulary: addresses, optional results, Rust's integer division, and finite sums over maps. */

module Base {
  datatype Address = Address(id: nat)

  /** `None` stands for the panic of the call that would have produced the value. */
  datatype Option<+T> = None | Some(value: T) {
    predicate IsFailure() { None? }
    function PropagateFailure<U>(): Option<U>
      requires None?
    {
      None
    }
    function Extract(): T
      requires Some?
    {
      value
    }
  }

  /** What a contract call did: it returned a value, or it panicked and was rolled back. */
  datatype Outcome<+T> = Panicked | Returned(value: T)

  /** The call behaved as specified: it panicked exactly on `None`, else it left the given state and returned the given value.
      What a panicking call wrote is discarded by the host, see each contract's `Transact`. */
  ghost predicate Did<S, T>(spec: Option<(S, T)>, after: S, r: Outcome<T>) {
    match spec
    case None => r == Panicked
    case Some(v) => r == Returned(v.1) && after == v.0
  }

  function Get<K>(m: map<K, int>, k: K): int {
    if k in m then m[k] else 0
  }

  lemma ConcatAssociates<T>(a: seq<T>, b: seq<T>, c: seq<T>)
    ensures (a + b) + c == a + (b + c)
  {}

  function Min(a: int, b: int): int { if a < b then a else b }

  function Max(a: int, b: int): int { if a < b then b else a }
}

module Arith {

  /** `a / b` on `i128`: truncation toward zero. */
  function TDiv(a: int, b: int): int
    requires b != 0
  {
    if a >= 0 then
      if b > 0 then a / b else -(a / -b)
    else
      if b > 0 then -((-a) / b) else (-a) / (-b)
  }

  /** On the operands that matter truncation is the floor. */
  lemma Floor(a: int, b: int)
    requires a >= 0 && b > 0
    ensures TDiv(a, b) == a / b
    ensures 0 <= a / b <= a
    ensures (a / b) * b <= a < (a / b) * b + b
  {
    var q, r := a / b, a % b;
    assert a == q * b + r;
    assert q >= 0 by { if q < 0 { MulMono(q, -1, b); } }
    MulMono(1, b, q);
  }

  /** `q` is `n / d` rounded down. */
  predicate IsFloor(q: int, n: int, d: int) { q * d <= n < q * d + d }

  lemma TruncationIsFloor(n: int, d: int)
    requires n >= 0 && d > 0
    ensures IsFloor(TDiv(n, d), n, d) && TDiv(n, d) >= 0
  {
    Floor(n, d);
  }

  lemma OneFloor(q: int, r: int, n: int, d: int)
    requires d > 0 && IsFloor(q, n, d) && IsFloor(r, n, d)
    ensures q == r
  {
    FloorUnique(n, d, q);
    FloorUnique(n, d, r);
  }

  lemma MulMono(a: int, b: int, c: int)
    requires a <= b && c >= 0
    ensures a * c <= b * c
    ensures c * a <= c * b
  {}

  lemma MulStrict(a: int, b: int, c: int)
    requires a < b && c > 0
    ensures a * c < b * c
  {}

  lemma MulSplits(a: int, b: int, c: int)
    ensures (a + b) * c == a * c + b * c && (a - b) * c == a * c - b * c
    ensures c * (a + b) == c * a + c * b && c * (a - b) == c * a - c * b
  {}

  lemma MulPositive(a: int, b: int)
    requires a > 0 && b > 0
    ensures a * b > 0
  {}

  /** The floor is the only integer between its bounds. */
  lemma FloorUnique(a: int, b: int, q: int)
    requires b > 0 && q * b <= a < q * b + b
    ensures a / b == q
  {
    var p, r := a / b, a % b;
    assert a == p * b + r;
    if p < q { MulMono(p + 1, q, b); }
    if q < p { MulMono(q + 1, p, b); }
  }

  /** `q <= floor(a/b)` exactly when `q*b <= a`. */
  lemma FloorGalois(a: int, b: int, q: int)
    requires a >= 0 && b > 0
    ensures q <= a / b <==> q * b <= a
  {
    Floor(a, b);
    if q <= a / b { MulMono(q, a / b, b); }
    else { MulMono(a / b + 1, q, b); }
  }

  lemma FloorMono(a: int, c: int, b: int)
    requires 0 <= a <= c && b > 0
    ensures a / b <= c / b
  {
    Floor(a, b);
    FloorGalois(c, b, a / b);
  }

  /** Splitting a numerator loses less than one unit. */
  lemma FloorSplit(a: int, c: int, b: int)
    requires a >= 0 && c >= 0 && b > 0
    ensures a / b + c / b <= (a + c) / b <= a / b + c / b + 1
  {
    Floor(a, b);
    Floor(c, b);
    var q := a / b + c / b;
    assert q * b == (a / b) * b + (c / b) * b;
    assert (q + 1) * b == q * b + b;
    if a + c < (q + 1) * b {
      FloorUnique(a + c, b, q);
    } else {
      FloorUnique(a + c, b, q + 1);
    }
  }
}

/** Runs whose operations carry the ledger they land in. */
module Clock {
  /** Ledgers never go back, starting from `now`. */
  ghost predicate Timed<T>(now: nat, ops: seq<(nat, T)>)
    decreases |ops|
  {
    ops == [] || (now <= ops[0].0 && Timed(ops[0].0, ops[1..]))
  }

  function Last<T>(now: nat, ops: seq<(nat, T)>): nat {
    if ops == [] then now else ops[|ops| - 1].0
  }
}

/** Finite sums over the values of a map, with the update law every ledger proof needs. */
module Sums {
  import opened Base

  ghost function Pick<K>(m: map<K, int>): (k: K)
    requires m != map[]
    ensures k in m
  {
    assert m.Keys == {} ==> m == map[];
    var k :| k in m.Keys; k
  }

  ghost function Sum<K>(m: map<K, int>): int
    decreases |m|
  {
    if m == map[] then 0
    else
      var k := Pick(m);
      Shrinks(m, k);
      m[k] + Sum(m - {k})
  }

  lemma Shrinks<K>(m: map<K, int>, k: K)
    requires k in m
    ensures |m - {k}| < |m|
  {}

  /** The sum does not depend on the order of summation. */
  lemma {:induction false} SumRemove<K>(m: map<K, int>, k: K)
    requires k in m
    ensures Sum(m) == m[k] + Sum(m - {k})
    decreases |m|
  {
    var p := Pick(m);
    if p != k {
      Shrinks(m, p);
      Shrinks(m, k);
      SumRemove(m - {p}, k);
      SumRemove(m - {k}, p);
      assert m - {p} - {k} == m - {k} - {p};
    }
  }

  lemma SumUpdate<K>(m: map<K, int>, k: K, v: int)
    ensures Sum(m[k := v]) == Sum(m) - Get(m, k) + v
  {
    var n := m[k := v];
    SumRemove(n, k);
    if k in m {
      SumRemove(m, k);
      assert n - {k} == m - {k};
    } else {
      assert n - {k} == m;
    }
  }

  /** Pointwise `a <= b + c*w` carries over to the sums. */
  lemma {:induction false} SumLinear<K>(a: map<K, int>, b: map<K, int>, c: int, w: map<K, int>)
    requires a.Keys == b.Keys == w.Keys
    requires forall k :: k in a ==> a[k] <= b[k] + c * w[k]
    ensures Sum(a) <= Sum(b) + c * Sum(w)
    decreases |a|
  {
    if a == map[] {
      assert b == map[] && w == map[];
    } else {
      var k := Pick(a);
      Shrinks(a, k);
      SumRemove(b, k);
      SumRemove(w, k);
      SumLinear(a - {k}, b - {k}, c, w - {k});
      assert c * (w[k] + Sum(w - {k})) == c * w[k] + c * Sum(w - {k});
    }
  }

  lemma {:induction false} SumNonneg<K>(m: map<K, int>)
    requires forall k :: k in m ==> 0 <= m[k]
    ensures 0 <= Sum(m)
    decreases |m|
  {
    if m != map[] {
      Shrinks(m, Pick(m));
      SumNonneg(m - {Pick(m)});
    }
  }

  lemma Negated(c: int, x: int)
    ensures -c * x == -(c * x)
  {}

  /** Pointwise `c*w <= b` carries over to the sums. */
  lemma SumScaled<K>(w: map<K, int>, b: map<K, int>, c: int)
    requires w.Keys == b.Keys
    requires forall k :: k in w ==> c * w[k] <= b[k]
    ensures c * Sum(w) <= Sum(b)
  {
    var zero := map k | k in w :: 0;
    AllZero(zero);
    var d := -c;
    forall k | k in w ensures zero[k] <= b[k] + d * w[k] { Negated(c, w[k]); }
    SumLinear(zero, b, d, w);
    Negated(c, Sum(w));
  }

  lemma {:induction false} AllZero<K>(m: map<K, int>)
    requires forall k :: k in m ==> m[k] == 0
    ensures Sum(m) == 0
    decreases |m|
  {
    if m != map[] {
      Shrinks(m, Pick(m));
      AllZero(m - {Pick(m)});
    }
  }

  /** One summand never exceeds a sum of non-negative numbers. */
  lemma SumMember<K>(m: map<K, int>, k: K)
    requires forall k' :: k' in m ==> 0 <= m[k']
    ensures 0 <= Get(m, k) <= Sum(m)
  {}
}

/** One token as one contract sees it: what the contract holds and what everyone else holds. */
module Purses {
  import opened Base
  import Sums

  datatype Purse = Purse(held: int, wallets: map<Address, int>)

  const EMPTY := Purse(0, map[])

  /** `transfer(user, contract, amount)`; `None` is the token contract's panic. */
  function PullIn(p: Purse, user: Address, amount: int): (r: Option<Purse>) {
    if amount < 0 || Get(p.wallets, user) < amount then None
    else Some(Purse(p.held + amount, p.wallets[user := Get(p.wallets, user) - amount]))
  }

  /** `transfer(contract, user, amount)`. */
  function PayOut(p: Purse, user: Address, amount: int): (r: Option<Purse>) {
    if amount < 0 || p.held < amount then None
    else Some(Purse(p.held - amount, p.wallets[user := Get(p.wallets, user) + amount]))
  }

  /** The contract paid `amount` to `user`, or received it from there if it is negative; nobody else's wallet moved. */
  ghost predicate Pays(p: Purse, q: Purse, user: Address, amount: int) {
    && q.held == p.held - amount
    && forall u :: Get(q.wallets, u) == Get(p.wallets, u) + if u == user then amount else 0
  }

  /** A transfer goes through exactly if the payer holds the amount, and moves it from payer to payee. */
  lemma TransfersPay(p: Purse, user: Address, amount: int)
    ensures PullIn(p, user, amount).Some? <==> 0 <= amount <= Get(p.wallets, user)
    ensures PullIn(p, user, amount).Some? ==> Pays(p, PullIn(p, user, amount).value, user, -amount)
    ensures PayOut(p, user, amount).Some? <==> 0 <= amount <= p.held
    ensures PayOut(p, user, amount).Some? ==> Pays(p, PayOut(p, user, amount).value, user, amount)
  {}

  /** The holding and the wallets of one of several tokens. */
  function PurseIn(tokens: map<Address, Purse>, token: Address): Purse {
    if token in tokens then tokens[token] else EMPTY
  }

  /** Such a payment in one token; no other token moved. */
  ghost predicate PaysIn(before: map<Address, Purse>, after: map<Address, Purse>, token: Address, user: Address, amount: int) {
    && Pays(PurseIn(before, token), PurseIn(after, token), user, amount)
    && forall t :: t != token ==> PurseIn(after, t) == PurseIn(before, t)
  }

  ghost function Supply(p: Purse): int { p.held + Sums.Sum(p.wallets) }

  /** Transfers move tokens; they create and destroy none. */
  lemma TransfersConserve(p: Purse, user: Address, amount: int)
    ensures PullIn(p, user, amount).Some? ==> Supply(PullIn(p, user, amount).value) == Supply(p)
    ensures PayOut(p, user, amount).Some? ==> Supply(PayOut(p, user, amount).value) == Supply(p)
  {
    Sums.SumUpdate(p.wallets, user, Get(p.wallets, user) - amount);
    Sums.SumUpdate(p.wallets, user, Get(p.wallets, user) + amount);
  }
}
