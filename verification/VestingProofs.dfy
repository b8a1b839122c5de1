/** Whole-run properties of vesting: what is released when, custody of every token, and total payouts. */
module VestingProofs {
  import opened Base
  import opened Arith
  import opened Clock
  import opened Sums
  import opened Purses
  import opened VestingSpec

  ghost predicate Proper(c: Schedule) {
    0 < c.total && c.start <= c.cliff < c.end
  }

  // ---------- the vesting curve ----------

  /** Between cliff and end the vested amount is the exact linear share, rounded down. */
  lemma VestedIsTheFloor(c: Schedule, ledger: nat, q: int)
    requires Proper(c) && c.cliff <= ledger < c.end
    ensures q <= Vested(c, ledger) <==> q * (c.end - c.start) <= c.total * (ledger - c.start)
  {
    MulMono(0, ledger - c.start, c.total);
    Floor(c.total * (ledger - c.start), c.end - c.start);
    FloorGalois(c.total * (ledger - c.start), c.end - c.start, q);
  }

  lemma VestedBounds(c: Schedule, ledger: nat)
    requires Proper(c)
    ensures 0 <= Vested(c, ledger) <= c.total
  {
    if c.cliff <= ledger < c.end {
      ShareBounds(c.total, ledger - c.start, c.end - c.start);
    }
  }

  lemma ShareBounds(total: int, elapsed: int, duration: int)
    requires 0 < total && 0 <= elapsed < duration
    ensures 0 <= TDiv(total * elapsed, duration) <= total
  {}

  /** Nothing ever un-vests. */
  lemma VestedMono(c: Schedule, earlier: nat, later: nat)
    requires Proper(c) && earlier <= later
    ensures Vested(c, earlier) <= Vested(c, later)
  {
    VestedBounds(c, earlier);
    VestedBounds(c, later);
    if c.cliff <= earlier && later < c.end {
      var v := Vested(c, earlier);
      VestedIsTheFloor(c, earlier, v);
      VestedIsTheFloor(c, later, v);
      MulMono(earlier - c.start, later - c.start, c.total);
    }
  }

  // ---------- one schedule ----------

  /** What the schedule may pay its beneficiary in total. */
  function Ceiling(c: Schedule): int {
    if c.revoked then c.vestedAtRevoke else c.total
  }

  ghost predicate ScheduleOk(c: Schedule, now: nat) {
    && Proper(c)
    && 0 <= c.claimed <= Effective(c, now)
    && (c.revoked ==> 0 <= c.vestedAtRevoke <= c.total)
  }

  lemma EffectiveBelowCeiling(c: Schedule, now: nat)
    requires ScheduleOk(c, now)
    ensures 0 <= c.claimed <= Effective(c, now) <= Ceiling(c) <= c.total
  {
    VestedBounds(c, now);
  }

  lemma ScheduleLater(c: Schedule, now: nat, later: nat)
    requires ScheduleOk(c, now) && now <= later
    ensures ScheduleOk(c, later) && Effective(c, now) <= Effective(c, later)
  {
    VestedMono(c, now, later);
  }

  // ---------- custody ----------

  /** What the contract still owes in `token`, per schedule. */
  function Dues(v: Vesting, token: Address): map<nat, int> {
    map id | id in v.schedules :: if v.schedules[id].token == token then Ceiling(v.schedules[id]) - v.schedules[id].claimed else 0
  }

  function Held(v: Vesting, token: Address): int { TokenPurse(v, token).held }

  /** Tokens held beyond what all schedules together can still pay out. */
  ghost function Surplus(v: Vesting, token: Address): int {
    Held(v, token) - Sum(Dues(v, token))
  }

  ghost predicate Sound(v: Vesting, now: nat) {
    && (forall id :: id in v.schedules ==> id < v.count && v.schedules[id].id == id)
    && (forall id :: id in v.schedules ==> ScheduleOk(v.schedules[id], now))
  }

  /** One schedule was written: the dues change by the difference of its own due. */
  lemma DuesWrite(v: Vesting, t: Vesting, id: nat, c: Schedule, token: Address)
    requires t.schedules == v.schedules[id := c]
    ensures Sum(Dues(t, token)) == Sum(Dues(v, token)) - Get(Dues(v, token), id)
                                   + (if c.token == token then Ceiling(c) - c.claimed else 0)
  {
    var due := if c.token == token then Ceiling(c) - c.claimed else 0;
    assert Dues(t, token) == Dues(v, token)[id := due];
    SumUpdate(Dues(v, token), id, due);
  }

  /** Direct transfers to the contract are the only source of surplus. */
  function Gift(v: Vesting, op: Op, token: Address): int {
    if op.OpGift? && op.token == token && PullIn(TokenPurse(v, token), op.from, op.amount).Some? then op.amount else 0
  }

  lemma CreateSurplus(v: Vesting, ledger: nat, op: Op, token: Address)
    requires op.OpCreate? && v.count !in v.schedules
    ensures Surplus(Step(v, ledger, op), token) == Surplus(v, token)
  {
    var t := Step(v, ledger, op);
    if t != v {
      DuesWrite(v, t, v.count, t.schedules[v.count], token);
    }
  }

  lemma ClaimSurplus(v: Vesting, ledger: nat, op: Op, token: Address)
    requires op.OpClaim?
    ensures Surplus(Step(v, ledger, op), token) == Surplus(v, token)
  {
    hide Effective;
    if Claim(v, ledger, op.beneficiary, op.id).Some? {
      var t := Step(v, ledger, op);
      DuesWrite(v, t, op.id, t.schedules[op.id], token);
    }
  }

  lemma RevokeSurplus(v: Vesting, ledger: nat, op: Op, token: Address)
    requires op.OpRevoke? && (op.id in v.schedules ==> Proper(v.schedules[op.id]))
    ensures Surplus(Step(v, ledger, op), token) == Surplus(v, token)
  {
    if Revoke(v, ledger, op.actor, op.id).Some? {
      VestedBounds(v.schedules[op.id], ledger);
      var t := Step(v, ledger, op);
      DuesWrite(v, t, op.id, t.schedules[op.id], token);
      hide Vested;
    }
  }

  lemma SurplusStep(v: Vesting, now: nat, ledger: nat, op: Op, token: Address)
    requires Sound(v, now)
    ensures Surplus(Step(v, ledger, op), token) == Surplus(v, token) + Gift(v, op, token)
  {
    match op
    case OpCreate(_, _, _, _, _, _, _, _) => CreateSurplus(v, ledger, op, token);
    case OpClaim(_, _) => ClaimSurplus(v, ledger, op, token);
    case OpRevoke(_, _) => RevokeSurplus(v, ledger, op, token);
    case OpGift(to, from, amount) => assert Dues(Step(v, ledger, op), token) == Dues(v, token);
  }

  /** Every step keeps every schedule within its curve; ledgers only move forward. */
  lemma ScheduleStep(v: Vesting, now: nat, ledger: nat, op: Op, id: nat)
    requires Sound(v, now) && now <= ledger && id in Step(v, ledger, op).schedules
    ensures var t := Step(v, ledger, op);
      id < t.count && t.schedules[id].id == id && ScheduleOk(t.schedules[id], ledger)
  {
    if id in v.schedules {
      ScheduleLater(v.schedules[id], now, ledger);
      VestedBounds(v.schedules[id], ledger);
    } else {
      VestedBounds(Step(v, ledger, op).schedules[id], ledger);
    }
    hide Vested;
  }

  lemma SoundStep(v: Vesting, now: nat, ledger: nat, op: Op)
    requires Sound(v, now) && now <= ledger
    ensures Sound(Step(v, ledger, op), ledger)
  {
    var t := Step(v, ledger, op);
    forall id | id in t.schedules
      ensures id < t.count && t.schedules[id].id == id && ScheduleOk(t.schedules[id], ledger)
    {
      ScheduleStep(v, now, ledger, op, id);
      hide Step, ScheduleOk;
    }
  }

  ghost function Gifts(v: Vesting, ops: seq<(nat, Op)>, token: Address): int
    decreases |ops|
  {
    if ops == [] then 0
    else Gift(v, ops[0].1, token) + Gifts(Step(v, ops[0].0, ops[0].1), ops[1..], token)
  }

  /** In every run each schedule stays within its curve, and per token the contract holds exactly what the schedules
      can still pay out plus what was given to it. */
  lemma {:induction false} CustodyOverRuns(v: Vesting, now: nat, ops: seq<(nat, Op)>, token: Address)
    requires Sound(v, now) && Timed(now, ops)
    ensures Sound(Run(v, ops), Last(now, ops))
    ensures Surplus(Run(v, ops), token) == Surplus(v, token) + Gifts(v, ops, token)
    decreases |ops|
  {
    if ops != [] {
      SoundStep(v, now, ops[0].0, ops[0].1);
      SurplusStep(v, now, ops[0].0, ops[0].1, token);
      hide Step, Sound, Surplus, Gift;
      CustodyOverRuns(Step(v, ops[0].0, ops[0].1), ops[0].0, ops[1..], token);
    }
  }

  /** The deployed contract starts sound and without surplus if it holds nothing. */
  lemma InitialSound(admin: Address, tokens: map<Address, Purse>, token: Address)
    requires Held(Initial(admin, tokens), token) == 0
    ensures Sound(Initial(admin, tokens), 0) && Indexed(Initial(admin, tokens)) && Surplus(Initial(admin, tokens), token) == 0
  {}

  lemma DueCovered(v: Vesting, now: nat, id: nat)
    requires Sound(v, now) && id in v.schedules && Surplus(v, v.schedules[id].token) >= 0
    ensures Ceiling(v.schedules[id]) - v.schedules[id].claimed <= Held(v, v.schedules[id].token)
  {
    var token := v.schedules[id].token;
    forall k | k in Dues(v, token) ensures 0 <= Dues(v, token)[k] {
      EffectiveBelowCeiling(v.schedules[k], now);
    }
    SumMember(Dues(v, token), id);
  }

  /** A beneficiary's claim goes through exactly when `get_claimable` is positive, and pays that amount. */
  lemma ClaimPaysClaimable(v: Vesting, now: nat, ledger: nat, id: nat)
    requires Sound(v, now) && now <= ledger && id in v.schedules && Surplus(v, v.schedules[id].token) >= 0
    ensures var c := v.schedules[id]; var r := Claim(v, ledger, c.beneficiary, id);
      && (r.Some? <==> Claimable(v, ledger, id).value > 0)
      && (r.Some? ==> r.value.1 == Claimable(v, ledger, id).value)
  {
    var c := v.schedules[id];
    DueCovered(v, now, id);
    ScheduleLater(c, now, ledger);
    EffectiveBelowCeiling(c, ledger);
    hide Effective, Surplus, Sound, Ceiling;
  }

  /** Revoking never fails for want of tokens, and leaves what is claimable at that ledger as it was, for good. */
  lemma RevokeKeepsClaimable(v: Vesting, now: nat, ledger: nat, id: nat, later: nat)
    requires Sound(v, now) && now <= ledger && id in v.schedules && Surplus(v, v.schedules[id].token) >= 0
    requires v.schedules[id].revocable && !v.schedules[id].revoked
    ensures var r := Revoke(v, ledger, v.admin, id);
      r.Some? && Claimable(r.value.0, later, id) == Claimable(v, ledger, id)
  {
    var c := v.schedules[id];
    DueCovered(v, now, id);
    ScheduleLater(c, now, ledger);
    VestedBounds(c, ledger);
    hide Vested, Surplus, Sound;
  }

  // ---------- payouts ----------

  function Paid(v: Vesting, ledger: nat, op: Op, id: nat): int {
    if op.OpClaim? && op.id == id && Claim(v, ledger, op.beneficiary, id).Some?
    then Claim(v, ledger, op.beneficiary, id).value.1 else 0
  }

  function Refunded(v: Vesting, ledger: nat, op: Op, id: nat): int {
    if op.OpRevoke? && op.id == id && Revoke(v, ledger, op.actor, id).Some?
    then Revoke(v, ledger, op.actor, id).value.1 else 0
  }

  function TotalPaid(v: Vesting, ops: seq<(nat, Op)>, id: nat): int
    decreases |ops|
  {
    if ops == [] then 0
    else Paid(v, ops[0].0, ops[0].1, id) + TotalPaid(Step(v, ops[0].0, ops[0].1), ops[1..], id)
  }

  function TotalRefunded(v: Vesting, ops: seq<(nat, Op)>, id: nat): int
    decreases |ops|
  {
    if ops == [] then 0
    else Refunded(v, ops[0].0, ops[0].1, id) + TotalRefunded(Step(v, ops[0].0, ops[0].1), ops[1..], id)
  }

  lemma PayoutStep(v: Vesting, now: nat, ledger: nat, op: Op, id: nat)
    requires Sound(v, now) && now <= ledger && id in v.schedules
    ensures var t := Step(v, ledger, op);
      && id in t.schedules
      && t.schedules[id].total == v.schedules[id].total
      && t.schedules[id].claimed == v.schedules[id].claimed + Paid(v, ledger, op, id)
      && Ceiling(t.schedules[id]) == Ceiling(v.schedules[id]) - Refunded(v, ledger, op, id)
  {
    if op.OpRevoke? && op.id in v.schedules { VestedBounds(v.schedules[op.id], ledger); }
    hide Vested;
  }

  /** Over any run, claims pay the growth of `claimed` and the refund is the drop of the ceiling;
      so beneficiary and admin together never get more than the schedule's total. */
  lemma {:induction false} PayoutsOverRuns(v: Vesting, now: nat, ops: seq<(nat, Op)>, id: nat)
    requires Sound(v, now) && Timed(now, ops) && id in v.schedules
    ensures var z := Run(v, ops);
      && Sound(z, Last(now, ops)) && id in z.schedules && z.schedules[id].total == v.schedules[id].total
      && z.schedules[id].claimed == v.schedules[id].claimed + TotalPaid(v, ops, id)
      && Ceiling(z.schedules[id]) == Ceiling(v.schedules[id]) - TotalRefunded(v, ops, id)
      && v.schedules[id].claimed + TotalPaid(v, ops, id) + TotalRefunded(v, ops, id) <= Ceiling(v.schedules[id])
    decreases |ops|
  {
    if ops != [] {
      SoundStep(v, now, ops[0].0, ops[0].1);
      PayoutStep(v, now, ops[0].0, ops[0].1, id);
      hide Step, Sound, Ceiling, Paid, Refunded;
      PayoutsOverRuns(Step(v, ops[0].0, ops[0].1), ops[0].0, ops[1..], id);
    } else {
      EffectiveBelowCeiling(v.schedules[id], now);
    }
  }

  /** However the claims were split before, once a claim at `ledger` goes through, the beneficiary has received
      exactly the effective vested amount of that ledger; and if anything is vested after the end, all of the ceiling. */
  lemma ClaimsPayTheCurve(v: Vesting, now: nat, ops: seq<(nat, Op)>, ledger: nat, id: nat)
    requires Sound(v, now) && Timed(now, ops) && Last(now, ops) <= ledger
    requires id in v.schedules && v.schedules[id].claimed == 0
    requires Claim(Run(v, ops), ledger, v.schedules[id].beneficiary, id).Some?
    ensures var z := Run(v, ops);
      && id in z.schedules
      && TotalPaid(v, ops, id) + Claim(z, ledger, v.schedules[id].beneficiary, id).value.1 == Effective(z.schedules[id], ledger)
      && (ledger >= z.schedules[id].end ==>
           Effective(z.schedules[id], ledger) + TotalRefunded(v, ops, id) == Ceiling(v.schedules[id]))
  {
    PayoutsOverRuns(v, now, ops, id);
    hide Run, TotalPaid, TotalRefunded;
    SoundAt(Run(v, ops), Last(now, ops), id);
    hide Sound;
  }

  lemma SoundAt(v: Vesting, now: nat, id: nat)
    requires Sound(v, now) && id in v.schedules
    ensures ScheduleOk(v.schedules[id], now)
  {}

  // ---------- the beneficiary index ----------

  /** Each beneficiary's list holds exactly its schedules, oldest first, none twice. */
  ghost predicate Indexed(v: Vesting) {
    && (forall id :: id in v.schedules ==> id < v.count)
    && (forall b, id :: id in Owned(v, b) <==> id in v.schedules && v.schedules[id].beneficiary == b)
    && (forall b, i, j :: 0 <= i < j < |Owned(v, b)| ==> Owned(v, b)[i] < Owned(v, b)[j])
  }

  lemma OwnedBelowCount(v: Vesting, b: Address, i: nat)
    requires Indexed(v) && i < |Owned(v, b)|
    ensures Owned(v, b)[i] < v.count
  {
    var id := Owned(v, b)[i];
    assert id in Owned(v, b);
    assert id in v.schedules;
  }

  lemma IndexedCreate(v: Vesting, ledger: nat, op: Op)
    requires Indexed(v) && op.OpCreate?
    ensures Indexed(Step(v, ledger, op))
  {
    var t := Step(v, ledger, op);
    if t != v {
      forall b, id ensures id in Owned(t, b) <==> id in t.schedules && t.schedules[id].beneficiary == b {
        assert Owned(t, b) == if b == op.beneficiary then Owned(v, b) + [v.count] else Owned(v, b);
        assert id in Owned(v, b) <==> id in v.schedules && v.schedules[id].beneficiary == b;
      }
      forall b, i, j | 0 <= i < j < |Owned(t, b)| ensures Owned(t, b)[i] < Owned(t, b)[j] {
        assert Owned(t, b) == if b == op.beneficiary then Owned(v, b) + [v.count] else Owned(v, b);
        assert i < |Owned(v, b)| && Owned(t, b)[i] == Owned(v, b)[i];
        OwnedBelowCount(v, b, i);
        if j < |Owned(v, b)| { assert Owned(t, b)[j] == Owned(v, b)[j]; }
      }
    }
  }

  lemma IndexedStep(v: Vesting, ledger: nat, op: Op)
    requires Indexed(v)
    ensures Indexed(Step(v, ledger, op))
  {
    if op.OpCreate? {
      IndexedCreate(v, ledger, op);
    } else {
      var t := Step(v, ledger, op);
      assert forall b :: Owned(t, b) == Owned(v, b);
      assert t.schedules.Keys == v.schedules.Keys;
      assert forall id :: id in v.schedules ==> t.schedules[id].beneficiary == v.schedules[id].beneficiary;
    }
  }

  lemma {:induction false} IndexedOverRuns(v: Vesting, ops: seq<(nat, Op)>)
    requires Indexed(v)
    ensures Indexed(Run(v, ops))
    decreases |ops|
  {
    if ops != [] {
      IndexedStep(v, ops[0].0, ops[0].1);
      hide Step, Indexed;
      IndexedOverRuns(Step(v, ops[0].0, ops[0].1), ops[1..]);
    }
  }
}
