/** What each vesting call does, in numbers a caller can check: when it goes through, what it stores, and who pays whom. */
module VestingCalls {
  import opened Base
  import opened Arith
  import Clock
  import opened Purses
  import opened VestingSpec
  import opened VestingProofs

  /** The curve: nothing before the cliff, everything from the end on, and in between the linear share since the start, rounded
      down. */
  lemma VestedExactly(c: Schedule, ledger: nat)
    requires Proper(c)
    ensures if ledger < c.cliff then Vested(c, ledger) == 0
            else if ledger >= c.end then Vested(c, ledger) == c.total
            else IsFloor(Vested(c, ledger), c.total * (ledger - c.start), c.end - c.start)
  {
    if c.cliff <= ledger < c.end {
      MulMono(0, ledger - c.start, c.total);
      TruncationIsFloor(c.total * (ledger - c.start), c.end - c.start);
    }
    hide TDiv, IsFloor;
  }

  function Wallet(v: Vesting, token: Address, user: Address): int { Get(PurseIn(v.tokens, token).wallets, user) }

  lemma ReceiveExactly(v: Vesting, token: Address, from: Address, amount: int)
    ensures var k := Receive(v, token, from, amount);
      && (k.Some? <==> 0 <= amount <= Wallet(v, token, from))
      && (k.Some? ==> k.value == v.(tokens := k.value.tokens) && PaysIn(v.tokens, k.value.tokens, token, from, -amount))
  {
    TransfersPay(TokenPurse(v, token), from, amount);
    hide PullIn;
  }

  lemma SendExactly(v: Vesting, token: Address, to: Address, amount: int)
    ensures var k := Send(v, token, to, amount);
      && (k.Some? <==> 0 <= amount <= PurseIn(v.tokens, token).held)
      && (k.Some? ==> k.value == v.(tokens := k.value.tokens) && PaysIn(v.tokens, k.value.tokens, token, to, amount))
  {
    TransfersPay(TokenPurse(v, token), to, amount);
    hide PayOut;
  }

  /** A schedule is created exactly for a positive total the caller holds and ledgers in order; the caller pays the total, and the
      schedule is stored as asked for, unclaimed and unrevoked, under the next number, which joins the beneficiary's list. */
  lemma CreateExactly(v: Vesting, caller: Address, beneficiary: Address, token: Address, total: int,
                      start: nat, cliff: nat, end: nat, revocable: bool)
    ensures var r := Create(v, caller, beneficiary, token, total, start, cliff, end, revocable);
      && (r.Some? <==> 0 < total <= Wallet(v, token, caller) && start <= cliff < end)
      && (r.Some? ==>
           var t, c := r.value.0, Schedule(v.count, beneficiary, token, total, start, cliff, end, 0, revocable, false, 0);
           && r.value.1 == v.count && PaysIn(v.tokens, t.tokens, token, caller, -total)
           && t == v.(count := v.count + 1, schedules := v.schedules[v.count := c],
                      owned := v.owned[beneficiary := Owned(v, beneficiary) + [v.count]], tokens := t.tokens))
  {
    ReceiveExactly(v, token, caller, total);
    hide Receive, PaysIn;
  }

  /** A claim goes through exactly for the beneficiary, with something vested beyond what was claimed, and held; it pays that
      difference to the beneficiary in the schedule's token and books it. */
  lemma ClaimExactly(v: Vesting, ledger: nat, beneficiary: Address, id: nat)
    ensures var r := Claim(v, ledger, beneficiary, id);
      && (r.Some? <==>
           && id in v.schedules && v.schedules[id].beneficiary == beneficiary
           && var c := v.schedules[id];
           0 < Effective(c, ledger) - c.claimed <= PurseIn(v.tokens, c.token).held)
      && (r.Some? ==>
           var t, c := r.value.0, v.schedules[id];
           var due := Effective(c, ledger) - c.claimed;
           && r.value.1 == due && PaysIn(v.tokens, t.tokens, c.token, beneficiary, due)
           && t == v.(schedules := v.schedules[id := c.(claimed := c.claimed + due)], tokens := t.tokens))
    ensures Claimable(v, ledger, id)
         == if id in v.schedules then Some(Max(0, Effective(v.schedules[id], ledger) - v.schedules[id].claimed)) else None
    ensures id in v.schedules ==>
      Effective(v.schedules[id], ledger) == if v.schedules[id].revoked then v.schedules[id].vestedAtRevoke else Vested(v.schedules[id], ledger)
  {
    if id in v.schedules { SendExactly(v, v.schedules[id].token, beneficiary, Effective(v.schedules[id], ledger) - v.schedules[id].claimed); }
    hide Send, PaysIn, Vested;
  }

  /** A revocation goes through exactly for the admin, a revocable schedule not revoked before, and the unvested rest held; it pays
      that rest to the admin in the schedule's token and fixes what is vested. */
  lemma RevokeExactly(v: Vesting, ledger: nat, actor: Address, id: nat)
    requires id in v.schedules ==> Proper(v.schedules[id])
    ensures var r := Revoke(v, ledger, actor, id);
      && (r.Some? <==>
           && actor == v.admin && id in v.schedules
           && var c := v.schedules[id];
           c.revocable && !c.revoked && (Vested(c, ledger) < c.total ==> c.total - Vested(c, ledger) <= PurseIn(v.tokens, c.token).held))
      && (r.Some? ==>
           var t, c := r.value.0, v.schedules[id];
           var rest := c.total - Vested(c, ledger);
           && 0 <= rest == r.value.1 && PaysIn(v.tokens, t.tokens, c.token, actor, rest)
           && t == v.(schedules := v.schedules[id := c.(revoked := true, vestedAtRevoke := Vested(c, ledger))], tokens := t.tokens))
  {
    if id in v.schedules {
      var c := v.schedules[id];
      VestedBounds(c, ledger);
      SendExactly(v, c.token, actor, c.total - Vested(c, ledger));
    }
    hide Send, Vested;
  }

  /** A deployment has no schedules, and its first one gets number 0. */
  lemma DeployedExactly(admin: Address, tokens: map<Address, Purse>)
    ensures Initial(admin, tokens) == Vesting(admin, 0, map[], map[], tokens)
  {}

  // ---------- wallets over whole runs ----------

  function Caller(op: Op): Address {
    match op
    case OpCreate(caller, _, _, _, _, _, _, _) => caller
    case OpClaim(beneficiary, _) => beneficiary
    case OpRevoke(actor, _) => actor
    case OpGift(_, from, _) => from
  }

  /** What the operation brings into its caller's wallet: minus what was put in, or what the call paid. */
  function Brings(v: Vesting, ledger: nat, op: Op, token: Address): int {
    match op
    case OpCreate(caller, beneficiary, t, total, start, cliff, end, revocable) =>
      if t == token && Create(v, caller, beneficiary, t, total, start, cliff, end, revocable).Some? then -total else 0
    case OpClaim(beneficiary, id) =>
      var r := Claim(v, ledger, beneficiary, id);
      if r.Some? && v.schedules[id].token == token then r.value.1 else 0
    case OpRevoke(actor, id) =>
      var r := Revoke(v, ledger, actor, id);
      if r.Some? && v.schedules[id].token == token then r.value.1 else 0
    case OpGift(t, from, amount) => if t == token && Receive(v, t, from, amount).Some? then -amount else 0
  }

  lemma WalletStep(v: Vesting, now: nat, ledger: nat, op: Op, token: Address, user: Address)
    requires Sound(v, now)
    ensures Wallet(Step(v, ledger, op), token, user)
         == Wallet(v, token, user) + if Caller(op) == user then Brings(v, ledger, op, token) else 0
  {
    hide PurseIn, Vested, Effective;
    match op
    case OpCreate(caller, beneficiary, t, total, start, cliff, end, revocable) =>
      CreateExactly(v, caller, beneficiary, t, total, start, cliff, end, revocable);
      hide Create;
    case OpClaim(beneficiary, id) =>
      ClaimExactly(v, ledger, beneficiary, id);
      hide Claim;
    case OpRevoke(actor, id) =>
      RevokeExactly(v, ledger, actor, id);
      hide Revoke;
    case OpGift(t, from, amount) =>
      ReceiveExactly(v, t, from, amount);
      hide Receive;
  }

  function TotalBrought(v: Vesting, ops: seq<(nat, Op)>, token: Address, user: Address): int
    decreases |ops|
  {
    if ops == [] then 0
    else (if Caller(ops[0].1) == user then Brings(v, ops[0].0, ops[0].1, token) else 0)
         + TotalBrought(Step(v, ops[0].0, ops[0].1), ops[1..], token, user)
  }

  /** Over every run and in every token, a wallet moves by its owner's own calls only: by what they put in, claimed or got back. */
  lemma {:induction false} WalletsOverRuns(v: Vesting, now: nat, ops: seq<(nat, Op)>, token: Address, user: Address)
    requires Sound(v, now) && Clock.Timed(now, ops)
    ensures Wallet(Run(v, ops), token, user) == Wallet(v, token, user) + TotalBrought(v, ops, token, user)
    decreases |ops|
  {
    if ops != [] {
      WalletStep(v, now, ops[0].0, ops[0].1, token, user);
      SoundStep(v, now, ops[0].0, ops[0].1);
      hide Step, Sound, Wallet, Brings;
      WalletsOverRuns(Step(v, ops[0].0, ops[0].1), ops[0].0, ops[1..], token, user);
    }
  }
}
