/** The vesting contract as a state and one function per entry point; `None` is a panic. */
module VestingSpec {
  import opened Base
  import opened Arith
  import opened Purses

  datatype Schedule = Schedule(
    id: nat,
    beneficiary: Address,
    token: Address,
    total: int,
    start: nat,
    cliff: nat,
    end: nat,
    claimed: int,
    revocable: bool,
    revoked: bool,
    vestedAtRevoke: int)

  datatype Vesting = Vesting(
    admin: Address,
    count: nat,
    schedules: map<nat, Schedule>,
    owned: map<Address, seq<nat>>,
    tokens: map<Address, Purse>)

  function Initial(admin: Address, tokens: map<Address, Purse>): Vesting {
    Vesting(admin, 0, map[], map[], tokens)
  }

  function TokenPurse(v: Vesting, token: Address): Purse {
    if token in v.tokens then v.tokens[token] else EMPTY
  }

  function Owned(v: Vesting, beneficiary: Address): seq<nat> {
    if beneficiary in v.owned then v.owned[beneficiary] else []
  }

  /** `compute_vested`. */
  function Vested(c: Schedule, ledger: nat): int {
    if ledger < c.cliff then 0
    else if ledger >= c.end then c.total
    else if c.end - c.start == 0 then c.total
    else TDiv(c.total * (ledger - c.start), c.end - c.start)
  }

  function Effective(c: Schedule, ledger: nat): int {
    if c.revoked then c.vestedAtRevoke else Vested(c, ledger)
  }

  function Receive(v: Vesting, token: Address, from: Address, amount: int): Option<Vesting> {
    var purse :- PullIn(TokenPurse(v, token), from, amount);
    Some(v.(tokens := v.tokens[token := purse]))
  }

  function Send(v: Vesting, token: Address, to: Address, amount: int): Option<Vesting> {
    var purse :- PayOut(TokenPurse(v, token), to, amount);
    Some(v.(tokens := v.tokens[token := purse]))
  }

  function Create(v: Vesting, caller: Address, beneficiary: Address, token: Address, total: int,
                  start: nat, cliff: nat, end: nat, revocable: bool): Option<(Vesting, nat)>
  {
    if total <= 0 || cliff < start || end <= cliff then None
    else
      var k :- Receive(v, token, caller, total);
      var id := v.count;
      Some((k.(count := id + 1,
               schedules := v.schedules[id := Schedule(id, beneficiary, token, total, start, cliff, end, 0, revocable, false, 0)],
               owned := v.owned[beneficiary := Owned(v, beneficiary) + [id]]), id))
  }

  function Claim(v: Vesting, ledger: nat, beneficiary: Address, id: nat): Option<(Vesting, int)> {
    if id !in v.schedules || v.schedules[id].beneficiary != beneficiary then None
    else
      var c := v.schedules[id];
      var claimable := Effective(c, ledger) - c.claimed;
      if claimable <= 0 then None
      else
        var k :- Send(v, c.token, beneficiary, claimable);
        Some((k.(schedules := v.schedules[id := c.(claimed := c.claimed + claimable)]), claimable))
  }

  /** Returns what goes back to the admin. */
  function Revoke(v: Vesting, ledger: nat, actor: Address, id: nat): Option<(Vesting, int)> {
    if actor != v.admin || id !in v.schedules || !v.schedules[id].revocable || v.schedules[id].revoked then None
    else
      var c := v.schedules[id];
      var unvested := c.total - Vested(c, ledger);
      var k :- if unvested > 0 then Send(v, c.token, actor, unvested) else Some(v);
      Some((k.(schedules := v.schedules[id := c.(revoked := true, vestedAtRevoke := Vested(c, ledger))]), Max(unvested, 0)))
  }

  function Claimable(v: Vesting, ledger: nat, id: nat): Option<int> {
    if id !in v.schedules then None
    else Some(Max(Effective(v.schedules[id], ledger) - v.schedules[id].claimed, 0))
  }

  // ---------- runs ----------

  datatype Op =
    | OpCreate(caller: Address, beneficiary: Address, token: Address, total: int,
               start: nat, cliff: nat, end: nat, revocable: bool)
    | OpClaim(beneficiary: Address, id: nat)
    | OpRevoke(actor: Address, id: nat)
    | OpGift(token: Address, from: Address, amount: int)

  function After<T>(v: Vesting, r: Option<(Vesting, T)>): Vesting {
    match r case None => v case Some(p) => p.0
  }

  /** One transaction at the given ledger. `OpGift` is a plain token transfer to the contract. */
  function Step(v: Vesting, ledger: nat, op: Op): Vesting {
    match op
    case OpCreate(caller, beneficiary, token, total, start, cliff, end, revocable) =>
      After(v, Create(v, caller, beneficiary, token, total, start, cliff, end, revocable))
    case OpClaim(beneficiary, id) => After(v, Claim(v, ledger, beneficiary, id))
    case OpRevoke(actor, id) => After(v, Revoke(v, ledger, actor, id))
    case OpGift(token, from, amount) =>
      (match Receive(v, token, from, amount) case None => v case Some(k) => k)
  }

  function Run(v: Vesting, ops: seq<(nat, Op)>): Vesting
    decreases |ops|
  {
    if ops == [] then v else Run(Step(v, ops[0].0, ops[0].1), ops[1..])
  }
}
