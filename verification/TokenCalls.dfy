/** What each call of the sXLM token does, in terms a holder can check: when it goes through and whose balance moves by how much. */
module TokenCalls {
  import opened Base
  import opened TokenSpec

  /** One balance was raised by `amount`, or lowered by it if negative, and then possibly another one likewise. */
  ghost predicate Moved(t: Token, k: Token, from: Address, to: Address, amount: int) {
    forall u :: Get(k.balances, u) == Get(t.balances, u) - (if u == from then amount else 0) + (if u == to then amount else 0)
  }

  /** Only the minter mints and burns, and burns only what is there; supply and the one balance move by the amount. */
  lemma SupplyExactly(t: Token, actor: Address, user: Address, amount: int)
    ensures var r := Mint(t, actor, user, amount);
      && (r.Some? <==> 0 <= amount && actor == t.minter)
      && (r.Some? ==>
           var k := r.value.0;
           && k == t.(balances := k.balances, supply := t.supply + amount)
           && forall u :: Get(k.balances, u) == Get(t.balances, u) + if u == user then amount else 0)
    ensures var r := Burn(t, actor, user, amount);
      && (r.Some? <==> 0 <= amount <= Get(t.balances, user) && actor == t.minter)
      && (r.Some? ==>
           var k := r.value.0;
           && k == t.(balances := k.balances, supply := t.supply - amount)
           && forall u :: Get(k.balances, u) == Get(t.balances, u) - if u == user then amount else 0)
  {}

  /** A transfer goes through exactly for a non-negative amount the sender holds, and moves it; nothing else changes. */
  lemma TransferExactly(t: Token, from: Address, to: Address, amount: int)
    ensures var r := Transfer(t, from, to, amount);
      && (r.Some? <==> 0 <= amount <= Get(t.balances, from))
      && (r.Some? ==> r.value.0 == t.(balances := r.value.0.balances) && Moved(t, r.value.0, from, to, amount))
  {}

  /** A spender's transfer needs the allowance as well, and uses it up by the amount. */
  lemma TransferFromExactly(t: Token, spender: Address, from: Address, to: Address, amount: int)
    ensures var r, left := TransferFrom(t, spender, from, to, amount), Get(t.allowances, (from, spender)) - amount;
      && (r.Some? <==> 0 <= amount <= Get(t.balances, from) && 0 <= left)
      && (r.Some? ==>
           && r.value.0 == t.(balances := r.value.0.balances, allowances := t.allowances[(from, spender) := left])
           && Moved(t, r.value.0, from, to, amount))
  {}

  /** An approval overwrites one allowance; only the admin names the minter and the next admin. */
  lemma GrantsExactly(t: Token, actor: Address, other: Address, amount: int)
    ensures var r := Approve(t, actor, other, amount);
      && (r.Some? <==> 0 <= amount)
      && (r.Some? ==> r.value.0 == t.(allowances := t.allowances[(actor, other) := amount]))
    ensures var r := SetMinter(t, actor, other);
      (r.Some? <==> actor == t.admin) && (r.Some? ==> r.value.0 == t.(minter := other))
    ensures var r := SetAdmin(t, actor, other);
      (r.Some? <==> actor == t.admin) && (r.Some? ==> r.value.0 == t.(admin := other))
  {}

  /** A deployment has no tokens yet. */
  lemma DeployedExactly(admin: Address, minter: Address)
    ensures Initial(admin, minter) == Token(admin, minter, map[], map[], 0)
  {}

  /** What an operation adds to a holder's balance. */
  function Gains(t: Token, op: Op, user: Address): int {
    if Call(t, op) == None then 0
    else
      match op
      case OpMint(_, to, amount) => if to == user then amount else 0
      case OpBurn(_, from, amount) => if from == user then -amount else 0
      case OpTransfer(from, to, amount) => (if to == user then amount else 0) - (if from == user then amount else 0)
      case OpTransferFrom(_, from, to, amount) => (if to == user then amount else 0) - (if from == user then amount else 0)
      case _ => 0
  }

  function TotalGains(t: Token, ops: seq<Op>, user: Address): int
    decreases |ops|
  {
    if ops == [] then 0 else Gains(t, ops[0], user) + TotalGains(Step(t, ops[0]), ops[1..], user)
  }

  lemma BalanceStep(t: Token, op: Op, user: Address)
    ensures Get(Step(t, op).balances, user) == Get(t.balances, user) + Gains(t, op, user)
  {}

  /** Over every run a balance is what it was, plus what was minted or sent to its holder, less what was burnt or sent from there. */
  lemma {:induction false} BalancesOverRuns(t: Token, ops: seq<Op>, user: Address)
    ensures Get(Run(t, ops).balances, user) == Get(t.balances, user) + TotalGains(t, ops, user)
    decreases |ops|
  {
    if ops != [] {
      BalanceStep(t, ops[0], user);
      hide Step, Gains;
      BalancesOverRuns(Step(t, ops[0]), ops[1..], user);
    }
  }
}
