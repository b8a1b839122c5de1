/** Whole-run properties of the sXLM token: the supply is the sum of the balances, and nobody's tokens move without authority. */
module TokenProofs {
  import opened Base
  import opened Sums
  import opened TokenSpec

  ghost predicate Ledger(t: Token) {
    && t.supply == Sum(t.balances)
    && (forall u :: u in t.balances ==> 0 <= t.balances[u])
    && (forall k :: k in t.allowances ==> 0 <= t.allowances[k])
  }

  /** What changes the supply: mints and burns that go through. */
  function Issued(t: Token, op: Op): int {
    if Call(t, op) == None then 0
    else if op.OpMint? then op.amount
    else if op.OpBurn? then -op.amount
    else 0
  }

  lemma SetBalanceSum(t: Token, user: Address, amount: int)
    ensures Sum(SetBalance(t, user, amount).balances) == Sum(t.balances) - Get(t.balances, user) + amount
  {
    SumUpdate(t.balances, user, amount);
  }

  lemma MoveSum(t: Token, from: Address, to: Address, amount: int)
    requires Move(t, from, to, amount).Some?
    ensures Sum(Move(t, from, to, amount).value.0.balances) == Sum(t.balances)
  {
    var debited := SetBalance(t, from, Get(t.balances, from) - amount);
    SetBalanceSum(t, from, Get(t.balances, from) - amount);
    SetBalanceSum(debited, to, Get(debited.balances, to) + amount);
    hide SetBalance;
  }

  lemma MoveLedger(t: Token, from: Address, to: Address, amount: int)
    requires Ledger(t) && 0 <= amount && Move(t, from, to, amount).Some?
    ensures Ledger(Move(t, from, to, amount).value.0) && Move(t, from, to, amount).value.0.supply == t.supply
  {
    MoveSum(t, from, to, amount);
    hide Sum;
  }

  lemma MintLedger(t: Token, actor: Address, user: Address, amount: int)
    requires Ledger(t)
    ensures Mint(t, actor, user, amount).Some? ==> Ledger(Mint(t, actor, user, amount).value.0)
    ensures Burn(t, actor, user, amount).Some? ==> Ledger(Burn(t, actor, user, amount).value.0)
  {
    SetBalanceSum(t, user, Get(t.balances, user) + amount);
    SetBalanceSum(t, user, Get(t.balances, user) - amount);
    hide Sum;
  }

  lemma AllowanceLedger(t: Token, from: Address, spender: Address, amount: int)
    requires Ledger(t) && SpendAllowance(t, from, spender, amount).Some?
    ensures Ledger(SpendAllowance(t, from, spender, amount).value)
  {}

  lemma LedgerStep(t: Token, op: Op)
    requires Ledger(t)
    ensures Ledger(Step(t, op)) && Step(t, op).supply == t.supply + Issued(t, op)
  {
    match op
    case OpMint(actor, user, amount) =>
      MintLedger(t, actor, user, amount);
      hide Ledger;
    case OpBurn(actor, user, amount) =>
      MintLedger(t, actor, user, amount);
      hide Ledger;
    case OpTransfer(from, to, amount) =>
      if 0 <= amount && Move(t, from, to, amount).Some? { MoveLedger(t, from, to, amount); }
      hide Ledger, Move;
    case OpTransferFrom(spender, from, to, amount) =>
      var k := SpendAllowance(t, from, spender, amount);
      if 0 <= amount && k.Some? {
        AllowanceLedger(t, from, spender, amount);
        if Move(k.value, from, to, amount).Some? { MoveLedger(k.value, from, to, amount); }
      }
      hide Ledger, Move;
    case _ => hide Sum;
  }

  /** A holder's balance falls only by the holder's own transfer, a spender's within the allowance, or the minter's burn;
      and by exactly the named amount unless the tokens come back to the holder. */
  lemma OnlyWithAuthority(t: Token, op: Op, user: Address)
    requires Ledger(t) && Get(Step(t, op).balances, user) < Get(t.balances, user)
    ensures (op.OpTransfer? && op.from == user)
         || (op.OpTransferFrom? && op.from == user && op.amount <= Get(t.allowances, (user, op.spender)))
         || (op.OpBurn? && op.from == user && op.actor == t.minter)
    ensures Get(Step(t, op).balances, user) == Get(t.balances, user) - op.amount
  {}

  /** Paying yourself is a no-op on balances, by either route. */
  lemma SelfTransfer(t: Token, user: Address, spender: Address, amount: int, other: Address)
    ensures Get(Step(t, OpTransfer(user, user, amount)).balances, other) == Get(t.balances, other)
    ensures Get(Step(t, OpTransferFrom(spender, user, user, amount)).balances, other) == Get(t.balances, other)
  {}

  function Spent(t: Token, op: Op, from: Address, spender: Address): int {
    if op.OpTransferFrom? && op.from == from && op.spender == spender && Call(t, op).Some? then op.amount else 0
  }

  function TotalSpent(t: Token, ops: seq<Op>, from: Address, spender: Address): int
    decreases |ops|
  {
    if ops == [] then 0 else Spent(t, ops[0], from, spender) + TotalSpent(Step(t, ops[0]), ops[1..], from, spender)
  }

  function TotalIssued(t: Token, ops: seq<Op>): int
    decreases |ops|
  {
    if ops == [] then 0 else Issued(t, ops[0]) + TotalIssued(Step(t, ops[0]), ops[1..])
  }

  lemma AllowanceStep(t: Token, op: Op, from: Address, spender: Address)
    requires !(op.OpApprove? && op.from == from && op.spender == spender)
    ensures Get(Step(t, op).allowances, (from, spender)) == Get(t.allowances, (from, spender)) - Spent(t, op, from, spender)
  {}

  /** In every run the supply is the sum of all balances, none negative, and moves only by mints and burns. */
  lemma {:induction false} LedgerOverRuns(t: Token, ops: seq<Op>)
    requires Ledger(t)
    ensures Ledger(Run(t, ops)) && Run(t, ops).supply == t.supply + TotalIssued(t, ops)
    decreases |ops|
  {
    if ops != [] {
      LedgerStep(t, ops[0]);
      hide Step, Ledger, Issued;
      LedgerOverRuns(Step(t, ops[0]), ops[1..]);
    }
  }

  /** Between two approvals a spender draws exactly what the allowance loses, hence never more than was approved. */
  lemma {:induction false} AllowanceOverRuns(t: Token, ops: seq<Op>, from: Address, spender: Address)
    requires Ledger(t)
    requires forall i :: 0 <= i < |ops| ==> !(ops[i].OpApprove? && ops[i].from == from && ops[i].spender == spender)
    ensures TotalSpent(t, ops, from, spender) + Get(Run(t, ops).allowances, (from, spender)) == Get(t.allowances, (from, spender))
    ensures TotalSpent(t, ops, from, spender) <= Get(t.allowances, (from, spender))
    decreases |ops|
  {
    if ops != [] {
      AllowanceStep(t, ops[0], from, spender);
      LedgerStep(t, ops[0]);
      hide Step, Spent, Ledger;
      AllowanceOverRuns(Step(t, ops[0]), ops[1..], from, spender);
    }
  }
}
