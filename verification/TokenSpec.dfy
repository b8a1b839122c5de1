/** The sXLM token as a state and one function per entry point; `None` is a panic. */
module TokenSpec {
  import opened Base

  datatype Token = Token(
    admin: Address,
    minter: Address,
    balances: map<Address, int>,
    allowances: map<(Address, Address), int>,
    supply: int)

  function Initial(admin: Address, minter: Address): Token {
    Token(admin, minter, map[], map[], 0)
  }

  function SetBalance(t: Token, user: Address, amount: int): Token {
    t.(balances := t.balances[user := amount])
  }

  function Mint(t: Token, actor: Address, to: Address, amount: int): Option<(Token, ())> {
    if amount < 0 || actor != t.minter then None
    else Some((SetBalance(t, to, Get(t.balances, to) + amount).(supply := t.supply + amount), ()))
  }

  function Burn(t: Token, actor: Address, from: Address, amount: int): Option<(Token, ())> {
    if amount < 0 || actor != t.minter || Get(t.balances, from) < amount then None
    else Some((SetBalance(t, from, Get(t.balances, from) - amount).(supply := t.supply - amount), ()))
  }

  function Approve(t: Token, from: Address, spender: Address, amount: int): Option<(Token, ())> {
    if amount < 0 then None else Some((t.(allowances := t.allowances[(from, spender) := amount]), ()))
  }

  /** Debits first and then reads the receiver, so that a transfer to oneself changes nothing. */
  function Move(t: Token, from: Address, to: Address, amount: int): Option<(Token, ())> {
    if Get(t.balances, from) < amount then None
    else
      var debited := SetBalance(t, from, Get(t.balances, from) - amount);
      Some((SetBalance(debited, to, Get(debited.balances, to) + amount), ()))
  }

  function Transfer(t: Token, from: Address, to: Address, amount: int): Option<(Token, ())> {
    if amount < 0 then None else Move(t, from, to, amount)
  }

  function SpendAllowance(t: Token, from: Address, spender: Address, amount: int): Option<Token> {
    if Get(t.allowances, (from, spender)) < amount then None
    else Some(t.(allowances := t.allowances[(from, spender) := Get(t.allowances, (from, spender)) - amount]))
  }

  function TransferFrom(t: Token, spender: Address, from: Address, to: Address, amount: int): Option<(Token, ())> {
    if amount < 0 then None
    else
      var k :- SpendAllowance(t, from, spender, amount);
      Move(k, from, to, amount)
  }

  function SetMinter(t: Token, actor: Address, minter: Address): Option<(Token, ())> {
    if actor != t.admin then None else Some((t.(minter := minter), ()))
  }

  function SetAdmin(t: Token, actor: Address, admin: Address): Option<(Token, ())> {
    if actor != t.admin then None else Some((t.(admin := admin), ()))
  }

  // ---------- runs ----------

  datatype Op =
    | OpMint(actor: Address, to: Address, amount: int)
    | OpBurn(actor: Address, from: Address, amount: int)
    | OpApprove(from: Address, spender: Address, amount: int)
    | OpTransfer(from: Address, to: Address, amount: int)
    | OpTransferFrom(spender: Address, from: Address, to: Address, amount: int)
    | OpSetMinter(actor: Address, minter: Address)
    | OpSetAdmin(actor: Address, admin: Address)

  function Call(t: Token, op: Op): Option<(Token, ())> {
    match op
    case OpMint(actor, to, amount) => Mint(t, actor, to, amount)
    case OpBurn(actor, from, amount) => Burn(t, actor, from, amount)
    case OpApprove(from, spender, amount) => Approve(t, from, spender, amount)
    case OpTransfer(from, to, amount) => Transfer(t, from, to, amount)
    case OpTransferFrom(spender, from, to, amount) => TransferFrom(t, spender, from, to, amount)
    case OpSetMinter(actor, minter) => SetMinter(t, actor, minter)
    case OpSetAdmin(actor, admin) => SetAdmin(t, actor, admin)
  }

  /** One transaction; a panic leaves everything as it was. */
  function Step(t: Token, op: Op): Token {
    match Call(t, op) case None => t case Some(r) => r.0
  }

  function Run(t: Token, ops: seq<Op>): Token
    decreases |ops|
  {
    if ops == [] then t else Run(Step(t, ops[0]), ops[1..])
  }
}
