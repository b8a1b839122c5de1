/** The bridge adapter, together with the token it burns and mints; `None` is a panic. */
module BridgeSpec {
  import opened Base
  import T = TokenSpec

  type Bytes = seq<bv8>

  const CHAIN_ETHEREUM := 1
  const CHAIN_ARBITRUM := 42161
  const CHAIN_SEPOLIA := 11155111

  /** `self` is the address under which the bridge calls the token. */
  datatype Bridge = Bridge(
    self: Address,
    admin: Address,
    relayer: Address,
    paused: bool,
    minimum: int,
    nonces: map<Address, nat>,
    processed: set<Bytes>,
    locked: int,
    token: T.Token)

  function Initial(self: Address, admin: Address, relayer: Address, minimum: int, token: T.Token): Option<Bridge> {
    if minimum <= 0 then None else Some(Bridge(self, admin, relayer, false, minimum, map[], {}, 0, token))
  }

  /** What a call publishes. */
  datatype Event =
    | BridgedOut(sender: Address, recipient: Bytes, amount: int, nonce: nat, chain: nat)
    | Released(to: Address, amount: int, hash: Bytes, chain: nat)

  predicate Supported(chain: nat) {
    chain == CHAIN_ETHEREUM || chain == CHAIN_ARBITRUM || chain == CHAIN_SEPOLIA
  }

  function Nonce(b: Bridge, user: Address): nat {
    if user in b.nonces then b.nonces[user] else 0
  }

  /** Returns the nonce of the transfer. */
  function BridgeToEvm(b: Bridge, sender: Address, recipient: Bytes, amount: int, chain: nat): Option<(Bridge, nat)> {
    if b.paused || amount < b.minimum || !Supported(chain) || |recipient| != 20 then None
    else
      var burned :- T.Burn(b.token, b.self, sender, amount);
      var nonce := Nonce(b, sender) + 1;
      Some((b.(token := burned.0, locked := b.locked + amount, nonces := b.nonces[sender := nonce]), nonce))
  }

  function ReleaseFromEvm(b: Bridge, actor: Address, to: Address, amount: int, hash: Bytes, chain: nat): Option<(Bridge, ())> {
    if actor != b.relayer || b.paused || amount <= 0 || !Supported(chain) || hash in b.processed then None
    else
      var minted :- T.Mint(b.token, b.self, to, amount);
      Some((b.(processed := b.processed + {hash}, token := minted.0,
               locked := if b.locked >= amount then b.locked - amount else b.locked), ()))
  }

  function SetPaused(b: Bridge, actor: Address, paused: bool): Option<(Bridge, ())> {
    if actor != b.admin then None else Some((b.(paused := paused), ()))
  }

  function SetRelayer(b: Bridge, actor: Address, relayer: Address): Option<(Bridge, ())> {
    if actor != b.admin then None else Some((b.(relayer := relayer), ()))
  }

  function SetAdmin(b: Bridge, actor: Address, admin: Address): Option<(Bridge, ())> {
    if actor != b.admin then None else Some((b.(admin := admin), ()))
  }

  function SetMinimum(b: Bridge, actor: Address, amount: int): Option<(Bridge, ())> {
    if actor != b.admin || amount <= 0 then None else Some((b.(minimum := amount), ()))
  }

  // ---------- runs ----------

  datatype Op =
    | OpOut(sender: Address, recipient: Bytes, amount: int, chain: nat)
    | OpRelease(actor: Address, to: Address, amount: int, hash: Bytes, chain: nat)
    | OpPaused(actor: Address, paused: bool)
    | OpRelayer(actor: Address, relayer: Address)
    | OpAdmin(actor: Address, admin: Address)
    | OpMinimum(actor: Address, amount: int)
    | OpToken(call: T.Op)

  /** Who signs a call to the token. */
  function Signer(call: T.Op): Address {
    match call
    case OpMint(actor, _, _) => actor
    case OpBurn(actor, _, _) => actor
    case OpApprove(from, _, _) => from
    case OpTransfer(from, _, _) => from
    case OpTransferFrom(spender, _, _, _) => spender
    case OpSetMinter(actor, _) => actor
    case OpSetAdmin(actor, _) => actor
  }

  function After<R>(b: Bridge, r: Option<(Bridge, R)>): Bridge {
    match r case None => b case Some(v) => v.0
  }

  /** One transaction; a panic leaves everything as it was. `OpToken` is a direct call to the token by anybody else:
      the bridge's own address signs nothing but the calls its code makes. */
  function Step(b: Bridge, op: Op): Bridge {
    match op
    case OpOut(sender, recipient, amount, chain) => After(b, BridgeToEvm(b, sender, recipient, amount, chain))
    case OpRelease(actor, to, amount, hash, chain) => After(b, ReleaseFromEvm(b, actor, to, amount, hash, chain))
    case OpPaused(actor, paused) => After(b, SetPaused(b, actor, paused))
    case OpRelayer(actor, relayer) => After(b, SetRelayer(b, actor, relayer))
    case OpAdmin(actor, admin) => After(b, SetAdmin(b, actor, admin))
    case OpMinimum(actor, amount) => After(b, SetMinimum(b, actor, amount))
    case OpToken(call) => if Signer(call) == b.self then b else b.(token := T.Step(b.token, call))
  }

  function Emit(b: Bridge, op: Op): seq<Event> {
    match op
    case OpOut(sender, recipient, amount, chain) =>
      (match BridgeToEvm(b, sender, recipient, amount, chain)
       case None => [] case Some(r) => [BridgedOut(sender, recipient, amount, r.1, chain)])
    case OpRelease(actor, to, amount, hash, chain) =>
      (match ReleaseFromEvm(b, actor, to, amount, hash, chain)
       case None => [] case Some(_) => [Released(to, amount, hash, chain)])
    case _ => []
  }

  function Run(b: Bridge, ops: seq<Op>): Bridge
    decreases |ops|
  {
    if ops == [] then b else Run(Step(b, ops[0]), ops[1..])
  }

  function Trace(b: Bridge, ops: seq<Op>): seq<Event>
    decreases |ops|
  {
    if ops == [] then [] else Emit(b, ops[0]) + Trace(Step(b, ops[0]), ops[1..])
  }
}
