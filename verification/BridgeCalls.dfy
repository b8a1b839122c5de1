/** What each bridge call does, in terms its caller can check: when it goes through, whose tokens are burnt or minted, and what is
    recorded. */
module BridgeCalls {
  import opened Base
  import T = TokenSpec
  import TC = TokenCalls
  import opened BridgeSpec

  /** The three supported chains. */
  predicate IsChain(chain: nat) { chain in {1, 42161, 11155111} }

  /** A transfer out goes through exactly for an unpaused bridge that is the token's minter, an amount from the minimum up that the
      sender holds, a supported chain and a 20-byte recipient. It burns the amount, books it as locked, and carries the sender's next
      nonce. */
  lemma OutExactly(b: Bridge, sender: Address, recipient: Bytes, amount: int, chain: nat)
    ensures var r := BridgeToEvm(b, sender, recipient, amount, chain);
      && (r.Some? <==>
           && !b.paused && b.minimum <= amount && 0 <= amount <= Get(b.token.balances, sender) && IsChain(chain) && |recipient| == 20
           && b.token.minter == b.self)
      && (r.Some? ==>
           var k, nonce := r.value.0, (if sender in b.nonces then b.nonces[sender] else 0) + 1;
           && r.value.1 == nonce
           && k == b.(token := k.token, locked := b.locked + amount, nonces := b.nonces[sender := nonce])
           && k.token == b.token.(balances := k.token.balances, supply := b.token.supply - amount)
           && forall u :: Get(k.token.balances, u) == Get(b.token.balances, u) - if u == sender then amount else 0)
  {
    TC.SupplyExactly(b.token, b.self, sender, amount);
    hide T.Burn;
  }

  /** A release goes through exactly for the relayer, unpaused, with a positive amount, a supported chain, a hash not released before,
      and a bridge that is the token's minter. It mints the amount to the named account, marks the hash, and unlocks the amount if that
      much is locked. */
  lemma ReleaseExactly(b: Bridge, actor: Address, to: Address, amount: int, hash: Bytes, chain: nat)
    ensures var r := ReleaseFromEvm(b, actor, to, amount, hash, chain);
      && (r.Some? <==>
           && actor == b.relayer && !b.paused && 0 < amount && IsChain(chain) && hash !in b.processed && b.token.minter == b.self)
      && (r.Some? ==>
           var k := r.value.0;
           && k == b.(token := k.token, processed := b.processed + {hash},
                      locked := if amount <= b.locked then b.locked - amount else b.locked)
           && k.token == b.token.(balances := k.token.balances, supply := b.token.supply + amount)
           && forall u :: Get(k.token.balances, u) == Get(b.token.balances, u) + if u == to then amount else 0)
  {
    TC.SupplyExactly(b.token, b.self, to, amount);
    hide T.Mint;
  }

  /** Only the admin pauses, names relayer and admin, and sets a positive minimum. */
  lemma AdminExactly(b: Bridge, actor: Address, other: Address, paused: bool, amount: int)
    ensures var r := SetPaused(b, actor, paused);
      (r.Some? <==> actor == b.admin) && (r.Some? ==> r.value.0 == b.(paused := paused))
    ensures var r := SetRelayer(b, actor, other);
      (r.Some? <==> actor == b.admin) && (r.Some? ==> r.value.0 == b.(relayer := other))
    ensures var r := SetAdmin(b, actor, other);
      (r.Some? <==> actor == b.admin) && (r.Some? ==> r.value.0 == b.(admin := other))
    ensures var r := SetMinimum(b, actor, amount);
      (r.Some? <==> actor == b.admin && 0 < amount) && (r.Some? ==> r.value.0 == b.(minimum := amount))
  {}

  /** A deployment needs a positive minimum; it is unpaused, with nothing locked, released or sent. */
  lemma DeployedExactly(self: Address, admin: Address, relayer: Address, minimum: int, token: T.Token)
    ensures var r := Initial(self, admin, relayer, minimum, token);
      && (r.Some? <==> 0 < minimum)
      && (r.Some? ==> r.value == Bridge(self, admin, relayer, false, minimum, map[], {}, 0, token))
  {}
}
