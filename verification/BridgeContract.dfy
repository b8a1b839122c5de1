/** The bridge adapter in its own form: one key-value store written key by key, calling the token's own class.
    A call that panics returns `Panicked`; `Transact` then discards its writes, as the host does. */
module BridgeContractModel {
  import opened Base
  import T = TokenSpec
  import opened Spec = BridgeSpec

  class BridgeAdapter {
    var store: Bridge

    constructor (self: Address, admin: Address, relayer: Address, minimum: int, token: T.Token)
      requires minimum > 0
      ensures Initial(self, admin, relayer, minimum, token) == Some(store)
    {
      store := Bridge(self, admin, relayer, false, minimum, map[], {}, 0, token);
    }

    method BridgeOut(sender: Address, recipient: Bytes, amount: int, chain: nat) returns (r: Outcome<nat>)
      modifies this
      ensures Did(Spec.BridgeToEvm(old(store), sender, recipient, amount, chain), store, r)
    {
      hide T.Burn;
      if store.paused || amount < store.minimum || !Supported(chain) || |recipient| != 20 {
        return Panicked;
      }
      var burned := T.Burn(store.token, store.self, sender, amount);
      if burned.None? {
        return Panicked;
      }
      store := store.(token := burned.value.0);
      store := store.(locked := store.locked + amount);
      var nonce := Nonce(store, sender) + 1;
      store := store.(nonces := store.nonces[sender := nonce]);
      r := Returned(nonce);
    }

    method Release(actor: Address, to: Address, amount: int, hash: Bytes, chain: nat) returns (r: Outcome<()>)
      modifies this
      ensures Did(Spec.ReleaseFromEvm(old(store), actor, to, amount, hash, chain), store, r)
    {
      hide T.Mint;
      if actor != store.relayer || store.paused || amount <= 0 || !Supported(chain) || hash in store.processed {
        return Panicked;
      }
      store := store.(processed := store.processed + {hash});
      var minted := T.Mint(store.token, store.self, to, amount);
      if minted.None? {
        return Panicked;
      }
      store := store.(token := minted.value.0);
      var locked := store.locked;
      if locked >= amount {
        store := store.(locked := locked - amount);
      }
      r := Returned(());
    }

    method PauseOrUnpause(actor: Address, paused: bool) returns (r: Outcome<()>)
      modifies this
      ensures Did(Spec.SetPaused(old(store), actor, paused), store, r)
    {
      if actor != store.admin {
        return Panicked;
      }
      store := store.(paused := paused);
      r := Returned(());
    }

    method ChangeRelayer(actor: Address, relayer: Address) returns (r: Outcome<()>)
      modifies this
      ensures Did(Spec.SetRelayer(old(store), actor, relayer), store, r)
    {
      if actor != store.admin {
        return Panicked;
      }
      store := store.(relayer := relayer);
      r := Returned(());
    }

    method ChangeAdmin(actor: Address, admin: Address) returns (r: Outcome<()>)
      modifies this
      ensures Did(Spec.SetAdmin(old(store), actor, admin), store, r)
    {
      if actor != store.admin {
        return Panicked;
      }
      store := store.(admin := admin);
      r := Returned(());
    }

    method ChangeMinimum(actor: Address, amount: int) returns (r: Outcome<()>)
      modifies this
      ensures Did(Spec.SetMinimum(old(store), actor, amount), store, r)
    {
      if actor != store.admin || amount <= 0 {
        return Panicked;
      }
      store := store.(minimum := amount);
      r := Returned(());
    }

    /** One transaction: runs the call and discards its writes if it panicked. */
    method Transact(op: Op) returns (ok: bool)
      modifies this
      ensures store == Step(old(store), op)
    {
      hide Spec.BridgeToEvm, Spec.ReleaseFromEvm, T.Step;
      var before := store;
      ok := true;
      match op {
        case OpOut(sender, recipient, amount, chain) =>
          var r := BridgeOut(sender, recipient, amount, chain);
          ok := r.Returned?;
        case OpRelease(actor, to, amount, hash, chain) =>
          var r := Release(actor, to, amount, hash, chain);
          ok := r.Returned?;
        case OpPaused(actor, paused) =>
          var r := PauseOrUnpause(actor, paused);
          ok := r.Returned?;
        case OpRelayer(actor, relayer) =>
          var r := ChangeRelayer(actor, relayer);
          ok := r.Returned?;
        case OpAdmin(actor, admin) =>
          var r := ChangeAdmin(actor, admin);
          ok := r.Returned?;
        case OpMinimum(actor, amount) =>
          var r := ChangeMinimum(actor, amount);
          ok := r.Returned?;
        case OpToken(call) =>
          if Signer(call) != store.self {
            store := store.(token := T.Step(store.token, call));
          }
      }
      if !ok {
        store := before;
      }
    }
  }
}
