/** The sXLM token in its own form: one key-value store written key by key.
    A call that panics returns `Panicked`; `Transact` then discards its writes, as the host does. */
module TokenContractModel {
  import opened Base
  import opened Spec = TokenSpec

  class SxlmToken {
    var store: Token

    constructor (admin: Address, minter: Address)
      ensures store == Initial(admin, minter)
    {
      store := Token(admin, minter, map[], map[], 0);
    }

    method WriteBalance(user: Address, amount: int)
      modifies this
      ensures store == SetBalance(old(store), user, amount)
    {
      store := store.(balances := store.balances[user := amount]);
    }

    method MintTokens(actor: Address, to: Address, amount: int) returns (r: Outcome<()>)
      modifies this
      ensures Did(Spec.Mint(old(store), actor, to, amount), store, r)
    {
      if amount < 0 || actor != store.minter {
        return Panicked;
      }
      var balance := Get(store.balances, to);
      WriteBalance(to, balance + amount);
      store := store.(supply := store.supply + amount);
      r := Returned(());
    }

    method BurnTokens(actor: Address, from: Address, amount: int) returns (r: Outcome<()>)
      modifies this
      ensures Did(Spec.Burn(old(store), actor, from, amount), store, r)
    {
      if amount < 0 || actor != store.minter {
        return Panicked;
      }
      var balance := Get(store.balances, from);
      if balance < amount {
        return Panicked;
      }
      WriteBalance(from, balance - amount);
      store := store.(supply := store.supply - amount);
      r := Returned(());
    }

    method ApproveSpender(from: Address, spender: Address, amount: int) returns (r: Outcome<()>)
      modifies this
      ensures Did(Spec.Approve(old(store), from, spender, amount), store, r)
    {
      if amount < 0 {
        return Panicked;
      }
      store := store.(allowances := store.allowances[(from, spender) := amount]);
      r := Returned(());
    }

    method TransferTokens(from: Address, to: Address, amount: int) returns (r: Outcome<()>)
      modifies this
      ensures Did(Spec.Transfer(old(store), from, to, amount), store, r)
    {
      if amount < 0 {
        return Panicked;
      }
      var fromBalance := Get(store.balances, from);
      if fromBalance < amount {
        return Panicked;
      }
      WriteBalance(from, fromBalance - amount);
      var toBalance := Get(store.balances, to);
      WriteBalance(to, toBalance + amount);
      r := Returned(());
    }

    method SpendFrom(from: Address, spender: Address, amount: int) returns (ok: bool)
      modifies this
      ensures ok <==> SpendAllowance(old(store), from, spender, amount).Some?
      ensures ok ==> store == SpendAllowance(old(store), from, spender, amount).value
    {
      var allowance := Get(store.allowances, (from, spender));
      if allowance < amount {
        return false;
      }
      store := store.(allowances := store.allowances[(from, spender) := allowance - amount]);
      ok := true;
    }

    method TransferTokensFrom(spender: Address, from: Address, to: Address, amount: int) returns (r: Outcome<()>)
      modifies this
      ensures Did(Spec.TransferFrom(old(store), spender, from, to, amount), store, r)
    {
      if amount < 0 {
        return Panicked;
      }
      var allowed := SpendFrom(from, spender, amount);
      if !allowed {
        return Panicked;
      }
      var fromBalance := Get(store.balances, from);
      if fromBalance < amount {
        return Panicked;
      }
      WriteBalance(from, fromBalance - amount);
      var toBalance := Get(store.balances, to);
      WriteBalance(to, toBalance + amount);
      r := Returned(());
    }

    method ChangeMinter(actor: Address, minter: Address) returns (r: Outcome<()>)
      modifies this
      ensures Did(Spec.SetMinter(old(store), actor, minter), store, r)
    {
      if actor != store.admin {
        return Panicked;
      }
      store := store.(minter := minter);
      r := Returned(());
    }

    method ChangeAdmin(actor: Address, admin: Address) returns (r: Outcome<()>)
      modifies this
      ensures Did(Spec.SetAdmin(old(store), actor, admin), store, r)
    {
      if actor != store.admin {
        return Panicked;
      }
      store := store.(admin := admin);
      r := Returned(());
    }

    /** One transaction: runs the call and discards its writes if it panicked. */
    method Transact(op: Op) returns (ok: bool)
      modifies this
      ensures store == Step(old(store), op) && (ok <==> Call(old(store), op).Some?)
    {
      hide Spec.Mint, Spec.Burn, Spec.Approve, Spec.Transfer, Spec.TransferFrom;
      var before := store;
      var r: Outcome<()>;
      match op {
        case OpMint(actor, to, amount) => r := MintTokens(actor, to, amount);
        case OpBurn(actor, from, amount) => r := BurnTokens(actor, from, amount);
        case OpApprove(from, spender, amount) => r := ApproveSpender(from, spender, amount);
        case OpTransfer(from, to, amount) => r := TransferTokens(from, to, amount);
        case OpTransferFrom(spender, from, to, amount) => r := TransferTokensFrom(spender, from, to, amount);
        case OpSetMinter(actor, minter) => r := ChangeMinter(actor, minter);
        case OpSetAdmin(actor, admin) => r := ChangeAdmin(actor, admin);
      }
      ok := r.Returned?;
      if !ok {
        store := before;
      }
    }
  }
}
