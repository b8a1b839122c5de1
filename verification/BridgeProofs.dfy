/** Whole-run properties of the bridge: what backs the supply, at most one mint per hash, and nonces without gaps. */
module BridgeProofs {
  import opened Base
  import T = TokenSpec
  import TP = TokenProofs
  import opened BridgeSpec

  // ---------- supply and locked amount ----------

  /** sXLM on this side plus sXLM booked as being on the other side. */
  function Circulating(b: Bridge): int { b.token.supply + b.locked }

  /** The amount of a release that goes through although less than it is booked as locked; such a release mints but unlocks nothing. */
  function Excess(b: Bridge, op: Op): int {
    if op.OpRelease? && ReleaseFromEvm(b, op.actor, op.to, op.amount, op.hash, op.chain).Some? && b.locked < op.amount
    then op.amount else 0
  }

  /** Mints and burns by a minter other than the bridge. */
  function Foreign(b: Bridge, op: Op): int {
    if op.OpToken? && Signer(op.call) != b.self then TP.Issued(b.token, op.call) else 0
  }

  function TotalExcess(b: Bridge, ops: seq<Op>): int
    decreases |ops|
  {
    if ops == [] then 0 else Excess(b, ops[0]) + TotalExcess(Step(b, ops[0]), ops[1..])
  }

  function TotalForeign(b: Bridge, ops: seq<Op>): int
    decreases |ops|
  {
    if ops == [] then 0 else Foreign(b, ops[0]) + TotalForeign(Step(b, ops[0]), ops[1..])
  }

  /** Every release that goes through is covered by the locked amount. */
  ghost predicate Covered(b: Bridge, ops: seq<Op>)
    decreases |ops|
  {
    ops == [] || (Excess(b, ops[0]) == 0 && Covered(Step(b, ops[0]), ops[1..]))
  }

  ghost predicate Sound(b: Bridge) {
    TP.Ledger(b.token) && 0 <= b.locked && 0 < b.minimum
  }

  lemma BurnIsAStep(t: T.Token, actor: Address, from: Address, amount: int)
    ensures T.Burn(t, actor, from, amount).Some? ==>
      && T.Step(t, T.OpBurn(actor, from, amount)) == T.Burn(t, actor, from, amount).value.0
      && T.Burn(t, actor, from, amount).value.0.supply == t.supply - amount
  {}

  lemma MintIsAStep(t: T.Token, actor: Address, to: Address, amount: int)
    ensures T.Mint(t, actor, to, amount).Some? ==>
      && T.Step(t, T.OpMint(actor, to, amount)) == T.Mint(t, actor, to, amount).value.0
      && T.Mint(t, actor, to, amount).value.0.supply == t.supply + amount
  {}

  lemma CirculatingStep(b: Bridge, op: Op)
    requires Sound(b)
    ensures Sound(Step(b, op)) && 0 <= Excess(b, op)
    ensures Circulating(Step(b, op)) == Circulating(b) + Excess(b, op) + Foreign(b, op)
  {
    hide T.Burn, T.Mint, T.Step, TP.Ledger, TP.Issued;
    match op
    case OpOut(sender, _, amount, _) =>
      BurnIsAStep(b.token, b.self, sender, amount);
      TP.LedgerStep(b.token, T.OpBurn(b.self, sender, amount));
    case OpRelease(_, to, amount, _, _) =>
      MintIsAStep(b.token, b.self, to, amount);
      TP.LedgerStep(b.token, T.OpMint(b.self, to, amount));
    case OpToken(call) => TP.LedgerStep(b.token, call);
    case _ =>
  }

  /** In every run the circulating total moves exactly by the uncovered releases and by foreign minting;
      so, without foreign minting, it is unchanged if and only if every release was covered when it went through. */
  lemma {:induction false} CirculatingOverRuns(b: Bridge, ops: seq<Op>)
    requires Sound(b)
    ensures Sound(Run(b, ops)) && 0 <= TotalExcess(b, ops)
    ensures Circulating(Run(b, ops)) == Circulating(b) + TotalExcess(b, ops) + TotalForeign(b, ops)
    ensures TotalForeign(b, ops) == 0 ==> (Circulating(Run(b, ops)) == Circulating(b) <==> Covered(b, ops))
    ensures TotalExcess(b, ops) == 0 <==> Covered(b, ops)
    decreases |ops|
  {
    if ops != [] {
      CirculatingStep(b, ops[0]);
      hide Step, Sound, Circulating, Excess, Foreign;
      CirculatingOverRuns(Step(b, ops[0]), ops[1..]);
    }
  }

  /** Only the token's single minter can burn or mint: unless that is the bridge itself, nothing crosses,
      and a release that passes the bridge's own checks goes through if and only if it is. */
  lemma BridgeMustBeTheMinter(b: Bridge, op: Op)
    ensures Emit(b, op) != [] ==> b.token.minter == b.self
    ensures op.OpRelease? && op.actor == b.relayer && !b.paused && op.amount > 0 && Supported(op.chain) && op.hash !in b.processed ==>
      (Emit(b, op) != [] <==> b.token.minter == b.self)
  {}

  // ---------- at most one mint per hash ----------

  function Releases(trace: seq<Event>, hash: Bytes): nat {
    if trace == [] then 0
    else
      var n := |trace| - 1;
      Releases(trace[..n], hash) + if trace[n].Released? && trace[n].hash == hash then 1 else 0
  }

  function Sent(trace: seq<Event>, user: Address): nat {
    if trace == [] then 0
    else
      var n := |trace| - 1;
      Sent(trace[..n], user) + if trace[n].BridgedOut? && trace[n].sender == user then 1 else 0
  }

  /** The stored marks and nonces are what the events so far add up to. */
  ghost predicate Recorded(b: Bridge, trace: seq<Event>) {
    && (forall hash :: Releases(trace, hash) == if hash in b.processed then 1 else 0)
    && (forall user :: Sent(trace, user) == Nonce(b, user))
    && (forall i :: 0 <= i < |trace| && trace[i].BridgedOut? ==> trace[i].nonce == Sent(trace[..i], trace[i].sender) + 1)
  }

  lemma StepOnMarks(b: Bridge, op: Op)
    ensures var t, es := Step(b, op), Emit(b, op);
      && |es| <= 1
      && (es != [] && es[0].Released? ==> es[0].hash !in b.processed && t.processed == b.processed + {es[0].hash})
      && (es == [] || es[0].BridgedOut? ==> t.processed == b.processed)
      && (es != [] && es[0].BridgedOut? ==>
           es[0].nonce == Nonce(b, es[0].sender) + 1 && t.nonces == b.nonces[es[0].sender := es[0].nonce])
      && (es == [] || es[0].Released? ==> t.nonces == b.nonces)
  {
    hide T.Burn, T.Mint, T.Step;
  }

  lemma Appended(trace: seq<Event>, e: Event, hash: Bytes, user: Address)
    ensures Releases(trace + [e], hash) == Releases(trace, hash) + if e.Released? && e.hash == hash then 1 else 0
    ensures Sent(trace + [e], user) == Sent(trace, user) + if e.BridgedOut? && e.sender == user then 1 else 0
  {}

  lemma RecordedStep(b: Bridge, trace: seq<Event>, op: Op)
    requires Recorded(b, trace)
    ensures Recorded(Step(b, op), trace + Emit(b, op))
  {
    var es, t := Emit(b, op), Step(b, op);
    StepOnMarks(b, op);
    hide Step, Emit, Releases, Sent;
    if es == [] {
      assert trace + es == trace;
    } else {
      assert es == [es[0]];
      forall hash, user { Appended(trace, es[0], hash, user); }
      forall hash ensures Releases(trace + es, hash) == if hash in t.processed then 1 else 0 {
        Appended(trace, es[0], hash, t.self);
      }
      forall user ensures Sent(trace + es, user) == Nonce(t, user) {
        Appended(trace, es[0], [], user);
      }
      forall i | 0 <= i < |trace + es| && (trace + es)[i].BridgedOut?
        ensures (trace + es)[i].nonce == Sent((trace + es)[..i], (trace + es)[i].sender) + 1
      {
        assert (trace + es)[..i] == trace[..i];
        if i == |trace| { assert trace[..i] == trace; }
      }
    }
  }

  lemma InitialRecorded(self: Address, admin: Address, relayer: Address, minimum: int, token: T.Token)
    requires TP.Ledger(token)
    ensures Initial(self, admin, relayer, minimum, token).Some? ==>
      var b := Initial(self, admin, relayer, minimum, token).value; Sound(b) && Recorded(b, [])
  {}

  /** From deployment on, in every run: each hash is released at most once, exactly when it is marked processed; and the
      n-th transfer a user sends carries nonce n. */
  lemma {:induction false} RecordOverRuns(b: Bridge, trace: seq<Event>, ops: seq<Op>)
    requires Recorded(b, trace)
    ensures Recorded(Run(b, ops), trace + Trace(b, ops))
    decreases |ops|
  {
    if ops == [] {
      assert trace + Trace(b, ops) == trace;
    } else {
      var t, es := Step(b, ops[0]), Emit(b, ops[0]);
      var rest := Trace(t, ops[1..]);
      assert Trace(b, ops) == es + rest && Run(b, ops) == Run(t, ops[1..]);
      RecordedStep(b, trace, ops[0]);
      RecordOverRuns(t, trace + es, ops[1..]);
      ConcatAssociates(trace, es, rest);
      hide Step, Emit, Recorded, Trace, Run;
    }
  }

  /** Two transfers of one sender never share a nonce. */
  lemma NoncesDistinct(b: Bridge, trace: seq<Event>, i: nat, j: nat)
    requires Recorded(b, trace) && i < j < |trace|
    requires trace[i].BridgedOut? && trace[j].BridgedOut? && trace[i].sender == trace[j].sender
    ensures trace[i].nonce < trace[j].nonce
  {
    SentMono(trace, i + 1, j, trace[i].sender);
    assert trace[..i + 1] == trace[..i] + [trace[i]];
    Appended(trace[..i], trace[i], [], trace[i].sender);
  }

  lemma {:induction false} SentMono(trace: seq<Event>, i: nat, j: nat, user: Address)
    requires i <= j <= |trace|
    ensures Sent(trace[..i], user) <= Sent(trace[..j], user)
    decreases j
  {
    if i < j {
      SentMono(trace, i, j - 1, user);
      assert trace[..j][..j - 1] == trace[..j - 1];
    }
  }
}
