/** The retry queue in front of the bridge: at-least-once delivery to an idempotent receiver. */
module Relayer {
  import opened Base
  import opened Arith
  import B = BridgeSpec
  import BP = BridgeProofs
  import R = RetrySpec
  import RP = RetryProofs

  /** wsXLM has 18 decimals, sXLM has 7. */
  const SCALE := 100_000_000_000

  function ToEvm(stellarAmount: int): int { stellarAmount * SCALE }

  function ToStellar(evmAmount: int): int { TDiv(evmAmount, SCALE) }

  /** `key` is the account the relayer signs releases with. */
  datatype System = System(bridge: B.Bridge, machine: R.Machine, cfg: R.Config, key: Address)

  /** How one retry meets the outside world: whether the call takes effect there, and whether the relayer learns of success.
      A call that took effect may still be reported as failed, for instance on a confirmation timeout. */
  datatype Weather = Weather(lands: bool, confirmed: bool, error: string, now: int)

  datatype Act =
    | OnBridge(bop: B.Op)
    | Direct(to: Address, evmAmount: int, hash: B.Bytes, chain: nat)
    | Enqueue(item: R.Item)
    | Start(now: int, ready: seq<R.Item>)
    | Retry(weather: Weather)
    | Requeue(id: string, now: int, listing: seq<R.Item>)

  /** The bridge call that a retry of this payload makes; minting on the EVM side is outside this chain.
      Dividing anything but a bigint by a bigint throws before a call is made. */
  function ReleaseCall(y: System, p: R.Payload): Option<B.Op> {
    if p.EvmToStellar? && p.amount.Big? then Some(B.OpRelease(y.key, p.to, ToStellar(p.amount.value), p.hash, p.chain))
    else None
  }

  predicate Idle(m: R.Machine) { !m.busy || m.pending == [] }

  /** What this act makes the bridge execute. */
  function BridgeCalls(y: System, act: Act): seq<B.Op> {
    match act
    case OnBridge(bop) => [bop]
    case Direct(to, evmAmount, hash, chain) => [B.OpRelease(y.key, to, ToStellar(evmAmount), hash, chain)]
    case Retry(w) =>
      if Idle(y.machine) || !w.lands then []
      else (match ReleaseCall(y, y.machine.pending[0].payload) case None => [] case Some(call) => [call])
    case _ => []
  }

  /** Whether the bridge executes the call instead of panicking. */
  function Accepts(b: B.Bridge, call: B.Op): bool { B.Emit(b, call) != [] }

  /** The processor resolves only if the amount is a bigint and the call landed, was executed, and was seen to be. */
  function ResultOf(y: System, w: Weather): R.Result
    requires !Idle(y.machine)
  {
    var p := y.machine.pending[0].payload;
    var call := ReleaseCall(y, p);
    if p.amount.Big? && w.lands && w.confirmed && (call.Some? ==> Accepts(y.bridge, call.value)) then R.Resolved
    else R.Rejected(w.error, w.now)
  }

  /** What this act makes the queue do. */
  function QueueOps(y: System, act: Act): seq<R.Op> {
    match act
    case Enqueue(item) => [R.OpAdd(item)]
    case Start(now, ready) => [R.OpStart(now, ready)]
    case Retry(w) => [R.OpTry(if Idle(y.machine) then R.Resolved else ResultOf(y, w))]
    case Requeue(id, now, listing) => [R.OpRequeue(id, now, listing)]
    case _ => []
  }

  ghost function Step(y: System, act: Act): System {
    y.(bridge := B.Run(y.bridge, BridgeCalls(y, act)), machine := R.Run(y.machine, y.cfg, QueueOps(y, act)))
  }

  ghost function Run(y: System, acts: seq<Act>): System
    decreases |acts|
  {
    if acts == [] then y else Run(Step(y, acts[0]), acts[1..])
  }

  ghost function AllBridgeCalls(y: System, acts: seq<Act>): seq<B.Op>
    decreases |acts|
  {
    if acts == [] then [] else BridgeCalls(y, acts[0]) + AllBridgeCalls(Step(y, acts[0]), acts[1..])
  }

  ghost function AllQueueOps(y: System, acts: seq<Act>): seq<R.Op>
    decreases |acts|
  {
    if acts == [] then [] else QueueOps(y, acts[0]) + AllQueueOps(Step(y, acts[0]), acts[1..])
  }

  /** Every release the relayer asks for names the account, hash and chain of the event and the scaled-down amount, under the
      relayer's own key; a retry asks for it exactly if an EVM item with a bigint amount is being processed and the call lands. */
  lemma CallsExactly(y: System, act: Act, units: int)
    ensures act.Direct? && 0 <= act.evmAmount && IsFloor(units, act.evmAmount, 100_000_000_000) ==>
      BridgeCalls(y, act) == [B.OpRelease(y.key, act.to, units, act.hash, act.chain)]
    ensures act.Retry? && !Idle(y.machine) ==>
      var p := y.machine.pending[0].payload;
      && (p.EvmToStellar? && p.amount.Big? && act.weather.lands && 0 <= p.amount.value && IsFloor(units, p.amount.value, 100_000_000_000) ==>
           BridgeCalls(y, act) == [B.OpRelease(y.key, p.to, units, p.hash, p.chain)])
      && (!(p.EvmToStellar? && p.amount.Big? && act.weather.lands) ==> BridgeCalls(y, act) == [])
    ensures act.Retry? && Idle(y.machine) ==> BridgeCalls(y, act) == []
  {
    if act.Direct? && 0 <= act.evmAmount && IsFloor(units, act.evmAmount, 100_000_000_000) { UnitsAre(act.evmAmount, units); }
    if act.Retry? && !Idle(y.machine) {
      var p := y.machine.pending[0].payload;
      if p.EvmToStellar? && p.amount.Big? && 0 <= p.amount.value && IsFloor(units, p.amount.value, 100_000_000_000) { UnitsAre(p.amount.value, units); }
    }
    hide IsFloor, ToStellar;
  }

  lemma UnitsAre(evmAmount: int, units: int)
    requires 0 <= evmAmount && IsFloor(units, evmAmount, 100_000_000_000)
    ensures ToStellar(evmAmount) == units
  {
    TruncationIsFloor(evmAmount, 100_000_000_000);
    OneFloor(units, TDiv(evmAmount, 100_000_000_000), evmAmount, 100_000_000_000);
  }

  /** How a retry of an acceptable release ends: the hash is released exactly if the call lands, and the retry counts as success
      exactly if that was also confirmed. A confirmation that is lost makes it a failure that took effect. */
  lemma OutcomeExactly(y: System, w: Weather)
    requires !Idle(y.machine) && y.machine.pending[0].payload.EvmToStellar? && y.machine.pending[0].payload.amount.Big?
    requires Accepts(y.bridge, ReleaseCall(y, y.machine.pending[0].payload).value)
    ensures y.machine.pending[0].payload.hash in Step(y, Retry(w)).bridge.processed <==> w.lands
    ensures ResultOf(y, w) == if w.lands && w.confirmed then R.Resolved else R.Rejected(w.error, w.now)
  {
    var call := ReleaseCall(y, y.machine.pending[0].payload).value;
    SingleRun(y.bridge, BridgeCalls(y, Retry(w)));
    MarksStay(y.bridge, call);
    if call.hash in y.bridge.processed { RepeatIsRefused(y.bridge, call); }
    hide Accepts, B.Step, B.Run, R.Run;
  }

  /** What cannot succeed fails: an amount that is no bigint, or a release the bridge refuses. */
  lemma FailuresExactly(y: System, w: Weather)
    requires !Idle(y.machine)
    ensures var p := y.machine.pending[0].payload;
      && (p.amount.Text? ==> ResultOf(y, w) == R.Rejected(w.error, w.now))
      && (p.StellarToEvm? && p.amount.Big? ==> ResultOf(y, w) == if w.lands && w.confirmed then R.Resolved else R.Rejected(w.error, w.now))
      && (p.EvmToStellar? && p.amount.Big? && !Accepts(y.bridge, ReleaseCall(y, p).value) ==>
           ResultOf(y, w) == R.Rejected(w.error, w.now))
  {
    hide Accepts;
  }

  // ---------- the two halves run as specified ----------

  lemma {:induction false} BridgeRunConcat(b: B.Bridge, x: seq<B.Op>, z: seq<B.Op>)
    ensures B.Run(b, x + z) == B.Run(B.Run(b, x), z)
    ensures B.Trace(b, x + z) == B.Trace(b, x) + B.Trace(B.Run(b, x), z)
    decreases |x|
  {
    hide B.Step, B.Emit;
    if x == [] {
      assert x + z == z;
    } else {
      assert (x + z)[1..] == x[1..] + z;
      BridgeRunConcat(B.Step(b, x[0]), x[1..], z);
    }
  }

  lemma {:induction false} QueueRunConcat(m: R.Machine, cfg: R.Config, x: seq<R.Op>, z: seq<R.Op>)
    ensures R.Run(m, cfg, x + z) == R.Run(R.Run(m, cfg, x), cfg, z)
    ensures R.Trace(m, cfg, x + z) == R.Trace(m, cfg, x) + R.Trace(R.Run(m, cfg, x), cfg, z)
    decreases |x|
  {
    hide R.Step, R.Emit;
    if x == [] {
      assert x + z == z;
    } else {
      assert (x + z)[1..] == x[1..] + z;
      QueueRunConcat(R.Step(m, cfg, x[0]), cfg, x[1..], z);
    }
  }

  /** Seen from the bridge, an interleaved run is just a run of bridge calls; seen from the queue, just a run of queue steps. */
  lemma {:induction false} Projections(y: System, acts: seq<Act>)
    ensures Run(y, acts).bridge == B.Run(y.bridge, AllBridgeCalls(y, acts))
    ensures Run(y, acts).machine == R.Run(y.machine, y.cfg, AllQueueOps(y, acts))
    ensures Run(y, acts).cfg == y.cfg && Run(y, acts).key == y.key
    decreases |acts|
  {
    if acts != [] {
      var t := Step(y, acts[0]);
      Projections(t, acts[1..]);
      BridgeRunConcat(y.bridge, BridgeCalls(y, acts[0]), AllBridgeCalls(t, acts[1..]));
      QueueRunConcat(y.machine, y.cfg, QueueOps(y, acts[0]), AllQueueOps(t, acts[1..]));
      hide BridgeCalls, QueueOps, B.Run, R.Run;
    }
  }

  // ---------- the composed guarantee ----------

  /** Everything the bridge published over a run. */
  ghost function Published(y: System, acts: seq<Act>): seq<B.Event> {
    B.Trace(y.bridge, AllBridgeCalls(y, acts))
  }

  /** For every interleaving of direct calls, retries and requeues, and however often calls are repeated or reports lost:
      each hash is released at most once, exactly when it is marked. */
  lemma EachHashMintsAtMostOnce(y: System, acts: seq<Act>, hash: B.Bytes)
    requires BP.Recorded(y.bridge, [])
    ensures BP.Releases(Published(y, acts), hash) == if hash in Run(y, acts).bridge.processed then 1 else 0
  {
    Projections(y, acts);
    BP.RecordOverRuns(y.bridge, [], AllBridgeCalls(y, acts));
    assert [] + Published(y, acts) == Published(y, acts);
    hide Run, AllBridgeCalls, BP.Releases, BP.Sent;
  }

  /** Over every interleaving the circulating total moves exactly by uncovered releases and foreign minting. */
  lemma CirculationOverInterleavings(y: System, acts: seq<Act>)
    requires BP.Sound(y.bridge)
    ensures var calls := AllBridgeCalls(y, acts);
      && BP.Circulating(Run(y, acts).bridge)
           == BP.Circulating(y.bridge) + BP.TotalExcess(y.bridge, calls) + BP.TotalForeign(y.bridge, calls)
      && (BP.TotalForeign(y.bridge, calls) == 0 ==>
           (BP.Circulating(Run(y, acts).bridge) == BP.Circulating(y.bridge) <==> BP.Covered(y.bridge, calls)))
  {
    Projections(y, acts);
    BP.CirculatingOverRuns(y.bridge, AllBridgeCalls(y, acts));
    hide Run, AllBridgeCalls, BP.Circulating, BP.Covered, BP.TotalExcess, BP.TotalForeign;
  }

  // ---------- finished means delivered ----------

  /** Items reported as finished in a queue trace. */
  ghost predicate FinishedIn(trace: seq<R.Event>, item: R.Item) {
    R.Finished(item) in trace
  }

  /** Every EVM event whose retry was counted as finished has been released. */
  ghost predicate Delivered(b: B.Bridge, trace: seq<R.Event>) {
    forall item :: FinishedIn(trace, item) && item.payload.EvmToStellar? ==> item.payload.hash in b.processed
  }

  lemma MarksStay(b: B.Bridge, call: B.Op)
    ensures b.processed <= B.Step(b, call).processed
    ensures call.OpRelease? && Accepts(b, call) ==> call.hash in B.Step(b, call).processed
  {}

  lemma SingleRun(b: B.Bridge, calls: seq<B.Op>)
    requires |calls| <= 1
    ensures B.Run(b, calls) == if calls == [] then b else B.Step(b, calls[0])
  {}

  lemma DeliveredStep(y: System, trace: seq<R.Event>, act: Act)
    requires Delivered(y.bridge, trace)
    ensures Delivered(Step(y, act).bridge, trace + R.Trace(y.machine, y.cfg, QueueOps(y, act)))
  {
    var calls := BridgeCalls(y, act);
    var es := R.Trace(y.machine, y.cfg, QueueOps(y, act));
    var c := Step(y, act).bridge;
    SingleRun(y.bridge, calls);
    if calls != [] { MarksStay(y.bridge, calls[0]); }
    forall item | FinishedIn(trace + es, item) && item.payload.EvmToStellar?
      ensures item.payload.hash in c.processed
    {
      if FinishedIn(trace, item) {
      } else {
        assert R.Finished(item) in es;
        FinishedOnlyByRetry(y, act, item);
      }
    }
  }

  lemma FinishedOnlyByRetry(y: System, act: Act, item: R.Item)
    requires R.Finished(item) in R.Trace(y.machine, y.cfg, QueueOps(y, act))
    ensures act.Retry? && !Idle(y.machine) && item == y.machine.pending[0]
    ensures item.payload.EvmToStellar? ==>
      && item.payload.amount.Big? && BridgeCalls(y, act) == [ReleaseCall(y, item.payload).value]
      && Accepts(y.bridge, ReleaseCall(y, item.payload).value)
  {}

  /** A retry is counted as finished only if the release it stands for has happened, and happened once. */
  lemma {:induction false} FinishedMeansDelivered(y: System, trace: seq<R.Event>, acts: seq<Act>)
    requires Delivered(y.bridge, trace)
    ensures Delivered(Run(y, acts).bridge, trace + R.Trace(y.machine, y.cfg, AllQueueOps(y, acts)))
    decreases |acts|
  {
    if acts == [] {
      assert trace + R.Trace(y.machine, y.cfg, []) == trace;
    } else {
      var t := Step(y, acts[0]);
      var es := R.Trace(y.machine, y.cfg, QueueOps(y, acts[0]));
      var rest := R.Trace(t.machine, y.cfg, AllQueueOps(t, acts[1..]));
      DeliveredStep(y, trace, acts[0]);
      FinishedMeansDelivered(t, trace + es, acts[1..]);
      QueueRunConcat(y.machine, y.cfg, QueueOps(y, acts[0]), AllQueueOps(t, acts[1..]));
      ConcatAssociates(trace, es, rest);
      hide Delivered, R.Trace, R.Run, B.Run, QueueOps, BridgeCalls;
    }
  }

  // ---------- a lost confirmation ----------

  /** Once its hash is released, no retry of an EVM item is ever counted as finished, whatever else happens. */
  lemma {:induction false} ReleasedNeverFinishes(y: System, acts: seq<Act>, item: R.Item)
    requires item.payload.EvmToStellar? && item.payload.hash in y.bridge.processed
    ensures !FinishedIn(R.Trace(y.machine, y.cfg, AllQueueOps(y, acts)), item)
    decreases |acts|
  {
    if acts != [] {
      var t := Step(y, acts[0]);
      var calls, ops := BridgeCalls(y, acts[0]), QueueOps(y, acts[0]);
      SingleRun(y.bridge, calls);
      if calls != [] { MarksStay(y.bridge, calls[0]); }
      ReleasedNeverFinishes(t, acts[1..], item);
      QueueRunConcat(y.machine, y.cfg, ops, AllQueueOps(t, acts[1..]));
      if FinishedIn(R.Trace(y.machine, y.cfg, ops), item) {
        FinishedOnlyByRetry(y, acts[0], item);
        RepeatIsRefused(y.bridge, ReleaseCall(y, item.payload).value);
      }
      hide R.Trace, R.Run, B.Run, QueueOps, BridgeCalls;
    }
  }

  lemma RepeatIsRefused(b: B.Bridge, call: B.Op)
    requires call.OpRelease? && call.hash in b.processed
    ensures !Accepts(b, call) && B.Step(b, call) == b
  {}

  /** A queued item whose hash is released fails every try it gets. */
  lemma LostStep(y: System, trace: seq<R.Event>, act: Act, op: R.Op, item: R.Item)
    requires RP.Settled(y.machine, trace) && RP.Pending(y.machine) && RP.HeldAs(trace, item)
    requires item.payload.EvmToStellar? && item.payload.hash in y.bridge.processed
    requires QueueOps(y, act) == [op] && (act.Requeue? ==> act.id != item.id)
    ensures RP.OnlyFails(y.machine, op, item.id)
  {
    if act.Retry? && !Idle(y.machine) && y.machine.pending[0].id == item.id {
      var it := y.machine.pending[0];
      assert it in y.machine.pending && RP.LocatedAt(y.machine.q, trace, it);
      assert it.payload == item.payload;
      hide RP.HomeOf, RP.Settled, RP.Pending;
      if ReleaseCall(y, it.payload).Some? { RepeatIsRefused(y.bridge, ReleaseCall(y, it.payload).value); }
      hide B.Step, B.Emit;
    }
  }

  lemma SingleQueueRun(m: R.Machine, cfg: R.Config, ops: seq<R.Op>)
    requires |ops| <= 1
    ensures R.Run(m, cfg, ops) == if ops == [] then m else R.Step(m, cfg, ops[0])
    ensures R.Trace(m, cfg, ops) == if ops == [] then [] else R.Emit(m, cfg, ops[0])
  {
    hide R.Step, R.Emit;
    if ops != [] {
      assert R.Trace(m, cfg, ops) == R.Emit(m, cfg, ops[0]) + R.Trace(R.Step(m, cfg, ops[0]), cfg, []);
    }
  }

  lemma FreshOp(m: R.Machine, cfg: R.Config, trace: seq<R.Event>, op: R.Op, rest: seq<R.Op>)
    requires RP.FreshRun(m, cfg, trace, [op] + rest)
    ensures RP.Fresh(trace, op) && RP.FreshRun(R.Step(m, cfg, op), cfg, trace + R.Emit(m, cfg, op), rest)
  {
    assert ([op] + rest)[1..] == rest;
    hide R.Step, R.Emit, RP.Fresh;
  }

  /** Nobody requeues that id from the dead letters. */
  predicate NotRequeued(acts: seq<Act>, id: string) {
    forall act :: act in acts && act.Requeue? ==> act.id != id
  }

  /** What one act leaves of such an item. */
  lemma LostAct(y: System, trace: seq<R.Event>, act: Act, rest: seq<R.Op>, item: R.Item)
    requires RP.Settled(y.machine, trace) && RP.Pending(y.machine)
    requires RP.FreshRun(y.machine, y.cfg, trace, QueueOps(y, act) + rest)
    requires RP.HeldAs(trace, item) && (act.Requeue? ==> act.id != item.id)
    requires item.payload.EvmToStellar? && item.payload.hash in y.bridge.processed
    ensures var es, t := R.Trace(y.machine, y.cfg, QueueOps(y, act)), Step(y, act);
      && RP.Settled(t.machine, trace + es) && RP.Pending(t.machine) && RP.FreshRun(t.machine, t.cfg, trace + es, rest)
      && RP.HeldAs(trace + es, item) && RP.NeverFinishes(es, item.id) && item.payload.hash in t.bridge.processed
      && RP.Failures(trace + es, item.id) == RP.Failures(trace, item.id) + RP.TriesOf(es, item.id)
  {
    var ops := QueueOps(y, act);
    SingleRun(y.bridge, BridgeCalls(y, act));
    if BridgeCalls(y, act) != [] { MarksStay(y.bridge, BridgeCalls(y, act)[0]); }
    SingleQueueRun(y.machine, y.cfg, ops);
    if ops == [] {
      assert trace + [] == trace && ops + rest == rest;
    } else {
      LostStep(y, trace, act, ops[0], item);
      FreshOp(y.machine, y.cfg, trace, ops[0], rest);
      RP.HeldStep(y.machine, y.cfg, trace, ops[0], item);
      RP.SettledStep(y.machine, y.cfg, trace, ops[0]);
      RP.PendingStep(y.machine, y.cfg, trace, ops[0]);
    }
    hide RP.Settled, RP.Pending, RP.HeldAs, RP.FreshRun, RP.Fresh, RP.Failures, RP.OnlyFails, R.Step, R.Emit, B.Step, B.Emit, R.Run,
      R.Trace, B.Run, QueueOps, BridgeCalls;
  }

  lemma {:induction false} LostOverRuns(y: System, trace: seq<R.Event>, acts: seq<Act>, item: R.Item)
    requires RP.Settled(y.machine, trace) && RP.Pending(y.machine)
    requires RP.FreshRun(y.machine, y.cfg, trace, AllQueueOps(y, acts))
    requires RP.HeldAs(trace, item) && NotRequeued(acts, item.id)
    requires item.payload.EvmToStellar? && item.payload.hash in y.bridge.processed
    ensures var es, z := R.Trace(y.machine, y.cfg, AllQueueOps(y, acts)), Run(y, acts);
      && RP.Settled(z.machine, trace + es) && RP.HeldAs(trace + es, item) && RP.NeverFinishes(es, item.id)
      && RP.Failures(trace + es, item.id) == RP.Failures(trace, item.id) + RP.TriesOf(es, item.id)
    decreases |acts|
  {
    if acts == [] {
      assert trace + R.Trace(y.machine, y.cfg, []) == trace;
      hide RP.Settled, RP.HeldAs, RP.Failures;
    } else {
      var t, rest := Step(y, acts[0]), acts[1..];
      var ops, later := QueueOps(y, acts[0]), AllQueueOps(t, rest);
      var es, fs := R.Trace(y.machine, y.cfg, ops), R.Trace(t.machine, y.cfg, later);
      LostAct(y, trace, acts[0], later, item);
      LostOverRuns(t, trace + es, rest, item);
      QueueRunConcat(y.machine, y.cfg, ops, later);
      ConcatAssociates(trace, es, fs);
      RP.TriesOfConcat(es, fs, item.id);
      hide RP.Settled, RP.Pending, RP.HeldAs, RP.FreshRun, RP.Failures, R.Run, R.Trace, B.Run, QueueOps, BridgeCalls;
      assert Run(y, acts) == Run(t, rest) && AllQueueOps(y, acts) == ops + later;
    }
  }

  /** A queued release that took effect but was reported as failed: in every run it never counts as finished, gets at most the
      tries it has left, stays queued while any is left, and is a dead letter exactly when the last one is spent. */
  lemma LostItemIsBuried(y: System, trace: seq<R.Event>, acts: seq<Act>, item: R.Item)
    requires RP.Settled(y.machine, trace) && RP.Pending(y.machine)
    requires RP.FreshRun(y.machine, y.cfg, trace, AllQueueOps(y, acts))
    requires item in y.machine.q.retry && NotRequeued(acts, item.id)
    requires item.payload.EvmToStellar? && item.payload.hash in y.bridge.processed
    ensures var es, q := R.Trace(y.machine, y.cfg, AllQueueOps(y, acts)), Run(y, acts).machine.q;
      var left := RP.Limit(item) + 1 - item.attempts;
      && 0 < left && RP.NeverFinishes(es, item.id) && RP.TriesOf(es, item.id) <= left
      && ((exists it: R.Item :: it in q.dead && it.id == item.id) <==> RP.TriesOf(es, item.id) == left)
      && ((exists it: R.Item :: it in q.retry && it.id == item.id) <==> RP.TriesOf(es, item.id) < left)
  {
    assert RP.LocatedAt(y.machine.q, trace, item) && RP.CountedAt(trace, item.id);
    LostOverRuns(y, trace, acts, item);
    var es, z := R.Trace(y.machine, y.cfg, AllQueueOps(y, acts)), Run(y, acts);
    hide RP.Settled, RP.Failures, RP.HomeOf, Run, AllQueueOps, R.Trace;
    RP.HeldPlace(z.machine, trace + es, item);
  }

  // ---------- what plain JSON does to the queue ----------

  /** No bigint is queued: what comes out of plain JSON never holds one. */
  ghost predicate NoBigints(m: R.Machine) {
    && (forall item :: item in m.q.retry || item in m.q.dead ==> item.payload.amount.Text?)
    && (forall item :: item in m.pending ==> item.payload.amount.Text?)
  }

  /** The calls that reach the bridge without the queue. */
  function Unaided(key: Address, acts: seq<Act>): seq<B.Op> {
    if acts == [] then []
    else (match acts[0]
          case OnBridge(bop) => [bop]
          case Direct(to, evmAmount, hash, chain) => [B.OpRelease(key, to, ToStellar(evmAmount), hash, chain)]
          case _ => []) + Unaided(key, acts[1..])
  }

  lemma NoBigintsStep(m: R.Machine, cfg: R.Config, op: R.Op)
    requires cfg.codec.PlainJson? && NoBigints(m)
    ensures NoBigints(R.Step(m, cfg, op))
  {
    hide R.Pow;
    if op.OpRequeue? && R.FirstWith(op.listing, op.id).Some? { RP.FirstWithIsThere(op.listing, op.id); }
    hide R.FirstWith;
  }

  lemma NoBigintsAct(y: System, act: Act)
    requires y.cfg.codec.PlainJson? && NoBigints(y.machine)
    ensures NoBigints(Step(y, act).machine)
    ensures BridgeCalls(y, act) == Unaided(y.key, [act])
    ensures forall e :: e in R.Trace(y.machine, y.cfg, QueueOps(y, act)) ==> !e.Finished?
  {
    var ops := QueueOps(y, act);
    SingleQueueRun(y.machine, y.cfg, ops);
    if ops != [] { NoBigintsStep(y.machine, y.cfg, ops[0]); }
    hide R.IsReady, R.IsListing, R.FirstWith, R.Pow, B.Run, R.Run, R.Trace;
    forall e | e in R.Trace(y.machine, y.cfg, ops) ensures !e.Finished? {}
  }

  /** With plain JSON the retry queue delivers nothing in any run: the bridge sees exactly the calls made without it,
      and no item ever finishes. */
  lemma {:induction false} PlainJsonNeverDelivers(y: System, acts: seq<Act>)
    requires y.cfg.codec.PlainJson? && NoBigints(y.machine)
    ensures AllBridgeCalls(y, acts) == Unaided(y.key, acts)
    ensures forall e :: e in R.Trace(y.machine, y.cfg, AllQueueOps(y, acts)) ==> !e.Finished?
    decreases |acts|
  {
    if acts != [] {
      var t := Step(y, acts[0]);
      NoBigintsAct(y, acts[0]);
      PlainJsonNeverDelivers(t, acts[1..]);
      QueueRunConcat(y.machine, y.cfg, QueueOps(y, acts[0]), AllQueueOps(t, acts[1..]));
      assert Unaided(y.key, acts) == Unaided(y.key, [acts[0]]) + Unaided(y.key, acts[1..]);
      hide R.Trace, R.Run, B.Run, QueueOps, BridgeCalls, NoBigints, Unaided;
    }
  }

  /** Both kinds of event carry a bigint, so the queue of the running relayer never holds anything and no dead letter results. */
  lemma {:induction false} AsWiredNothingIsQueued(y: System, acts: seq<Act>)
    requires y.cfg.codec.PlainJson? && y.machine.q == R.Queues(map[], map[]) && y.machine.pending == []
    requires forall act :: act in acts && act.Enqueue? ==> act.item.payload.amount.Big?
    ensures Run(y, acts).machine.q == R.Queues(map[], map[]) && R.Trace(y.machine, y.cfg, AllQueueOps(y, acts)) == []
    decreases |acts|
  {
    if acts != [] {
      var t, ops := Step(y, acts[0]), QueueOps(y, acts[0]);
      assert acts[0] in acts;
      EmptyStays(y.machine, y.cfg, ops);
      AsWiredNothingIsQueued(t, acts[1..]);
      QueueRunConcat(y.machine, y.cfg, ops, AllQueueOps(t, acts[1..]));
      hide R.Trace, R.Run, B.Run, QueueOps, BridgeCalls;
    }
  }

  lemma EmptyStays(m: R.Machine, cfg: R.Config, ops: seq<R.Op>)
    requires m.q == R.Queues(map[], map[]) && m.pending == [] && |ops| <= 1
    requires ops != [] && ops[0].OpAdd? ==> !R.Encodable(cfg, ops[0].item)
    ensures R.Run(m, cfg, ops).q == m.q && R.Run(m, cfg, ops).pending == [] && R.Trace(m, cfg, ops) == []
  {
    SingleQueueRun(m, cfg, ops);
    if ops != [] && ops[0].OpStart? && R.IsReady(m.q.retry, ops[0].now, ops[0].ready) {
      assert ops[0].ready != [] ==> ops[0].ready[0] in ops[0].ready;
    }
    if ops != [] && ops[0].OpRequeue? && R.FirstWith(ops[0].listing, ops[0].id).Some? {
      RP.FirstWithIsThere(ops[0].listing, ops[0].id);
    }
    hide R.Trace, R.Run;
  }

  /** A failed release that the bridge would accept later is delivered by adding it to the queue and processing it
      if and only if the codec carries bigints. */
  lemma RetryDeliversIff(y: System, item: R.Item, w: Weather)
    requires y.machine == R.EMPTY_MACHINE && 0 <= item.nextRetryAt <= w.now
    requires item.payload.EvmToStellar? && item.payload.amount.Big?
    requires Accepts(y.bridge, ReleaseCall(y, item.payload).value)
    requires w.lands
    ensures var z := Run(y, [Enqueue(item), Start(w.now, Readable(y.cfg, item)), Retry(w)]);
      item.payload.hash in z.bridge.processed <==> y.cfg.codec.BigintAware?
  {
    var acts := [Enqueue(item), Start(w.now, Readable(y.cfg, item)), Retry(w)];
    var a, b := Step(y, acts[0]), Step(Step(y, acts[0]), acts[1]);
    Loaded(y, item, w.now);
    RetriedOnce(y, b, item, w);
    hide Step, Accepts, ReleaseCall, Readable;
    assert acts[1..] == [acts[1], acts[2]] && acts[2..] == [acts[2]];
    assert Run(y, acts) == Run(a, acts[1..]) && Run(a, acts[1..]) == Run(b, [acts[2]]);
    assert Run(b, [acts[2]]) == Step(b, acts[2]);
  }

  /** What Redis hands out after the item was added to an empty queue. */
  function Readable(cfg: R.Config, item: R.Item): seq<R.Item> {
    if R.Encodable(cfg, item) then [item] else []
  }

  lemma Loaded(y: System, item: R.Item, now: int)
    requires y.machine == R.EMPTY_MACHINE && 0 <= item.nextRetryAt <= now
    ensures var ready := Readable(y.cfg, item);
      var b := Step(Step(y, Enqueue(item)), Start(now, ready));
      b == y.(machine := b.machine) && b.machine.busy && b.machine.pending == ready
  {
    var ready := Readable(y.cfg, item);
    var a := Step(y, Enqueue(item));
    SingleQueueRun(y.machine, y.cfg, [R.OpAdd(item)]);
    SingleQueueRun(a.machine, y.cfg, [R.OpStart(now, ready)]);
    assert R.IsReady(a.machine.q.retry, now, ready);
    hide R.Run, R.IsReady, R.Trace;
  }

  lemma RetriedOnce(y: System, b: System, item: R.Item, w: Weather)
    requires b == y.(machine := b.machine) && b.machine.busy && b.machine.pending == Readable(y.cfg, item)
    requires item.payload.EvmToStellar? && item.payload.amount.Big? && w.lands
    requires Accepts(y.bridge, ReleaseCall(y, item.payload).value)
    ensures item.payload.hash in Step(b, Retry(w)).bridge.processed <==> y.cfg.codec.BigintAware?
  {
    var call := ReleaseCall(y, item.payload).value;
    MarksStay(y.bridge, call);
    if call.hash in y.bridge.processed { RepeatIsRefused(y.bridge, call); }
    SingleRun(b.bridge, BridgeCalls(b, Retry(w)));
    hide R.Run, R.Step, B.Step, B.Emit, R.Trace, B.Run, Accepts;
  }

  // ---------- decimals ----------

  /** Scaling up to the EVM side and back is exact; scaling down loses the part below one sXLM unit,
      and an amount of less than one unit can never be released. */
  lemma ScalingRoundTrip(stellarAmount: nat, evmAmount: nat, y: System, w: Weather)
    ensures ToStellar(ToEvm(stellarAmount)) == stellarAmount
    ensures ToEvm(ToStellar(evmAmount)) <= evmAmount < ToEvm(ToStellar(evmAmount)) + SCALE
    ensures 0 < ToStellar(evmAmount) <==> SCALE <= evmAmount
    ensures !Idle(y.machine) && y.machine.pending[0].payload.EvmToStellar?
      && y.machine.pending[0].payload.amount.value == evmAmount < SCALE
      ==> ResultOf(y, w).Rejected?
  {}
}
