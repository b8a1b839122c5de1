/** Whole-run properties of the retry queue: every item is in exactly one place, fails a bounded number of times, and
    retrying stops by itself. */
module RetryProofs {
  import opened Base
  import Arith
  import opened Sums
  import opened RetrySpec

  /** Where an id is, judged from the events alone. */
  datatype Home = Unknown | Waiting(item: Item) | Dead(item: Item) | Done

  function HomeOf(trace: seq<Event>, id: string): Home {
    if trace == [] then Unknown
    else
      var n := |trace| - 1;
      if trace[n].item.id != id then HomeOf(trace[..n], id)
      else
        match trace[n]
        case Queued(item) => Waiting(item)
        case Postponed(item) => Waiting(item)
        case Revived(item) => Waiting(item)
        case Buried(item) => Dead(item)
        case Finished(_) => Done
  }

  /** Failures since the id was last added or requeued. */
  function Failures(trace: seq<Event>, id: string): nat {
    if trace == [] then 0
    else
      var n := |trace| - 1;
      if trace[n].item.id != id then Failures(trace[..n], id)
      else
        match trace[n]
        case Queued(_) => 0
        case Revived(_) => 0
        case Postponed(_) => Failures(trace[..n], id) + 1
        case Buried(_) => Failures(trace[..n], id) + 1
        case Finished(_) => Failures(trace[..n], id)
  }

  lemma Appended(trace: seq<Event>, e: Event, id: string)
    ensures e.item.id != id ==>
      HomeOf(trace + [e], id) == HomeOf(trace, id) && Failures(trace + [e], id) == Failures(trace, id)
    ensures e.item.id == id ==>
      && HomeOf(trace + [e], id) == (match e
           case Queued(item) => Waiting(item) case Postponed(item) => Waiting(item) case Revived(item) => Waiting(item)
           case Buried(item) => Dead(item) case Finished(_) => Done)
      && Failures(trace + [e], id) == (match e
           case Queued(_) => 0 case Revived(_) => 0 case Finished(_) => Failures(trace, id)
           case Postponed(_) => Failures(trace, id) + 1 case Buried(_) => Failures(trace, id) + 1)
  {}

  function Limit(item: Item): nat { Max(item.maxAttempts, 0) }

  /** The queues hold exactly the items whose home they are: nothing lost, nothing twice, nothing in both. */
  ghost predicate LocatedAt(q: Queues, trace: seq<Event>, item: Item) {
    && (item in q.retry <==> HomeOf(trace, item.id) == Waiting(item))
    && (item in q.dead <==> HomeOf(trace, item.id) == Dead(item))
  }

  ghost predicate CountedAt(trace: seq<Event>, id: string) {
    match HomeOf(trace, id)
    case Waiting(item) => item.id == id && item.attempts == Failures(trace, id) <= Limit(item)
    case Dead(item) => item.id == id && item.attempts == Failures(trace, id) == Limit(item) + 1
    case _ => true
  }

  ghost predicate Settled(m: Machine, trace: seq<Event>) {
    && (forall item :: LocatedAt(m.q, trace, item))
    && (forall id :: CountedAt(trace, id))
  }

  /** The running `process` call works on items that are still queued, each once. */
  ghost predicate Pending(m: Machine) {
    && (forall item :: item in m.pending ==> item in m.q.retry)
    && (forall i, j :: 0 <= i < j < |m.pending| ==> m.pending[i] != m.pending[j])
  }

  /** Added items are new: no attempts yet, and an id nobody used. */
  ghost predicate Fresh(trace: seq<Event>, op: Op) {
    op.OpAdd? ==> op.item.attempts == 0 && HomeOf(trace, op.item.id) == Unknown
  }

  ghost predicate FreshRun(m: Machine, cfg: Config, trace: seq<Event>, ops: seq<Op>)
    decreases |ops|
  {
    ops == [] || (Fresh(trace, ops[0]) && FreshRun(Step(m, cfg, ops[0]), cfg, trace + Emit(m, cfg, ops[0]), ops[1..]))
  }

  // ---------- one step ----------

  lemma {:induction false} FirstWithIsThere(listing: seq<Item>, id: string)
    requires FirstWith(listing, id).Some?
    ensures FirstWith(listing, id).value in listing && FirstWith(listing, id).value.id == id
    decreases |listing|
  {
    if listing[0].id != id { FirstWithIsThere(listing[1..], id); }
  }

  /** A step that replaces the home of one item by another, in the queues and in the trace alike. */
  lemma MovedItem(q: Queues, p: Queues, trace: seq<Event>, e: Event, item: Item)
    requires LocatedAt(q, trace, item) && CountedAt(trace, item.id)
    requires item.id != e.item.id ==> (item in p.retry <==> item in q.retry) && (item in p.dead <==> item in q.dead)
    requires item.id == e.item.id ==>
      && (item in p.retry <==> (e.Queued? || e.Postponed? || e.Revived?) && item == e.item)
      && (item in p.dead <==> e.Buried? && item == e.item)
    ensures LocatedAt(p, trace + [e], item)
  {}

  lemma AddSettled(m: Machine, cfg: Config, trace: seq<Event>, op: Op)
    requires Settled(m, trace) && Fresh(trace, op) && op.OpAdd? && Encodable(cfg, op.item)
    ensures Settled(Step(m, cfg, op), trace + Emit(m, cfg, op))
  {
    var e := Queued(op.item);
    forall item ensures LocatedAt(Step(m, cfg, op).q, trace + [e], item) {
      assert LocatedAt(m.q, trace, item) && CountedAt(trace, item.id);
      hide HomeOf, Failures;
      MovedItem(m.q, Step(m, cfg, op).q, trace, e, item);
    }
    forall id ensures CountedAt(trace + [e], id) {
      assert CountedAt(trace, id);
      Appended(trace, e, id);
    }
  }

  lemma TrySettled(m: Machine, cfg: Config, trace: seq<Event>, op: Op)
    requires Settled(m, trace) && Pending(m) && op.OpTry? && m.busy && m.pending != []
    ensures Settled(Step(m, cfg, op), trace + Emit(m, cfg, op))
  {
    var was := m.pending[0];
    var e := Emit(m, cfg, op)[0];
    assert was in m.pending && LocatedAt(m.q, trace, was) && CountedAt(trace, was.id);
    assert e.item.id == was.id && Emit(m, cfg, op) == [e];
    hide HomeOf, Failures, Delay;
    forall item ensures LocatedAt(Step(m, cfg, op).q, trace + [e], item) {
      assert LocatedAt(m.q, trace, item) && CountedAt(trace, item.id);
      MovedItem(m.q, Step(m, cfg, op).q, trace, e, item);
    }
    forall id ensures CountedAt(trace + [e], id) {
      assert CountedAt(trace, id);
      Appended(trace, e, id);
    }
  }

  lemma RequeueSettled(m: Machine, cfg: Config, trace: seq<Event>, op: Op)
    requires Settled(m, trace) && op.OpRequeue? && Emit(m, cfg, op) != []
    ensures Settled(Step(m, cfg, op), trace + Emit(m, cfg, op))
  {
    FirstWithIsThere(op.listing, op.id);
    var was := FirstWith(op.listing, op.id).value;
    var e := Emit(m, cfg, op)[0];
    assert was in m.q.dead && LocatedAt(m.q, trace, was) && CountedAt(trace, was.id);
    assert e.item.id == was.id && Emit(m, cfg, op) == [e];
    hide HomeOf, Failures, FirstWith, IsListing;
    forall item ensures LocatedAt(Step(m, cfg, op).q, trace + [e], item) {
      assert LocatedAt(m.q, trace, item) && CountedAt(trace, item.id);
      MovedItem(m.q, Step(m, cfg, op).q, trace, e, item);
    }
    forall id ensures CountedAt(trace + [e], id) {
      assert CountedAt(trace, id);
      Appended(trace, e, id);
    }
  }

  lemma SettledStep(m: Machine, cfg: Config, trace: seq<Event>, op: Op)
    requires Settled(m, trace) && Pending(m) && Fresh(trace, op)
    ensures Settled(Step(m, cfg, op), trace + Emit(m, cfg, op))
  {
    if Emit(m, cfg, op) == [] {
      assert trace + Emit(m, cfg, op) == trace;
      hide Settled;
    } else {
      match op
      case OpAdd(_) => AddSettled(m, cfg, trace, op);
      case OpTry(_) => TrySettled(m, cfg, trace, op);
      case OpRequeue(_, _, _) => RequeueSettled(m, cfg, trace, op);
    }
  }

  /** An item waiting is not the item it becomes after another failure, nor anything else queued under its id. */
  lemma PendingStep(m: Machine, cfg: Config, trace: seq<Event>, op: Op)
    requires Settled(m, trace) && Pending(m)
    ensures Pending(Step(m, cfg, op))
  {}

  /** In every interleaving of adds, retries and requeues: each id that was ever added is in exactly one of retry queue,
      dead-letter queue or done; a queued item has failed as often as it says and at most `maxAttempts` times since it was
      added or requeued; a dead-lettered one exactly once more often. */
  lemma {:induction false} SettledOverRuns(m: Machine, cfg: Config, trace: seq<Event>, ops: seq<Op>)
    requires Settled(m, trace) && Pending(m) && FreshRun(m, cfg, trace, ops)
    ensures Settled(Run(m, cfg, ops), trace + Trace(m, cfg, ops)) && Pending(Run(m, cfg, ops))
    decreases |ops|
  {
    if ops == [] {
      assert trace + Trace(m, cfg, ops) == trace;
    } else {
      var t, es := Step(m, cfg, ops[0]), Emit(m, cfg, ops[0]);
      var rest := Trace(t, cfg, ops[1..]);
      assert Trace(m, cfg, ops) == es + rest && Run(m, cfg, ops) == Run(t, cfg, ops[1..]);
      SettledStep(m, cfg, trace, ops[0]);
      PendingStep(m, cfg, trace, ops[0]);
      SettledOverRuns(t, cfg, trace + es, ops[1..]);
      ConcatAssociates(trace, es, rest);
      hide Step, Emit, Settled, Pending, Trace, Run;
    }
  }

  lemma InitialSettled()
    ensures Settled(EMPTY_MACHINE, []) && Pending(EMPTY_MACHINE)
    ensures EMPTY_MACHINE.q == Queues(map[], map[]) && !EMPTY_MACHINE.busy && EMPTY_MACHINE.pending == []
  {}

  // ---------- retrying stops ----------

  /** Tries left before each queued item is dead-lettered. */
  function TriesLeft(retry: map<Item, int>): map<Item, int> {
    map item | item in retry :: Limit(item) + 1 - item.attempts
  }

  ghost function Potential(m: Machine): int { Sum(TriesLeft(m.q.retry)) }

  function Tries(trace: seq<Event>): nat {
    if trace == [] then 0
    else Tries(trace[1..]) + if trace[0].Postponed? || trace[0].Buried? || trace[0].Finished? then 1 else 0
  }

  /** The tries that adds and requeues make room for. */
  function Granted(trace: seq<Event>): nat {
    if trace == [] then 0
    else Granted(trace[1..]) + if trace[0].Queued? || trace[0].Revived? then Limit(trace[0].item) + 1 else 0
  }

  lemma DropItem(retry: map<Item, int>, item: Item)
    requires item in retry
    ensures Sum(TriesLeft(retry - {item})) == Sum(TriesLeft(retry)) - (Limit(item) + 1 - item.attempts)
  {
    assert TriesLeft(retry - {item}) == TriesLeft(retry) - {item};
    SumRemove(TriesLeft(retry), item);
  }

  lemma PutItem(retry: map<Item, int>, item: Item, score: int)
    requires item !in retry
    ensures Sum(TriesLeft(retry[item := score])) == Sum(TriesLeft(retry)) + (Limit(item) + 1 - item.attempts)
  {
    assert TriesLeft(retry[item := score]) == TriesLeft(retry)[item := Limit(item) + 1 - item.attempts];
    SumUpdate(TriesLeft(retry), item, Limit(item) + 1 - item.attempts);
  }

  lemma PotentialStep(m: Machine, cfg: Config, trace: seq<Event>, op: Op)
    requires Settled(m, trace) && Pending(m) && Fresh(trace, op)
    ensures var es := Emit(m, cfg, op);
      Tries(es) + Potential(Step(m, cfg, op)) <= Potential(m) + Granted(es)
  {
    hide HomeOf, Failures, Delay, Sum;
    match op
    case OpAdd(item) =>
      if Encodable(cfg, item) {
        assert LocatedAt(m.q, trace, item);
        PutItem(m.q.retry, item, item.nextRetryAt);
      }
    case OpStart(_, _) =>
    case OpTry(result) =>
      if m.busy && m.pending != [] {
        var item := m.pending[0];
        assert item in m.pending && LocatedAt(m.q, trace, item) && CountedAt(trace, item.id);
        DropItem(m.q.retry, item);
        if result.Rejected? && item.attempts + 1 <= item.maxAttempts {
          var next := Rescheduled(cfg, item, result.error, result.now);
          assert LocatedAt(m.q, trace, next);
          PutItem(m.q.retry - {item}, next, next.nextRetryAt);
        }
      }
    case OpRequeue(id, now, listing) =>
      if Emit(m, cfg, op) != [] {
        FirstWithIsThere(listing, id);
        var item := FirstWith(listing, id).value;
        assert item in m.q.dead && LocatedAt(m.q, trace, item) && LocatedAt(m.q, trace, Reset(item, now));
        PutItem(m.q.retry, Reset(item, now), now);
      }
  }

  lemma {:induction false} CountsAppend(a: seq<Event>, b: seq<Event>)
    ensures Tries(a + b) == Tries(a) + Tries(b) && Granted(a + b) == Granted(a) + Granted(b)
    decreases |a|
  {
    if a == [] {
      assert a + b == b;
    } else {
      CountsAppend(a[1..], b);
      assert (a + b)[1..] == a[1..] + b;
    }
  }

  /** However calls interleave, the number of tries is bounded by what the adds and requeues granted:
      left alone, the queue runs dry. */
  lemma {:induction false} TriesBounded(m: Machine, cfg: Config, trace: seq<Event>, ops: seq<Op>)
    requires Settled(m, trace) && Pending(m) && FreshRun(m, cfg, trace, ops)
    ensures Tries(Trace(m, cfg, ops)) + Potential(Run(m, cfg, ops)) <= Potential(m) + Granted(Trace(m, cfg, ops))
    decreases |ops|
  {
    if ops != [] {
      var t, es := Step(m, cfg, ops[0]), Emit(m, cfg, ops[0]);
      PotentialStep(m, cfg, trace, ops[0]);
      SettledStep(m, cfg, trace, ops[0]);
      PendingStep(m, cfg, trace, ops[0]);
      TriesBounded(t, cfg, trace + es, ops[1..]);
      CountsAppend(es, Trace(t, cfg, ops[1..]));
      hide Step, Emit, Settled, Pending, Tries, Granted, Potential;
    }
  }

  /** The room left is never negative, so `Tries <= Potential + Granted` in every run. */
  lemma PotentialNonneg(m: Machine, trace: seq<Event>)
    requires Settled(m, trace)
    ensures 0 <= Potential(m)
  {
    forall item | item in TriesLeft(m.q.retry) ensures 0 <= TriesLeft(m.q.retry)[item] {
      assert LocatedAt(m.q, trace, item) && CountedAt(trace, item.id);
    }
    SumNonneg(TriesLeft(m.q.retry));
  }

  // ---------- one item until it is dead-lettered ----------

  /** Tries of one id. */
  function TriesOf(trace: seq<Event>, id: string): nat {
    if trace == [] then 0
    else TriesOf(trace[1..], id)
         + if trace[0].item.id == id && (trace[0].Postponed? || trace[0].Buried? || trace[0].Finished?) then 1 else 0
  }

  ghost predicate NeverFinishes(trace: seq<Event>, id: string) {
    forall e :: e in trace && e.item.id == id ==> !e.Finished?
  }

  /** The id is queued or dead-lettered, with this payload and this limit. */
  ghost predicate HeldAs(trace: seq<Event>, item: Item) {
    match HomeOf(trace, item.id)
    case Waiting(it) => it.id == item.id && it.payload == item.payload && it.maxAttempts == item.maxAttempts
    case Dead(it) => it.id == item.id && it.payload == item.payload && it.maxAttempts == item.maxAttempts
    case _ => false
  }

  /** The step does not touch the id, or is a failing try of it. */
  ghost predicate OnlyFails(m: Machine, op: Op, id: string) {
    && (op.OpRequeue? ==> op.id != id)
    && (op.OpTry? && m.busy && m.pending != [] && m.pending[0].id == id ==> op.result.Rejected?)
  }

  lemma HeldStep(m: Machine, cfg: Config, trace: seq<Event>, op: Op, item: Item)
    requires Settled(m, trace) && Pending(m) && Fresh(trace, op)
    requires HeldAs(trace, item) && OnlyFails(m, op, item.id)
    ensures var es := Emit(m, cfg, op);
      && |es| <= 1 && HeldAs(trace + es, item) && NeverFinishes(es, item.id)
      && Failures(trace + es, item.id) == Failures(trace, item.id) + TriesOf(es, item.id)
  {
    var es := Emit(m, cfg, op);
    if es == [] {
      assert trace + es == trace;
      hide Settled, HeldAs, HomeOf, Failures;
    } else {
      var e := es[0];
      assert es == [e] && es[1..] == [];
      Appended(trace, e, item.id);
      if op.OpTry? {
        assert m.pending[0] in m.pending && LocatedAt(m.q, trace, m.pending[0]);
      } else if op.OpRequeue? {
        FirstWithIsThere(op.listing, op.id);
      }
      hide HomeOf, Failures, FirstWith, IsListing, Delay;
    }
  }

  lemma {:induction false} TriesOfConcat(a: seq<Event>, b: seq<Event>, id: string)
    ensures TriesOf(a + b, id) == TriesOf(a, id) + TriesOf(b, id)
    decreases |a|
  {
    if a == [] {
      assert a + b == b;
    } else {
      TriesOfConcat(a[1..], b, id);
      assert (a + b)[1..] == a[1..] + b;
    }
  }

  /** Where a held id with that many failures is. */
  lemma HeldPlace(m: Machine, trace: seq<Event>, item: Item)
    requires Settled(m, trace) && HeldAs(trace, item)
    ensures Failures(trace, item.id) <= Limit(item) + 1
    ensures (exists it: Item :: it in m.q.dead && it.id == item.id) <==> Failures(trace, item.id) == Limit(item) + 1
    ensures (exists it: Item :: it in m.q.retry && it.id == item.id) <==> Failures(trace, item.id) <= Limit(item)
  {
    assert CountedAt(trace, item.id);
    forall it: Item | it.id == item.id ensures LocatedAt(m.q, trace, it) {}
    match HomeOf(trace, item.id)
    case Waiting(it) => assert it in m.q.retry;
    case Dead(it) => assert it in m.q.dead;
    hide HomeOf, Failures;
  }

  // ---------- what the configuration does and does not say ----------

  /** An added item is due at once; the documented initial delay would only agree if it were configured to zero. */
  lemma AddedIsDue(q: Queues, cfg: Config, id: string, payload: Payload, maxAttempts: int, now: int)
    ensures var item := NewItem(id, payload, maxAttempts, now);
      && Add(q, item).retry[item] == now
      && (Add(q, item).retry[item] == now + cfg.initialDelay <==> cfg.initialDelay == 0)
  {}

  lemma LimitUnreadStep(m: Machine, cfg: Config, op: Op, n: int)
    ensures Step(m, cfg.(maxAttempts := n), op) == Step(m, cfg, op)
    ensures Emit(m, cfg.(maxAttempts := n), op) == Emit(m, cfg, op)
  {
    hide IsReady, IsListing, FirstWith, Pow;
  }

  /** The configured limit changes nothing in any run. */
  lemma {:induction false} ConfiguredLimitIsUnread(m: Machine, cfg: Config, ops: seq<Op>, n: int)
    ensures Run(m, cfg.(maxAttempts := n), ops) == Run(m, cfg, ops)
    ensures Trace(m, cfg.(maxAttempts := n), ops) == Trace(m, cfg, ops)
    decreases |ops|
  {
    if ops != [] {
      LimitUnreadStep(m, cfg, ops[0], n);
      hide Step, Emit;
      ConfiguredLimitIsUnread(Step(m, cfg, ops[0]), cfg, ops[1..], n);
    }
  }

  /** One more failure is too many under this limit. */
  predicate LastStraw(attempts: nat, maxAttempts: int) { attempts + 1 > maxAttempts }

  /** A failing try buries an item by its own limit; that is what the configured limit says
      for every number of failures if and only if the two limits coincide. */
  lemma BuriedByOwnLimit(m: Machine, cfg: Config, error: string, now: int)
    requires m.busy && m.pending != []
    ensures var item, es := m.pending[0], Emit(m, cfg, OpTry(Rejected(error, now)));
      && (es[0].Buried? <==> LastStraw(item.attempts, item.maxAttempts))
      && ((forall n :: LastStraw(n, item.maxAttempts) <==> LastStraw(n, cfg.maxAttempts))
           <==> Limit(item) == Max(cfg.maxAttempts, 0))
  {
    var a, b := Limit(m.pending[0]), Max(cfg.maxAttempts, 0);
    assert LastStraw(a, m.pending[0].maxAttempts) && LastStraw(b, cfg.maxAttempts);
    hide Rescheduled;
  }

  // ---------- back-off ----------

  lemma {:induction false} PowMono(b: nat, e: nat)
    requires b >= 1
    ensures 1 <= Pow(b, e) <= Pow(b, e + 1)
  {
    if e > 0 { PowMono(b, e - 1); }
  }

  /** Waits never shrink from one failure to the next, stay within the cap, and vanish before the last try. */
  lemma BackoffGrows(cfg: Config, attempts: nat, maxAttempts: int)
    requires attempts >= 1 && cfg.multiplier >= 1
    ensures 0 <= Delay(cfg, attempts, maxAttempts) <= cfg.maxDelay
    ensures attempts + 1 < maxAttempts ==> Delay(cfg, attempts, maxAttempts) <= Delay(cfg, attempts + 1, maxAttempts)
    ensures attempts == maxAttempts ==> Delay(cfg, attempts, maxAttempts) == 0
  {
    PowMono(cfg.multiplier, attempts - 1);
    var p, q := Pow(cfg.multiplier, attempts - 1), Pow(cfg.multiplier, attempts);
    assert 0 <= cfg.initialDelay * p <= cfg.initialDelay * q;
  }

  /** The waits in full: the first is the initial delay, each later one the multiple of the one before, never above the cap; and the
      last try is due at once. */
  lemma DelayExactly(cfg: Config, attempts: nat, maxAttempts: int)
    requires attempts >= 1 && cfg.multiplier >= 1
    ensures attempts >= maxAttempts ==> Delay(cfg, attempts, maxAttempts) == 0
    ensures 1 < maxAttempts ==> Delay(cfg, 1, maxAttempts) == Min(cfg.initialDelay, cfg.maxDelay)
    ensures attempts + 1 < maxAttempts ==>
      Delay(cfg, attempts + 1, maxAttempts) == Min(cfg.multiplier * Delay(cfg, attempts, maxAttempts), cfg.maxDelay)
  {
    var i, m, p := cfg.initialDelay, cfg.multiplier, Pow(cfg.multiplier, attempts - 1);
    PowMono(m, attempts - 1);
    assert Pow(m, attempts) == m * p && i * (m * p) == m * (i * p);
    assert Pow(m, 0) == 1;
    hide Pow;
    MulByMultiplier(m, i * p, cfg.maxDelay);
  }

  lemma MulByMultiplier(m: nat, wait: int, cap: nat)
    requires m >= 1 && wait >= 0
    ensures Min(m * wait, cap) == Min(m * Min(wait, cap), cap)
  {
    if cap < wait {
      Arith.MulMono(1, m, cap);
      Arith.MulMono(1, m, wait);
    }
  }

  /** One try of a queued item: success removes it; a failure counts, keeps its message, and either puts the item back for the wait
      from now on, or, beyond its own limit, moves it to the dead letters. Every other item stays where it is. */
  lemma HandleExactly(q: Queues, cfg: Config, item: Item, result: Result)
    ensures var p := Handle(q, cfg, item, result);
      match result
      case Resolved => p == Queues(q.retry - {item}, q.dead)
      case Rejected(error, now) =>
        var failed := Item(item.id, item.payload, item.attempts + 1, item.maxAttempts, item.nextRetryAt, item.createdAt, Some(error));
        if failed.attempts > failed.maxAttempts then p == Queues(q.retry - {item}, q.dead[failed := now])
        else
          var due := now + Delay(cfg, failed.attempts, failed.maxAttempts);
          p == Queues((q.retry - {item})[failed.(nextRetryAt := due) := due], q.dead)
  {
    hide Delay;
  }

  /** A `process` call does nothing while another one runs; else it takes on at most ten items, all of them due, and leaves a due item
      behind only for ten that are no less overdue. */
  lemma StartExactly(m: Machine, cfg: Config, now: int, ready: seq<Item>)
    ensures m.busy ==> Step(m, cfg, OpStart(now, ready)) == m
    ensures !m.busy && IsReady(m.q.retry, now, ready) ==>
      && Step(m, cfg, OpStart(now, ready)) == Machine(m.q, true, ready)
      && |ready| <= 10
      && (forall item :: item in ready ==> item in m.q.retry && 0 <= m.q.retry[item] <= now)
      && (forall item, r :: item in m.q.retry && 0 <= m.q.retry[item] <= now && item !in ready && r in ready ==>
            |ready| == 10 && m.q.retry[r] <= m.q.retry[item])
    ensures !m.busy && IsReady(m.q.retry, now, ready) && (exists item :: item in m.q.retry && 0 <= m.q.retry[item] <= now) ==> ready != []
  {}

  /** What can be written: everything with a codec that carries bigints, and everything but bigints without. An item that cannot be
      written is not added. */
  lemma AddExactly(m: Machine, cfg: Config, item: Item)
    ensures Step(m, cfg, OpAdd(item)) ==
      if cfg.codec == BigintAware || item.payload.amount.Text?
      then m.(q := Queues(m.q.retry[item := item.nextRetryAt], m.q.dead)) else m
  {}

  /** A new item has no attempts and is due at its creation; a requeued one is fresh again, due now, and out of the dead letters. */
  lemma FreshItems(q: Queues, id: string, payload: Payload, maxAttempts: int, item: Item, now: int)
    ensures NewItem(id, payload, maxAttempts, now) == Item(id, payload, 0, maxAttempts, now, now, None)
    ensures Add(q, item).dead == q.dead && Add(q, item).retry == q.retry[item := item.nextRetryAt]
    ensures var p, again := Requeue(q, item, now), Item(item.id, item.payload, 0, item.maxAttempts, now, item.createdAt, None);
      p.retry == q.retry[again := now] && p.dead == q.dead - {item}
  {}

  /** The dead letter that a requeue picks is the first in the listing with that id. */
  lemma {:induction false} FirstWithIsFirst(listing: seq<Item>, id: string)
    ensures match FirstWith(listing, id)
            case None => forall it :: it in listing ==> it.id != id
            case Some(item) => exists i :: 0 <= i < |listing| && listing[i] == item && item.id == id && forall j :: 0 <= j < i ==> listing[j].id != id
    decreases |listing|
  {
    if listing != [] && listing[0].id != id {
      FirstWithIsFirst(listing[1..], id);
      if FirstWith(listing[1..], id).Some? {
        var item := FirstWith(listing[1..], id).value;
        var i :| 0 <= i < |listing[1..]| && listing[1..][i] == item && item.id == id && forall j :: 0 <= j < i ==> listing[1..][j].id != id;
        assert listing[i + 1] == item;
        forall j | 0 <= j < i + 1 ensures listing[j].id != id { if j > 0 { assert listing[1..][j - 1].id != id; } }
      }
    }
  }

  // ---------- whole calls as steps ----------

  /** An uninterrupted `process` call as steps: start, one try per item, and the final release of the flag. */
  function TryOps(items: seq<Item>, outcome: Item -> Result): seq<Op> {
    if items == [] then [OpTry(Resolved)] else [OpTry(outcome(items[0]))] + TryOps(items[1..], outcome)
  }

  lemma {:induction false} TriesAreARun(q: Queues, cfg: Config, items: seq<Item>, outcome: Item -> Result)
    ensures Run(Machine(q, true, items), cfg, TryOps(items, outcome)) == Machine(HandleAll(q, cfg, items, outcome), false, [])
    decreases |items|
  {
    var m := Machine(q, true, items);
    var ops := TryOps(items, outcome);
    if items == [] {
      assert Run(m, cfg, ops) == Run(Step(m, cfg, ops[0]), cfg, ops[1..]);
    } else {
      var t := Step(m, cfg, ops[0]);
      TriesAreARun(t.q, cfg, items[1..], outcome);
      assert ops[1..] == TryOps(items[1..], outcome);
      assert Run(m, cfg, ops) == Run(t, cfg, ops[1..]);
    }
  }

  /** The loop of `process` is one of the interleavings above. */
  lemma ProcessIsARun(q: Queues, cfg: Config, now: int, ready: seq<Item>, outcome: Item -> Result)
    requires IsReady(q.retry, now, ready)
    ensures Run(Machine(q, false, []), cfg, [OpStart(now, ready)] + TryOps(ready, outcome))
         == Machine(HandleAll(q, cfg, ready, outcome), false, [])
  {
    var ops := [OpStart(now, ready)] + TryOps(ready, outcome);
    assert ops[1..] == TryOps(ready, outcome);
    TriesAreARun(q, cfg, ready, outcome);
    hide IsReady, TryOps, HandleAll;
  }

  lemma {:induction false} RunAppend(m: Machine, cfg: Config, ops: seq<Op>, op: Op)
    ensures Run(m, cfg, ops + [op]) == Step(Run(m, cfg, ops), cfg, op)
    ensures Trace(m, cfg, ops + [op]) == Trace(m, cfg, ops) + Emit(Run(m, cfg, ops), cfg, op)
    decreases |ops|
  {
    hide Step, Emit;
    if ops == [] {
      assert (ops + [op])[1..] == [];
      assert Run(m, cfg, ops + [op]) == Run(Step(m, cfg, op), cfg, []);
      assert Trace(m, cfg, ops + [op]) == Emit(m, cfg, op) + Trace(Step(m, cfg, op), cfg, []);
    } else {
      RunAppend(Step(m, cfg, ops[0]), cfg, ops[1..], op);
      assert (ops + [op])[1..] == ops[1..] + [op];
    }
  }
}
