/** The relayer's retry queue over two Redis sorted sets, modelled as maps from member to score. */
module RetrySpec {
  import opened Base
  import B = BridgeSpec

  const BATCH := 10

  /** An amount as the running program has it: a bigint, or something that plain JSON can carry. */
  datatype Amount = Big(value: int) | Text(value: int)

  datatype Payload =
    | EvmToStellar(to: Address, amount: Amount, hash: B.Bytes, chain: nat)
    | StellarToEvm(target: nat, recipient: B.Bytes, amount: Amount, txHash: B.Bytes)

  datatype Item = Item(
    id: string,
    payload: Payload,
    attempts: nat,
    maxAttempts: int,
    nextRetryAt: int,
    createdAt: int,
    lastError: Option<string>)

  /** How items are written to Redis: `JSON.stringify`, which throws on a bigint, or a codec that carries bigints. */
  datatype Codec = PlainJson | BigintAware

  datatype Config = Config(maxAttempts: int, multiplier: nat, initialDelay: nat, maxDelay: nat, codec: Codec)

  datatype Queues = Queues(retry: map<Item, int>, dead: map<Item, int>)

  function Pow(b: nat, e: nat): nat {
    if e == 0 then 1 else b * Pow(b, e - 1)
  }

  /** The wait before the next try, after `attempts` failures. */
  function Delay(cfg: Config, attempts: nat, maxAttempts: int): int
    requires attempts >= 1
  {
    if attempts >= maxAttempts then 0
    else Min(cfg.initialDelay * Pow(cfg.multiplier, attempts - 1), cfg.maxDelay)
  }

  function NewItem(id: string, payload: Payload, maxAttempts: int, now: int): Item {
    Item(id, payload, 0, maxAttempts, now, now, None)
  }

  /** Writing the item does not throw. */
  predicate Encodable(cfg: Config, item: Item) {
    cfg.codec.BigintAware? || item.payload.amount.Text?
  }

  function Add(q: Queues, item: Item): Queues {
    q.(retry := q.retry[item := item.nextRetryAt])
  }

  /** How the processor ended: it resolved, or it rejected at `now`. */
  datatype Result = Resolved | Rejected(error: string, now: int)

  /** The item after one more failure, before it is placed. */
  function FailedOnce(item: Item, error: string): Item {
    item.(attempts := item.attempts + 1, lastError := Some(error))
  }

  function Rescheduled(cfg: Config, item: Item, error: string, now: int): Item {
    var it := FailedOnce(item, error);
    it.(nextRetryAt := now + Delay(cfg, it.attempts, it.maxAttempts))
  }

  function Handle(q: Queues, cfg: Config, item: Item, result: Result): Queues {
    match result
    case Resolved => q.(retry := q.retry - {item})
    case Rejected(error, now) =>
      var it := FailedOnce(item, error);
      if it.attempts > it.maxAttempts then Queues(q.retry - {item}, q.dead[it := now])
      else
        var next := Rescheduled(cfg, item, error, now);
        q.(retry := (q.retry - {item})[next := next.nextRetryAt])
  }

  /** The loop of one `process` call over the items Redis returned; `outcome` says how each try ends. */
  function HandleAll(q: Queues, cfg: Config, items: seq<Item>, outcome: Item -> Result): Queues
    decreases |items|
  {
    if items == [] then q
    else HandleAll(Handle(q, cfg, items[0], outcome(items[0])), cfg, items[1..], outcome)
  }

  function Reset(item: Item, now: int): Item {
    item.(attempts := 0, nextRetryAt := now, lastError := None)
  }

  function Requeue(q: Queues, item: Item, now: int): Queues {
    Queues(q.retry[Reset(item, now) := now], q.dead - {item})
  }

  function FirstWith(listing: seq<Item>, id: string): Option<Item> {
    if listing == [] then None
    else if listing[0].id == id then Some(listing[0])
    else FirstWith(listing[1..], id)
  }

  // ---------- what Redis answers ----------

  /** `ZRANGE key 0 -1`: every member once, by rising score. */
  ghost predicate IsListing(m: map<Item, int>, listing: seq<Item>) {
    && (forall item :: item in listing <==> item in m)
    && (forall i, j :: 0 <= i < j < |listing| ==> listing[i] != listing[j])
    && (forall i, j :: 0 <= i < j < |listing| ==> m[listing[i]] <= m[listing[j]])
  }

  /** `ZRANGEBYSCORE key 0 now LIMIT 0 10`: up to ten of the due members, lowest scores first. */
  ghost predicate IsReady(m: map<Item, int>, now: int, ready: seq<Item>) {
    && |ready| <= BATCH
    && (forall item :: item in ready ==> item in m && 0 <= m[item] <= now)
    && (forall i, j :: 0 <= i < j < |ready| ==> ready[i] != ready[j] && m[ready[i]] <= m[ready[j]])
    && (forall item :: item in m && 0 <= m[item] <= now && item !in ready ==>
          |ready| == BATCH && forall r :: r in ready ==> m[r] <= m[item])
  }

  // ---------- interleaved runs ----------

  /** `pending` are the items the running `process` call still has to handle; `busy` is its `processing` flag. */
  datatype Machine = Machine(q: Queues, busy: bool, pending: seq<Item>)

  const EMPTY_MACHINE := Machine(Queues(map[], map[]), false, [])

  datatype Op =
    | OpAdd(item: Item)
    | OpStart(now: int, ready: seq<Item>)
    | OpTry(result: Result)
    | OpRequeue(id: string, now: int, listing: seq<Item>)

  /** `add` and `requeueFromDeadLetter` may run between any two items of a `process` call; a second `process` call may not. */
  ghost function Step(m: Machine, cfg: Config, op: Op): Machine {
    match op
    case OpAdd(item) => if Encodable(cfg, item) then m.(q := Add(m.q, item)) else m
    case OpStart(now, ready) =>
      if m.busy || !IsReady(m.q.retry, now, ready) then m else m.(busy := true, pending := ready)
    case OpTry(result) =>
      if !m.busy then m
      else if m.pending == [] then m.(busy := false)
      else m.(q := Handle(m.q, cfg, m.pending[0], result), pending := m.pending[1..])
    case OpRequeue(id, now, listing) =>
      if !IsListing(m.q.dead, listing) || FirstWith(listing, id) == None then m
      else m.(q := Requeue(m.q, FirstWith(listing, id).value, now))
  }

  /** What a step did to one item; the item as it is afterwards. */
  datatype Event =
    | Queued(item: Item)
    | Postponed(item: Item)
    | Buried(item: Item)
    | Finished(item: Item)
    | Revived(item: Item)

  ghost function Emit(m: Machine, cfg: Config, op: Op): seq<Event> {
    match op
    case OpAdd(item) => if Encodable(cfg, item) then [Queued(item)] else []
    case OpStart(_, _) => []
    case OpTry(result) =>
      if !m.busy || m.pending == [] then []
      else
        var item := m.pending[0];
        (match result
         case Resolved => [Finished(item)]
         case Rejected(error, now) =>
           if item.attempts + 1 > item.maxAttempts then [Buried(FailedOnce(item, error))]
           else [Postponed(Rescheduled(cfg, item, error, now))])
    case OpRequeue(id, now, listing) =>
      if !IsListing(m.q.dead, listing) || FirstWith(listing, id) == None then []
      else [Revived(Reset(FirstWith(listing, id).value, now))]
  }

  ghost function Run(m: Machine, cfg: Config, ops: seq<Op>): Machine
    decreases |ops|
  {
    if ops == [] then m else Run(Step(m, cfg, ops[0]), cfg, ops[1..])
  }

  ghost function Trace(m: Machine, cfg: Config, ops: seq<Op>): seq<Event>
    decreases |ops|
  {
    if ops == [] then [] else Emit(m, cfg, ops[0]) + Trace(Step(m, cfg, ops[0]), cfg, ops[1..])
  }
}
