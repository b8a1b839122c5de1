/** The retry queue in its own form: two sorted sets and a flag, changed call by call. */
module RetryQueueModel {
  import opened Base
  import opened RetrySpec
  import opened RetryProofs
  import Sums

  /** Redis, as far as the queue reads it. */
  class SortedSet {

    static lemma {:induction false} MinimumExists(m: map<Item, int>) returns (least: Item)
      requires m != map[]
      ensures least in m && forall item :: item in m ==> m[least] <= m[item]
      decreases |m|
    {
      var some := Sums.Pick(m);
      Sums.Shrinks(m, some);
      if m - {some} == map[] {
        least := some;
        assert forall item :: item in m && item != some ==> item in m - {some};
      } else {
        var other := MinimumExists(m - {some});
        least := if m[some] <= m[other] then some else other;
        assert forall item :: item in m && item != some ==> item in m - {some};
      }
    }

    /** `ZRANGE key 0 -1`. */
    static method ZRange(m: map<Item, int>) returns (listing: seq<Item>)
      ensures IsListing(m, listing)
    {
      listing := [];
      var rest := m;
      while rest != map[]
        invariant Listed(m, rest, listing)
        decreases |rest|
      {
        ghost var first := MinimumExists(rest);
        var least :| least in rest && forall item :: item in rest ==> rest[least] <= rest[item];
        Sums.Shrinks(rest, least);
        ListNext(m, rest, listing, least);
        listing := listing + [least];
        rest := rest - {least};
      }
    }

    /** `listing` has the members outside `rest` in order, none above those in `rest`. */
    static ghost predicate Listed(m: map<Item, int>, rest: map<Item, int>, listing: seq<Item>) {
      && (forall item :: item in rest ==> item in m && rest[item] == m[item])
      && (forall item :: item in m <==> item in rest || item in listing)
      && (forall item :: item in listing ==> item !in rest)
      && (forall i, j :: 0 <= i < j < |listing| ==> listing[i] != listing[j] && m[listing[i]] <= m[listing[j]])
      && (forall item, later :: item in listing && later in rest ==> m[item] <= m[later])
    }

    static lemma ListNext(m: map<Item, int>, rest: map<Item, int>, listing: seq<Item>, least: Item)
      requires Listed(m, rest, listing) && least in rest && forall item :: item in rest ==> rest[least] <= rest[item]
      ensures Listed(m, rest - {least}, listing + [least])
    {
      assert forall i :: 0 <= i < |listing| ==> listing[i] in listing;
    }

    /** `ready` are the due ones among the first `i` of the listing. */
    static ghost predicate DueAmong(m: map<Item, int>, now: int, listing: seq<Item>, i: nat, ready: seq<Item>)
      requires i <= |listing|
    {
      && (forall item :: item in ready <==> item in listing[..i] && item in m && 0 <= m[item] <= now)
      && (forall j, k :: 0 <= j < k < |ready| ==> ready[j] != ready[k] && ready[j] in m && ready[k] in m && m[ready[j]] <= m[ready[k]])
    }

    static lemma OneMore(m: map<Item, int>, now: int, listing: seq<Item>, i: nat, ready: seq<Item>)
      requires IsListing(m, listing) && i < |listing| && DueAmong(m, now, listing, i, ready)
      ensures listing[i] in m
      ensures DueAmong(m, now, listing, i + 1, if 0 <= m[listing[i]] <= now then ready + [listing[i]] else ready)
    {
      assert listing[..i + 1] == listing[..i] + [listing[i]];
      forall j | 0 <= j < |ready| ensures ready[j] in m && ready[j] != listing[i] && m[ready[j]] <= m[listing[i]] {
        assert ready[j] in ready;
      }
    }

    static lemma CutIsReady(m: map<Item, int>, now: int, listing: seq<Item>, i: nat, ready: seq<Item>)
      requires IsListing(m, listing) && i <= |listing| && DueAmong(m, now, listing, i, ready)
      requires |ready| <= BATCH && (i == |listing| || |ready| == BATCH)
      ensures IsReady(m, now, ready)
    {}

    /** `ZRANGEBYSCORE key 0 now LIMIT 0 10`. */
    static method ZRangeByScore(m: map<Item, int>, now: int) returns (ready: seq<Item>)
      ensures IsReady(m, now, ready)
    {
      hide IsReady;
      var listing := ZRange(m);
      ready := [];
      var i := 0;
      while i < |listing| && |ready| < BATCH
        invariant 0 <= i <= |listing| && |ready| <= BATCH
        invariant DueAmong(m, now, listing, i, ready)
      {
        OneMore(m, now, listing, i, ready);
        if 0 <= m[listing[i]] <= now {
          ready := ready + [listing[i]];
        }
        i := i + 1;
      }
      CutIsReady(m, now, listing, i, ready);
    }
  }

  class RetryQueue {
    const cfg: Config
    var retry: map<Item, int>
    var dead: map<Item, int>
    var processing: bool

    constructor (cfg: Config)
      ensures this.cfg == cfg && Contents() == Queues(map[], map[]) && !processing
    {
      this.cfg := cfg;
      retry, dead, processing := map[], map[], false;
    }

    ghost function Contents(): Queues
      reads this
    {
      Queues(retry, dead)
    }

    /** Throws, leaving the queue alone, if the item cannot be written. */
    method Enqueue(id: string, payload: Payload, maxAttempts: int, now: int) returns (r: Outcome<()>)
      modifies this
      ensures r == Panicked <==> !Encodable(cfg, NewItem(id, payload, maxAttempts, now))
      ensures Contents() == if r.Returned? then Add(old(Contents()), NewItem(id, payload, maxAttempts, now)) else old(Contents())
      ensures processing == old(processing)
    {
      var item := Item(id, payload, 0, maxAttempts, now, now, None);
      if !Encodable(cfg, item) {
        return Panicked;
      }
      retry := retry[item := item.nextRetryAt];
      r := Returned(());
    }

    /** Books the end of one try. */
    method Settle(item: Item, result: Result)
      modifies this
      ensures Contents() == Handle(old(Contents()), cfg, item, result) && processing == old(processing)
    {
      match result {
        case Resolved =>
          retry := retry - {item};
        case Rejected(error, failedAt) =>
          var failed := item.(attempts := item.attempts + 1);
          failed := failed.(lastError := Some(error));
          if failed.attempts > failed.maxAttempts {
            dead := dead[failed := failedAt];
            retry := retry - {item};
          } else {
            var delay := Delay(cfg, failed.attempts, failed.maxAttempts);
            failed := failed.(nextRetryAt := failedAt + delay);
            retry := retry - {item};
            retry := retry[failed := failed.nextRetryAt];
          }
      }
    }

    /** Handles the due items one after the other; does nothing while another call is at it. */
    method Process(now: int, outcome: Item -> Result) returns (ghost ready: seq<Item>)
      modifies this
      ensures old(processing) ==> Contents() == old(Contents()) && processing
      ensures !old(processing) ==>
        && IsReady(old(retry), now, ready) && !processing
        && Contents() == HandleAll(old(Contents()), cfg, ready, outcome)
    {
      hide Handle, IsReady;
      ready := [];
      if processing {
        return;
      }
      processing := true;
      var items := SortedSet.ZRangeByScore(retry, now);
      ready := items;
      var i := 0;
      while i < |items|
        invariant 0 <= i <= |items|
        invariant HandleAll(Contents(), cfg, items[i..], outcome) == HandleAll(old(Contents()), cfg, items, outcome)
      {
        Settle(items[i], outcome(items[i]));
        assert items[i..][1..] == items[i + 1..];
        i := i + 1;
      }
      processing := false;
    }

    /** Puts the dead letter with this id back, if there is one; the ghost result is what Redis listed. */
    method RequeueOne(id: string, now: int) returns (moved: bool, ghost listing: seq<Item>)
      modifies this
      ensures IsListing(old(dead), listing)
      ensures processing == old(processing)
      ensures moved <==> FirstWith(listing, id).Some?
      ensures Contents() == if moved then Requeue(old(Contents()), FirstWith(listing, id).value, now) else old(Contents())
    {
      hide IsListing;
      var items := SortedSet.ZRange(dead);
      listing := items;
      moved := false;
      var j := 0;
      while j < |items|
        invariant 0 <= j <= |items|
        invariant !moved && retry == old(retry) && dead == old(dead) && processing == old(processing)
        invariant FirstWith(items, id) == FirstWith(items[j..], id)
      {
        if items[j].id == id {
          var item := items[j];
          item := item.(attempts := 0);
          item := item.(nextRetryAt := now);
          item := item.(lastError := None);
          retry := retry[item := item.nextRetryAt];
          dead := dead - {items[j]};
          moved := true;
          break;
        }
        assert items[j..][1..] == items[j + 1..];
        j := j + 1;
      }
    }

    /** Puts the named dead letters back; `clock(i)` is the time at the i-th id. The ghost result says which steps this was. */
    method RequeueFromDeadLetter(ids: seq<string>, clock: nat -> int) returns (requeued: nat, ghost steps: seq<Op>)
      modifies this
      ensures |steps| == |ids|
      ensures forall i :: 0 <= i < |ids| ==>
        && steps[i].OpRequeue? && steps[i].id == ids[i] && steps[i].now == clock(i)
        && IsListing(Run(Machine(old(Contents()), false, []), cfg, steps[..i]).q.dead, steps[i].listing)
      ensures Run(Machine(old(Contents()), false, []), cfg, steps) == Machine(Contents(), false, [])
      ensures requeued == |Trace(Machine(old(Contents()), false, []), cfg, steps)|
      ensures processing == old(processing)
    {
      hide IsListing, Requeue, FirstWith;
      ghost var start := Machine(Contents(), false, []);
      requeued, steps := 0, [];
      var i := 0;
      while i < |ids|
        invariant 0 <= i <= |ids| && |steps| == i
        invariant forall k :: 0 <= k < i ==>
          && steps[k].OpRequeue? && steps[k].id == ids[k] && steps[k].now == clock(k)
          && IsListing(Run(start, cfg, steps[..k]).q.dead, steps[k].listing)
        invariant Run(start, cfg, steps) == Machine(Contents(), false, [])
        invariant requeued == |Trace(start, cfg, steps)|
        invariant processing == old(processing)
      {
        var moved, listing := RequeueOne(ids[i], clock(i));
        if moved {
          requeued := requeued + 1;
        }
        ghost var op := OpRequeue(ids[i], clock(i), listing);
        RunAppend(start, cfg, steps, op);
        assert forall k :: 0 <= k <= i ==> (steps + [op])[..k] == steps[..k];
        assert steps[..i] == steps;
        steps := steps + [op];
        i := i + 1;
      }
    }
  }
}
