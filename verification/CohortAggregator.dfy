/** The two wallet-activity jobs in their own form: maps filled row by row, days walked, rows upserted. */
module CohortAggregatorModel {
  import opened Base
  import Arith
  import opened CohortSpec

  datatype Delta = Delta(netStake: int, netBorrow: int)

  const ZERO := Delta(0, 0)

  type WalletDeltas = map<Address, map<int, Delta>>

  function DeltaAt(m: WalletDeltas, wallet: Address, day: int): Delta {
    if wallet in m && day in m[wallet] then m[wallet][day] else ZERO
  }

  datatype Kind = Stakes | Borrows | Repays

  /** What one amount of a query adds to the deltas. */
  function Effect(kind: Kind, amount: int): Delta {
    match kind
    case Stakes => Delta(amount, 0)
    case Borrows => Delta(0, amount)
    case Repays => Delta(0, -amount)
  }

  function Sum(a: Delta, b: Delta): Delta {
    Delta(a.netStake + b.netStake, a.netBorrow + b.netBorrow)
  }

  /** Adds to one wallet's entry for one day, creating both levels on demand. */
  function Bump(m: WalletDeltas, wallet: Address, day: int, delta: Delta): WalletDeltas {
    var wmap := if wallet in m then m[wallet] else map[];
    var entry := if day in wmap then wmap[day] else ZERO;
    m[wallet := wmap[day := Sum(entry, delta)]]
  }

  lemma NetAppend(rows: seq<Row>, row: Row, wallet: Address, day: int)
    ensures Net(rows + [row], wallet, day)
         == Net(rows, wallet, day) + (if row.wallet == wallet && DayFloor(row.day) == day then row.amount else 0)
    ensures Mentions(rows + [row], wallet) <==> Mentions(rows, wallet) || row.wallet == wallet
  {}

  /** Every calendar day from `from` to `to`, both included, oldest first. */
  method DayRange(from: int, to: int) returns (days: seq<int>)
    ensures |days| == DayCount(DayFloor(from), DayFloor(to))
    ensures forall i :: 0 <= i < |days| ==> days[i] == Day(DayFloor(from), i)
  {
    days := [];
    var cur := DayFloor(from);
    var end := DayFloor(to);
    while cur <= end
      invariant cur == Day(DayFloor(from), |days|)
      invariant forall i :: 0 <= i < |days| ==> days[i] == Day(DayFloor(from), i) <= end
      decreases end - cur
    {
      days := days + [cur];
      cur := cur + DAY;
    }
    if |days| > 0 {
      assert days[|days| - 1] <= end;
      Arith.FloorUnique(end - DayFloor(from), DAY, |days| - 1);
    }
  }

  /** `r` is `m` with the rows' amounts added, at one wallet and day. */
  ghost predicate Plus(m: WalletDeltas, r: WalletDeltas, rows: seq<Row>, kind: Kind, w: Address, d: int) {
    DeltaAt(r, w, d) == Sum(DeltaAt(m, w, d), Effect(kind, Net(rows, w, d)))
  }

  /** Adds the rows of one query to the deltas. */
  method AddRows(m: WalletDeltas, rows: seq<Row>, kind: Kind) returns (r: WalletDeltas)
    ensures forall w :: w in r <==> w in m || Mentions(rows, w)
    ensures forall w, d :: Plus(m, r, rows, kind, w, d)
  {
    hide Plus;
    r := m;
    var i := 0;
    PlusNothing(m, kind);
    while i < |rows|
      invariant 0 <= i <= |rows|
      invariant forall w :: w in r <==> w in m || Mentions(rows[..i], w)
      invariant forall w, d :: Plus(m, r, rows[..i], kind, w, d)
    {
      PlusOne(m, r, rows[..i], rows[i], kind);
      assert rows[..i + 1] == rows[..i] + [rows[i]];
      r := Bump(r, rows[i].wallet, DayFloor(rows[i].day), Effect(kind, rows[i].amount));
      i := i + 1;
    }
    assert rows[..i] == rows;
  }

  lemma NoEffect(base: Delta, kind: Kind)
    ensures Sum(base, Effect(kind, 0)) == base
  {}

  lemma PlusNothing(m: WalletDeltas, kind: Kind)
    ensures forall w, d :: Plus(m, m, [], kind, w, d)
  {
    hide DeltaAt, Sum, Effect;
    forall w, d ensures Plus(m, m, [], kind, w, d) { NoEffect(DeltaAt(m, w, d), kind); }
  }

  lemma PlusAt(m: WalletDeltas, r: WalletDeltas, done: seq<Row>, row: Row, kind: Kind, w: Address, d: int)
    requires Plus(m, r, done, kind, w, d)
    ensures Plus(m, Bump(r, row.wallet, DayFloor(row.day), Effect(kind, row.amount)), done + [row], kind, w, d)
  {
    NetAppend(done, row, w, d);
    BumpAt(r, row.wallet, DayFloor(row.day), Effect(kind, row.amount), w, d);
    hide Net, Mentions, DayFloor, Bump, DeltaAt;
  }

  lemma BumpAt(m: WalletDeltas, wallet: Address, day: int, delta: Delta, w: Address, d: int)
    ensures DeltaAt(Bump(m, wallet, day, delta), w, d)
         == if w == wallet && d == day then Sum(DeltaAt(m, w, d), delta) else DeltaAt(m, w, d)
  {}

  lemma PlusOne(m: WalletDeltas, r: WalletDeltas, done: seq<Row>, row: Row, kind: Kind)
    requires forall w :: w in r <==> w in m || Mentions(done, w)
    requires forall w, d :: Plus(m, r, done, kind, w, d)
    ensures var t, now := Bump(r, row.wallet, DayFloor(row.day), Effect(kind, row.amount)), done + [row];
      && (forall w :: w in t <==> w in m || Mentions(now, w))
      && (forall w, d :: Plus(m, t, now, kind, w, d))
  {
    var t, now := Bump(r, row.wallet, DayFloor(row.day), Effect(kind, row.amount)), done + [row];
    forall w ensures w in t <==> w in m || Mentions(now, w) {
      NetAppend(done, row, w, 0);
      hide Mentions, Net;
    }
    hide Bump, Plus, Mentions;
    forall w, d ensures Plus(m, t, now, kind, w, d) {
      PlusAt(m, r, done, row, kind, w, d);
    }
  }

  /** The three queries together give the net changes of the day. */
  lemma ThreeQueries(a: WalletDeltas, b: WalletDeltas, m: WalletDeltas, h: History, w: Address, d: int)
    requires Plus(map[], a, h.stake, Stakes, w, d) && Plus(a, b, h.borrow, Borrows, w, d) && Plus(b, m, h.repay, Repays, w, d)
    ensures DeltaAt(m, w, d) == Delta(Net(h.stake, w, d), Net(h.borrow, w, d) - Net(h.repay, w, d))
  {
    hide Net;
    NoDeltas(w, d);
    hide DeltaAt;
    Signs(Net(h.stake, w, d), Net(h.borrow, w, d), Net(h.repay, w, d));
    hide Effect, Sum;
  }

  lemma NoDeltas(w: Address, d: int)
    ensures DeltaAt(map[], w, d) == ZERO
  {}

  lemma Signs(stake: int, borrow: int, repay: int)
    ensures Sum(Sum(Sum(ZERO, Effect(Stakes, stake)), Effect(Borrows, borrow)), Effect(Repays, repay)) == Delta(stake, borrow - repay)
  {}

  method BuildDeltas(h: History) returns (m: WalletDeltas)
    ensures forall w :: w in m <==> Seen(h, w)
    ensures forall w, d :: DeltaAt(m, w, d) == Delta(Net(h.stake, w, d), Net(h.borrow, w, d) - Net(h.repay, w, d))
  {
    hide Plus, DeltaAt, Net, Mentions;
    var a := AddRows(map[], h.stake, Stakes);
    var b := AddRows(a, h.borrow, Borrows);
    m := AddRows(b, h.repay, Repays);
    forall w, d { ThreeQueries(a, b, m, h, w, d); }
  }

  // ---------- one day's deltas ----------

  function Of(m: map<Address, Delta>, wallet: Address): Delta {
    if wallet in m then m[wallet] else ZERO
  }

  lemma AmountAppend(rows: seq<DayRow>, row: DayRow, wallet: Address)
    ensures Amount(rows + [row], wallet) == Amount(rows, wallet) + (if row.wallet == wallet then row.amount else 0)
    ensures Names(rows + [row], wallet) <==> Names(rows, wallet) || row.wallet == wallet
  {}

  /** `r` is `m` with the amounts of one day's query added, for one wallet. */
  ghost predicate Merged(m: map<Address, Delta>, r: map<Address, Delta>, rows: seq<DayRow>, kind: Kind, w: Address) {
    && (w in r <==> w in m || Names(rows, w))
    && Of(r, w) == Sum(Of(m, w), Effect(kind, Amount(rows, w)))
  }

  lemma MergedAt(m: map<Address, Delta>, r: map<Address, Delta>, t: map<Address, Delta>, done: seq<DayRow>, row: DayRow,
                 kind: Kind, w: Address)
    requires Merged(m, r, done, kind, w) && t == r[row.wallet := Sum(Of(r, row.wallet), Effect(kind, row.amount))]
    ensures Merged(m, t, done + [row], kind, w)
  {
    hide Amount, Names, Sum, Effect;
    AmountAppend(done, row, w);
    EffectsAdd(Of(m, w), kind, Amount(done, w), row.amount);
  }

  lemma EffectsAdd(base: Delta, kind: Kind, x: int, y: int)
    ensures Sum(Sum(base, Effect(kind, x)), Effect(kind, y)) == Sum(base, Effect(kind, x + y))
  {}

  lemma MergedOne(m: map<Address, Delta>, r: map<Address, Delta>, t: map<Address, Delta>, done: seq<DayRow>, row: DayRow,
                  kind: Kind, now: seq<DayRow>)
    requires forall w :: Merged(m, r, done, kind, w)
    requires t == r[row.wallet := Sum(Of(r, row.wallet), Effect(kind, row.amount))] && now == done + [row]
    ensures forall w :: Merged(m, t, now, kind, w)
  {
    hide Merged;
    forall w ensures Merged(m, t, now, kind, w) { MergedAt(m, r, t, done, row, kind, w); }
  }

  lemma MergedNothing(m: map<Address, Delta>, kind: Kind)
    ensures forall w :: Merged(m, m, [], kind, w)
  {
    hide Of, Sum, Effect;
    forall w ensures Merged(m, m, [], kind, w) {
      NoEffect(Of(m, w), kind);
      assert !Names([], w);
    }
  }

  method MergeRows(m: map<Address, Delta>, rows: seq<DayRow>, kind: Kind) returns (r: map<Address, Delta>)
    ensures forall w :: Merged(m, r, rows, kind, w)
  {
    hide Merged, Sum, Effect, Of;
    r := m;
    var i := 0;
    MergedNothing(m, kind);
    while i < |rows|
      invariant 0 <= i <= |rows|
      invariant forall w :: Merged(m, r, rows[..i], kind, w)
    {
      ghost var before := r;
      var entry := Of(r, rows[i].wallet);
      r := r[rows[i].wallet := Sum(entry, Effect(kind, rows[i].amount))];
      MergedOne(m, before, r, rows[..i], rows[i], kind, rows[..i + 1]);
      i := i + 1;
    }
    assert rows[..i] == rows;
  }

  lemma NewWallet(r: map<Address, Delta>, rows: seq<DayRow>, i: nat)
    requires Grouped(rows) && i < |rows| && Merged(map[], r, rows[..i], Stakes, rows[i].wallet)
    ensures Delta(rows[i].amount, 0) == Sum(Of(r, rows[i].wallet), Effect(Stakes, rows[i].amount))
  {
    hide Amount;
    assert rows[i].wallet !in r;
  }

  /** The stake rows start the map: each overwrites, which is harmless as wallets are grouped. */
  method StartDay(rows: seq<DayRow>) returns (r: map<Address, Delta>)
    requires Grouped(rows)
    ensures forall w :: Merged(map[], r, rows, Stakes, w)
  {
    hide Merged, Sum, Effect, Of;
    r := map[];
    var i := 0;
    MergedNothing(map[], Stakes);
    while i < |rows|
      invariant 0 <= i <= |rows|
      invariant forall w :: Merged(map[], r, rows[..i], Stakes, w)
    {
      ghost var before := r;
      NewWallet(r, rows, i);
      r := r[rows[i].wallet := Delta(rows[i].amount, 0)];
      MergedOne(map[], before, r, rows[..i], rows[i], Stakes, rows[..i + 1]);
      i := i + 1;
    }
    assert rows[..i] == rows;
  }

  lemma ThreeMerges(a: map<Address, Delta>, b: map<Address, Delta>, m: map<Address, Delta>, d: Today, w: Address)
    requires Merged(map[], a, d.stake, Stakes, w) && Merged(a, b, d.borrow, Borrows, w) && Merged(b, m, d.repay, Repays, w)
    ensures w in m <==> SeenToday(d, w)
    ensures Of(m, w) == Delta(Amount(d.stake, w), Amount(d.borrow, w) - Amount(d.repay, w))
  {
    hide Amount, Names;
    Signs(Amount(d.stake, w), Amount(d.borrow, w), Amount(d.repay, w));
    hide Effect, Sum;
  }

  method DayDeltas(d: Today) returns (m: map<Address, Delta>)
    requires Grouped(d.stake)
    ensures forall w :: w in m <==> SeenToday(d, w)
    ensures forall w :: Of(m, w) == Delta(Amount(d.stake, w), Amount(d.borrow, w) - Amount(d.repay, w))
  {
    hide Amount, Names, Merged, Of, SeenToday;
    var a := StartDay(d.stake);
    var b := MergeRows(a, d.borrow, Borrows);
    m := MergeRows(b, d.repay, Repays);
    forall w { ThreeMerges(a, b, m, d, w); }
  }

  datatype ActivityRow = ActivityRow(wallet: Address, date: int, activity: Activity)

  /** Writing rows one after the other. */
  function Upserted(t: Table, rows: seq<ActivityRow>): Table {
    if rows == [] then t
    else
      var n := |rows| - 1;
      Upserted(t, rows[..n])[(rows[n].wallet, rows[n].date) := rows[n].activity]
  }

  /** If the rows of a key all say the same, that is what the table says afterwards; keys without rows keep theirs. */
  lemma {:induction false} UpsertedFind(t: Table, rows: seq<ActivityRow>, key: (Address, int), activity: Activity)
    requires forall r :: r in rows && (r.wallet, r.date) == key ==> r.activity == activity
    ensures Find(Upserted(t, rows), key)
         == if exists r :: r in rows && (r.wallet, r.date) == key then Some(activity) else Find(t, key)
    decreases |rows|
  {
    if rows != [] {
      var n := |rows| - 1;
      assert rows == rows[..n] + [rows[n]];
      UpsertedFind(t, rows[..n], key, activity);
    }
  }

  class CohortAggregator {
    var table: Table

    constructor ()
      ensures table == map[]
    {
      table := map[];
    }

    method Upsert(rows: seq<ActivityRow>)
      modifies this
      ensures table == Upserted(old(table), rows)
    {
      var i := 0;
      while i < |rows|
        invariant 0 <= i <= |rows|
        invariant table == Upserted(old(table), rows[..i])
      {
        assert rows[..i + 1][..i] == rows[..i];
        table := table[(rows[i].wallet, rows[i].date) := rows[i].activity];
        i := i + 1;
      }
      assert rows[..i] == rows;
    }

    /** A row of the backfill: the running totals of a missing day of the walk. */
    static ghost predicate Totals(r: ActivityRow, h: History, first: int, n: nat, missing: set<int>) {
      r.date in missing && OnWalk(first, n, r.date) && r.activity == TotalsOf(h, r.wallet, first, r.date)
    }

    static predicate RowFor(rows: seq<ActivityRow>, wallet: Address, day: int) {
      exists r :: r in rows && r.wallet == wallet && r.date == day
    }

    static ghost predicate IsWalk(walkDays: seq<int>, first: int) {
      forall i :: 0 <= i < |walkDays| ==> walkDays[i] == Day(first, i)
    }

    /** Walks one wallet's deltas over the days and keeps a row for every missing one. */
    static method WalkWallet(wallet: Address, wmap: map<int, Delta>, walkDays: seq<int>, missing: set<int>,
                             ghost first: int, ghost h: History)
      returns (rows: seq<ActivityRow>)
      requires IsWalk(walkDays, first)
      requires forall d :: (if d in wmap then wmap[d] else ZERO) == Delta(Net(h.stake, wallet, d), Net(h.borrow, wallet, d) - Net(h.repay, wallet, d))
      ensures forall r :: r in rows ==> r.wallet == wallet && Totals(r, h, first, |walkDays|, missing)
      ensures forall d :: d in missing && OnWalk(first, |walkDays|, d) ==> RowFor(rows, wallet, d)
      ensures forall i, j :: 0 <= i < j < |rows| ==> rows[i].date < rows[j].date
    {
      ghost var stake, borrow := StakeAt(h, wallet, first), BorrowAt(h, wallet, first);
      rows := [];
      var cumStake, cumBorrow := 0, 0;
      var k := 0;
      while k < |walkDays|
        invariant 0 <= k <= |walkDays|
        invariant cumStake == Prefix(stake, k) && cumBorrow == Prefix(borrow, k)
        invariant forall r :: r in rows ==> r.wallet == wallet && Totals(r, h, first, k, missing)
        invariant forall d :: d in missing && OnWalk(first, k, d) ==> RowFor(rows, wallet, d)
        invariant forall i, j :: 0 <= i < j < |rows| ==> rows[i].date < rows[j].date
      {
        var day := walkDays[k];
        assert stake(k) == Net(h.stake, wallet, day) && borrow(k) == Net(h.borrow, wallet, day) - Net(h.repay, wallet, day);
        if day in wmap {
          cumStake := cumStake + wmap[day].netStake;
          cumBorrow := cumBorrow + wmap[day].netBorrow;
        }
        if day in missing {
          var row := ActivityRow(wallet, day, ActivityOf(cumStake, cumBorrow));
          KeepRow(rows, row, h, first, k, missing);
          rows := rows + [row];
        } else {
          SkipDay(rows, wallet, h, first, k, missing);
        }
        k := k + 1;
      }
    }

    static lemma SkipDay(rows: seq<ActivityRow>, wallet: Address, h: History, first: int, k: nat, missing: set<int>)
      requires Day(first, k) !in missing
      requires forall r :: r in rows ==> r.wallet == wallet && Totals(r, h, first, k, missing)
      requires forall d :: d in missing && OnWalk(first, k, d) ==> RowFor(rows, wallet, d)
      ensures forall r :: r in rows ==> r.wallet == wallet && Totals(r, h, first, k + 1, missing)
      ensures forall d :: d in missing && OnWalk(first, k + 1, d) ==> RowFor(rows, wallet, d)
    {}

    static lemma KeepRow(rows: seq<ActivityRow>, row: ActivityRow, h: History, first: int, k: nat, missing: set<int>)
      requires row.date == Day(first, k) && row.date in missing
      requires row.activity == ActivityOf(Prefix(StakeAt(h, row.wallet, first), k + 1), Prefix(BorrowAt(h, row.wallet, first), k + 1))
      requires forall r :: r in rows ==> r.wallet == row.wallet && Totals(r, h, first, k, missing)
      requires forall d :: d in missing && OnWalk(first, k, d) ==> RowFor(rows, row.wallet, d)
      requires forall i, j :: 0 <= i < j < |rows| ==> rows[i].date < rows[j].date
      ensures forall r :: r in rows + [row] ==> r.wallet == row.wallet && Totals(r, h, first, k + 1, missing)
      ensures forall d :: d in missing && OnWalk(first, k + 1, d) ==> RowFor(rows + [row], row.wallet, d)
      ensures forall i, j :: 0 <= i < j < |rows + [row]| ==> (rows + [row])[i].date < (rows + [row])[j].date
    {}

    /** Recomputes the missing days from the whole history. */
    method BackfillWalletDailyActivity(missingDays: seq<int>, historyStart: int, h: History)
      modifies this
      ensures missingDays == [] ==> table == old(table)
      ensures missingDays != [] ==>
        var first := DayFloor(historyStart);
        var last := DayFloor(missingDays[|missingDays| - 1]);
        Backfilled(old(table), table, h, first, DayCount(first, last), AsSet(missingDays))
    {
      hide Totals, RowFor, Backfilled;
      if |missingDays| == 0 {
        return;
      }
      var lastDay := missingDays[|missingDays| - 1];
      var walletDeltas := BuildDeltas(h);
      var missing := AsSet(missingDays);
      var walkDays := DayRange(historyStart, lastDay);
      ghost var first := DayFloor(historyStart);
      var toUpsert: seq<ActivityRow> := [];
      var rest := walletDeltas.Keys;
      while rest != {}
        invariant rest <= walletDeltas.Keys && table == old(table)
        invariant forall r :: r in toUpsert ==> r.wallet in walletDeltas && r.wallet !in rest && Totals(r, h, first, |walkDays|, missing)
        invariant forall w :: w in walletDeltas && w !in rest ==> Complete(toUpsert, w, first, |walkDays|, missing)
        invariant OneRowEach(toUpsert)
        decreases |rest|
      {
        var wallet :| wallet in rest;
        assert forall d :: DeltaAt(walletDeltas, wallet, d) == Delta(Net(h.stake, wallet, d), Net(h.borrow, wallet, d) - Net(h.repay, wallet, d));
        var rows := WalkWallet(wallet, walletDeltas[wallet], walkDays, missing, first, h);
        JoinRows(toUpsert, rows, wallet, first, |walkDays|, missing);
        toUpsert := toUpsert + rows;
        rest := rest - {wallet};
      }
      Upsert(toUpsert);
      TotalsWritten(old(table), toUpsert, h, first, |walkDays|, missing);
    }

    /** Every missing day of the walk has its row. */
    static ghost predicate Complete(rows: seq<ActivityRow>, wallet: Address, first: int, n: nat, missing: set<int>) {
      forall d :: d in missing && OnWalk(first, n, d) ==> RowFor(rows, wallet, d)
    }

    /** No wallet and day twice, so the order in which a batch is written does not matter. */
    static ghost predicate OneRowEach(rows: seq<ActivityRow>) {
      forall i, j :: 0 <= i < j < |rows| ==> (rows[i].wallet, rows[i].date) != (rows[j].wallet, rows[j].date)
    }

    static lemma JoinRows(a: seq<ActivityRow>, b: seq<ActivityRow>, wallet: Address, first: int, n: nat, missing: set<int>)
      requires OneRowEach(a) && forall r :: r in a ==> r.wallet != wallet
      requires forall r :: r in b ==> r.wallet == wallet
      requires forall i, j :: 0 <= i < j < |b| ==> b[i].date < b[j].date
      requires Complete(b, wallet, first, n, missing)
      ensures OneRowEach(a + b)
      ensures Complete(a + b, wallet, first, n, missing)
      ensures forall w :: Complete(a, w, first, n, missing) ==> Complete(a + b, w, first, n, missing)
    {}

    static lemma TotalsWritten(t: Table, rows: seq<ActivityRow>, h: History, first: int, n: nat, missing: set<int>)
      requires forall r :: r in rows ==> Seen(h, r.wallet) && Totals(r, h, first, n, missing)
      requires forall w :: Seen(h, w) ==> Complete(rows, w, first, n, missing)
      ensures Backfilled(t, Upserted(t, rows), h, first, n, missing)
    {
      forall key ensures Find(Upserted(t, rows), key) == AfterBackfill(t, h, first, n, missing, key) {
        var activity := if first <= key.1 then TotalsOf(h, key.0, first, key.1) else NOTHING;
        UpsertedFind(t, rows, key, activity);
        if Seen(h, key.0) && key.1 in missing && OnWalk(first, n, key.1) {
          assert Complete(rows, key.0, first, n, missing);
          assert RowFor(rows, key.0, key.1);
        }
        hide TotalsOf, Seen, Upserted;
      }
    }

    /** Carries the previous day's balances forward and adds the day's deltas. */
    method RunWalletDailyActivityJob(date: int, d: Today)
      requires Grouped(d.stake)
      modifies this
      ensures DailyDone(old(table), table, d, DayFloor(date))
    {
      hide DailyDone, AfterDaily, RowFor, Amount, SeenToday, ActivityOf, Carried, Read;
      var dayStart := DayFloor(date);
      var prevDay := dayStart - DAY;
      var prevMap := map key | key in table && key.1 == prevDay :: key.0 := table[key];
      assert forall w :: w in prevMap <==> (w, prevDay) in table;
      assert forall w :: w in prevMap ==> prevMap[w] == table[(w, prevDay)];
      var deltaMap := DayDeltas(d);
      var allWallets := prevMap.Keys + deltaMap.Keys;
      var rows: seq<ActivityRow> := [];
      var rest := allWallets;
      while rest != {}
        invariant rest <= allWallets && table == old(table)
        invariant forall r :: r in rows ==> r.wallet in allWallets && r.wallet !in rest && Carried(old(table), d, dayStart, r)
        invariant forall w :: w in allWallets && w !in rest ==> RowFor(rows, w, dayStart)
        invariant OneRowEach(rows)
        decreases |rest|
      {
        hide OneRowEach;
        var wallet :| wallet in rest;
        var prev := if wallet in prevMap then prevMap[wallet] else NOTHING;
        assert prev == Read(table, wallet, prevDay) by { PrevRead(table, prevMap, prevDay, wallet); }
        var delta := Of(deltaMap, wallet);
        var staked := prev.staked + delta.netStake;
        var borrowed := prev.borrowed + delta.netBorrow;
        var row := ActivityRow(wallet, dayStart, ActivityOf(staked, borrowed));
        CarryOne(old(table), d, dayStart, row, prev, delta);
        AppendRow(rows, row);
        rows := rows + [row];
        rest := rest - {wallet};
      }
      Upsert(rows);
      CarriedWritten(old(table), rows, d, dayStart);
    }

    /** A row of the daily job: yesterday's balances plus today's deltas. */
    static ghost predicate Carried(t: Table, d: Today, day: int, r: ActivityRow) {
      var prev := Read(t, r.wallet, day - DAY);
      && r.date == day
      && r.activity == ActivityOf(prev.staked + Amount(d.stake, r.wallet),
                                  prev.borrowed + (Amount(d.borrow, r.wallet) - Amount(d.repay, r.wallet)))
    }

    static lemma PrevRead(t: Table, prevMap: map<Address, Activity>, prevDay: int, wallet: Address)
      requires forall w :: w in prevMap <==> (w, prevDay) in t
      requires forall w :: w in prevMap ==> prevMap[w] == t[(w, prevDay)]
      ensures (if wallet in prevMap then prevMap[wallet] else NOTHING) == Read(t, wallet, prevDay)
    {}

    static lemma CarryOne(t: Table, d: Today, day: int, row: ActivityRow, prev: Activity, delta: Delta)
      requires prev == Read(t, row.wallet, day - DAY)
      requires delta == Delta(Amount(d.stake, row.wallet), Amount(d.borrow, row.wallet) - Amount(d.repay, row.wallet))
      requires row.date == day && row.activity == ActivityOf(prev.staked + delta.netStake, prev.borrowed + delta.netBorrow)
      ensures Carried(t, d, day, row)
    {}

    static lemma AppendRow(rows: seq<ActivityRow>, row: ActivityRow)
      requires OneRowEach(rows) && forall r :: r in rows ==> r.wallet != row.wallet
      ensures OneRowEach(rows + [row])
      ensures forall w :: RowFor(rows + [row], w, row.date) <==> RowFor(rows, w, row.date) || w == row.wallet
    {}

    static lemma CarriedWritten(t: Table, rows: seq<ActivityRow>, d: Today, day: int)
      requires forall r :: r in rows ==> ((r.wallet, day - DAY) in t || SeenToday(d, r.wallet)) && Carried(t, d, day, r)
      requires forall w :: (w, day - DAY) in t || SeenToday(d, w) ==> RowFor(rows, w, day)
      ensures DailyDone(t, Upserted(t, rows), d, day)
    {
      forall key ensures Find(Upserted(t, rows), key) == AfterDaily(t, d, day, key) {
        var prev := Read(t, key.0, day - DAY);
        var activity := ActivityOf(prev.staked + Amount(d.stake, key.0),
                                   prev.borrowed + (Amount(d.borrow, key.0) - Amount(d.repay, key.0)));
        UpsertedFind(t, rows, key, activity);
        hide Upserted, Amount, SeenToday;
      }
    }
  }
}
