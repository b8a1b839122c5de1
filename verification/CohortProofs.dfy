/** The daily job, run on consecutive days, against the backfill over the same events. */
module CohortProofs {
  import opened Base
  import opened CohortSpec

  // ---------- carrying forward with a floor at zero ----------

  /** The carried balance: clamped at zero every day. */
  function Carry(d: nat -> int, n: nat): int {
    if n == 0 then 0 else Max(Carry(d, n - 1) + d(n - 1), 0)
  }

  /** The lowest running total so far, the empty one included. */
  function Low(d: nat -> int, n: nat): int {
    if n == 0 then 0 else Min(Low(d, n - 1), Prefix(d, n))
  }

  /** The carried balance is the running total raised by its deepest dip below zero. */
  lemma {:induction false} Reflection(d: nat -> int, n: nat)
    ensures Carry(d, n) == Prefix(d, n) - Low(d, n)
  {
    if n > 0 { Reflection(d, n - 1); }
  }

  lemma {:induction false} LowIsTheMinimum(d: nat -> int, n: nat)
    ensures Low(d, n) <= 0
    ensures forall k: nat :: k <= n ==> Low(d, n) <= Prefix(d, k)
    ensures exists k: nat :: k <= n && Low(d, n) == Prefix(d, k)
  {
    if n == 0 {
      assert Prefix(d, 0) == 0;
    } else {
      LowIsTheMinimum(d, n - 1);
    }
  }

  /** No running total ever went below zero. */
  ghost predicate NeverNegative(d: nat -> int, n: nat) {
    forall k: nat :: k <= n ==> 0 <= Prefix(d, k)
  }

  /** The carried balance is never below the clamped running total, and equals it exactly when no running total was ever
      negative or the current one is the lowest so far. */
  lemma CarryAgainstTotal(d: nat -> int, n: nat)
    ensures Max(Prefix(d, n), 0) <= Carry(d, n)
    ensures Carry(d, n) == Max(Prefix(d, n), 0) <==> NeverNegative(d, n) || forall k: nat :: k <= n ==> Prefix(d, n) <= Prefix(d, k)
  {
    Reflection(d, n);
    LowIsTheMinimum(d, n);
    if NeverNegative(d, n) {
      var k: nat :| k <= n && Low(d, n) == Prefix(d, k);
    }
    hide Carry, Low, Prefix;
  }

  // ---------- the two jobs over the same events ----------

  /** The single-day queries and the whole-history queries read the same events. */
  ghost predicate SameEvents(h: History, d: Today, day: int) {
    forall w :: Amount(d.stake, w) == Net(h.stake, w, day)
             && Amount(d.borrow, w) - Amount(d.repay, w) == Net(h.borrow, w, day) - Net(h.repay, w, day)
  }

  /** The daily job run on n consecutive days from `first`, starting from an empty table. */
  ghost predicate DailyRun(tables: seq<Table>, days: seq<Today>, first: int) {
    && |tables| == |days| + 1 && tables[0] == map[]
    && forall i :: 0 <= i < |days| ==> DailyDone(tables[i], tables[i + 1], days[i], Day(first, i))
  }

  lemma {:induction false} AmountNeedsName(rows: seq<DayRow>, wallet: Address)
    requires !Names(rows, wallet)
    ensures Amount(rows, wallet) == 0
    decreases |rows|
  {
    if rows != [] {
      var n := |rows| - 1;
      assert rows[n] in rows;
      assert !Names(rows[..n], wallet);
      AmountNeedsName(rows[..n], wallet);
    }
  }

  /** What the daily job leaves for a wallet on the day it handles, whether or not it writes a row. */
  lemma DailyRead(t: Table, after: Table, d: Today, day: int, wallet: Address)
    requires DailyDone(t, after, d, day) && (wallet, day) !in t
    ensures var prev := Read(t, wallet, day - DAY);
      0 <= prev.staked && 0 <= prev.borrowed ==>
        Read(after, wallet, day) == ActivityOf(prev.staked + Amount(d.stake, wallet),
                                               prev.borrowed + (Amount(d.borrow, wallet) - Amount(d.repay, wallet)))
  {
    assert Find(after, (wallet, day)) == AfterDaily(t, d, day, (wallet, day));
    if !SeenToday(d, wallet) {
      AmountNeedsName(d.stake, wallet);
      AmountNeedsName(d.borrow, wallet);
      AmountNeedsName(d.repay, wallet);
    }
    hide Amount, Names;
  }

  /** The daily job touches only its own day. */
  lemma DailyFrame(t: Table, after: Table, d: Today, day: int, wallet: Address, other: int)
    requires DailyDone(t, after, d, day) && other != day
    ensures Find(after, (wallet, other)) == Find(t, (wallet, other))
  {}

  /** After i days no row is later than the i-th day. */
  lemma {:induction false} NothingAhead(tables: seq<Table>, days: seq<Today>, first: int, i: nat, wallet: Address, day: int)
    requires DailyRun(tables, days, first) && i <= |days| && (day < first || day >= Day(first, i))
    ensures (wallet, day) !in tables[i]
  {
    if i > 0 {
      NothingAhead(tables, days, first, i - 1, wallet, day);
      DailyFrame(tables[i - 1], tables[i], days[i - 1], Day(first, i - 1), wallet, day);
    }
  }

  /** After each day of the run the wallet's row for that day holds the carried balances. */
  lemma {:induction false} DailyCarries(tables: seq<Table>, days: seq<Today>, first: int, h: History, wallet: Address, k: nat)
    requires DailyRun(tables, days, first) && k < |days|
    requires forall i :: 0 <= i < |days| ==> SameEvents(h, days[i], Day(first, i))
    ensures Read(tables[k + 1], wallet, Day(first, k))
         == ActivityOf(Carry(StakeAt(h, wallet, first), k + 1), Carry(BorrowAt(h, wallet, first), k + 1))
  {
    var day := Day(first, k);
    NothingAhead(tables, days, first, k, wallet, day);
    if k == 0 {
      assert Read(tables[0], wallet, day - DAY) == NOTHING;
    } else {
      DailyCarries(tables, days, first, h, wallet, k - 1);
      assert day - DAY == Day(first, k - 1);
    }
    DailyRead(tables[k], tables[k + 1], days[k], day, wallet);
    assert SameEvents(h, days[k], day);
    hide Amount, Net, DailyDone;
  }

  /** Later days leave it alone. */
  lemma {:induction false} RowStays(tables: seq<Table>, days: seq<Today>, first: int, wallet: Address, k: nat, n: nat)
    requires DailyRun(tables, days, first) && k < n <= |days|
    ensures Read(tables[n], wallet, Day(first, k)) == Read(tables[k + 1], wallet, Day(first, k))
    decreases n
  {
    if k + 1 < n {
      RowStays(tables, days, first, wallet, k, n - 1);
      DailyFrame(tables[n - 1], tables[n], days[n - 1], Day(first, n - 1), wallet, Day(first, k));
    }
  }

  lemma {:induction false} NetNeedsMention(rows: seq<Row>, wallet: Address, day: int)
    requires !Mentions(rows, wallet)
    ensures Net(rows, wallet, day) == 0
    decreases |rows|
  {
    if rows != [] {
      var n := |rows| - 1;
      assert rows[n] in rows;
      assert !Mentions(rows[..n], wallet);
      NetNeedsMention(rows[..n], wallet, day);
    }
  }

  lemma {:induction false} UnseenTotals(h: History, wallet: Address, first: int, n: nat)
    requires !Seen(h, wallet)
    ensures Prefix(StakeAt(h, wallet, first), n) == 0 == Prefix(BorrowAt(h, wallet, first), n)
  {
    if n > 0 {
      UnseenTotals(h, wallet, first, n - 1);
      NetNeedsMention(h.stake, wallet, Day(first, n - 1));
      NetNeedsMention(h.borrow, wallet, Day(first, n - 1));
      NetNeedsMention(h.repay, wallet, Day(first, n - 1));
    }
  }

  /** A backfilled day reads as the clamped running totals of that day, for every wallet, with or without a row. */
  lemma BackfillTotals(t: Table, h: History, first: int, n: nat, missing: set<int>, wallet: Address, k: nat)
    requires Backfilled(map[], t, h, first, n, missing) && k < n && Day(first, k) in missing
    ensures Read(t, wallet, Day(first, k))
         == ActivityOf(Prefix(StakeAt(h, wallet, first), k + 1), Prefix(BorrowAt(h, wallet, first), k + 1))
  {
    var day := Day(first, k);
    assert Find(t, (wallet, day)) == AfterBackfill(map[], h, first, n, missing, (wallet, day));
    assert OnWalk(first, n, day) && (day - first) / DAY == k;
    if !Seen(h, wallet) { UnseenTotals(h, wallet, first, k + 1); }
    hide Prefix, StakeAt, BorrowAt, Seen;
  }

  /** One balance, carried forward against recomputed. */
  ghost predicate Agrees(carried: int, total: int, d: nat -> int, n: nat) {
    && total <= carried
    && (total > 0 ==> carried > 0)
    && (carried == total <==> NeverNegative(d, n) || forall k: nat :: k <= n ==> Prefix(d, n) <= Prefix(d, k))
  }

  lemma CarryAgrees(d: nat -> int, n: nat)
    ensures Agrees(Max(Carry(d, n), 0), Max(Prefix(d, n), 0), d, n)
  {
    CarryAgainstTotal(d, n);
  }

  /** For every wallet and every day of the run: the daily job's balances are at least the backfill's, and equal exactly when
      the wallet's running total was never negative or is at its lowest; with equal balances the active flags agree too. */
  lemma DailyAgainstBackfill(tables: seq<Table>, days: seq<Today>, first: int, h: History,
                             t: Table, missing: set<int>, wallet: Address, k: nat)
    requires DailyRun(tables, days, first) && k < |days|
    requires forall i :: 0 <= i < |days| ==> SameEvents(h, days[i], Day(first, i))
    requires Backfilled(map[], t, h, first, |days|, missing) && Day(first, k) in missing
    ensures var daily, full := Read(tables[|days|], wallet, Day(first, k)), Read(t, wallet, Day(first, k));
      && Agrees(daily.staked, full.staked, StakeAt(h, wallet, first), k + 1)
      && Agrees(daily.borrowed, full.borrowed, BorrowAt(h, wallet, first), k + 1)
      && (daily.stakeActive <==> daily.staked > 0) && (full.stakeActive <==> full.staked > 0)
      && (daily.borrowActive <==> daily.borrowed > 0) && (full.borrowActive <==> full.borrowed > 0)
  {
    hide DailyRun, Backfilled, SameEvents, Agrees, Carry, Prefix, StakeAt, BorrowAt;
    DailyCarries(tables, days, first, h, wallet, k);
    RowStays(tables, days, first, wallet, k, |days|);
    BackfillTotals(t, h, first, |days|, missing, wallet, k);
    CarryAgrees(StakeAt(h, wallet, first), k + 1);
    CarryAgrees(BorrowAt(h, wallet, first), k + 1);
  }

  /** The dip is needed: a withdrawal booked a day before its deposit is forgotten by the daily job and kept by the backfill. */
  lemma DipIsForgotten()
    ensures var d := (i: nat) => if i == 0 then -5 else if i == 1 then 8 else 0;
      Max(Prefix(d, 2), 0) == 3 && Carry(d, 2) == 8
  {}

  // ---------- what the jobs read and write ----------

  /** An instant belongs to the day that began at the last midnight, a whole number of days after the epoch. */
  lemma DaysExactly(t: int, first: int, last: int)
    ensures DayFloor(t) <= t < DayFloor(t) + 86_400_000 && DayFloor(t) % 86_400_000 == 0
    ensures last < first ==> DayCount(first, last) == 0
    ensures first <= last ==> (DayCount(first, last) - 1) * 86_400_000 <= last - first < DayCount(first, last) * 86_400_000
  {}

  /** A wallet's net change on a day is the sum of its rows of that day, whatever the time of day; today's is the sum of its rows. */
  lemma ChangesAdd(rows: seq<Row>, row: Row, wallet: Address, day: int, today: seq<DayRow>, one: DayRow)
    requires day % 86_400_000 == 0
    ensures Net([], wallet, day) == 0 && Amount([], wallet) == 0
    ensures Net(rows + [row], wallet, day)
         == Net(rows, wallet, day) + if row.wallet == wallet && day <= row.day < day + 86_400_000 then row.amount else 0
    ensures Amount(today + [one], wallet) == Amount(today, wallet) + if one.wallet == wallet then one.amount else 0
  {
    assert (rows + [row])[..|rows|] == rows && (today + [one])[..|today|] == today;
    DaysExactly(row.day, 0, 0);
    assert day <= row.day < day + 86_400_000 <==> DayFloor(row.day) == day by { SameDay(row.day, day); }
    hide DayFloor;
  }

  lemma SameDay(t: int, day: int)
    requires day % 86_400_000 == 0
    ensures day <= t < day + 86_400_000 <==> DayFloor(t) == day
  {}

  /** A day's activity: flags for positive balances, and balances cut off at zero. */
  lemma ActivityExactly(stake: int, borrow: int)
    ensures ActivityOf(stake, borrow)
         == Activity(0 < stake, 0 < borrow, if 0 < stake then stake else 0, if 0 < borrow then borrow else 0)
  {}

  /** The backfill writes exactly the missing days of the walk for exactly the wallets that any of its queries returned, each with the
      running totals since the first day, and leaves every other row as it was. */
  lemma BackfillExactly(t: Table, after: Table, h: History, first: int, n: nat, missing: set<int>, wallet: Address, i: nat, day: int)
    requires Backfilled(t, after, h, first, n, missing) && day == first + i * 86_400_000
    ensures var known := exists r :: (r in h.stake || r in h.borrow || r in h.repay) && r.wallet == wallet;
      Find(after, (wallet, day)) ==
        if known && i < n && day in missing
        then Some(ActivityOf(Prefix(StakeAt(h, wallet, first), i + 1), Prefix(BorrowAt(h, wallet, first), i + 1)))
        else Find(t, (wallet, day))
  {
    assert Find(after, (wallet, day)) == AfterBackfill(t, h, first, n, missing, (wallet, day));
    assert OnWalk(first, n, day) <==> i < n;
    assert (day - first) / DAY == i;
    hide Prefix, StakeAt, BorrowAt;
  }

  lemma OffTheWalk(t: Table, after: Table, h: History, first: int, n: nat, missing: set<int>, wallet: Address, day: int)
    requires Backfilled(t, after, h, first, n, missing)
    ensures Find(after, (wallet, day)) == Find(t, (wallet, day)) || exists i: nat :: i < n && day == Day(first, i)
  {
    assert Find(after, (wallet, day)) == AfterBackfill(t, h, first, n, missing, (wallet, day));
    if OnWalk(first, n, day) {
      var i: nat := (day - first) / DAY;
      assert i < n && day == Day(first, i);
    }
    hide TotalsOf;
  }

  /** The daily job writes exactly the rows of its day, for exactly the wallets with a row on the day before or a change today: the
      earlier balances plus today's change. */
  lemma DailyExactly(t: Table, after: Table, d: Today, day: int, wallet: Address, other: int)
    requires DailyDone(t, after, d, day)
    ensures other != day ==> Find(after, (wallet, other)) == Find(t, (wallet, other))
    ensures var before := (wallet, day - 86_400_000);
      var changed := exists r :: (r in d.stake || r in d.borrow || r in d.repay) && r.wallet == wallet;
      var staked, borrowed := if before in t then t[before].staked else 0, if before in t then t[before].borrowed else 0;
      Find(after, (wallet, day)) ==
        if before in t || changed
        then Some(ActivityOf(staked + Amount(d.stake, wallet), borrowed + Amount(d.borrow, wallet) - Amount(d.repay, wallet)))
        else Find(t, (wallet, day))
  {
    assert Find(after, (wallet, day)) == AfterDaily(t, d, day, (wallet, day));
    assert Find(after, (wallet, other)) == AfterDaily(t, d, day, (wallet, other));
    hide Amount;
  }
}
