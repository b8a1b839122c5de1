/** Daily wallet balances: what the two jobs compute from the grouped rows the database returns. */
module CohortSpec {
  import opened Base

  /** Milliseconds; instants are counted from the epoch, days are instants at midnight UTC. */
  const DAY := 86_400_000

  function DayFloor(t: int): int { t / DAY * DAY }

  function Day(first: int, i: nat): int { first + i * DAY }

  /** Calendar days from `first` to `last`, both at midnight. */
  function DayCount(first: int, last: int): nat {
    if last < first then 0 else (last - first) / DAY + 1
  }

  /** One row of a query grouped by wallet and day. */
  datatype Row = Row(wallet: Address, day: int, amount: int)

  /** What the three queries of the backfill return. */
  datatype History = History(stake: seq<Row>, borrow: seq<Row>, repay: seq<Row>)

  function Net(rows: seq<Row>, wallet: Address, day: int): int {
    if rows == [] then 0
    else
      var n := |rows| - 1;
      Net(rows[..n], wallet, day) + (if rows[n].wallet == wallet && DayFloor(rows[n].day) == day then rows[n].amount else 0)
  }

  predicate Mentions(rows: seq<Row>, wallet: Address) {
    exists r :: r in rows && r.wallet == wallet
  }

  predicate Seen(h: History, wallet: Address) {
    Mentions(h.stake, wallet) || Mentions(h.borrow, wallet) || Mentions(h.repay, wallet)
  }

  /** Net stake change on the i-th day from `first`. */
  function StakeAt(h: History, wallet: Address, first: int): nat -> int {
    (i: nat) => Net(h.stake, wallet, Day(first, i))
  }

  function BorrowAt(h: History, wallet: Address, first: int): nat -> int {
    (i: nat) => Net(h.borrow, wallet, Day(first, i)) - Net(h.repay, wallet, Day(first, i))
  }

  /** Sum of the first n deltas. */
  function Prefix(d: nat -> int, n: nat): int {
    if n == 0 then 0 else Prefix(d, n - 1) + d(n - 1)
  }

  datatype Activity = Activity(stakeActive: bool, borrowActive: bool, staked: int, borrowed: int)

  const NOTHING := Activity(false, false, 0, 0)

  function ActivityOf(stake: int, borrow: int): Activity {
    Activity(stake > 0, borrow > 0, Max(stake, 0), Max(borrow, 0))
  }

  /** The persisted rows, one per wallet and day. */
  type Table = map<(Address, int), Activity>

  function Find(t: Table, key: (Address, int)): Option<Activity> {
    if key in t then Some(t[key]) else None
  }

  /** A missing row reads as nothing. */
  function Read(t: Table, wallet: Address, day: int): Activity {
    if (wallet, day) in t then t[(wallet, day)] else NOTHING
  }

  // ---------- the backfill ----------

  function AsSet(days: seq<int>): set<int> { set d | d in days }

  predicate OnWalk(first: int, n: nat, day: int) {
    first <= day < first + n * DAY && (day - first) % DAY == 0
  }

  /** A wallet's running totals at the end of a day of the walk. */
  function TotalsOf(h: History, wallet: Address, first: int, day: int): Activity
    requires first <= day
  {
    var i: nat := (day - first) / DAY;
    ActivityOf(Prefix(StakeAt(h, wallet, first), i + 1), Prefix(BorrowAt(h, wallet, first), i + 1))
  }

  /** The row under `key` after a backfill of `missing` that walks n days from `first`. */
  function AfterBackfill(t: Table, h: History, first: int, n: nat, missing: set<int>, key: (Address, int)): Option<Activity> {
    if Seen(h, key.0) && key.1 in missing && OnWalk(first, n, key.1) then Some(TotalsOf(h, key.0, first, key.1))
    else Find(t, key)
  }

  ghost predicate Backfilled(t: Table, after: Table, h: History, first: int, n: nat, missing: set<int>) {
    forall key :: Find(after, key) == AfterBackfill(t, h, first, n, missing, key)
  }

  // ---------- one day, carried forward ----------

  /** One row of a query over a single day, grouped by wallet. */
  datatype DayRow = DayRow(wallet: Address, amount: int)

  datatype Today = Today(stake: seq<DayRow>, borrow: seq<DayRow>, repay: seq<DayRow>)

  function Amount(rows: seq<DayRow>, wallet: Address): int {
    if rows == [] then 0
    else
      var n := |rows| - 1;
      Amount(rows[..n], wallet) + (if rows[n].wallet == wallet then rows[n].amount else 0)
  }

  predicate Names(rows: seq<DayRow>, wallet: Address) {
    exists r :: r in rows && r.wallet == wallet
  }

  predicate SeenToday(d: Today, wallet: Address) {
    Names(d.stake, wallet) || Names(d.borrow, wallet) || Names(d.repay, wallet)
  }

  /** `GROUP BY wallet`: one row per wallet. */
  predicate Grouped(rows: seq<DayRow>) {
    forall i, j :: 0 <= i < j < |rows| ==> rows[i].wallet != rows[j].wallet
  }

  /** The row under `key` after the daily job for `day`. */
  function AfterDaily(t: Table, d: Today, day: int, key: (Address, int)): Option<Activity> {
    if key.1 == day && ((key.0, day - DAY) in t || SeenToday(d, key.0)) then
      var prev := Read(t, key.0, day - DAY);
      Some(ActivityOf(prev.staked + Amount(d.stake, key.0),
                      prev.borrowed + (Amount(d.borrow, key.0) - Amount(d.repay, key.0))))
    else Find(t, key)
  }

  ghost predicate DailyDone(t: Table, after: Table, d: Today, day: int) {
    forall key :: Find(after, key) == AfterDaily(t, d, day, key)
  }
}
