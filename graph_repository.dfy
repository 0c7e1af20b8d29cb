/**
 * The two reporting queries of GraphRepository, as functions of the ledger
 * (the MOVEMENTS table joined with the category names) and of the current
 * date, which the queries read from the clock.
 *
 * Each query is modelled step by step as the database evaluates it (window,
 * join, WHERE, GROUP BY, aggregate, ORDER BY). Beside it stands a
 * declarative description of the report it should produce (IsBalanceReport,
 * IsCreditReport); a theorem shows the query meets it, a lemma shows only
 * one report meets it, and the remaining properties are proved about it.
 */
module GraphRepository {
  import opened Wrappers
  import opened Dates
  import opened Sql

  /**
   * A movement of the ledger: entry date, signed amount in minor currency
   * units (positive = credit, negative = debit) and the name of its
   * category, None while the movement is uncategorised.
   */
  datatype Movement = Movement(entryDate: Date, amount: int, category: Option<string>)

  // ---------------------------------------------------------------------
  // Sums over the ledger: the vocabulary of the specifications
  // ---------------------------------------------------------------------

  /** Sum of the amounts of the movements that satisfy p. */
  function SumWhere(ms: seq<Movement>, p: Movement -> bool): int {
    if ms == [] then 0 else (if p(ms[0]) then ms[0].amount else 0) + SumWhere(ms[1..], p)
  }

  /** Some movement satisfies p. */
  predicate HasAny(ms: seq<Movement>, p: Movement -> bool) {
    exists m :: m in ms && p(m)
  }

  /**
   * sum(amount) filter (where p), taken over the whole ledger: NULL when no
   * movement satisfies p.
   */
  function FilteredSum(ms: seq<Movement>, p: Movement -> bool): Option<int> {
    if HasAny(ms, p) then Some(SumWhere(ms, p)) else None
  }

  lemma {:induction false} SumWhereAppend(a: seq<Movement>, b: seq<Movement>, p: Movement -> bool)
    ensures SumWhere(a + b, p) == SumWhere(a, p) + SumWhere(b, p)
  {
    if a == [] {
      assert a + b == b;
    } else {
      assert (a + b)[1..] == a[1..] + b;
      SumWhereAppend(a[1..], b, p);
    }
  }

  /** Taking one movement out of the ledger takes its contribution out of the sum. */
  lemma SumWhereRemove(b: seq<Movement>, i: int, p: Movement -> bool)
    requires 0 <= i < |b|
    ensures SumWhere(b, p) == (if p(b[i]) then b[i].amount else 0) + SumWhere(b[..i] + b[i + 1..], p)
  {
    assert b == b[..i] + [b[i]] + b[i + 1..];
    SumWhereAppend(b[..i] + [b[i]], b[i + 1..], p);
    SumWhereAppend(b[..i], [b[i]], p);
    SumWhereAppend(b[..i], b[i + 1..], p);
    assert SumWhere([b[i]], p) == (if p(b[i]) then b[i].amount else 0) by {
      assert [b[i]][1..] == [];
    }
  }

  lemma MultisetRemove(a: seq<Movement>, b: seq<Movement>, i: int)
    requires multiset(a) == multiset(b)
    requires a != [] && 0 <= i < |b| && b[i] == a[0]
    ensures multiset(a[1..]) == multiset(b[..i] + b[i + 1..])
  {
    calc {
      multiset(a[1..]);
    == { assert a == [a[0]] + a[1..]; }
      multiset(a) - multiset{a[0]};
    == { assert b == b[..i] + [b[i]] + b[i + 1..]; }
      multiset(b[..i] + b[i + 1..]);
    }
  }

  /** A sum over the ledger does not depend on the order of its rows. */
  lemma {:induction false} SumWherePermutation(a: seq<Movement>, b: seq<Movement>, p: Movement -> bool)
    requires multiset(a) == multiset(b)
    ensures SumWhere(a, p) == SumWhere(b, p)
    decreases |a|
  {
    if a == [] {
      assert |b| == |multiset(b)| == 0;
    } else {
      assert a[0] in multiset(b);
      var i :| 0 <= i < |b| && b[i] == a[0];
      MultisetRemove(a, b, i);
      SumWherePermutation(a[1..], b[..i] + b[i + 1..], p);
      SumWhereRemove(b, i, p);
    }
  }

  /** A sum of amounts that are all positive is positive as soon as there is one. */
  lemma {:induction false} SumWherePositive(ms: seq<Movement>, p: Movement -> bool)
    requires forall m :: m in ms && p(m) ==> m.amount > 0
    ensures SumWhere(ms, p) >= 0
    ensures HasAny(ms, p) ==> SumWhere(ms, p) > 0
  {
    if ms != [] {
      assert forall m :: m in ms[1..] ==> m in ms;
      SumWherePositive(ms[1..], p);
      assert forall m :: m in ms ==> m == ms[0] || m in ms[1..];
    }
  }

  /** A sum of amounts that are all negative is negative as soon as there is one. */
  lemma {:induction false} SumWhereNegative(ms: seq<Movement>, p: Movement -> bool)
    requires forall m :: m in ms && p(m) ==> m.amount < 0
    ensures SumWhere(ms, p) <= 0
    ensures HasAny(ms, p) ==> SumWhere(ms, p) < 0
  {
    if ms != [] {
      assert forall m :: m in ms[1..] ==> m in ms;
      SumWhereNegative(ms[1..], p);
      assert forall m :: m in ms ==> m == ms[0] || m in ms[1..];
    }
  }

  /** Movements posted on or before day d. */
  function UpTo(d: Date): Movement -> bool {
    (m: Movement) => !Before(d, m.entryDate)
  }

  /** Movements posted on day d. */
  function On(d: Date): Movement -> bool {
    (m: Movement) => m.entryDate == d
  }

  /** Balance of the ledger at the end of day d: every amount posted on or before d. */
  function Balance(ms: seq<Movement>, d: Date): int {
    SumWhere(ms, UpTo(d))
  }

  /** Net amount posted on day d. */
  function DayTotal(ms: seq<Movement>, d: Date): int {
    SumWhere(ms, On(d))
  }

  /** Between two days with no movement strictly in between, the balance grows by the later day's total. */
  lemma {:induction false} BalanceStep(ms: seq<Movement>, d1: Date, d2: Date)
    requires Before(d1, d2)
    requires forall m :: m in ms ==> !(Before(d1, m.entryDate) && Before(m.entryDate, d2))
    ensures Balance(ms, d2) == Balance(ms, d1) + DayTotal(ms, d2)
  {
    if ms != [] {
      BeforeIsTotal(d1, ms[0].entryDate);
      BeforeIsTotal(d2, ms[0].entryDate);
      assert ms[0] in ms;
      assert forall m :: m in ms[1..] ==> m in ms;
      BalanceStep(ms[1..], d1, d2);
    }
  }

  /** Appending a movement adds its amount to the balance of every day from its own on. */
  lemma BalanceAppend(ms: seq<Movement>, m: Movement, d: Date)
    requires !Before(d, m.entryDate)
    ensures Balance(ms + [m], d) == Balance(ms, d) + m.amount
  {
    SumWhereAppend(ms, [m], UpTo(d));
    assert [m][1..] == [];
  }

  /** The entry_date column of the ledger. */
  function EntryDates(ms: seq<Movement>): (ds: seq<Date>)
    ensures |ds| == |ms|
    ensures forall d :: d in ds <==> exists m :: m in ms && m.entryDate == d
  {
    if ms == [] then [] else [ms[0].entryDate] + EntryDates(ms[1..])
  }

  // ---------------------------------------------------------------------
  // rollingSum, as the database evaluates it
  // ---------------------------------------------------------------------

  /** startDate of rollingSum: today.minusYears(2). */
  function RollingStart(today: Date): (start: Date)
    requires Valid(today)
    ensures Valid(start) && Before(start, today)
    ensures start.year == today.year - 2 && start.month == today.month
    ensures start.day == if today.month == 2 && today.day == 29 then 28 else today.day
  {
    MinusYears(today, 2)
  }

  /** A row of the inner select "x"(date, amount). */
  datatype WindowRow = WindowRow(date: Date, amount: int)

  /** The date column of window rows. */
  function RowDates(rows: seq<WindowRow>): (ds: seq<Date>)
    ensures |ds| == |rows|
  {
    if rows == [] then [] else [rows[0].date] + RowDates(rows[1..])
  }

  /** ORDER BY entry_date: no row is dated after a later row; rows of one date (peers) come in any order. */
  predicate DateOrdered(s: seq<Movement>) {
    forall i, j :: 0 <= i < j < |s| ==> !Before(s[j].entryDate, s[i].entryDate)
  }

  /** Places m before the first row that is not dated before it. */
  function InsertByDate(m: Movement, s: seq<Movement>): (r: seq<Movement>)
    ensures |r| == |s| + 1
  {
    if s == [] then [m]
    else if !Before(s[0].entryDate, m.entryDate) then [m] + s
    else [s[0]] + InsertByDate(m, s[1..])
  }

  /** Inserting into ordered rows keeps them ordered and adds exactly that row. */
  lemma {:induction false} InsertByDateSorts(m: Movement, s: seq<Movement>)
    requires DateOrdered(s)
    ensures DateOrdered(InsertByDate(m, s))
    ensures multiset(InsertByDate(m, s)) == multiset(s) + multiset{m}
  {
    if s == [] {
    } else if !Before(s[0].entryDate, m.entryDate) {
      forall j | 0 <= j < |s|
        ensures !Before(s[j].entryDate, m.entryDate)
      {
        BeforeIsTotal(s[0].entryDate, m.entryDate);
      }
      assert s == [s[0]] + s[1..];
    } else {
      assert s == [s[0]] + s[1..];
      var rest := InsertByDate(m, s[1..]);
      InsertByDateSorts(m, s[1..]);
      forall x | x in rest
        ensures !Before(x.entryDate, s[0].entryDate)
      {
        assert x in multiset(rest);
        assert x == m || x in s[1..];
      }
    }
  }

  /** The rows of the table in one of the orders that ORDER BY entry_date allows. */
  function SortByDate(ms: seq<Movement>): (s: seq<Movement>)
    ensures |s| == |ms|
  {
    if ms == [] then [] else InsertByDate(ms[0], SortByDate(ms[1..]))
  }

  /** The sorted rows are in entry_date order and are the rows of the table. */
  lemma {:induction false} SortByDateSorts(ms: seq<Movement>)
    ensures DateOrdered(SortByDate(ms))
    ensures multiset(SortByDate(ms)) == multiset(ms)
  {
    if ms != [] {
      SortByDateSorts(ms[1..]);
      InsertByDateSorts(ms[0], SortByDate(ms[1..]));
      assert ms == [ms[0]] + ms[1..];
    }
  }

  /** Sum of all amounts. */
  function Total(s: seq<Movement>): int {
    if s == [] then 0 else s[0].amount + Total(s[1..])
  }

  /**
   * Where the frame "range between unbounded preceding and current row" of
   * row i ends: one past the last row of i's date (its last peer), the rows
   * being in entry_date order.
   */
  function FrameEnd(s: seq<Movement>, i: int): (e: int)
    requires 0 <= i < |s|
    ensures i < e <= |s|
    decreases |s| - i
  {
    if i + 1 < |s| && s[i + 1].entryDate == s[i].entryDate then FrameEnd(s, i + 1) else i + 1
  }

  /** The frame of row i ends after a run of rows of i's date, at the first row of another date or at the end. */
  lemma {:induction false} FrameEndPeers(s: seq<Movement>, i: int)
    requires 0 <= i < |s|
    ensures forall j :: i <= j < FrameEnd(s, i) ==> s[j].entryDate == s[i].entryDate
    ensures FrameEnd(s, i) < |s| ==> s[FrameEnd(s, i)].entryDate != s[i].entryDate
    decreases |s| - i
  {
    if i + 1 < |s| && s[i + 1].entryDate == s[i].entryDate {
      FrameEndPeers(s, i + 1);
    }
  }

  /**
   * The inner select over the rows s[i..] of the ordered table s: each row's
   * entry date and sum(amount) over its frame, which runs from the first row
   * of s to the row's last peer.
   */
  function WindowFrom(s: seq<Movement>, i: int): (rows: seq<WindowRow>)
    requires 0 <= i <= |s|
    ensures |rows| == |s| - i
    decreases |s| - i
  {
    if i == |s| then []
    else [WindowRow(s[i].entryDate, Total(s[..FrameEnd(s, i)]))] + WindowFrom(s, i + 1)
  }

  /**
   * The inner select "x": the table in entry_date order, each row with its
   * windowed sum. There is one row per movement and the dates are the
   * movements' dates.
   */
  function Window(ms: seq<Movement>): (rows: seq<WindowRow>)
    ensures |rows| == |ms|
  {
    WindowFrom(SortByDate(ms), 0)
  }

  /** The date column of the rows s[i..] of the inner select is the entry_date column of s[i..]. */
  lemma {:induction false} WindowFromDates(s: seq<Movement>, i: int)
    requires 0 <= i <= |s|
    ensures RowDates(WindowFrom(s, i)) == EntryDates(s[i..])
    decreases |s| - i
  {
    if i < |s| {
      WindowFromDates(s, i + 1);
      assert s[i..] == [s[i]] + s[i + 1..];
    }
  }

  /** The inner select's dates are the movements' dates. */
  lemma WindowDates(ms: seq<Movement>)
    ensures forall d :: d in RowDates(Window(ms)) <==> d in EntryDates(ms)
  {
    var s := SortByDate(ms);
    SortByDateSorts(ms);
    WindowFromDates(s, 0);
    assert s[0..] == s;
    forall m
      ensures m in s <==> m in ms
    {
      assert m in s <==> m in multiset(s);
      assert m in ms <==> m in multiset(ms);
    }
  }

  lemma {:induction false} WindowFromRow(s: seq<Movement>, i: int, j: int)
    requires 0 <= i <= j < |s|
    ensures WindowFrom(s, i)[j - i] == WindowRow(s[j].entryDate, Total(s[..FrameEnd(s, j)]))
    decreases j - i
  {
    if i < j {
      WindowFromRow(s, i + 1, j);
    }
  }

  lemma {:induction false} SumWhereAll(a: seq<Movement>, p: Movement -> bool)
    requires forall j :: 0 <= j < |a| ==> p(a[j])
    ensures SumWhere(a, p) == Total(a)
  {
    if a != [] {
      SumWhereAll(a[1..], p);
    }
  }

  lemma {:induction false} SumWhereNone(a: seq<Movement>, p: Movement -> bool)
    requires forall j :: 0 <= j < |a| ==> !p(a[j])
    ensures SumWhere(a, p) == 0
  {
    if a != [] {
      SumWhereNone(a[1..], p);
    }
  }

  /** On rows in entry_date order, no row of the frame of row i is dated after row i. */
  lemma FrameRowsUpTo(s: seq<Movement>, i: int)
    requires DateOrdered(s) && 0 <= i < |s|
    ensures forall j :: 0 <= j < FrameEnd(s, i) ==> !Before(s[i].entryDate, s[j].entryDate)
  {
    FrameEndPeers(s, i);
    forall j | 0 <= j < FrameEnd(s, i)
      ensures !Before(s[i].entryDate, s[j].entryDate)
    {
      if j < i {
        assert !Before(s[i].entryDate, s[j].entryDate);
      }
    }
  }

  /** On rows in entry_date order, every row after the frame of row i is dated after row i. */
  lemma FrameRowsAfter(s: seq<Movement>, i: int)
    requires DateOrdered(s) && 0 <= i < |s|
    ensures forall j :: FrameEnd(s, i) <= j < |s| ==> Before(s[i].entryDate, s[j].entryDate)
  {
    var e, d := FrameEnd(s, i), s[i].entryDate;
    FrameEndPeers(s, i);
    if e < |s| {
      assert !Before(s[e].entryDate, d);
      BeforeIsTotal(s[e].entryDate, d);
      forall j | e <= j < |s|
        ensures Before(d, s[j].entryDate)
      {
        assert !Before(s[j].entryDate, s[e].entryDate);
        BeforeIsTotal(s[j].entryDate, s[e].entryDate);
      }
    }
  }

  /**
   * On rows in entry_date order, the RANGE frame of row i holds exactly the
   * rows dated on or before row i's date: those before it, its peers after
   * it, and none of the later dates. Its sum is the closing balance of that
   * date.
   */
  lemma FrameBalance(s: seq<Movement>, i: int)
    requires DateOrdered(s) && 0 <= i < |s|
    ensures Total(s[..FrameEnd(s, i)]) == Balance(s, s[i].entryDate)
  {
    var e, d := FrameEnd(s, i), s[i].entryDate;
    FrameRowsUpTo(s, i);
    FrameRowsAfter(s, i);
    assert forall j :: 0 <= j < e ==> UpTo(d)(s[j]);
    assert forall j :: e <= j < |s| ==> !UpTo(d)(s[j]);
    SumWherePrefix(s, e, UpTo(d));
  }

  /** When exactly the rows before position e satisfy p, the sum where p is the total of those rows. */
  lemma SumWherePrefix(s: seq<Movement>, e: int, p: Movement -> bool)
    requires 0 <= e <= |s|
    requires forall j :: 0 <= j < e ==> p(s[j])
    requires forall j :: e <= j < |s| ==> !p(s[j])
    ensures SumWhere(s, p) == Total(s[..e])
  {
    assert forall j :: 0 <= j < e ==> s[..e][j] == s[j];
    assert forall j :: 0 <= j < |s| - e ==> s[e..][j] == s[e + j];
    SumWhereAll(s[..e], p);
    SumWhereNone(s[e..], p);
    assert s == s[..e] + s[e..];
    SumWhereAppend(s[..e], s[e..], p);
  }

  /**
   * Every row of the inner select carries the closing balance of its own
   * date over the whole table, whichever order the peers come in.
   */
  lemma WindowBalances(ms: seq<Movement>)
    ensures forall x :: x in Window(ms) ==> x.amount == Balance(ms, x.date)
  {
    var s := SortByDate(ms);
    SortByDateSorts(ms);
    forall x | x in Window(ms)
      ensures x.amount == Balance(ms, x.date)
    {
      var j :| 0 <= j < |Window(ms)| && Window(ms)[j] == x;
      WindowFromRow(s, 0, j);
      FrameBalance(s, j);
      SumWherePermutation(s, ms, UpTo(x.date));
    }
  }

  /**
   * Two peers on 2 January entered as -20 then +50: with the RANGE frame
   * both rows of that day carry 130, the day's closing balance, where a
   * running total row by row would give 80 to the first of them.
   */
  lemma PeerRowsShareFrame()
    ensures var s := [Movement(Date(2024, 1, 1), 100, None), Movement(Date(2024, 1, 2), -20, None),
                      Movement(Date(2024, 1, 2), 50, None)];
      DateOrdered(s) && WindowFrom(s, 0)[1].amount == 130 && WindowFrom(s, 0)[2].amount == 130
      && Total(s[..2]) == 80
  {
    var s := [Movement(Date(2024, 1, 1), 100, None), Movement(Date(2024, 1, 2), -20, None),
              Movement(Date(2024, 1, 2), 50, None)];
    assert FrameEnd(s, 2) == 3;
    assert FrameEnd(s, 1) == 3;
    WindowFromRow(s, 0, 1);
    WindowFromRow(s, 0, 2);
    assert s[..3] == s && s[1..][1..][1..] == [];
    assert Total(s) == 130;
    assert s[..2][1..][1..] == [];
  }

  /** where date >= startDate. */
  function OnOrAfter(rows: seq<WindowRow>, start: Date): (kept: seq<WindowRow>)
    ensures |kept| <= |rows|
    ensures forall x :: x in kept ==> x in rows
    ensures forall d :: d in RowDates(kept) <==> d in RowDates(rows) && !Before(d, start)
  {
    if rows == [] then []
    else if Before(rows[0].date, start) then OnOrAfter(rows[1..], start)
    else [rows[0]] + OnOrAfter(rows[1..], start)
  }

  /** The where clause keeps every row on or after start as often as it occurs, and drops every other row. */
  lemma {:induction false} OnOrAfterKeeps(rows: seq<WindowRow>, start: Date)
    ensures forall x :: multiset(OnOrAfter(rows, start))[x] == if Before(x.date, start) then 0 else multiset(rows)[x]
  {
    if rows != [] {
      OnOrAfterKeeps(rows[1..], start);
      assert rows == [rows[0]] + rows[1..];
    }
  }

  /** The amount column of the group of rows dated d. */
  function RowAmountsOn(rows: seq<WindowRow>, d: Date): seq<int> {
    if rows == [] then []
    else (if rows[0].date == d then [rows[0].amount] else []) + RowAmountsOn(rows[1..], d)
  }

  /** The group of d holds the amounts of the rows dated d, and the amount of every such row. */
  lemma {:induction false} RowAmountsOnGroup(rows: seq<WindowRow>, d: Date)
    ensures forall v :: v in RowAmountsOn(rows, d) ==> exists x :: x in rows && x.date == d && x.amount == v
    ensures forall x :: x in rows && x.date == d ==> x.amount in RowAmountsOn(rows, d)
  {
    if rows != [] {
      RowAmountsOnGroup(rows[1..], d);
      assert forall x :: x in rows[1..] ==> x in rows;
    }
  }

  /** A result row of rollingSum: a date and min(amount) of its group. */
  datatype BalanceRow = BalanceRow(date: Date, balance: Option<int>)

  /**
   * rollingSum: the window over all movements, then the rows dated on or
   * after two years before today, grouped by date with the minimum of
   * their windowed amounts, ordered by date. There is one row per distinct
   * date, so never more rows than movements.
   */
  function RollingSum(ms: seq<Movement>, today: Date): (r: seq<BalanceRow>)
    requires Valid(today)
    ensures |r| <= |ms|
  {
    var kept := OnOrAfter(Window(ms), RollingStart(today));
    GroupMins(kept, GroupKeys(RowDates(kept)))
  }

  /** One result row per group key, in the order of the keys, with min(amount) of its group. */
  function GroupMins(kept: seq<WindowRow>, dates: seq<Date>): (r: seq<BalanceRow>)
    ensures |r| == |dates|
  {
    if dates == [] then [] else [BalanceRow(dates[0], SqlMin(RowAmountsOn(kept, dates[0])))] + GroupMins(kept, dates[1..])
  }

  /**
   * GROUP BY date with min(amount), whatever the order of the rows: the k-th
   * result row has the k-th key; its value is NULL exactly when no row has
   * that date, and otherwise the amount of a row of that date that no row of
   * that date undercuts.
   */
  lemma {:induction false} GroupMinsRow(kept: seq<WindowRow>, dates: seq<Date>, k: int)
    requires 0 <= k < |dates|
    ensures GroupMins(kept, dates)[k].date == dates[k]
    ensures GroupMins(kept, dates)[k].balance.None? <==> forall x :: x in kept ==> x.date != dates[k]
    ensures GroupMins(kept, dates)[k].balance.Some? ==>
      && (exists x :: x in kept && x.date == dates[k] && x.amount == GroupMins(kept, dates)[k].balance.value)
      && (forall x :: x in kept && x.date == dates[k] ==> GroupMins(kept, dates)[k].balance.value <= x.amount)
  {
    if k == 0 {
      RowAmountsOnGroup(kept, dates[0]);
    } else {
      GroupMinsRow(kept, dates[1..], k - 1);
    }
  }

  /** A date is in the date column exactly when some row has it. */
  lemma {:induction false} RowDatesMembers(rows: seq<WindowRow>)
    ensures forall d :: d in RowDates(rows) <==> exists x :: x in rows && x.date == d
  {
    if rows != [] {
      RowDatesMembers(rows[1..]);
      assert forall x :: x in rows <==> x == rows[0] || x in rows[1..];
    }
  }

  /** The date column of a rollingSum result, in order. */
  function ReportDates(r: seq<BalanceRow>): (ds: seq<Date>)
    ensures |ds| == |r|
  {
    seq(|r|, k requires 0 <= k < |r| => r[k].date)
  }

  // ---------------------------------------------------------------------
  // rollingSum, as a report
  // ---------------------------------------------------------------------

  /**
   * The report rollingSum stands for: one row per distinct movement date on
   * or after start, in increasing order, each with the end-of-day balance of
   * the whole ledger.
   */
  ghost predicate IsBalanceReport(r: seq<BalanceRow>, ms: seq<Movement>, start: Date) {
    && StrictlyAscending(ReportDates(r))
    && (forall d :: d in ReportDates(r) <==> d in EntryDates(ms) && !Before(d, start))
    && (forall k :: 0 <= k < |r| ==> r[k].balance == Some(Balance(ms, r[k].date)))
  }

  /** The window dates kept by the cutoff are the movement dates on or after it. */
  lemma KeptDates(ms: seq<Movement>, start: Date, d: Date)
    ensures d in RowDates(OnOrAfter(Window(ms), start)) <==> d in EntryDates(ms) && !Before(d, start)
  {
    WindowDates(ms);
  }

  /**
   * The minimum over a kept date's group is that date's closing balance:
   * every windowed amount in the group is that balance.
   */
  lemma KeptGroupMin(ms: seq<Movement>, start: Date, dates: seq<Date>, k: int)
    requires 0 <= k < |dates|
    requires dates[k] in RowDates(OnOrAfter(Window(ms), start))
    ensures GroupMins(OnOrAfter(Window(ms), start), dates)[k] == BalanceRow(dates[k], Some(Balance(ms, dates[k])))
  {
    var kept := OnOrAfter(Window(ms), start);
    RowDatesMembers(kept);
    GroupMinsRow(kept, dates, k);
    WindowBalances(ms);
    var x :| x in kept && x.date == dates[k] && x.amount == GroupMins(kept, dates)[k].balance.value;
    assert x in Window(ms);
  }

  /**
   * rollingSum produces the balance report from two years before today:
   * ordered, one row per distinct date, the cutoff date included, and each
   * value the sum of every amount dated on or before the row's date — also
   * those before the cutoff, and all of that day's, since the RANGE frame
   * makes the minimum a minimum over equal values.
   */
  lemma RollingSumMeetsSpec(ms: seq<Movement>, today: Date)
    requires Valid(today)
    ensures IsBalanceReport(RollingSum(ms, today), ms, RollingStart(today))
  {
    var start := RollingStart(today);
    var r := RollingSum(ms, today);
    var kept := OnOrAfter(Window(ms), start);
    var dates := GroupKeys(RowDates(kept));
    forall k | 0 <= k < |r|
      ensures r[k] == BalanceRow(dates[k], Some(Balance(ms, dates[k])))
    {
      assert dates[k] in RowDates(kept);
      KeptGroupMin(ms, start, dates, k);
    }
    assert ReportDates(r) == dates;
    forall d
      ensures d in ReportDates(r) <==> d in EntryDates(ms) && !Before(d, start)
    {
      KeptDates(ms, start, d);
    }
  }

  /** Only one sequence of rows is the balance report of a ledger. */
  lemma BalanceReportUnique(r: seq<BalanceRow>, s: seq<BalanceRow>, ms: seq<Movement>, start: Date)
    requires IsBalanceReport(r, ms, start) && IsBalanceReport(s, ms, start)
    ensures r == s
  {
    AscendingUnique(ReportDates(r), ReportDates(s));
    forall k | 0 <= k < |r|
      ensures r[k] == s[k]
    {
      assert ReportDates(r)[k] == ReportDates(s)[k];
    }
  }

  lemma AscendingPositionsOf(r: seq<BalanceRow>, i: int, j: int)
    requires StrictlyAscending(ReportDates(r))
    requires 0 <= i < |r| && 0 <= j < |r|
    ensures Before(r[i].date, r[j].date) <==> i < j
  {
    AscendingPositions(ReportDates(r), i, j);
  }

  /** From one row of a balance report to the next, the balance grows by exactly the later day's movements. */
  lemma BalanceReportSteps(r: seq<BalanceRow>, ms: seq<Movement>, start: Date, k: int)
    requires IsBalanceReport(r, ms, start)
    requires 0 < k < |r|
    ensures r[k - 1].balance.Some?
    ensures r[k].balance == Some(r[k - 1].balance.value + DayTotal(ms, r[k].date))
  {
    var d1, d2 := r[k - 1].date, r[k].date;
    AscendingPositionsOf(r, k - 1, k);
    forall m | m in ms
      ensures !(Before(d1, m.entryDate) && Before(m.entryDate, d2))
    {
      if Before(d1, m.entryDate) && Before(m.entryDate, d2) {
        assert m.entryDate in EntryDates(ms);
        assert ReportDates(r)[k - 1] == d1;
        assert !Before(d1, start);
        BeforeIsTotal(d1, start);
        assert !Before(m.entryDate, start);
        var j :| 0 <= j < |r| && ReportDates(r)[j] == m.entryDate;
        AscendingPositionsOf(r, k - 1, j);
        AscendingPositionsOf(r, j, k);
      }
    }
    BalanceStep(ms, d1, d2);
  }

  /** rollingSum, row to row: the balance grows by exactly the later day's movements. */
  lemma RollingSumSteps(ms: seq<Movement>, today: Date, k: int)
    requires Valid(today)
    requires 0 < k < |RollingSum(ms, today)|
    ensures var r := RollingSum(ms, today);
      r[k - 1].balance.Some? && r[k].balance == Some(r[k - 1].balance.value + DayTotal(ms, r[k].date))
  {
    RollingSumMeetsSpec(ms, today);
    BalanceReportSteps(RollingSum(ms, today), ms, RollingStart(today), k);
  }

  /** rollingSum is empty exactly when no movement is dated on or after the cutoff, an empty ledger included. */
  lemma RollingSumEmpty(ms: seq<Movement>, today: Date)
    requires Valid(today)
    ensures RollingSum(ms, today) == [] <==> forall m :: m in ms ==> Before(m.entryDate, RollingStart(today))
  {
    RollingSumMeetsSpec(ms, today);
    BalanceReportEmpty(RollingSum(ms, today), ms, RollingStart(today));
  }

  /** A balance report is empty exactly when no movement is dated on or after its start. */
  lemma BalanceReportEmpty(r: seq<BalanceRow>, ms: seq<Movement>, start: Date)
    requires IsBalanceReport(r, ms, start)
    ensures r == [] <==> forall m :: m in ms ==> Before(m.entryDate, start)
  {
    if r != [] {
      assert ReportDates(r)[0] == r[0].date;
      assert r[0].date in ReportDates(r);
    }
    if exists m :: m in ms && !Before(m.entryDate, start) {
      var m :| m in ms && !Before(m.entryDate, start);
      assert m.entryDate in EntryDates(ms);
      assert m.entryDate in ReportDates(r);
    }
  }

  /**
   * A movement dated before the cutoff, inserted anywhere in the table, shows
   * in no row's date, yet it is part of every row's balance: the window runs
   * over the whole table.
   */
  lemma EarlyMovementShiftsBalances(ms: seq<Movement>, ns: seq<Movement>, m: Movement, today: Date)
    requires Valid(today)
    requires multiset(ns) == multiset(ms) + multiset{m}
    requires Before(m.entryDate, RollingStart(today))
    ensures RollingSum(ns, today) == Shifted(RollingSum(ms, today), m.amount)
  {
    RollingSumMeetsSpec(ms, today);
    RollingSumMeetsSpec(ns, today);
    EarlyMovementReport(RollingSum(ms, today), RollingSum(ns, today), ms, ns, m, RollingStart(today));
  }

  /** The rows of r, each balance moved by a. */
  function Shifted(r: seq<BalanceRow>, a: int): seq<BalanceRow> {
    seq(|r|, k requires 0 <= k < |r| => r[k].(balance := if r[k].balance.Some? then Some(r[k].balance.value + a) else None))
  }

  /** Two balance reports, of a ledger and of that ledger with one more movement before the cutoff. */
  lemma EarlyMovementReport(r: seq<BalanceRow>, r': seq<BalanceRow>, ms: seq<Movement>, ns: seq<Movement>, m: Movement, start: Date)
    requires multiset(ns) == multiset(ms) + multiset{m}
    requires Before(m.entryDate, start)
    requires IsBalanceReport(r, ms, start) && IsBalanceReport(r', ns, start)
    ensures r' == Shifted(r, m.amount)
  {
    forall x
      ensures x in ns <==> x in ms || x == m
    {
      assert x in ns <==> x in multiset(ns);
      assert x in ms <==> x in multiset(ms);
    }
    forall d
      ensures d in ReportDates(r) <==> d in ReportDates(r')
    {
      if !Before(d, start) {
        assert d in EntryDates(ms) <==> d in EntryDates(ns);
      }
    }
    AscendingUnique(ReportDates(r), ReportDates(r'));
    forall k | 0 <= k < |r|
      ensures r'[k] == Shifted(r, m.amount)[k]
    {
      assert ReportDates(r)[k] == ReportDates(r')[k];
      var d := r[k].date;
      assert d in ReportDates(r);
      BalanceAppend(ms, m, d);
      SumWherePermutation(ns, ms + [m], UpTo(d));
    }
  }

  /** The table has no row order: reordering the ledger leaves rollingSum unchanged. */
  lemma RollingSumOrderIndependent(ms: seq<Movement>, ns: seq<Movement>, today: Date)
    requires Valid(today)
    requires multiset(ms) == multiset(ns)
    ensures RollingSum(ms, today) == RollingSum(ns, today)
  {
    var start := RollingStart(today);
    var r := RollingSum(ms, today);
    RollingSumMeetsSpec(ms, today);
    RollingSumMeetsSpec(ns, today);
    assert IsBalanceReport(r, ns, start) by {
      forall x
        ensures x in ms <==> x in ns
      {
        assert x in ms <==> x in multiset(ms);
        assert x in ns <==> x in multiset(ns);
      }
      forall k | 0 <= k < |r|
        ensures r[k].balance == Some(Balance(ns, r[k].date))
      {
        SumWherePermutation(ms, ns, UpTo(r[k].date));
      }
    }
    BalanceReportUnique(r, RollingSum(ns, today), ns, start);
  }

  // ---------------------------------------------------------------------
  // creditsPerDay, as the database evaluates it
  // ---------------------------------------------------------------------

  /** Category names of transfers between the organisation's own accounts. */
  const InternalCredit: string := "Crédit interne"
  const InternalDebit: string := "Débit interne"

  /** startDate of creditsPerDay: today.withDayOfMonth(1).minusMonths(2). */
  function CreditsStart(today: Date): (start: Date)
    requires Valid(today)
    ensures Valid(start) && start.day == 1 && Before(start, today)
    ensures start.month == if today.month > 2 then today.month - 2 else today.month + 10
    ensures start.year == if today.month > 2 then today.year else today.year - 1
  {
    var first := WithDayOfMonth(today, 1);
    var start := MinusMonths(first, 2);
    MonthIndexOrder(start, today);
    start
  }

  /**
   * The inner join with movement_categories on the category key (a
   * movement without a category has no partner row) and the where clause.
   */
  predicate Reported(m: Movement, start: Date) {
    && m.category.Some?
    && !Before(m.entryDate, start)
    && m.category.value != InternalCredit
    && m.category.value != InternalDebit
  }

  /** The joined rows that pass the where clause. */
  function ReportedRows(ms: seq<Movement>, start: Date): (rows: seq<Movement>)
    ensures |rows| <= |ms|
    ensures forall m :: m in rows <==> m in ms && Reported(m, start)
  {
    if ms == [] then []
    else if Reported(ms[0], start) then [ms[0]] + ReportedRows(ms[1..], start)
    else ReportedRows(ms[1..], start)
  }

  /** The join and where clause keep every reported movement as often as it occurs, and drop every other one. */
  lemma {:induction false} ReportedRowsKeeps(ms: seq<Movement>, start: Date)
    ensures forall m :: multiset(ReportedRows(ms, start))[m] == if Reported(m, start) then multiset(ms)[m] else 0
  {
    if ms != [] {
      ReportedRowsKeeps(ms[1..], start);
      assert ms == [ms[0]] + ms[1..];
    }
  }

  /** The amount column of the group of rows dated d. */
  function AmountsOn(ms: seq<Movement>, d: Date): seq<int> {
    if ms == [] then []
    else if ms[0].entryDate == d then [ms[0].amount] + AmountsOn(ms[1..], d)
    else AmountsOn(ms[1..], d)
  }

  /** filter (where amount > 0): every positive amount, as often as it occurs, and nothing else. */
  function Positives(xs: seq<int>): (ps: seq<int>)
    ensures forall x :: x in ps ==> x > 0
    ensures forall x :: x > 0 ==> multiset(ps)[x] == multiset(xs)[x]
  {
    if xs == [] then []
    else
      assert xs == [xs[0]] + xs[1..];
      if xs[0] > 0 then [xs[0]] + Positives(xs[1..])
      else Positives(xs[1..])
  }

  /** filter (where amount < 0): every negative amount, as often as it occurs, and nothing else. */
  function Negatives(xs: seq<int>): (ns: seq<int>)
    ensures forall x :: x in ns ==> x < 0
    ensures forall x :: x < 0 ==> multiset(ns)[x] == multiset(xs)[x]
  {
    if xs == [] then []
    else
      assert xs == [xs[0]] + xs[1..];
      if xs[0] < 0 then [xs[0]] + Negatives(xs[1..])
      else Negatives(xs[1..])
  }

  /** A result row of creditsPerDay: a date, the sum of its credits and the sum of its debits. */
  datatype DayCredits = DayCredits(date: Date, credits: Option<int>, debits: Option<int>)

  /**
   * creditsPerDay: the categorised movements dated from the first day of
   * the month two months before today's, internal transfers left out,
   * grouped by date with the filtered sums of positive and of negative
   * amounts, ordered by date. There is one row per distinct date, so never
   * more rows than movements.
   */
  function CreditsPerDay(ms: seq<Movement>, today: Date): (r: seq<DayCredits>)
    requires Valid(today)
    ensures |r| <= |ms|
  {
    var rows := ReportedRows(ms, CreditsStart(today));
    GroupSums(rows, GroupKeys(EntryDates(rows)))
  }

  /** One result row per group key, in the order of the keys, with the two filtered sums of its group. */
  function GroupSums(rows: seq<Movement>, dates: seq<Date>): (r: seq<DayCredits>)
    ensures |r| == |dates|
  {
    if dates == [] then []
    else
      var d := dates[0];
      [DayCredits(d, SqlSum(Positives(AmountsOn(rows, d))), SqlSum(Negatives(AmountsOn(rows, d))))] + GroupSums(rows, dates[1..])
  }

  lemma {:induction false} GroupSumsRows(rows: seq<Movement>, dates: seq<Date>)
    ensures forall k :: 0 <= k < |dates| ==>
      && GroupSums(rows, dates)[k].date == dates[k]
      && GroupSums(rows, dates)[k].credits == SqlSum(Positives(AmountsOn(rows, dates[k])))
      && GroupSums(rows, dates)[k].debits == SqlSum(Negatives(AmountsOn(rows, dates[k])))
  {
    if dates != [] {
      GroupSumsRows(rows, dates[1..]);
    }
  }

  /**
   * The date column of a creditsPerDay result, in order: the counterpart of
   * ReportDates for the other query's row type.
   */
  function CreditDates(r: seq<DayCredits>): (ds: seq<Date>)
    ensures |ds| == |r|
  {
    seq(|r|, k requires 0 <= k < |r| => r[k].date)
  }

  // ---------------------------------------------------------------------
  // creditsPerDay, as a report
  // ---------------------------------------------------------------------

  /** Reported movements of day d. */
  function ReportedOn(start: Date, d: Date): Movement -> bool {
    (m: Movement) => Reported(m, start) && m.entryDate == d
  }

  /** Reported credits of day d. */
  function CreditOn(start: Date, d: Date): Movement -> bool {
    (m: Movement) => Reported(m, start) && m.entryDate == d && m.amount > 0
  }

  /** Reported debits of day d. */
  function DebitOn(start: Date, d: Date): Movement -> bool {
    (m: Movement) => Reported(m, start) && m.entryDate == d && m.amount < 0
  }

  /**
   * The report creditsPerDay stands for: one row per date that has a
   * reported movement, in increasing order, each with the sum of that day's
   * reported credits and the sum of its reported debits, NULL when there
   * are none.
   */
  ghost predicate IsCreditReport(r: seq<DayCredits>, ms: seq<Movement>, start: Date) {
    && StrictlyAscending(CreditDates(r))
    && (forall d :: d in CreditDates(r) <==> HasAny(ms, ReportedOn(start, d)))
    && (forall k :: 0 <= k < |r| ==>
          r[k].credits == FilteredSum(ms, CreditOn(start, r[k].date))
          && r[k].debits == FilteredSum(ms, DebitOn(start, r[k].date)))
  }

  /** The credit column of a day: its positive reported amounts and their sum. */
  lemma {:induction false} CreditColumn(ms: seq<Movement>, start: Date, d: Date)
    ensures var xs := Positives(AmountsOn(ReportedRows(ms, start), d));
      (xs != [] <==> HasAny(ms, CreditOn(start, d))) && Sum(xs) == SumWhere(ms, CreditOn(start, d))
  {
    if ms != [] {
      var m, rest := ms[0], ms[1..];
      CreditColumn(rest, start, d);
      assert forall x :: x in ms <==> x == m || x in rest;
      if Reported(m, start) && m.entryDate == d && m.amount > 0 {
        var xs := Positives(AmountsOn(ReportedRows(rest, start), d));
        assert ([m] + ReportedRows(rest, start))[1..] == ReportedRows(rest, start);
        assert ([m.amount] + AmountsOn(ReportedRows(rest, start), d))[1..] == AmountsOn(ReportedRows(rest, start), d);
        assert ([m.amount] + xs)[1..] == xs;
      } else if Reported(m, start) && m.entryDate == d {
        assert ([m] + ReportedRows(rest, start))[1..] == ReportedRows(rest, start);
        assert ([m.amount] + AmountsOn(ReportedRows(rest, start), d))[1..] == AmountsOn(ReportedRows(rest, start), d);
      } else if Reported(m, start) {
        assert ([m] + ReportedRows(rest, start))[1..] == ReportedRows(rest, start);
      }
    }
  }

  /** The debit column of a day: its negative reported amounts and their sum. */
  lemma {:induction false} DebitColumn(ms: seq<Movement>, start: Date, d: Date)
    ensures var xs := Negatives(AmountsOn(ReportedRows(ms, start), d));
      (xs != [] <==> HasAny(ms, DebitOn(start, d))) && Sum(xs) == SumWhere(ms, DebitOn(start, d))
  {
    if ms != [] {
      var m, rest := ms[0], ms[1..];
      DebitColumn(rest, start, d);
      assert forall x :: x in ms <==> x == m || x in rest;
      if Reported(m, start) && m.entryDate == d && m.amount < 0 {
        var xs := Negatives(AmountsOn(ReportedRows(rest, start), d));
        assert ([m] + ReportedRows(rest, start))[1..] == ReportedRows(rest, start);
        assert ([m.amount] + AmountsOn(ReportedRows(rest, start), d))[1..] == AmountsOn(ReportedRows(rest, start), d);
        assert ([m.amount] + xs)[1..] == xs;
      } else if Reported(m, start) && m.entryDate == d {
        assert ([m] + ReportedRows(rest, start))[1..] == ReportedRows(rest, start);
        assert ([m.amount] + AmountsOn(ReportedRows(rest, start), d))[1..] == AmountsOn(ReportedRows(rest, start), d);
      } else if Reported(m, start) {
        assert ([m] + ReportedRows(rest, start))[1..] == ReportedRows(rest, start);
      }
    }
  }

  /**
   * creditsPerDay produces the credit report from the first day of the
   * month two months back: ordered, one row per date with a categorised,
   * non-internal movement, each with the sum of that day's positive amounts
   * and of its negative amounts, NULL where there are none.
   */
  lemma CreditsPerDayMeetsSpec(ms: seq<Movement>, today: Date)
    requires Valid(today)
    ensures IsCreditReport(CreditsPerDay(ms, today), ms, CreditsStart(today))
  {
    var start := CreditsStart(today);
    var r := CreditsPerDay(ms, today);
    var rows := ReportedRows(ms, start);
    var dates := GroupKeys(EntryDates(rows));
    GroupSumsRows(rows, dates);
    assert CreditDates(r) == dates;
    forall d
      ensures d in CreditDates(r) <==> HasAny(ms, ReportedOn(start, d))
    {
      if d in EntryDates(rows) {
        var m :| m in rows && m.entryDate == d;
        assert ReportedOn(start, d)(m);
      }
      if HasAny(ms, ReportedOn(start, d)) {
        var m :| m in ms && ReportedOn(start, d)(m);
        assert m in rows;
      }
    }
    forall k | 0 <= k < |r|
      ensures r[k].credits == FilteredSum(ms, CreditOn(start, r[k].date))
      ensures r[k].debits == FilteredSum(ms, DebitOn(start, r[k].date))
    {
      CreditColumn(ms, start, dates[k]);
      DebitColumn(ms, start, dates[k]);
    }
  }

  /** Only one sequence of rows is the credit report of a ledger. */
  lemma CreditReportUnique(r: seq<DayCredits>, s: seq<DayCredits>, ms: seq<Movement>, start: Date)
    requires IsCreditReport(r, ms, start) && IsCreditReport(s, ms, start)
    ensures r == s
  {
    AscendingUnique(CreditDates(r), CreditDates(s));
    forall k | 0 <= k < |r|
      ensures r[k] == s[k]
    {
      assert CreditDates(r)[k] == CreditDates(s)[k];
    }
  }

  /**
   * A credit sum, when present, is positive and a debit sum negative; a day
   * whose reported amounts are all zero still has its row, with both sums
   * NULL.
   */
  lemma CreditReportSigns(r: seq<DayCredits>, ms: seq<Movement>, start: Date, k: int)
    requires IsCreditReport(r, ms, start)
    requires 0 <= k < |r|
    ensures r[k].credits.Some? ==> r[k].credits.value > 0
    ensures r[k].debits.Some? ==> r[k].debits.value < 0
    ensures (forall m :: m in ms && ReportedOn(start, r[k].date)(m) ==> m.amount == 0)
      ==> r[k].credits == None && r[k].debits == None
  {
    SumWherePositive(ms, CreditOn(start, r[k].date));
    SumWhereNegative(ms, DebitOn(start, r[k].date));
  }

  /** creditsPerDay: credit sums are positive, debit sums negative, zero amounts count towards neither. */
  lemma CreditsPerDaySigns(ms: seq<Movement>, today: Date, k: int)
    requires Valid(today)
    requires 0 <= k < |CreditsPerDay(ms, today)|
    ensures var r := CreditsPerDay(ms, today);
      (r[k].credits.Some? ==> r[k].credits.value > 0) && (r[k].debits.Some? ==> r[k].debits.value < 0)
  {
    CreditsPerDayMeetsSpec(ms, today);
    CreditReportSigns(CreditsPerDay(ms, today), ms, CreditsStart(today), k);
  }

  /** A movement that p rejects adds nothing to a sum over p. */
  lemma SumWhereLeaveOut(a: seq<Movement>, m: Movement, b: seq<Movement>, p: Movement -> bool)
    requires !p(m)
    ensures SumWhere(a + [m] + b, p) == SumWhere(a + b, p)
  {
    SumWhereAppend(a + [m], b, p);
    SumWhereAppend(a, [m], p);
    SumWhereAppend(a, b, p);
    assert [m][1..] == [];
  }

  /**
   * A movement that is uncategorised, internal or dated before the start
   * contributes to no sum and to no row: inserting it anywhere in the
   * ledger leaves creditsPerDay unchanged.
   */
  lemma ExcludedMovementIgnored(a: seq<Movement>, m: Movement, b: seq<Movement>, today: Date)
    requires Valid(today)
    requires m.category.None? || m.category == Some(InternalCredit) || m.category == Some(InternalDebit)
      || Before(m.entryDate, CreditsStart(today))
    ensures CreditsPerDay(a + [m] + b, today) == CreditsPerDay(a + b, today)
  {
    var start := CreditsStart(today);
    var r := CreditsPerDay(a + b, today);
    CreditsPerDayMeetsSpec(a + b, today);
    CreditsPerDayMeetsSpec(a + [m] + b, today);
    assert !Reported(m, start);
    assert IsCreditReport(r, a + [m] + b, start) by {
      assert forall x :: x in a + [m] + b <==> x in a + b || x == m;
      forall k | 0 <= k < |r|
        ensures r[k].credits == FilteredSum(a + [m] + b, CreditOn(start, r[k].date))
        ensures r[k].debits == FilteredSum(a + [m] + b, DebitOn(start, r[k].date))
      {
        SumWhereLeaveOut(a, m, b, CreditOn(start, r[k].date));
        SumWhereLeaveOut(a, m, b, DebitOn(start, r[k].date));
      }
    }
    CreditReportUnique(r, CreditsPerDay(a + [m] + b, today), a + [m] + b, start);
  }

  /** The table has no row order: reordering the ledger leaves creditsPerDay unchanged. */
  lemma CreditsPerDayOrderIndependent(ms: seq<Movement>, ns: seq<Movement>, today: Date)
    requires Valid(today)
    requires multiset(ms) == multiset(ns)
    ensures CreditsPerDay(ms, today) == CreditsPerDay(ns, today)
  {
    var start := CreditsStart(today);
    var r := CreditsPerDay(ms, today);
    CreditsPerDayMeetsSpec(ms, today);
    CreditsPerDayMeetsSpec(ns, today);
    assert IsCreditReport(r, ns, start) by {
      forall x
        ensures x in ms <==> x in ns
      {
        assert x in ms <==> x in multiset(ms);
        assert x in ns <==> x in multiset(ns);
      }
      forall k | 0 <= k < |r|
        ensures r[k].credits == FilteredSum(ns, CreditOn(start, r[k].date))
        ensures r[k].debits == FilteredSum(ns, DebitOn(start, r[k].date))
      {
        SumWherePermutation(ms, ns, CreditOn(start, r[k].date));
        SumWherePermutation(ms, ns, DebitOn(start, r[k].date));
      }
    }
    CreditReportUnique(r, CreditsPerDay(ns, today), ns, start);
  }

  // ---------------------------------------------------------------------
  // Worked examples
  // ---------------------------------------------------------------------

  /** Three movements over two days of January 2024. */
  const RollingLedger: seq<Movement> :=
    [Movement(Date(2024, 1, 1), 100, None), Movement(Date(2024, 1, 2), 50, None), Movement(Date(2024, 1, 2), -20, None)]

  lemma RollingLedgerBalances()
    ensures Balance(RollingLedger, Date(2024, 1, 1)) == 100
    ensures Balance(RollingLedger, Date(2024, 1, 2)) == 130
  {
    var ms := RollingLedger;
    var m2, m3 := Movement(Date(2024, 1, 2), 50, None), Movement(Date(2024, 1, 2), -20, None);
    assert ms[1..] == [m2, m3] && [m2, m3][1..] == [m3] && [m3][1..] == [];
    var early, late := UpTo(Date(2024, 1, 1)), UpTo(Date(2024, 1, 2));
    assert SumWhere([m3], early) == 0 && SumWhere([m2, m3], early) == 0;
    assert SumWhere([m3], late) == -20 && SumWhere([m2, m3], late) == 30;
  }

  /** The balance report of the example ledger from a cutoff in mid-2022. */
  lemma RollingLedgerReport(start: Date)
    requires start == Date(2022, 6, 1)
    ensures IsBalanceReport([BalanceRow(Date(2024, 1, 1), Some(100)), BalanceRow(Date(2024, 1, 2), Some(130))], RollingLedger, start)
  {
    var r := [BalanceRow(Date(2024, 1, 1), Some(100)), BalanceRow(Date(2024, 1, 2), Some(130))];
    RollingLedgerBalances();
    assert ReportDates(r) == [Date(2024, 1, 1), Date(2024, 1, 2)];
    assert EntryDates(RollingLedger) == [Date(2024, 1, 1), Date(2024, 1, 2), Date(2024, 1, 2)];
  }

  /**
   * Five months after those movements, rollingSum has one row per day with
   * that day's closing balance: the two rows of the second day share the
   * value 130.
   */
  lemma RollingSumExample()
    ensures RollingSum(RollingLedger, Date(2024, 6, 1))
         == [BalanceRow(Date(2024, 1, 1), Some(100)), BalanceRow(Date(2024, 1, 2), Some(130))]
  {
    var start := RollingStart(Date(2024, 6, 1));
    RollingSumMeetsSpec(RollingLedger, Date(2024, 6, 1));
    RollingLedgerReport(start);
    BalanceReportUnique([BalanceRow(Date(2024, 1, 1), Some(100)), BalanceRow(Date(2024, 1, 2), Some(130))],
      RollingSum(RollingLedger, Date(2024, 6, 1)), RollingLedger, start);
  }

  /** An internal credit and a sale on the same day of May 2024. */
  const CreditsLedger: seq<Movement> :=
    [Movement(Date(2024, 5, 1), 200, Some(InternalCredit)), Movement(Date(2024, 5, 1), 50, Some("Sales"))]

  lemma CreditsLedgerSums(start: Date)
    requires start == CreditsStart(Date(2024, 6, 1))
    ensures HasAny(CreditsLedger, CreditOn(start, Date(2024, 5, 1)))
    ensures SumWhere(CreditsLedger, CreditOn(start, Date(2024, 5, 1))) == 50
    ensures !HasAny(CreditsLedger, DebitOn(start, Date(2024, 5, 1)))
    ensures forall m :: m in CreditsLedger && Reported(m, start) ==> m == CreditsLedger[1]
  {
    var ms, d := CreditsLedger, Date(2024, 5, 1);
    assert ms[1..][1..] == [];
    assert "Sales" != InternalCredit && "Sales" != InternalDebit;
    assert !CreditOn(start, d)(ms[0]) && CreditOn(start, d)(ms[1]);
    assert SumWhere(ms[1..], CreditOn(start, d)) == 50;
  }

  /**
   * A month later, creditsPerDay leaves the internal transfer out and gives
   * the day with no debit a NULL debit sum.
   */
  lemma CreditsPerDayExample()
    ensures CreditsPerDay(CreditsLedger, Date(2024, 6, 1)) == [DayCredits(Date(2024, 5, 1), Some(50), None)]
  {
    var ms := CreditsLedger;
    var start := CreditsStart(Date(2024, 6, 1));
    var d := Date(2024, 5, 1);
    var r := [DayCredits(d, Some(50), None)];
    CreditsPerDayMeetsSpec(ms, Date(2024, 6, 1));
    CreditsLedgerSums(start);
    assert CreditDates(r) == [d];
    forall x
      ensures x in CreditDates(r) <==> HasAny(ms, ReportedOn(start, x))
    {
      if x == d {
        assert ReportedOn(start, x)(ms[1]);
      }
    }
    assert IsCreditReport(r, ms, start);
    CreditReportUnique(r, CreditsPerDay(ms, Date(2024, 6, 1)), ms, start);
  }
}
