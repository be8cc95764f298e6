/** Properties of the leave-metrics specification: how the monthly totals,
    the per-type totals and the grand total relate, what an empty grid
    yields, where the annual leave sits among the totals, and worked
    examples of the allowance rule. */
module MetricsProperties {
  import opened Types
  import opened Grid
  import opened LeaveMetrics

  // ---------------------------------------------------------------------
  // Row sums
  // ---------------------------------------------------------------------

  /** A row sum over two disjoint sets of keys is the sum of the two. */
  lemma {:induction false} RowSumSplit(row: map<string, LeaveDetails>, a: set<string>, b: set<string>)
    requires a !! b
    ensures RowSum(row, a + b) == RowSum(row, a) + RowSum(row, b)
    decreases a
  {
    if a == {} {
      assert a + b == b;
    } else {
      var x :| x in a;
      RowSumRemove(row, a + b, x);
      RowSumRemove(row, a, x);
      assert (a + b) - {x} == (a - {x}) + b;
      RowSumSplit(row, a - {x}, b);
    }
  }

  /** Keys without a bucket in the row add nothing to a row sum. */
  lemma {:induction false} RowSumSuperset(row: map<string, LeaveDetails>, keys: set<string>, wider: set<string>)
    requires keys <= wider
    requires forall k :: k in wider - keys ==> k !in row
    ensures RowSum(row, wider) == RowSum(row, keys)
    decreases wider
  {
    if wider - keys != {} {
      var x :| x in wider - keys;
      RowSumRemove(row, wider, x);
      RowSumSuperset(row, keys, wider - {x});
    } else {
      forall k | k in wider ensures k in keys {
        assert k !in wider - keys;
      }
      assert wider == keys;
    }
  }

  /** The days a row records under a sequence of leave types, left to right. */
  function RowSeqSum(row: map<string, LeaveDetails>, keys: seq<string>): real {
    if keys == [] then 0.0 else RowSeqSum(row, keys[..|keys| - 1]) + RowDays(row, keys[|keys| - 1])
  }

  /** Over a repetition-free sequence, the row sum of its set is its sum in order. */
  lemma {:induction false} RowSumOfDistinct(row: map<string, LeaveDetails>, keys: seq<string>)
    requires Distinct(keys)
    ensures RowSum(row, (set k | k in keys)) == RowSeqSum(row, keys)
  {
    if keys != [] {
      var p, x := keys[..|keys| - 1], keys[|keys| - 1];
      assert keys == p + [x];
      assert (set k | k in keys) - {x} == (set k | k in p);
      RowSumRemove(row, (set k | k in keys), x);
      RowSumOfDistinct(row, p);
    }
  }

  // ---------------------------------------------------------------------
  // Per-type totals against monthly totals
  // ---------------------------------------------------------------------

  /** Every bucket key of the grid is one of the known leave types. */
  predicate KnownKeys(grid: LeaveByMonth, leaveTypes: seq<string>) {
    forall m, lt :: m in grid && lt in grid[m] ==> lt in leaveTypes
  }

  /** Days recorded in months 1 to `n` under keys that are not known leave types. */
  ghost function UnknownDays(grid: LeaveByMonth, leaveTypes: seq<string>, n: nat): (d: real)
    requires n <= 12
    ensures d >= 0.0
  {
    if n == 0 then 0.0
    else
      var row := RowOf(grid, n as Month);
      UnknownDays(grid, leaveTypes, n - 1) + RowSum(row, row.Keys - (set lt | lt in leaveTypes))
  }

  /** The per-type totals over months 1 to `n` of each type in `keys`, added up in order. */
  function TypesSum(grid: LeaveByMonth, keys: seq<string>, n: nat): real
    requires n <= 12
  {
    if keys == [] then 0.0 else TypesSum(grid, keys[..|keys| - 1], n) + TypeSum(grid, keys[|keys| - 1], n)
  }

  lemma {:induction false} SumValuesIsTypesSum(grid: LeaveByMonth, leaveTypes: seq<string>, keys: seq<string>)
    requires forall k :: k in keys ==> k in leaveTypes
    ensures SumValues(LeaveTypeData(grid, leaveTypes), keys) == TypesSum(grid, keys, 12)
  {
    if keys != [] {
      SumValuesIsTypesSum(grid, leaveTypes, keys[..|keys| - 1]);
    }
  }

  lemma {:induction false} TypesSumZero(grid: LeaveByMonth, keys: seq<string>)
    ensures TypesSum(grid, keys, 0) == 0.0
  {
    if keys != [] {
      TypesSumZero(grid, keys[..|keys| - 1]);
    }
  }

  /** Extending every per-type sum by month `n` adds that month's row, in order. */
  lemma {:induction false} TypesSumStep(grid: LeaveByMonth, keys: seq<string>, n: nat)
    requires 1 <= n <= 12
    ensures TypesSum(grid, keys, n) == TypesSum(grid, keys, n - 1) + RowSeqSum(RowOf(grid, n as Month), keys)
  {
    if keys != [] {
      TypesSumStep(grid, keys[..|keys| - 1], n);
    }
  }

  /** A month's total splits into its known leave types and the rest. */
  lemma MonthTotalSplit(grid: LeaveByMonth, m: Month, keys: seq<string>)
    requires Distinct(keys)
    ensures var row := RowOf(grid, m);
      MonthTotal(grid, m) == RowSeqSum(row, keys) + RowSum(row, row.Keys - (set k | k in keys))
  {
    var row := RowOf(grid, m);
    var known := set k | k in keys;
    assert row.Keys == (row.Keys * known) + (row.Keys - known);
    RowSumSplit(row, row.Keys * known, row.Keys - known);
    RowSumSuperset(row, row.Keys * known, known);
    RowSumOfDistinct(row, keys);
  }

  lemma {:induction false} TypesSumByMonth(grid: LeaveByMonth, keys: seq<string>, n: nat)
    requires Distinct(keys) && n <= 12
    ensures SeqSum(MonthlyTotals(grid)[..n]) == TypesSum(grid, keys, n) + UnknownDays(grid, keys, n)
  {
    if n == 0 {
      TypesSumZero(grid, keys);
    } else {
      var totals := MonthlyTotals(grid);
      TypesSumByMonth(grid, keys, n - 1);
      TypesSumStep(grid, keys, n);
      MonthTotalSplit(grid, n as Month, keys);
      assert totals[..n][..n - 1] == totals[..n - 1];
    }
  }

  lemma {:induction false} UnknownDaysSameTypes(grid: LeaveByMonth, a: seq<string>, b: seq<string>, n: nat)
    requires (set k | k in a) == (set k | k in b) && n <= 12
    ensures UnknownDays(grid, a, n) == UnknownDays(grid, b, n)
  {
    if n > 0 {
      UnknownDaysSameTypes(grid, a, b, n - 1);
    }
  }

  /** The twelve monthly totals add up to the grand total plus whatever is
      recorded under keys that are not known leave types: the monthly totals
      count every bucket, the grand total only the known types. */
  lemma MonthlyTotalsCountUnknownTypes(e: Employee, leaveTypes: seq<string>)
    ensures var r := Metrics(e, leaveTypes);
      SeqSum(r.monthlyTotals) == r.totalLeaveTaken + UnknownDays(e.leaveByMonth, leaveTypes, 12)
  {
    var grid := e.leaveByMonth;
    var keys := Dedup(leaveTypes);
    SumValuesIsTypesSum(grid, leaveTypes, keys);
    TypesSumByMonth(grid, keys, 12);
    UnknownDaysSameTypes(grid, keys, leaveTypes, 12);
    assert MonthlyTotals(grid)[..12] == MonthlyTotals(grid);
  }

  lemma {:induction false} UnknownDaysOfKnownKeys(grid: LeaveByMonth, leaveTypes: seq<string>, n: nat)
    requires KnownKeys(grid, leaveTypes) && n <= 12
    ensures UnknownDays(grid, leaveTypes, n) == 0.0
  {
    if n > 0 {
      UnknownDaysOfKnownKeys(grid, leaveTypes, n - 1);
      var row := RowOf(grid, n as Month);
      assert row.Keys - (set lt | lt in leaveTypes) == {};
    }
  }

  /** When every bucket key is a known leave type, the grand total equals
      the sum of the twelve monthly totals. */
  lemma TotalsAgree(e: Employee, leaveTypes: seq<string>)
    requires KnownKeys(e.leaveByMonth, leaveTypes)
    ensures var r := Metrics(e, leaveTypes); r.totalLeaveTaken == SeqSum(r.monthlyTotals)
  {
    MonthlyTotalsCountUnknownTypes(e, leaveTypes);
    UnknownDaysOfKnownKeys(e.leaveByMonth, leaveTypes, 12);
  }

  lemma {:induction false} UnknownDaysCoversMonth(grid: LeaveByMonth, leaveTypes: seq<string>, n: nat, m: Month, lt: string)
    requires m <= n <= 12
    requires m in grid && lt in grid[m] && lt !in leaveTypes
    ensures UnknownDays(grid, leaveTypes, n) >= BucketDays(grid[m][lt].dates)
  {
    if n == m {
      var row := RowOf(grid, m);
      var unknown := row.Keys - (set k | k in leaveTypes);
      RowSumRemove(row, unknown, lt);
    } else {
      UnknownDaysCoversMonth(grid, leaveTypes, n - 1, m, lt);
    }
  }

  /** A non-empty bucket under a key that is not a known leave type makes the
      monthly totals add up to more than the grand total. */
  lemma TotalsDisagreeOnUnknownBucket(e: Employee, leaveTypes: seq<string>, m: Month, lt: string)
    requires m in e.leaveByMonth && lt in e.leaveByMonth[m] && lt !in leaveTypes
    requires e.leaveByMonth[m][lt].dates != []
    ensures var r := Metrics(e, leaveTypes); SeqSum(r.monthlyTotals) > r.totalLeaveTaken
  {
    MonthlyTotalsCountUnknownTypes(e, leaveTypes);
    UnknownDaysCoversMonth(e.leaveByMonth, leaveTypes, 12, m, lt);
  }

  /** Every bucket under a key that is not a known leave type is empty. */
  predicate UnknownBucketsEmpty(grid: LeaveByMonth, leaveTypes: seq<string>) {
    forall m, lt :: m in grid && lt in grid[m] && lt !in leaveTypes ==> grid[m][lt].dates == []
  }

  /** Keys whose buckets are empty or absent add nothing to a row sum. */
  lemma {:induction false} RowSumOfEmptyKeys(row: map<string, LeaveDetails>, keys: set<string>)
    requires forall lt :: lt in keys && lt in row ==> row[lt].dates == []
    ensures RowSum(row, keys) == 0.0
    decreases keys
  {
    if keys != {} {
      var k :| k in keys;
      RowSumRemove(row, keys, k);
      RowSumOfEmptyKeys(row, keys - {k});
    }
  }

  lemma {:induction false} UnknownDaysOfEmptyBuckets(grid: LeaveByMonth, leaveTypes: seq<string>, n: nat)
    requires UnknownBucketsEmpty(grid, leaveTypes) && n <= 12
    ensures UnknownDays(grid, leaveTypes, n) == 0.0
  {
    if n > 0 {
      UnknownDaysOfEmptyBuckets(grid, leaveTypes, n - 1);
      var row := RowOf(grid, n as Month);
      RowSumOfEmptyKeys(row, row.Keys - (set lt | lt in leaveTypes));
    }
  }

  /** The grand total equals the sum of the twelve monthly totals exactly
      when nothing is recorded under a key that is not a known leave type. */
  lemma TotalsAgreeExactly(e: Employee, leaveTypes: seq<string>)
    ensures var r := Metrics(e, leaveTypes);
      r.totalLeaveTaken == SeqSum(r.monthlyTotals) <==> UnknownBucketsEmpty(e.leaveByMonth, leaveTypes)
  {
    MonthlyTotalsCountUnknownTypes(e, leaveTypes);
    var grid := e.leaveByMonth;
    if UnknownBucketsEmpty(grid, leaveTypes) {
      UnknownDaysOfEmptyBuckets(grid, leaveTypes, 12);
    } else {
      var m, lt :| m in grid && lt in grid[m] && lt !in leaveTypes && grid[m][lt].dates != [];
      UnknownDaysCoversMonth(grid, leaveTypes, 12, m, lt);
    }
  }

  // ---------------------------------------------------------------------
  // Empty grids
  // ---------------------------------------------------------------------

  lemma {:induction false} RowSumOfEmptyRow(row: map<string, LeaveDetails>, keys: set<string>)
    requires forall lt :: lt in row ==> row[lt].dates == []
    ensures RowSum(row, keys) == 0.0
    decreases keys
  {
    if keys != {} {
      var k :| k in keys;
      RowSumRemove(row, keys, k);
      RowSumOfEmptyRow(row, keys - {k});
    }
  }

  lemma {:induction false} TypeSumOfEmptyGrid(grid: LeaveByMonth, lt: string, n: nat)
    requires AllBucketsEmpty(grid) && n <= 12
    ensures TypeSum(grid, lt, n) == 0.0
  {
    if n > 0 {
      TypeSumOfEmptyGrid(grid, lt, n - 1);
    }
  }

  lemma {:induction false} SumValuesOfZeros(data: map<string, real>, keys: seq<string>)
    requires forall k :: k in keys ==> k in data && data[k] == 0.0
    ensures SumValues(data, keys) == 0.0
  {
    if keys != [] {
      SumValuesOfZeros(data, keys[..|keys| - 1]);
    }
  }

  /** An employee whose buckets are all empty (a new record) has every total
      at 0, the whole allowance remaining, and the normal status unless the
      allowance itself is negative. */
  lemma EmptyGridMetrics(e: Employee, leaveTypes: seq<string>)
    requires AllBucketsEmpty(e.leaveByMonth)
    ensures var r := Metrics(e, leaveTypes);
      && (forall i :: 0 <= i < 12 ==> r.monthlyTotals[i] == 0.0)
      && (forall lt :: lt in r.leaveTypeData ==> r.leaveTypeData[lt] == 0.0)
      && r.annualLeaveTaken == 0.0
      && r.totalLeaveTaken == 0.0
      && r.remainingLeave == e.previousYearLeave + e.currentYearLeave
      && (r.status == Normal <==> e.previousYearLeave + e.currentYearLeave >= 0.0)
  {
    var grid := e.leaveByMonth;
    var r := Metrics(e, leaveTypes);
    forall i | 0 <= i < 12
      ensures r.monthlyTotals[i] == 0.0
    {
      var row := RowOf(grid, (i + 1) as Month);
      RowSumOfEmptyRow(row, row.Keys);
    }
    forall lt | lt in r.leaveTypeData
      ensures r.leaveTypeData[lt] == 0.0
    {
      TypeSumOfEmptyGrid(grid, lt, 12);
    }
    TypeSumOfEmptyGrid(grid, ANNUAL_LEAVE, 12);
    SumValuesOfZeros(r.leaveTypeData, Dedup(leaveTypes));
  }

  // ---------------------------------------------------------------------
  // The annual leave among the totals
  // ---------------------------------------------------------------------

  lemma {:induction false} SumValuesAtLeastEntry(data: map<string, real>, keys: seq<string>, k: string)
    requires forall x :: x in keys ==> x in data && data[x] >= 0.0
    requires k in keys
    ensures SumValues(data, keys) >= data[k]
  {
    var p := keys[..|keys| - 1];
    assert keys == p + [keys[|keys| - 1]];
    if k in p {
      SumValuesAtLeastEntry(data, p, k);
    }
  }

  /** When the annual leave type is a known type, its entry is the annual
      leave taken, and that lies between 0 and the grand total. */
  lemma AnnualWithinTotal(e: Employee, leaveTypes: seq<string>)
    requires ANNUAL_LEAVE in leaveTypes
    ensures var r := Metrics(e, leaveTypes);
      && r.leaveTypeData[ANNUAL_LEAVE] == r.annualLeaveTaken
      && 0.0 <= r.annualLeaveTaken <= r.totalLeaveTaken
  {
    var r := Metrics(e, leaveTypes);
    SumValuesAtLeastEntry(r.leaveTypeData, Dedup(leaveTypes), ANNUAL_LEAVE);
  }

  // ---------------------------------------------------------------------
  // Worked examples of the allowance rule
  // ---------------------------------------------------------------------

  /** The days of annual leave an employee's grid records in month `m`. */
  function AnnualDaysIn(e: Employee, m: Month): real {
    RowDays(RowOf(e.leaveByMonth, m), ANNUAL_LEAVE)
  }

  /** The entries of a table of days, added up from the front; on a written
      out table this evaluates by itself. */
  function TableSum(days: seq<real>): real {
    if days == [] then 0.0 else days[0] + TableSum(days[1..])
  }

  lemma {:induction false} TableSumAppend(days: seq<real>, x: real)
    ensures TableSum(days + [x]) == TableSum(days) + x
  {
    if days != [] {
      assert (days + [x])[1..] == days[1..] + [x];
      TableSumAppend(days[1..], x);
    }
  }

  /** When entry `m - 1` of `days` is the annual leave of month `m`, the
      annual leave over months 1 to `n` is the sum of the first `n` entries. */
  lemma {:induction false} AnnualTakenIsTableSum(e: Employee, days: seq<real>, n: nat)
    requires |days| == 12 && n <= 12
    requires forall m: Month :: AnnualDaysIn(e, m) == days[m - 1]
    ensures TypeSum(e.leaveByMonth, ANNUAL_LEAVE, n) == TableSum(days[..n])
    ensures n == 12 ==> TypeSum(e.leaveByMonth, ANNUAL_LEAVE, n) == TableSum(days)
  {
    assert days[..12] == days;
    if n > 0 {
      AnnualTakenIsTableSum(e, days, n - 1);
      assert AnnualDaysIn(e, n as Month) == days[n - 1];
      assert days[..n] == days[..n - 1] + [days[n - 1]];
      TableSumAppend(days[..n - 1], days[n - 1]);
    }
  }

  /** Carried-over 5 and current 7 days; 3 days of annual leave in February
      and 2 in May leave 7 days and the normal status. */
  lemma AllowanceScenarioNormal(e: Employee, leaveTypes: seq<string>)
    requires e.previousYearLeave == 5.0 && e.currentYearLeave == 7.0
    requires forall m: Month ::
      AnnualDaysIn(e, m) == [0.0, 3.0, 0.0, 0.0, 2.0, 0.0, 0.0, 0.0, 0.0, 0.0, 0.0, 0.0][m - 1]
    ensures var r := Metrics(e, leaveTypes);
      r.totalAnnualLeave == 12.0 && r.annualLeaveTaken == 5.0 && r.remainingLeave == 7.0 && r.status == Normal
  {
    AnnualTakenIsTableSum(e, [0.0, 3.0, 0.0, 0.0, 2.0, 0.0, 0.0, 0.0, 0.0, 0.0, 0.0, 0.0], 12);
  }

  /** The same employee with 3 more days of annual leave in August: 8 taken,
      4 remaining, still normal. */
  lemma AllowanceScenarioMoreLeave(e: Employee, leaveTypes: seq<string>)
    requires e.previousYearLeave == 5.0 && e.currentYearLeave == 7.0
    requires forall m: Month ::
      AnnualDaysIn(e, m) == [0.0, 3.0, 0.0, 0.0, 2.0, 0.0, 0.0, 3.0, 0.0, 0.0, 0.0, 0.0][m - 1]
    ensures var r := Metrics(e, leaveTypes);
      r.annualLeaveTaken == 8.0 && r.remainingLeave == 4.0 && r.status == Normal
  {
    AnnualTakenIsTableSum(e, [0.0, 3.0, 0.0, 0.0, 2.0, 0.0, 0.0, 3.0, 0.0, 0.0, 0.0, 0.0], 12);
  }

  /** An allowance of 0 + 2 days with 3 days of annual leave taken in March
      leaves -1 and the over-limit status. */
  lemma AllowanceScenarioOverLimit(e: Employee, leaveTypes: seq<string>)
    requires e.previousYearLeave == 0.0 && e.currentYearLeave == 2.0
    requires forall m: Month ::
      AnnualDaysIn(e, m) == [0.0, 0.0, 3.0, 0.0, 0.0, 0.0, 0.0, 0.0, 0.0, 0.0, 0.0, 0.0][m - 1]
    ensures var r := Metrics(e, leaveTypes);
      r.annualLeaveTaken == 3.0 && r.remainingLeave == -1.0 && r.status == OverLimit
  {
    AnnualTakenIsTableSum(e, [0.0, 0.0, 3.0, 0.0, 0.0, 0.0, 0.0, 0.0, 0.0, 0.0, 0.0, 0.0], 12);
  }
}
