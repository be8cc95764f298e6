/** The leave-metrics calculation: it folds an employee's month x leave-type
    grid into twelve monthly totals, one total per known leave type, the
    annual leave taken, the grand total, the remaining allowance and a status.

    The specification is given by functions (`Metrics` and the sums below it);
    `CalculateLeaveMetrics` computes the same record with the application's nested
    loops and is proved equal to it. */
module LeaveMetrics {
  import opened Types

  // ---------------------------------------------------------------------
  // Sums
  // ---------------------------------------------------------------------

  /** The days in one bucket: its durations added up from left to right. */
  function BucketDays(dates: seq<LeaveDate>): (d: real)
    ensures 0.5 * (|dates| as real) <= d <= |dates| as real
  {
    if dates == [] then 0.0
    else BucketDays(dates[..|dates| - 1]) + dates[|dates| - 1].duration.Days()
  }

  /** The days a row records under one leave type; 0 when it has no such bucket. */
  function RowDays(row: map<string, LeaveDetails>, lt: string): real {
    if lt in row then BucketDays(row[lt].dates) else 0.0
  }

  /** The row of month `m`; empty when the grid has no such month. */
  function RowOf(grid: LeaveByMonth, m: Month): map<string, LeaveDetails> {
    if m in grid then grid[m] else map[]
  }

  /** The days a row records under a set of leave types, in no particular order. */
  ghost function RowSum(row: map<string, LeaveDetails>, keys: set<string>): (d: real)
    ensures d >= 0.0
    decreases keys
  {
    if keys == {} then 0.0
    else
      var k :| k in keys;
      RowDays(row, k) + RowSum(row, keys - {k})
  }

  /** Any key can be taken out of a row sum first. */
  lemma {:induction false} RowSumRemove(row: map<string, LeaveDetails>, keys: set<string>, k: string)
    requires k in keys
    ensures RowSum(row, keys) == RowDays(row, k) + RowSum(row, keys - {k})
    decreases keys
  {
    var j :| j in keys && RowSum(row, keys) == RowDays(row, j) + RowSum(row, keys - {j});
    if j != k {
      RowSumRemove(row, keys - {j}, k);
      RowSumRemove(row, keys - {k}, j);
      assert keys - {j} - {k} == keys - {k} - {j};
    }
  }

  /** Total days recorded in month `m`, over every bucket of its row whatever
      the bucket's key. */
  ghost function MonthTotal(grid: LeaveByMonth, m: Month): real {
    RowSum(RowOf(grid, m), RowOf(grid, m).Keys)
  }

  /** Entry `i` is the total of month `i + 1`. */
  ghost function MonthlyTotals(grid: LeaveByMonth): (s: seq<real>) {
    seq(12, i requires 0 <= i < 12 => MonthTotal(grid, (i + 1) as Month))
  }

  /** The days of leave type `lt` over months 1 to `n`. */
  function TypeSum(grid: LeaveByMonth, lt: string, n: nat): (d: real)
    requires n <= 12
    ensures d >= 0.0
  {
    if n == 0 then 0.0
    else TypeSum(grid, lt, n - 1) + RowDays(RowOf(grid, n as Month), lt)
  }

  /** The days of leave type `lt` over the whole year. */
  function TypeTotal(grid: LeaveByMonth, lt: string): real {
    TypeSum(grid, lt, 12)
  }

  /** One entry per known leave type: its days over the year. */
  function LeaveTypeData(grid: LeaveByMonth, leaveTypes: seq<string>): map<string, real> {
    map lt | lt in leaveTypes :: TypeTotal(grid, lt)
  }

  predicate Distinct(s: seq<string>) {
    forall i, j :: 0 <= i < j < |s| ==> s[i] != s[j]
  }

  /** The keys of a dictionary built by assigning `s` in order: each name
      once, at its first occurrence. */
  function Dedup(s: seq<string>): (r: seq<string>)
    ensures forall x :: x in r <==> x in s
    ensures Distinct(r)
  {
    if s == [] then []
    else
      var p := Dedup(s[..|s| - 1]);
      var x := s[|s| - 1];
      if x in p then p else p + [x]
  }

  /** The values of `data` under `keys`, added up from left to right; no
      negative value, no negative sum. */
  function SumValues(data: map<string, real>, keys: seq<string>): (r: real)
    requires forall k :: k in keys ==> k in data
    ensures (forall k :: k in keys ==> data[k] >= 0.0) ==> r >= 0.0
  {
    if keys == [] then 0.0
    else SumValues(data, keys[..|keys| - 1]) + data[keys[|keys| - 1]]
  }

  /** The elements of a sequence of reals, added up from left to right. */
  function SeqSum(s: seq<real>): real {
    if s == [] then 0.0 else SeqSum(s[..|s| - 1]) + s[|s| - 1]
  }

  // ---------------------------------------------------------------------
  // The specification of the calculation
  // ---------------------------------------------------------------------

  /** The calculated view of `e`, given the application's list of leave types. */
  ghost function Metrics(e: Employee, leaveTypes: seq<string>): (r: CalculatedEmployee)
    ensures r.AsEmployee() == e
    ensures r.totalAnnualLeave == e.previousYearLeave + e.currentYearLeave
    ensures r.remainingLeave == r.totalAnnualLeave - r.annualLeaveTaken
    ensures r.status == OverLimit <==> r.remainingLeave < 0.0
    ensures r.leaveTypeData.Keys == (set lt | lt in leaveTypes)
    ensures |r.monthlyTotals| == 12
  {
    var grid := e.leaveByMonth;
    var data := LeaveTypeData(grid, leaveTypes);
    var annual := TypeTotal(grid, ANNUAL_LEAVE);
    var totalAnnual := e.previousYearLeave + e.currentYearLeave;
    var remaining := totalAnnual - annual;
    CalculatedEmployee(
      e.id, e.name, e.previousYearLeave, e.currentYearLeave, e.specialLeave, grid,
      totalAnnual, annual, SumValues(data, Dedup(leaveTypes)), remaining,
      if remaining < 0.0 then OverLimit else Normal,
      data, MonthlyTotals(grid))
  }

  // ---------------------------------------------------------------------
  // The calculation as the application performs it
  // ---------------------------------------------------------------------

  /** One pass of the inner loop: visits every bucket of a month's row and
      adds its days to the entry of its leave type (when the dictionary has
      one), to the annual leave taken (when it is the annual leave type) and
      to the month's total. */
  method AddMonth(monthData: map<string, LeaveDetails>, leaveTypeData: map<string, real>, annualLeaveTaken: real)
    returns (newData: map<string, real>, newAnnual: real, monthTotal: real)
    ensures newData.Keys == leaveTypeData.Keys
    ensures forall lt :: lt in newData ==> newData[lt] == leaveTypeData[lt] + RowDays(monthData, lt)
    ensures newAnnual == annualLeaveTaken + RowDays(monthData, ANNUAL_LEAVE)
    ensures monthTotal == RowSum(monthData, monthData.Keys)
  {
    newData, newAnnual, monthTotal := leaveTypeData, annualLeaveTaken, 0.0;
    var remaining := monthData.Keys;
    ghost var done: set<string> := {};
    while remaining != {}
      invariant done + remaining == monthData.Keys && done !! remaining
      invariant monthTotal == RowSum(monthData, done)
      invariant newData.Keys == leaveTypeData.Keys
      invariant forall lt :: lt in newData ==>
        newData[lt] == leaveTypeData[lt] + (if lt in done then RowDays(monthData, lt) else 0.0)
      invariant newAnnual ==
        annualLeaveTaken + (if ANNUAL_LEAVE in done then RowDays(monthData, ANNUAL_LEAVE) else 0.0)
      decreases remaining
    {
      var leaveType :| leaveType in remaining;
      var days := BucketDays(monthData[leaveType].dates);
      if leaveType in newData {
        newData := newData[leaveType := newData[leaveType] + days];
      }
      if leaveType == ANNUAL_LEAVE {
        newAnnual := newAnnual + days;
      }
      RowSumRemove(monthData, done + {leaveType}, leaveType);
      assert (done + {leaveType}) - {leaveType} == done;
      monthTotal := monthTotal + days;
      remaining := remaining - {leaveType};
      done := done + {leaveType};
    }
  }

  /** The per-type dictionary before any month is visited: one zero entry
      per known leave type. */
  method ZeroEntries(leaveTypes: seq<string>) returns (leaveTypeData: map<string, real>)
    ensures leaveTypeData.Keys == (set lt | lt in leaveTypes)
    ensures forall lt :: lt in leaveTypeData ==> leaveTypeData[lt] == 0.0
  {
    leaveTypeData := map[];
    for i := 0 to |leaveTypes|
      invariant leaveTypeData.Keys == (set lt | lt in leaveTypes[..i])
      invariant forall lt :: lt in leaveTypeData ==> leaveTypeData[lt] == 0.0
    {
      assert leaveTypes[..i + 1] == leaveTypes[..i] + [leaveTypes[i]];
      leaveTypeData := leaveTypeData[leaveTypes[i] := 0.0];
    }
    assert leaveTypes[..|leaveTypes|] == leaveTypes;
  }

  /** Visits every month of the grid in ascending order, folds its row into
      the zero-initialised dictionary and the annual leave taken with
      `AddMonth`, and records the month's total in a twelve-entry array. */
  method FoldMonths(grid: LeaveByMonth, zeros: map<string, real>)
    returns (leaveTypeData: map<string, real>, annualLeaveTaken: real, monthlyTotals: seq<real>)
    requires forall lt :: lt in zeros ==> zeros[lt] == 0.0
    ensures leaveTypeData.Keys == zeros.Keys
    ensures forall lt :: lt in leaveTypeData ==> leaveTypeData[lt] == TypeTotal(grid, lt)
    ensures annualLeaveTaken == TypeTotal(grid, ANNUAL_LEAVE)
    ensures monthlyTotals == MonthlyTotals(grid)
  {
    leaveTypeData, annualLeaveTaken := zeros, 0.0;
    var totals := new real[12](_ => 0.0);
    for month := 1 to 13
      invariant leaveTypeData.Keys == zeros.Keys
      invariant forall lt :: lt in leaveTypeData ==> leaveTypeData[lt] == TypeSum(grid, lt, month - 1)
      invariant annualLeaveTaken == TypeSum(grid, ANNUAL_LEAVE, month - 1)
      invariant forall j :: 0 <= j < 12 ==>
        totals[j] == if j < month - 1 then MonthTotal(grid, (j + 1) as Month) else 0.0
    {
      var m: Month := month;
      if m in grid {
        var monthTotal;
        leaveTypeData, annualLeaveTaken, monthTotal := AddMonth(grid[m], leaveTypeData, annualLeaveTaken);
        totals[month - 1] := monthTotal;
      }
    }
    monthlyTotals := totals[..];
  }

  /** Zero-initialises the per-type dictionary, folds in the months, then
      adds up the per-type entries and derives the balance and the status. */
  method CalculateLeaveMetrics(employee: Employee, leaveTypes: seq<string>) returns (r: CalculatedEmployee)
    ensures r == Metrics(employee, leaveTypes)
  {
    var grid := employee.leaveByMonth;
    var zeros := ZeroEntries(leaveTypes);
    var leaveTypeData, annualLeaveTaken, monthlyTotals := FoldMonths(grid, zeros);
    var totalLeaveTaken := SumValues(leaveTypeData, Dedup(leaveTypes));
    var totalAnnualLeave := employee.previousYearLeave + employee.currentYearLeave;
    var remainingLeave := totalAnnualLeave - annualLeaveTaken;
    var status := if remainingLeave < 0.0 then OverLimit else Normal;
    assert leaveTypeData == LeaveTypeData(grid, leaveTypes);
    r := CalculatedEmployee(
      employee.id, employee.name, employee.previousYearLeave, employee.currentYearLeave,
      employee.specialLeave, grid,
      totalAnnualLeave, annualLeaveTaken, totalLeaveTaken, remainingLeave, status,
      leaveTypeData, monthlyTotals);
  }
}
