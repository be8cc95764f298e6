/** Construction of the fully populated month x leave-type grid that every
    new employee record starts with. */
module Grid {
  import opened Types

  /** No bucket of the grid holds an entry. */
  predicate AllBucketsEmpty(grid: LeaveByMonth) {
    forall m, lt :: m in grid && lt in grid[m] ==> grid[m][lt].dates == []
  }

  /** The grid has a row for exactly the given months, and every row has a
      bucket for exactly the given leave types. */
  predicate Covers(grid: LeaveByMonth, months: seq<Month>, leaveTypes: seq<string>) {
    && grid.Keys == (set m | m in months)
    && forall m :: m in grid ==> grid[m].Keys == (set lt | lt in leaveTypes)
  }

  /** Builds the grid month by month, filling each month's row with one
      empty bucket per leave type. */
  method EmptyLeaveByMonth(months: seq<Month>, leaveTypes: seq<string>) returns (data: LeaveByMonth)
    ensures Covers(data, months, leaveTypes)
    ensures AllBucketsEmpty(data)
  {
    data := map[];
    for i := 0 to |months|
      invariant data.Keys == (set m | m in months[..i])
      invariant forall m :: m in data ==> data[m].Keys == (set lt | lt in leaveTypes)
      invariant AllBucketsEmpty(data)
    {
      var month := months[i];
      var row: map<string, LeaveDetails> := map[];
      for j := 0 to |leaveTypes|
        invariant row.Keys == (set lt | lt in leaveTypes[..j])
        invariant forall lt :: lt in row ==> row[lt].dates == []
      {
        assert leaveTypes[..j + 1] == leaveTypes[..j] + [leaveTypes[j]];
        row := row[leaveTypes[j] := LeaveDetails([])];
      }
      assert leaveTypes[..|leaveTypes|] == leaveTypes;
      assert months[..i + 1] == months[..i] + [month];
      data := data[month := row];
    }
    assert months[..|months|] == months;
  }

  /** A blank employee record for the form: the given identifier, an empty
      name, zero allowances and an empty grid. */
  method NewEmployee(id: string, months: seq<Month>, leaveTypes: seq<string>) returns (e: Employee)
    ensures e.id == id && e.name == ""
    ensures e.previousYearLeave == 0.0 && e.currentYearLeave == 0.0 && e.specialLeave == 0.0
    ensures Covers(e.leaveByMonth, months, leaveTypes)
    ensures AllBucketsEmpty(e.leaveByMonth)
  {
    var grid := EmptyLeaveByMonth(months, leaveTypes);
    e := Employee(id, "", 0.0, 0.0, 0.0, grid);
  }
}
