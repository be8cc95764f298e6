/** Editing one bucket of the form's draft through the calendar dialog:
    clicking a day toggles it in the dialog's selection, saving sorts the
    selection by date and writes it into one (month, leave type) cell of the
    draft's grid. */
module Calendar {
  import opened Types
  import opened Dates
  import opened LeaveMetrics

  /** Some entry of the bucket falls on `date`. */
  predicate HasDate(dates: seq<LeaveDate>, date: string) {
    exists i :: 0 <= i < |dates| && dates[i].date == date
  }

  /** No two entries of the bucket fall on the same date. */
  predicate UniqueDates(dates: seq<LeaveDate>) {
    forall i, j :: 0 <= i < j < |dates| ==> dates[i].date != dates[j].date
  }

  // ---------------------------------------------------------------------
  // Toggling a day
  // ---------------------------------------------------------------------

  /** The entries whose date is not `date`, in their original order. */
  function RemoveDate(dates: seq<LeaveDate>, date: string): (r: seq<LeaveDate>)
    ensures forall x :: x in r <==> x in dates && x.date != date
    ensures !HasDate(dates, date) ==> r == dates
  {
    if dates == [] then []
    else
      var p, last := dates[..|dates| - 1], dates[|dates| - 1];
      assert dates == p + [last];
      assert !HasDate(dates, date) ==> !HasDate(p, date);
      var rest := RemoveDate(p, date);
      if last.date == date then rest else rest + [last]
  }

  /** Removal keeps the order of what it keeps: removing from two pieces
      and joining the results is removing from the joined bucket. */
  lemma {:induction false} RemoveDateConcat(p: seq<LeaveDate>, q: seq<LeaveDate>, date: string)
    ensures RemoveDate(p + q, date) == RemoveDate(p, date) + RemoveDate(q, date)
    decreases |q|
  {
    if q == [] {
      assert p + q == p;
    } else {
      var front := q[..|q| - 1];
      assert (p + q)[..|p + q| - 1] == p + front;
      RemoveDateConcat(p, front, date);
    }
  }

  /** On one entry, removal keeps it exactly when its date differs. */
  lemma RemoveDateSingle(x: LeaveDate, date: string)
    ensures RemoveDate([x], date) == if x.date == date then [] else [x]
  {
  }

  /** A click on the day `date` with `duration` chosen in the dialog: the
      day's entries are removed when it has any, otherwise one entry for it
      is appended. */
  function Toggle(dates: seq<LeaveDate>, date: string, duration: Duration): (r: seq<LeaveDate>)
    ensures HasDate(r, date) <==> !HasDate(dates, date)
    ensures forall other :: other != date ==> (HasDate(r, other) <==> HasDate(dates, other))
    ensures !HasDate(dates, date) ==> r == dates + [LeaveDate(date, duration)]
    ensures HasDate(dates, date) ==> r == RemoveDate(dates, date)
    ensures HasDate(dates, date) ==> forall x :: x in r <==> x in dates && x.date != date
  {
    if HasDate(dates, date) then
      var r := RemoveDate(dates, date);
      assert forall other :: other != date && HasDate(dates, other) ==> HasDate(r, other) by {
        forall other | other != date && HasDate(dates, other)
          ensures HasDate(r, other)
        {
          var i :| 0 <= i < |dates| && dates[i].date == other;
          assert dates[i] in r;
        }
      }
      r
    else
      var r := dates + [LeaveDate(date, duration)];
      assert r[|dates|].date == date;
      assert forall other :: HasDate(dates, other) ==> HasDate(r, other) by {
        forall other | HasDate(dates, other)
          ensures HasDate(r, other)
        {
          var i :| 0 <= i < |dates| && dates[i].date == other;
          assert r[i] == dates[i];
        }
      }
      assert forall other :: other != date && HasDate(r, other) ==> HasDate(dates, other) by {
        forall other | other != date && HasDate(r, other)
          ensures HasDate(dates, other)
        {
          var i :| 0 <= i < |r| && r[i].date == other;
          assert i < |dates|;
        }
      }
      r
  }

  /** Clicking a day that had no entry twice gives back the original bucket,
      whatever duration was chosen each time. */
  lemma ToggleTwiceRestores(dates: seq<LeaveDate>, date: string, first: Duration, second: Duration)
    requires !HasDate(dates, date)
    ensures Toggle(Toggle(dates, date, first), date, second) == dates
  {
  }

  lemma {:induction false} RemoveDateKeepsUnique(dates: seq<LeaveDate>, date: string)
    requires UniqueDates(dates)
    ensures UniqueDates(RemoveDate(dates, date))
  {
    if dates != [] {
      var p, last := dates[..|dates| - 1], dates[|dates| - 1];
      RemoveDateKeepsUnique(p, date);
      var rest := RemoveDate(p, date);
      if last.date != date {
        forall x | x in rest
          ensures x.date != last.date
        {
          var i :| 0 <= i < |p| && p[i] == x;
        }
      }
    }
  }

  /** Toggling keeps the bucket free of repeated dates. */
  lemma ToggleKeepsDatesUnique(dates: seq<LeaveDate>, date: string, duration: Duration)
    requires UniqueDates(dates)
    ensures UniqueDates(Toggle(dates, date, duration))
  {
    if HasDate(dates, date) {
      RemoveDateKeepsUnique(dates, date);
    }
  }

  lemma BucketDaysAppend(dates: seq<LeaveDate>, x: LeaveDate)
    ensures BucketDays(dates + [x]) == BucketDays(dates) + x.duration.Days()
  {
  }

  /** In a bucket without repeated dates, removing a date takes away exactly
      the days of its one entry. */
  lemma {:induction false} RemoveDateDays(dates: seq<LeaveDate>, i: nat)
    requires UniqueDates(dates) && i < |dates|
    ensures BucketDays(RemoveDate(dates, dates[i].date)) == BucketDays(dates) - dates[i].duration.Days()
  {
    var date := dates[i].date;
    var p, last := dates[..|dates| - 1], dates[|dates| - 1];
    if i == |dates| - 1 {
      assert !HasDate(p, date);
    } else {
      assert last.date != date;
      RemoveDateDays(p, i);
      BucketDaysAppend(RemoveDate(p, date), last);
    }
  }

  /** The days a toggle adds to or takes from the bucket. */
  lemma ToggleDays(dates: seq<LeaveDate>, date: string, duration: Duration)
    requires UniqueDates(dates)
    ensures !HasDate(dates, date) ==>
      BucketDays(Toggle(dates, date, duration)) == BucketDays(dates) + duration.Days()
    ensures forall i :: 0 <= i < |dates| && dates[i].date == date ==>
      BucketDays(Toggle(dates, date, duration)) == BucketDays(dates) - dates[i].duration.Days()
  {
    if !HasDate(dates, date) {
      BucketDaysAppend(dates, LeaveDate(date, duration));
    }
    forall i | 0 <= i < |dates| && dates[i].date == date
      ensures BucketDays(Toggle(dates, date, duration)) == BucketDays(dates) - dates[i].duration.Days()
    {
      RemoveDateDays(dates, i);
    }
  }

  // ---------------------------------------------------------------------
  // Sorting on save
  // ---------------------------------------------------------------------

  /** Every entry of the bucket falls on a day of the calendar. */
  predicate AllCalendarDates(dates: seq<LeaveDate>) {
    forall i :: 0 <= i < |dates| ==> IsCalendarDate(dates[i].date)
  }

  /** A day the calendar offers can be toggled without letting anything but
      calendar dates into the bucket. */
  lemma ToggleKeepsCalendarDates(dates: seq<LeaveDate>, year: nat, month: Month, day: nat, duration: Duration)
    requires AllCalendarDates(dates)
    requires 1000 <= year <= 9999 && 1 <= day <= DaysInMonth(year, month)
    ensures AllCalendarDates(Toggle(dates, FormatDate(year, month, day), duration))
  {
  }

  /** The instant an entry's date denotes, as a number; the sort is only
      ever asked to order calendar dates, so the other case is arbitrary. */
  function SortKey(x: LeaveDate): nat {
    if IsCalendarDate(x.date) then DateKey(x.date) else 0
  }

  /** On calendar dates the key orders entries as their days follow each
      other, and two entries share a key exactly when they share a date. */
  lemma SortKeyOrdersByDate(x: LeaveDate, y: LeaveDate)
    requires IsCalendarDate(x.date) && IsCalendarDate(y.date)
    ensures SortKey(x) < SortKey(y) <==> ChronologicallyBefore(x.date, y.date)
    ensures SortKey(x) == SortKey(y) <==> x.date == y.date
  {
    DateKeyIsChronological(x.date, y.date);
    DateKeyInjective(x.date, y.date);
  }

  /** Ascending by `key`. */
  predicate SortedBy(s: seq<LeaveDate>, key: LeaveDate -> nat) {
    forall p, q :: 0 <= p < q < |s| ==> key(s[p]) <= key(s[q])
  }

  /** Ascending by the instant each entry's date denotes. */
  predicate SortedByDate(dates: seq<LeaveDate>) {
    AllCalendarDates(dates) && SortedBy(dates, SortKey)
  }

  /** A bucket sorted by date is also in text order: no entry's date string
      sorts before an earlier entry's. */
  lemma SortedByDateIsTextOrder(dates: seq<LeaveDate>)
    requires SortedByDate(dates)
    ensures forall p, q :: 0 <= p < q < |dates| ==> !LexLess(dates[q].date, dates[p].date)
  {
    forall p, q | 0 <= p < q < |dates|
      ensures !LexLess(dates[q].date, dates[p].date)
    {
      assert SortKey(dates[p]) <= SortKey(dates[q]);
      DateKeyIsChronological(dates[q].date, dates[p].date);
      LexOrderIsChronological(dates[q].date, dates[p].date);
    }
  }

  /** A permutation of calendar-date entries holds only calendar dates. */
  lemma CalendarDatesPermutation(s: seq<LeaveDate>, t: seq<LeaveDate>)
    requires AllCalendarDates(s) && multiset(s) == multiset(t)
    ensures AllCalendarDates(t)
  {
    forall i | 0 <= i < |t|
      ensures IsCalendarDate(t[i].date)
    {
      assert t[i] in multiset(s);
      var k :| 0 <= k < |s| && s[k] == t[i];
    }
  }

  /** Exchanges entries `j - 1` and `j`. */
  method Swap(a: array<LeaveDate>, j: nat)
    requires 0 < j < a.Length
    modifies a
    ensures a[..] == old(a[..])[j - 1 := old(a[j])][j := old(a[j - 1])]
    ensures multiset(a[..]) == multiset(old(a[..]))
  {
    a[j - 1], a[j] := a[j], a[j - 1];
  }

  /** Moves entry `i` down past every entry before it with a larger key, so
      that entries 0 to `i` end up in order. */
  method InsertDown(a: array<LeaveDate>, i: nat, key: LeaveDate -> nat)
    requires i < a.Length && SortedBy(a[..i], key)
    modifies a
    ensures SortedBy(a[..i + 1], key)
    ensures a[i + 1..] == old(a[i + 1..])
    ensures multiset(a[..]) == multiset(old(a[..]))
  {
    var j := i;
    while j > 0 && key(a[j - 1]) > key(a[j])
      invariant 0 <= j <= i
      invariant forall p, q :: 0 <= p < q <= i && p != j && q != j ==> key(a[p]) <= key(a[q])
      invariant forall q :: j < q <= i ==> key(a[j]) < key(a[q])
      invariant a[i + 1..] == old(a[i + 1..])
      invariant multiset(a[..]) == multiset(old(a[..]))
    {
      Swap(a, j);
      j := j - 1;
    }
  }

  /** Sorts the array in place by `key`, by insertion: the comparator of the
      save handler orders entries by the difference of their keys. */
  method SortByKey(a: array<LeaveDate>, key: LeaveDate -> nat)
    modifies a
    ensures SortedBy(a[..], key)
    ensures multiset(a[..]) == multiset(old(a[..]))
  {
    for i := 0 to a.Length
      invariant SortedBy(a[..i], key)
      invariant multiset(a[..]) == multiset(old(a[..]))
    {
      InsertDown(a, i, key);
    }
    assert a[..a.Length] == a[..];
  }

  /** Pressing save in the dialog: the selection, sorted by date. */
  method HandleSave(selected: seq<LeaveDate>) returns (saved: seq<LeaveDate>)
    requires AllCalendarDates(selected)
    ensures SortedByDate(saved)
    ensures multiset(saved) == multiset(selected)
  {
    var a := new LeaveDate[|selected|](i requires 0 <= i < |selected| => selected[i]);
    assert a[..] == selected;
    SortByKey(a, SortKey);
    saved := a[..];
    CalendarDatesPermutation(selected, saved);
  }

  lemma {:induction false} BucketDaysRemoveAt(dates: seq<LeaveDate>, k: nat)
    requires k < |dates|
    ensures BucketDays(dates) == BucketDays(dates[..k] + dates[k + 1..]) + dates[k].duration.Days()
  {
    var n := |dates|;
    if k == n - 1 {
      assert dates[..k] + dates[k + 1..] == dates[..n - 1];
    } else {
      var p := dates[..n - 1];
      BucketDaysRemoveAt(p, k);
      assert dates[..k] + dates[k + 1..] == (p[..k] + p[k + 1..]) + [dates[n - 1]];
      BucketDaysAppend(p[..k] + p[k + 1..], dates[n - 1]);
    }
  }

  /** Reordering a bucket does not change its days: sorting on save leaves
      every total of the metrics as it was. */
  lemma {:induction false} BucketDaysPermutation(s: seq<LeaveDate>, t: seq<LeaveDate>)
    requires multiset(s) == multiset(t)
    ensures BucketDays(s) == BucketDays(t)
    decreases |s|
  {
    if s != [] {
      var n := |s|;
      var x := s[n - 1];
      assert s == s[..n - 1] + [x];
      assert x in multiset(t);
      var k :| 0 <= k < |t| && t[k] == x;
      var rest := t[..k] + t[k + 1..];
      assert t == t[..k] + [x] + t[k + 1..];
      assert multiset(rest) == multiset(t) - multiset{x};
      BucketDaysPermutation(s[..n - 1], rest);
      BucketDaysRemoveAt(t, k);
    } else {
      assert |t| == |multiset(t)|;
    }
  }

  // ---------------------------------------------------------------------
  // Writing the bucket into the draft
  // ---------------------------------------------------------------------

  /** The draft after the dialog's save, or the failure the application runs into
      when the grid has no row for the month. */
  datatype SaveResult = Draft(draft: Employee) | MissingRow

  /** `after` is `before` with the bucket of (`month`, `leaveType`) set to
      `dates` and nothing else changed. */
  predicate OnlyCellChanged(before: Employee, after: Employee, month: Month, leaveType: string, dates: seq<LeaveDate>)
    requires month in before.leaveByMonth
  {
    var g, h := before.leaveByMonth, after.leaveByMonth;
    && after.(leaveByMonth := g) == before
    && h.Keys == g.Keys
    && (forall m :: m in g && m != month ==> h[m] == g[m])
    && h[month].Keys == g[month].Keys + {leaveType}
    && h[month][leaveType] == LeaveDetails(dates)
    && (forall lt :: lt in g[month] && lt != leaveType ==> h[month][lt] == g[month][lt])
  }

  /** The dialog's save handler: with a month and a leave type selected, the
      bucket is written into that cell of the draft's grid. */
  function CalendarSave(draft: Employee, month: int, leaveType: string, dates: seq<LeaveDate>): (r: SaveResult)
    ensures month == 0 || leaveType == "" ==> r == Draft(draft)
    ensures r == MissingRow <==>
      month != 0 && leaveType != "" && !(1 <= month <= 12 && month as Month in draft.leaveByMonth)
    ensures r.Draft? && month != 0 && leaveType != "" ==>
      1 <= month <= 12 && month as Month in draft.leaveByMonth
      && OnlyCellChanged(draft, r.draft, month as Month, leaveType, dates)
  {
    if month == 0 || leaveType == "" then Draft(draft)
    else if !(1 <= month <= 12 && month as Month in draft.leaveByMonth) then MissingRow
    else
      var grid := draft.leaveByMonth;
      var m := month as Month;
      Draft(draft.(leaveByMonth := grid[m := grid[m][leaveType := LeaveDetails(dates)]]))
  }

  lemma {:induction false} TypeSumAfterSave(before: Employee, after: Employee, month: Month, leaveType: string,
                                            dates: seq<LeaveDate>, lt: string, n: nat)
    requires month in before.leaveByMonth && n <= 12
    requires OnlyCellChanged(before, after, month, leaveType, dates)
    ensures TypeSum(after.leaveByMonth, lt, n) == TypeSum(before.leaveByMonth, lt, n)
      + (if lt == leaveType && month <= n then BucketDays(dates) - RowDays(before.leaveByMonth[month], lt) else 0.0)
  {
    if n > 0 {
      TypeSumAfterSave(before, after, month, leaveType, dates, lt, n - 1);
    }
  }

  /** What a save does to the metrics: the annual leave taken moves by the
      change in the annual bucket, and the per-type totals of other types and
      the totals of other months stay as they were. */
  lemma SaveEffectOnMetrics(draft: Employee, month: int, leaveType: string, dates: seq<LeaveDate>,
                            leaveTypes: seq<string>)
    requires month != 0 && leaveType != ""
    requires CalendarSave(draft, month, leaveType, dates).Draft?
    ensures var after := CalendarSave(draft, month, leaveType, dates).draft;
      var m := month as Month;
      var r0, r1 := Metrics(draft, leaveTypes), Metrics(after, leaveTypes);
      && r1.annualLeaveTaken == r0.annualLeaveTaken
           + (if leaveType == ANNUAL_LEAVE then BucketDays(dates) - RowDays(draft.leaveByMonth[m], leaveType) else 0.0)
      && (forall lt :: lt in r0.leaveTypeData && lt != leaveType ==> r1.leaveTypeData[lt] == r0.leaveTypeData[lt])
      && (forall i :: 0 <= i < 12 && i != month - 1 ==> r1.monthlyTotals[i] == r0.monthlyTotals[i])
  {
    var after := CalendarSave(draft, month, leaveType, dates).draft;
    var m := month as Month;
    TypeSumAfterSave(draft, after, m, leaveType, dates, ANNUAL_LEAVE, 12);
    forall lt | lt != leaveType
      ensures TypeTotal(after.leaveByMonth, lt) == TypeTotal(draft.leaveByMonth, lt)
    {
      TypeSumAfterSave(draft, after, m, leaveType, dates, lt, 12);
    }
    forall n: Month | n != m
      ensures MonthTotal(after.leaveByMonth, n) == MonthTotal(draft.leaveByMonth, n)
    {
      assert RowOf(after.leaveByMonth, n) == RowOf(draft.leaveByMonth, n);
    }
  }
}
