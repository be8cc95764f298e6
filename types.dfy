/** The data model of the leave tracker: dated leave entries grouped by
    month and leave type, employee records, and the derived view that the
    metrics calculation produces. All quantities of days are exact reals. */
module Types {

  /** How much of a working day one leave entry takes: half a day or a
      whole day. No other duration can be stored. */
  datatype Duration = Half | Full {
    function Days(): (d: real)
      ensures d == 0.5 || d == 1.0
      ensures Half? <==> d == 0.5
    {
      match this
      case Half => 0.5
      case Full => 1.0
    }
  }

  /** One day of leave: its calendar date as a `YYYY-MM-DD` string and its duration. */
  datatype LeaveDate = LeaveDate(date: string, duration: Duration)

  /** The bucket of dated entries for one (month, leave type) cell. */
  datatype LeaveDetails = LeaveDetails(dates: seq<LeaveDate>)

  /** Month numbers, January = 1 through December = 12. */
  type Month = m: int | 1 <= m <= 12 witness 1

  /** month -> leave-type name -> bucket. */
  type LeaveByMonth = map<Month, map<string, LeaveDetails>>

  datatype Employee = Employee(
    id: string,
    name: string,
    previousYearLeave: real,
    currentYearLeave: real,
    specialLeave: real,
    leaveByMonth: LeaveByMonth)

  /** The two statuses of a calculated employee. */
  datatype Status = Normal | OverLimit {
    /** The label the application shows for the status. */
    function Label(): (s: string)
      ensures s == "Bình thường" || s == "Vượt phép"
      ensures Normal? <==> s == "Bình thường"
    {
      match this
      case Normal => "Bình thường"
      case OverLimit => "Vượt phép"
    }
  }

  /** The leave type whose usage is deducted from the annual allowance;
      it is recognised by this literal name. */
  const ANNUAL_LEAVE: string := "Phép Năm"

  /** An employee record extended with the derived leave metrics. */
  datatype CalculatedEmployee = CalculatedEmployee(
    id: string,
    name: string,
    previousYearLeave: real,
    currentYearLeave: real,
    specialLeave: real,
    leaveByMonth: LeaveByMonth,
    totalAnnualLeave: real,
    annualLeaveTaken: real,
    totalLeaveTaken: real,
    remainingLeave: real,
    status: Status,
    leaveTypeData: map<string, real>,
    monthlyTotals: seq<real>)
  {
    /** The employee fields of the record, without the derived ones. */
    function AsEmployee(): Employee {
      Employee(id, name, previousYearLeave, currentYearLeave, specialLeave, leaveByMonth)
    }
  }
}
