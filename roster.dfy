/** The employee list and the three commands of the form that change it:
    add, update and delete. Each command either is rejected, leaving the
    list as it was, or yields the new list. */
module Roster {
  import opened Types

  // ---------------------------------------------------------------------
  // String trimming
  // ---------------------------------------------------------------------

  /** The characters JavaScript's `String.prototype.trim` strips: white
      space (tab, vertical tab, form feed, space, no-break space, byte order
      mark and the Unicode space separators) and line terminators. */
  predicate IsJsWhitespace(c: char) {
    || c == '\t' || c == '\n' || c == '\U{000B}' || c == '\U{000C}' || c == '\r'
    || c == ' ' || c == '\U{00A0}' || c == '\U{1680}' || ('\U{2000}' <= c <= '\U{200A}')
    || c == '\U{2028}' || c == '\U{2029}' || c == '\U{202F}' || c == '\U{205F}'
    || c == '\U{3000}' || c == '\U{FEFF}'
  }

  predicate AllWhitespace(s: string) {
    forall i :: 0 <= i < |s| ==> IsJsWhitespace(s[i])
  }

  /** How many white-space characters `s` starts with. */
  function LeadingCount(s: string): (n: nat)
    ensures n <= |s| && AllWhitespace(s[..n])
    ensures n == |s| || !IsJsWhitespace(s[n])
  {
    if s != [] && IsJsWhitespace(s[0]) then
      var k := LeadingCount(s[1..]);
      assert s[..k + 1] == [s[0]] + s[1..][..k];
      k + 1
    else 0
  }

  /** How many white-space characters `s` ends with. */
  function TrailingCount(s: string): (n: nat)
    ensures n <= |s| && AllWhitespace(s[|s| - n..])
    ensures n == |s| || !IsJsWhitespace(s[|s| - n - 1])
  {
    if s != [] && IsJsWhitespace(s[|s| - 1]) then
      var p := s[..|s| - 1];
      var k := TrailingCount(p);
      assert s[|s| - (k + 1)..] == p[|p| - k..] + [s[|s| - 1]];
      k + 1
    else 0
  }

  /** `s` without its leading white space. */
  function TrimStart(s: string): (r: string)
    ensures r == [] || !IsJsWhitespace(r[0])
    ensures exists i :: 0 <= i <= |s| && r == s[i..] && AllWhitespace(s[..i])
  {
    s[LeadingCount(s)..]
  }

  /** `s` without its trailing white space. */
  function TrimEnd(s: string): (r: string)
    ensures r == [] || !IsJsWhitespace(r[|r| - 1])
    ensures exists j :: 0 <= j <= |s| && r == s[..j] && AllWhitespace(s[j..])
  {
    s[..|s| - TrailingCount(s)]
  }

  /** JavaScript's `trim`: white space removed from both ends. What is left
      is a middle slice of `s` that neither starts nor ends with white space. */
  function Trim(s: string): (r: string)
    ensures r == [] || (!IsJsWhitespace(r[0]) && !IsJsWhitespace(r[|r| - 1]))
    ensures exists i, j :: 0 <= i <= j <= |s| && r == s[i..j] && AllWhitespace(s[..i]) && AllWhitespace(s[j..])
  {
    var i := LeadingCount(s);
    var t := TrimStart(s);
    assert t == s[i..];
    var k := TrailingCount(t);
    var j := i + |t| - k;
    var r := TrimEnd(t);
    assert r == t[..|t| - k] == s[i..j];
    assert t[|t| - k..] == s[j..];
    assert AllWhitespace(s[..i]) && AllWhitespace(s[j..]);
    r
  }

  /** A name is blank once trimmed exactly when it is made of white space. */
  lemma TrimBlank(s: string)
    ensures Trim(s) == [] <==> AllWhitespace(s)
  {
  }

  /** Trimming twice is trimming once. */
  lemma TrimIdempotent(s: string)
    ensures Trim(Trim(s)) == Trim(s)
  {
  }

  // ---------------------------------------------------------------------
  // The commands
  // ---------------------------------------------------------------------

  datatype Option<T> = None | Some(value: T)

  /** Why a command was refused; each case is an alert in the form.
      `NoSelection` is the alert asking to pick a record from the table. */
  datatype Rejection = BlankName | DuplicateName | SpecialLeaveTooHigh | NoSelection

  /** The result of a command: the new list, or the refusal. */
  datatype Outcome = Accepted(employees: seq<Employee>) | Rejected(reason: Rejection)

  /** The most days of special leave a record may carry. */
  const MAX_SPECIAL_LEAVE: real := 14.0

  predicate HasName(employees: seq<Employee>, name: string) {
    exists i :: 0 <= i < |employees| && employees[i].name == name
  }

  /** A record carries `name` after one more is appended exactly when one
      already did or the new one does. */
  lemma HasNameAppend(employees: seq<Employee>, e: Employee, name: string)
    ensures HasName(employees + [e], name) <==> HasName(employees, name) || e.name == name
  {
    var r := employees + [e];
    if HasName(r, name) && !HasName(employees, name) {
      var i :| 0 <= i < |r| && r[i].name == name;
      assert i == |employees|;
    }
    if HasName(employees, name) {
      var i :| 0 <= i < |employees| && employees[i].name == name;
      assert r[i] == employees[i];
    }
    if e.name == name {
      assert r[|employees|] == e;
    }
  }

  predicate HasId(employees: seq<Employee>, id: string) {
    exists i :: 0 <= i < |employees| && employees[i].id == id
  }

  predicate DistinctNames(employees: seq<Employee>) {
    forall i, j :: 0 <= i < j < |employees| ==> employees[i].name != employees[j].name
  }

  /** The checks of the add command, in the order the form runs them. */
  function AddCheck(employees: seq<Employee>, draft: Employee, placeholder: string): (r: Option<Rejection>)
    ensures r.None? <==>
      && Trim(draft.name) != []
      && draft.name != placeholder
      && !HasName(employees, Trim(draft.name))
      && draft.specialLeave <= MAX_SPECIAL_LEAVE
    ensures r == Some(BlankName) <==> Trim(draft.name) == [] || draft.name == placeholder
    ensures r == Some(DuplicateName) <==>
      Trim(draft.name) != [] && draft.name != placeholder && HasName(employees, Trim(draft.name))
    ensures r == Some(SpecialLeaveTooHigh) <==>
      && Trim(draft.name) != []
      && draft.name != placeholder
      && !HasName(employees, Trim(draft.name))
      && draft.specialLeave > MAX_SPECIAL_LEAVE
  {
    if Trim(draft.name) == [] || draft.name == placeholder then Some(BlankName)
    else if HasName(employees, Trim(draft.name)) then Some(DuplicateName)
    else if draft.specialLeave > MAX_SPECIAL_LEAVE then Some(SpecialLeaveTooHigh)
    else None
  }

  /** The add command as the form performs it: the checks compare the
      trimmed name, but the record appended keeps the name as typed. */
  function AddEmployeeAsWritten(employees: seq<Employee>, draft: Employee, placeholder: string, freshId: string): (r: Outcome)
    ensures r.Rejected? <==> AddCheck(employees, draft, placeholder).Some?
    ensures r.Rejected? ==> r.reason == AddCheck(employees, draft, placeholder).value
    ensures r.Accepted? ==> |r.employees| == |employees| + 1 && r.employees[..|employees|] == employees
    ensures r.Accepted? ==> r.employees[|employees|] == draft.(id := freshId)
  {
    match AddCheck(employees, draft, placeholder)
    case Some(reason) => Rejected(reason)
    case None =>
      var appended := employees + [draft.(id := freshId)];
      assert appended[..|employees|] == employees;
      Accepted(appended)
  }

  lemma TrimLeadingSpace()
    ensures Trim(" An") == "An"
  {
    assert " An"[1..] == "An";
    assert LeadingCount("An") == 0;
    assert LeadingCount(" An") == 1;
    assert TrailingCount("An") == 0;
  }

  /** Two records named " An": the first is on the list, the second is typed
      into the form with the same leading space. The duplicate check looks
      for "An", finds nothing, and the list ends up with the name twice. */
  lemma AddAsWrittenAdmitsDuplicateName(first: Employee, draft: Employee)
    requires first.name == " An" && draft.name == " An" && draft.specialLeave == 0.0
    ensures DistinctNames([first])
    ensures AddEmployeeAsWritten([first], draft, "", "2").Accepted?
    ensures !DistinctNames(AddEmployeeAsWritten([first], draft, "", "2").employees)
  {
    TrimLeadingSpace();
    assert !HasName([first], "An");
    var r := AddEmployeeAsWritten([first], draft, "", "2");
    assert r.employees[0].name == r.employees[1].name;
  }

  /** The checks of the corrected add: the name that will be stored, the
      trimmed one, is what is compared with the placeholder and with the
      names on the list; the name as typed is still refused when it is the
      placeholder. */
  function AddCheckTrimmed(employees: seq<Employee>, draft: Employee, placeholder: string): (r: Option<Rejection>)
    ensures r.None? <==>
      && Trim(draft.name) != []
      && draft.name != placeholder
      && Trim(draft.name) != placeholder
      && !HasName(employees, Trim(draft.name))
      && draft.specialLeave <= MAX_SPECIAL_LEAVE
    ensures r == Some(BlankName) <==>
      Trim(draft.name) == [] || draft.name == placeholder || Trim(draft.name) == placeholder
    ensures r == Some(DuplicateName) <==>
      && Trim(draft.name) != []
      && draft.name != placeholder
      && Trim(draft.name) != placeholder
      && HasName(employees, Trim(draft.name))
    ensures r == Some(SpecialLeaveTooHigh) <==>
      && Trim(draft.name) != []
      && draft.name != placeholder
      && Trim(draft.name) != placeholder
      && !HasName(employees, Trim(draft.name))
      && draft.specialLeave > MAX_SPECIAL_LEAVE
  {
    var name := Trim(draft.name);
    if name == [] || draft.name == placeholder || name == placeholder then Some(BlankName)
    else if HasName(employees, name) then Some(DuplicateName)
    else if draft.specialLeave > MAX_SPECIAL_LEAVE then Some(SpecialLeaveTooHigh)
    else None
  }

  /** The corrected checks refuse every draft the form's checks refuse. */
  lemma AddCheckTrimmedRefusesMore(employees: seq<Employee>, draft: Employee, placeholder: string)
    ensures AddCheck(employees, draft, placeholder).Some? ==> AddCheckTrimmed(employees, draft, placeholder).Some?
    ensures AddCheckTrimmed(employees, draft, placeholder).Some? && AddCheck(employees, draft, placeholder).None? ==>
      Trim(draft.name) == placeholder
  {
  }

  /** The add command with the name stored as it was checked: trimmed. */
  function AddEmployee(employees: seq<Employee>, draft: Employee, placeholder: string, freshId: string): (r: Outcome)
    ensures r.Rejected? <==> AddCheckTrimmed(employees, draft, placeholder).Some?
    ensures r.Rejected? ==> r.reason == AddCheckTrimmed(employees, draft, placeholder).value
    ensures r.Accepted? ==> |r.employees| == |employees| + 1 && r.employees[..|employees|] == employees
    ensures r.Accepted? ==> r.employees[|employees|] == draft.(id := freshId, name := Trim(draft.name))
  {
    match AddCheckTrimmed(employees, draft, placeholder)
    case Some(reason) => Rejected(reason)
    case None =>
      var appended := employees + [draft.(id := freshId, name := Trim(draft.name))];
      assert appended[..|employees|] == employees;
      Accepted(appended)
  }

  /** Adding never puts a second record with the same name on the list. */
  lemma AddKeepsNamesDistinct(employees: seq<Employee>, draft: Employee, placeholder: string, freshId: string)
    requires DistinctNames(employees)
    ensures var r := AddEmployee(employees, draft, placeholder, freshId);
      r.Accepted? ==> DistinctNames(r.employees)
  {
  }

  /** The record the corrected add appends has a name that is already
      trimmed, not blank and not the placeholder. */
  lemma AddStoresTrimmedName(employees: seq<Employee>, draft: Employee, placeholder: string, freshId: string)
    ensures var r := AddEmployee(employees, draft, placeholder, freshId);
      r.Accepted? ==>
        var name := r.employees[|employees|].name;
        Trim(name) == name && name != [] && !AllWhitespace(name) && name != placeholder
  {
    TrimIdempotent(draft.name);
    TrimBlank(draft.name);
    TrimBlank(Trim(draft.name));
  }

  /** The delete command, once the user has confirmed it: the records whose
      id is not `id`, in their original order. */
  function DeleteEmployee(employees: seq<Employee>, id: string): (r: seq<Employee>)
    ensures forall e :: e in r <==> e in employees && e.id != id
    ensures !HasId(r, id)
    ensures !HasId(employees, id) ==> r == employees
    ensures |r| <= |employees|
  {
    if employees == [] then []
    else
      var p, last := employees[..|employees| - 1], employees[|employees| - 1];
      assert employees == p + [last];
      assert !HasId(employees, id) ==> !HasId(p, id);
      var rest := DeleteEmployee(p, id);
      if last.id == id then rest
      else
        var r := rest + [last];
        assert forall i :: 0 <= i < |r| ==> r[i] in r;
        r
  }

  /** Deletion keeps the order of the records it keeps: deleting from two
      pieces and joining the results is deleting from the joined list. */
  lemma {:induction false} DeleteConcat(p: seq<Employee>, q: seq<Employee>, id: string)
    ensures DeleteEmployee(p + q, id) == DeleteEmployee(p, id) + DeleteEmployee(q, id)
    decreases |q|
  {
    if q == [] {
      assert p + q == p;
    } else {
      var front := q[..|q| - 1];
      assert (p + q)[..|p + q| - 1] == p + front;
      DeleteConcat(p, front, id);
    }
  }

  /** On one record, deletion keeps it exactly when its id differs. */
  lemma DeleteSingle(e: Employee, id: string)
    ensures DeleteEmployee([e], id) == if e.id == id then [] else [e]
  {
  }

  /** Deleting twice is deleting once. */
  lemma DeleteIdempotent(employees: seq<Employee>, id: string)
    ensures DeleteEmployee(DeleteEmployee(employees, id), id) == DeleteEmployee(employees, id)
  {
  }

  /** Deleting the record just added, under its fresh id, gives back the
      list as it was before the add. */
  lemma AddThenDeleteRestores(employees: seq<Employee>, draft: Employee, placeholder: string, freshId: string)
    requires !HasId(employees, freshId)
    ensures var r := AddEmployee(employees, draft, placeholder, freshId);
      r.Accepted? ==> DeleteEmployee(r.employees, freshId) == employees
  {
  }

  /** The records with every one whose id is `draft.id` replaced by `draft`. */
  function ReplaceById(employees: seq<Employee>, draft: Employee): (r: seq<Employee>)
    ensures |r| == |employees|
    ensures forall i :: 0 <= i < |r| ==>
      (employees[i].id == draft.id ==> r[i] == draft) && (employees[i].id != draft.id ==> r[i] == employees[i])
  {
    if employees == [] then []
    else
      var p, last := employees[..|employees| - 1], employees[|employees| - 1];
      ReplaceById(p, draft) + [if last.id == draft.id then draft else last]
  }

  /** The update command as the form performs it: refused when the draft's
      id is empty or its special leave is too high; otherwise the draft
      replaces the records with its id. A draft from the blank form carries a
      fresh id, so it is accepted and replaces nothing. */
  function UpdateEmployeeAsWritten(employees: seq<Employee>, draft: Employee): (r: Outcome)
    ensures r == Rejected(NoSelection) <==> draft.id == []
    ensures r == Rejected(SpecialLeaveTooHigh) <==> draft.id != [] && draft.specialLeave > MAX_SPECIAL_LEAVE
    ensures r.Accepted? <==> draft.id != [] && draft.specialLeave <= MAX_SPECIAL_LEAVE
    ensures r.Accepted? ==> |r.employees| == |employees|
    ensures r.Accepted? ==> forall i :: 0 <= i < |employees| ==>
      r.employees[i] == if employees[i].id == draft.id then draft else employees[i]
  {
    if draft.id == [] then Rejected(NoSelection)
    else if draft.specialLeave > MAX_SPECIAL_LEAVE then Rejected(SpecialLeaveTooHigh)
    else Accepted(ReplaceById(employees, draft))
  }

  /** An update whose id is on no record leaves the list as it was. */
  lemma UpdateOfUnknownIdChangesNothing(employees: seq<Employee>, draft: Employee)
    requires !HasId(employees, draft.id)
    ensures var r := UpdateEmployeeAsWritten(employees, draft);
      r.Accepted? ==> r.employees == employees
  {
  }

  /** Pressing update on the blank form, whose draft has a fresh id that no
      record carries, is accepted although no record is selected, and
      changes nothing. */
  lemma UpdateAsWrittenAcceptsUnselected(employees: seq<Employee>, draft: Employee)
    requires draft.id != [] && !HasId(employees, draft.id)
    requires draft.specialLeave <= MAX_SPECIAL_LEAVE
    ensures UpdateEmployeeAsWritten(employees, draft) == Accepted(employees)
  {
    UpdateOfUnknownIdChangesNothing(employees, draft);
  }

  /** The update command as intended: refused unless the draft names a
      record on the list, or with too much special leave; otherwise the
      draft replaces the records with its id, at least one of them. */
  function UpdateEmployee(employees: seq<Employee>, draft: Employee): (r: Outcome)
    ensures r == Rejected(NoSelection) <==> draft.id == [] || !HasId(employees, draft.id)
    ensures r == Rejected(SpecialLeaveTooHigh) <==>
      draft.id != [] && HasId(employees, draft.id) && draft.specialLeave > MAX_SPECIAL_LEAVE
    ensures r.Accepted? <==>
      draft.id != [] && HasId(employees, draft.id) && draft.specialLeave <= MAX_SPECIAL_LEAVE
    ensures r.Accepted? ==> |r.employees| == |employees|
    ensures r.Accepted? ==> forall i :: 0 <= i < |employees| ==>
      r.employees[i] == if employees[i].id == draft.id then draft else employees[i]
    ensures r.Accepted? ==> exists i :: 0 <= i < |r.employees| && r.employees[i] == draft
  {
    if draft.id == [] || !HasId(employees, draft.id) then Rejected(NoSelection)
    else if draft.specialLeave > MAX_SPECIAL_LEAVE then Rejected(SpecialLeaveTooHigh)
    else
      var r := ReplaceById(employees, draft);
      var i :| 0 <= i < |employees| && employees[i].id == draft.id;
      assert r[i] == draft;
      Accepted(r)
  }

  /** An update keeps every id in its place: no record is added, dropped or
      moved. */
  lemma UpdateKeepsIds(employees: seq<Employee>, draft: Employee)
    ensures var r := UpdateEmployee(employees, draft);
      r.Accepted? ==> (|r.employees| == |employees|
        && forall i :: 0 <= i < |employees| ==> r.employees[i].id == employees[i].id)
  {
  }

  /** Updating with the same draft twice is updating once. */
  lemma UpdateIdempotent(employees: seq<Employee>, draft: Employee)
    requires UpdateEmployee(employees, draft).Accepted?
    ensures var once := UpdateEmployee(employees, draft).employees;
      UpdateEmployee(once, draft) == Accepted(once)
  {
  }
}
