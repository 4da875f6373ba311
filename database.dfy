/** The two tables of database.py, the statements run on them, and the class
    that owns them. Connections are left out: each method acts on the tables
    directly, and the clock's reading is passed in. */
module AttendanceDb {
  import opened Common

  /** A row of `employees` (the surrogate `id` column is not modelled). */
  datatype Employee = Employee(
    empId: string,
    name: string,
    email: Option<string>,
    department: Option<string>,
    faceEncoding: Blob,
    registeredDate: string)

  /** A row of `attendance`; `checkOutTime == None` is an open record. */
  datatype Attendance = Attendance(
    empId: string,
    checkInTime: string,
    checkOutTime: Option<string>,
    date: string,
    status: string)

  /** Result rows, positionally as the SELECTs list their columns. */
  type EmployeeSummary = (string, string, Option<string>, Option<string>, string)  // emp_id, name, email, department, registered_date
  type EmployeeRecord = (string, string, Option<string>, Option<string>)           // emp_id, name, email, department
  type EncodingRow = (string, string, Blob)                                        // emp_id, name, face_encoding
  type AttendanceRow = (string, string, string, Option<string>, string, string)    // emp_id, name, check_in_time, check_out_time, date, status

  const RegisteredMessage := "Employee registered successfully"
  const DuplicateMessage := "Employee ID already exists"
  const CheckInMessage := "Check-in recorded successfully"
  const CheckOutMessage := "Check-out recorded successfully"
  const AlreadyMarkedMessage := "Attendance already marked for today"
  const DefaultStatus := "present"

  // ---------------------------------------------------------------------------
  // employees: insert under the UNIQUE constraint on emp_id

  predicate HasEmpId(emps: seq<Employee>, empId: string)
  {
    exists i :: 0 <= i < |emps| && emps[i].empId == empId
  }

  /** The UNIQUE constraint on `employees.emp_id`. */
  predicate UniqueEmpIds(emps: seq<Employee>)
  {
    forall i, j :: 0 <= i < j < |emps| ==> emps[i].empId != emps[j].empId
  }

  datatype Registration = Registration(table: seq<Employee>, success: bool, message: string)

  /** The INSERT of register_employee: it fails on a duplicate emp_id with the
      IntegrityError message, and otherwise appends exactly one row. */
  function Register(emps: seq<Employee>, empId: string, name: string, email: Option<string>,
                    department: Option<string>, encoding: Blob, now: string): (r: Registration)
    ensures r.success <==> !HasEmpId(emps, empId)
    ensures r.success ==> r.message == RegisteredMessage && |r.table| == |emps| + 1
    ensures r.success ==> r.table[|emps|] == Employee(empId, name, email, department, encoding, now)
    ensures !r.success ==> r.table == emps && r.message == DuplicateMessage
    ensures r.table[..|emps|] == emps
    ensures HasEmpId(r.table, empId)
    ensures UniqueEmpIds(emps) ==> UniqueEmpIds(r.table)
  {
    if HasEmpId(emps, empId) then Registration(emps, false, DuplicateMessage)
    else
      var t := emps + [Employee(empId, name, email, department, encoding, now)];
      assert t[|emps|].empId == empId;
      Registration(t, true, RegisteredMessage)
  }

  /** Registering an emp_id twice: the second attempt fails and the row of the
      first is still there, unchanged. */
  lemma RegisterTwice(emps: seq<Employee>, empId: string, n1: string, e1: Option<string>, d1: Option<string>,
                      b1: Blob, t1: string, n2: string, e2: Option<string>, d2: Option<string>, b2: Blob, t2: string)
    requires !HasEmpId(emps, empId)
    ensures var first := Register(emps, empId, n1, e1, d1, b1, t1);
            var second := Register(first.table, empId, n2, e2, d2, b2, t2);
            first.success && !second.success && second.message == DuplicateMessage &&
            second.table == first.table && second.table[|emps|] == Employee(empId, n1, e1, d1, b1, t1)
  {
  }

  // ---------------------------------------------------------------------------
  // attendance: the check-in / check-out state machine of mark_attendance

  predicate IsRecordOf(a: Attendance, empId: string, date: string)
  {
    a.empId == empId && a.date == date
  }

  /** `SELECT * FROM attendance WHERE emp_id = ? AND date = ?` then `fetchone()`. */
  function FindRecord(att: seq<Attendance>, empId: string, date: string): (r: Option<nat>)
    ensures r.Some? ==> r.value < |att| && IsRecordOf(att[r.value], empId, date)
    ensures r.Some? ==> forall j :: 0 <= j < r.value ==> !IsRecordOf(att[j], empId, date)
    ensures r.None? ==> forall j :: 0 <= j < |att| ==> !IsRecordOf(att[j], empId, date)
  {
    FirstIndex(att, (a: Attendance) => IsRecordOf(a, empId, date))
  }

  /** The UPDATE of mark_attendance: every row of (emp_id, date) gets the check-out time. */
  function SetCheckOut(att: seq<Attendance>, empId: string, date: string, now: string): (r: seq<Attendance>)
    ensures |r| == |att|
    ensures forall i :: 0 <= i < |att| && IsRecordOf(att[i], empId, date) ==>
              r[i] == att[i].(checkOutTime := Some(now))
    ensures forall i :: 0 <= i < |att| && !IsRecordOf(att[i], empId, date) ==> r[i] == att[i]
  {
    seq(|att|, i requires 0 <= i < |att| =>
      if IsRecordOf(att[i], empId, date) then att[i].(checkOutTime := Some(now)) else att[i])
  }

  /** At most one attendance row per employee and calendar date. */
  predicate OnePerDay(att: seq<Attendance>)
  {
    forall i, j :: 0 <= i < j < |att| ==> !(att[i].empId == att[j].empId && att[i].date == att[j].date)
  }

  datatype MarkOutcome = CheckedIn | CheckedOut | AlreadyMarked

  datatype Marking = Marking(table: seq<Attendance>, outcome: MarkOutcome) {
    predicate Success() { outcome != AlreadyMarked }

    function Message(): string
    {
      match outcome
      case CheckedIn => CheckInMessage
      case CheckedOut => CheckOutMessage
      case AlreadyMarked => AlreadyMarkedMessage
    }
  }

  /** One call of mark_attendance for `empId` on `today`, at clock time `now`:
      no record gives a new open record (check-in); an open record is closed
      (check-out) and nothing is inserted; a closed record is refused and the
      table stays as it is. */
  function Mark(att: seq<Attendance>, empId: string, today: string, now: string): (r: Marking)
    ensures r.outcome == CheckedIn <==> FindRecord(att, empId, today).None?
    ensures r.outcome == CheckedIn ==> r.table == att + [Attendance(empId, now, None, today, DefaultStatus)]
    ensures r.outcome == CheckedOut <==>
              FindRecord(att, empId, today).Some? && att[FindRecord(att, empId, today).value].checkOutTime.None?
    ensures r.outcome == CheckedOut ==>
              && |r.table| == |att|
              && (forall i :: 0 <= i < |att| ==>
                    r.table[i] == if IsRecordOf(att[i], empId, today) then att[i].(checkOutTime := Some(now)) else att[i])
    ensures r.outcome == AlreadyMarked ==> r.table == att
    ensures forall i :: 0 <= i < |att| && !IsRecordOf(att[i], empId, today) ==> r.table[i] == att[i]
  {
    match FindRecord(att, empId, today)
    case None => Marking(att + [Attendance(empId, now, None, today, DefaultStatus)], CheckedIn)
    case Some(i) =>
      if att[i].checkOutTime.None? then Marking(SetCheckOut(att, empId, today, now), CheckedOut)
      else Marking(att, AlreadyMarked)
  }

  /** Where the table already holds at most one row per day, a check-out changes
      exactly the record it found. */
  lemma CheckOutTouchesOneRow(att: seq<Attendance>, empId: string, today: string, now: string)
    requires OnePerDay(att)
    requires Mark(att, empId, today, now).outcome == CheckedOut
    ensures var i := FindRecord(att, empId, today).value;
            Mark(att, empId, today, now).table == att[i := att[i].(checkOutTime := Some(now))]
  {
    var i := FindRecord(att, empId, today).value;
    var t := Mark(att, empId, today, now).table;
    assert forall k :: 0 <= k < |att| && k != i ==> !IsRecordOf(att[k], empId, today);
    assert forall k :: 0 <= k < |att| ==> t[k] == att[i := att[i].(checkOutTime := Some(now))][k];
  }

  /** mark_attendance keeps at most one row per (emp_id, date). */
  lemma MarkKeepsOnePerDay(att: seq<Attendance>, empId: string, today: string, now: string)
    requires OnePerDay(att)
    ensures OnePerDay(Mark(att, empId, today, now).table)
  {
    var m := Mark(att, empId, today, now);
    if m.outcome == CheckedIn {
      forall i, j | 0 <= i < j < |m.table|
        ensures !(m.table[i].empId == m.table[j].empId && m.table[i].date == m.table[j].date)
      {
        if j == |att| {
          assert !IsRecordOf(att[i], empId, today);
        }
      }
    } else if m.outcome == CheckedOut {
      forall i, j | 0 <= i < j < |m.table|
        ensures !(m.table[i].empId == m.table[j].empId && m.table[i].date == m.table[j].date)
      {
        assert m.table[i].empId == att[i].empId && m.table[i].date == att[i].date;
        assert m.table[j].empId == att[j].empId && m.table[j].date == att[j].date;
      }
    }
  }

  /** Three calls on one day for an employee with no record that day: check-in
      (an open record), then check-out (the record closed at the second time),
      then a refusal that leaves the table alone. */
  lemma {:induction false} MarkThreeTimes(att: seq<Attendance>, empId: string, today: string, t1: string, t2: string, t3: string)
    requires FindRecord(att, empId, today).None?
    ensures var m1 := Mark(att, empId, today, t1);
            var m2 := Mark(m1.table, empId, today, t2);
            var m3 := Mark(m2.table, empId, today, t3);
            m1.outcome == CheckedIn && m2.outcome == CheckedOut && m3.outcome == AlreadyMarked &&
            m2.table == att + [Attendance(empId, t1, Some(t2), today, DefaultStatus)] &&
            m3.table == m2.table
  {
    var m1 := Mark(att, empId, today, t1);
    var row := Attendance(empId, t1, None, today, DefaultStatus);
    assert m1.table == att + [row];
    FindAfterAppend(att, row, empId, today);
    var m2 := Mark(m1.table, empId, today, t2);
    assert m2.outcome == CheckedOut;
    var closed := row.(checkOutTime := Some(t2));
    assert m2.table == att + [closed] by {
      assert |m2.table| == |att| + 1;
      forall k | 0 <= k < |att| + 1 ensures m2.table[k] == (att + [closed])[k] {
        if k < |att| { assert m1.table[k] == att[k]; }
      }
    }
    FindAfterAppend(att, closed, empId, today);
  }

  /** Appending a row of (empId, today) to a table without one makes it the found record. */
  lemma FindAfterAppend(att: seq<Attendance>, row: Attendance, empId: string, today: string)
    requires FindRecord(att, empId, today).None?
    requires IsRecordOf(row, empId, today)
    ensures FindRecord(att + [row], empId, today) == Some(|att|)
  {
    var t := att + [row];
    assert forall j :: 0 <= j < |att| ==> t[j] == att[j];
    assert forall j :: 0 <= j < |att| ==> !IsRecordOf(t[j], empId, today);
    assert IsRecordOf(t[|att|], empId, today);
  }

  // ---------------------------------------------------------------------------
  // get_attendance_records: JOIN employees, optional WHERE on the date, ORDER BY

  function View(a: Attendance, e: Employee): (v: AttendanceRow)
  {
    (a.empId, e.name, a.checkInTime, a.checkOutTime, a.date, a.status)
  }

  /** The rows `JOIN employees e ON a.emp_id = e.emp_id` pairs with one attendance row. */
  function JoinRow(a: Attendance, emps: seq<Employee>): (r: seq<AttendanceRow>)
    ensures forall v :: v in r <==> exists k :: 0 <= k < |emps| && emps[k].empId == a.empId && v == View(a, emps[k])
  {
    if |emps| == 0 then []
    else
      var rest := JoinRow(a, emps[1..]);
      assert forall k :: 1 <= k < |emps| ==> emps[1..][k - 1] == emps[k];
      if emps[0].empId == a.empId then [View(a, emps[0])] + rest else rest
  }

  /** Under the UNIQUE constraint an attendance row joins with exactly one
      employee when its emp_id is registered, and with none otherwise. */
  lemma {:induction false} JoinRowUnique(a: Attendance, emps: seq<Employee>)
    requires UniqueEmpIds(emps)
    ensures |JoinRow(a, emps)| == if HasEmpId(emps, a.empId) then 1 else 0
  {
    if |emps| > 0 {
      var tail := emps[1..];
      assert UniqueEmpIds(tail) by {
        forall i, j | 0 <= i < j < |tail| ensures tail[i].empId != tail[j].empId {
          assert tail[i] == emps[i + 1] && tail[j] == emps[j + 1];
        }
      }
      JoinRowUnique(a, tail);
      if emps[0].empId == a.empId {
        assert !HasEmpId(tail, a.empId) by {
          forall k | 0 <= k < |tail| ensures tail[k].empId != a.empId {
            assert tail[k] == emps[k + 1];
          }
        }
      } else {
        assert HasEmpId(emps, a.empId) == HasEmpId(tail, a.empId) by {
          if HasEmpId(emps, a.empId) {
            var k :| 0 <= k < |emps| && emps[k].empId == a.empId;
            assert tail[k - 1] == emps[k];
          }
          if HasEmpId(tail, a.empId) {
            var k :| 0 <= k < |tail| && tail[k].empId == a.empId;
            assert emps[k + 1] == tail[k];
          }
        }
      }
    }
  }

  /** The inner join of attendance with employees on emp_id. */
  function Join(att: seq<Attendance>, emps: seq<Employee>): (r: seq<AttendanceRow>)
    ensures forall v :: v in r <==>
              exists i, k :: 0 <= i < |att| && 0 <= k < |emps| && emps[k].empId == att[i].empId && v == View(att[i], emps[k])
  {
    if |att| == 0 then []
    else
      var rest := Join(att[1..], emps);
      assert forall i :: 1 <= i < |att| ==> att[1..][i - 1] == att[i];
      JoinRow(att[0], emps) + rest
  }

  /** The attendance rows whose emp_id is registered. */
  function CountRegistered(att: seq<Attendance>, emps: seq<Employee>): (n: nat)
    ensures n <= |att|
  {
    if |att| == 0 then 0
    else (if HasEmpId(emps, att[0].empId) then 1 else 0) + CountRegistered(att[1..], emps)
  }

  /** Under the UNIQUE constraint the join has one row per attendance row whose
      emp_id is registered: no row is lost and none is duplicated. */
  lemma {:induction false} JoinCount(att: seq<Attendance>, emps: seq<Employee>)
    requires UniqueEmpIds(emps)
    ensures |Join(att, emps)| == CountRegistered(att, emps)
  {
    if |att| > 0 {
      JoinRowUnique(att[0], emps);
      JoinCount(att[1..], emps);
    }
  }

  /** `WHERE a.date = ?`, keeping the order of the rows. */
  function OfDate(rows: seq<AttendanceRow>, date: string): (r: seq<AttendanceRow>)
    ensures forall v :: v in r <==> v in rows && v.4 == date
    ensures forall v :: multiset(r)[v] == if v.4 == date then multiset(rows)[v] else 0
  {
    if |rows| == 0 then []
    else
      var rest := OfDate(rows[1..], date);
      assert rows == [rows[0]] + rows[1..];
      if rows[0].4 == date then [rows[0]] + rest else rest
  }

  /** The two ORDER BY clauses of get_attendance_records. */
  datatype Order = CheckInDesc | DateThenCheckInDesc

  /** Row `a` may come before row `b` under `o` (both keys descending). */
  predicate Precedes(o: Order, a: AttendanceRow, b: AttendanceRow)
  {
    match o
    case CheckInDesc => TextLessEq(b.2, a.2)
    case DateThenCheckInDesc => TextLess(b.4, a.4) || (a.4 == b.4 && TextLessEq(b.2, a.2))
  }

  lemma PrecedesTotal(o: Order, a: AttendanceRow, b: AttendanceRow)
    ensures Precedes(o, a, b) || Precedes(o, b, a)
  {
    TextLessTotal(a.2, b.2);
    TextLessTotal(a.4, b.4);
  }

  lemma PrecedesTransitive(o: Order, a: AttendanceRow, b: AttendanceRow, c: AttendanceRow)
    requires Precedes(o, a, b) && Precedes(o, b, c)
    ensures Precedes(o, a, c)
  {
    if TextLess(c.2, b.2) && TextLess(b.2, a.2) { TextLessTransitive(c.2, b.2, a.2); }
    if TextLess(c.4, b.4) && TextLess(b.4, a.4) { TextLessTransitive(c.4, b.4, a.4); }
  }

  predicate SortedBy(o: Order, s: seq<AttendanceRow>)
  {
    forall i, j :: 0 <= i < j < |s| ==> Precedes(o, s[i], s[j])
  }

  /** A head that precedes every later element keeps a sorted sequence sorted. */
  lemma ConsSorted(o: Order, y: AttendanceRow, rest: seq<AttendanceRow>)
    requires SortedBy(o, rest)
    requires forall e :: e in rest ==> Precedes(o, y, e)
    ensures SortedBy(o, [y] + rest)
  {
    var r := [y] + rest;
    forall i, j | 0 <= i < j < |r| ensures Precedes(o, r[i], r[j]) {
      assert r[j] == rest[j - 1];
      if i > 0 { assert r[i] == rest[i - 1]; }
    }
  }

  /** In a sorted sequence the head precedes every element of the tail. */
  lemma HeadPrecedesTail(o: Order, s: seq<AttendanceRow>)
    requires SortedBy(o, s) && |s| > 0
    ensures SortedBy(o, s[1..])
    ensures forall e :: e in s[1..] ==> Precedes(o, s[0], e)
  {
    forall e | e in s[1..] ensures Precedes(o, s[0], e) {
      var k :| 0 <= k < |s[1..]| && s[1..][k] == e;
      assert s[k + 1] == e;
    }
    forall i, j | 0 <= i < j < |s[1..]| ensures Precedes(o, s[1..][i], s[1..][j]) {
      assert s[1..][i] == s[i + 1] && s[1..][j] == s[j + 1];
    }
  }

  function Insert(o: Order, x: AttendanceRow, s: seq<AttendanceRow>): (r: seq<AttendanceRow>)
    ensures multiset(r) == multiset(s) + multiset{x}
    ensures SortedBy(o, s) ==> SortedBy(o, r)
  {
    if |s| == 0 then [x]
    else if Precedes(o, x, s[0]) then
      var r := [x] + s;
      assert SortedBy(o, s) ==> SortedBy(o, r) by {
        if SortedBy(o, s) {
          forall e | e in s ensures Precedes(o, x, e) {
            if e != s[0] {
              HeadPrecedesTail(o, s);
              assert e in s[1..] by { assert s == [s[0]] + s[1..]; }
              PrecedesTransitive(o, x, s[0], e);
            }
          }
          ConsSorted(o, x, s);
        }
      }
      r
    else
      var rest := Insert(o, x, s[1..]);
      var r := [s[0]] + rest;
      assert s == [s[0]] + s[1..];
      assert SortedBy(o, s) ==> SortedBy(o, r) by {
        if SortedBy(o, s) {
          HeadPrecedesTail(o, s);
          PrecedesTotal(o, x, s[0]);
          forall e | e in rest ensures Precedes(o, s[0], e) {
            assert e in multiset(rest);
            if e != x { assert e in multiset(s[1..]); }
          }
          ConsSorted(o, s[0], rest);
        }
      }
      r
  }

  /** An ORDER BY: the result is sorted under `o` and holds exactly the input rows. */
  function Sort(o: Order, s: seq<AttendanceRow>): (r: seq<AttendanceRow>)
    ensures SortedBy(o, r)
    ensures multiset(r) == multiset(s)
  {
    if |s| == 0 then []
    else
      assert s == [s[0]] + s[1..];
      Insert(o, s[0], Sort(o, s[1..]))
  }

  // ---------------------------------------------------------------------------
  // The class

  /** The store: tables as the class's state. */
  class Database {
    var employees: seq<Employee>
    var attendance: seq<Attendance>

    /** What the schema itself enforces. */
    ghost predicate Valid()
      reads this
    {
      UniqueEmpIds(employees)
    }

    /** `Database(db_name)`: open a database file that holds the given rows
        (none for a new file) and run init_database on it. */
    constructor Open(storedEmployees: seq<Employee>, storedAttendance: seq<Attendance>)
      requires UniqueEmpIds(storedEmployees)
      ensures Valid()
      ensures employees == storedEmployees && attendance == storedAttendance
    {
      employees := storedEmployees;
      attendance := storedAttendance;
      new;
      InitDatabase();
    }

    /** `CREATE TABLE IF NOT EXISTS` on both tables: once they exist, a repeat
        call leaves every row as it was. */
    method InitDatabase()
      modifies this
      ensures employees == old(employees) && attendance == old(attendance)
    {
    }

    method RegisterEmployee(empId: string, name: string, email: Option<string>, department: Option<string>,
                            encoding: Blob, now: string) returns (success: bool, message: string)
      requires Valid()
      modifies this`employees
      ensures Valid() && attendance == old(attendance)
      ensures var r := Register(old(employees), empId, name, email, department, encoding, now);
              employees == r.table && success == r.success && message == r.message
    {
      if HasEmpId(employees, empId) {
        success, message := false, DuplicateMessage;
      } else {
        employees := employees + [Employee(empId, name, email, department, encoding, now)];
        success, message := true, RegisteredMessage;
      }
    }

    /** `today` is `datetime.now().date()` and `now` is SQLite's CURRENT_TIMESTAMP. */
    method MarkAttendance(empId: string, today: string, now: string) returns (success: bool, message: string)
      modifies this`attendance
      ensures var m := Mark(old(attendance), empId, today, now);
              attendance == m.table && success == m.Success() && message == m.Message()
      ensures old(OnePerDay(attendance)) ==> OnePerDay(attendance)
    {
      ghost var before := attendance;
      var existing := FindRecord(attendance, empId, today);
      if existing.Some? {
        if attendance[existing.value].checkOutTime.None? {
          attendance := SetCheckOut(attendance, empId, today, now);
          success, message := true, CheckOutMessage;
        } else {
          success, message := false, AlreadyMarkedMessage;
        }
      } else {
        attendance := attendance + [Attendance(empId, now, None, today, DefaultStatus)];
        success, message := true, CheckInMessage;
      }
      if OnePerDay(before) { MarkKeepsOnePerDay(before, empId, today, now); }
    }

    /** `SELECT emp_id, name, email, department, registered_date FROM employees`, in storage order. */
    function GetAllEmployees(): (r: seq<EmployeeSummary>)
      reads this
      ensures |r| == |employees|
      ensures forall i :: 0 <= i < |r| ==>
                var e := employees[i]; r[i] == (e.empId, e.name, e.email, e.department, e.registeredDate)
    {
      seq(|employees|, i requires 0 <= i < |employees| reads this =>
        (employees[i].empId, employees[i].name, employees[i].email, employees[i].department, employees[i].registeredDate))
    }

    /** `SELECT emp_id, name, face_encoding FROM employees`, in storage order. */
    function GetEmployeeEncodings(): (r: seq<EncodingRow>)
      reads this
      ensures |r| == |employees|
      ensures forall i :: 0 <= i < |r| ==> r[i] == (employees[i].empId, employees[i].name, employees[i].faceEncoding)
    {
      seq(|employees|, i requires 0 <= i < |employees| reads this =>
        (employees[i].empId, employees[i].name, employees[i].faceEncoding))
    }

    /** `SELECT … WHERE emp_id = ?` then `fetchone()`: the employee's row, or none. */
    function GetEmployeeById(empId: string): (r: Option<EmployeeRecord>)
      reads this
      ensures r.Some? <==> HasEmpId(employees, empId)
      ensures r.Some? ==> r.value.0 == empId
      ensures UniqueEmpIds(employees) ==> forall i :: 0 <= i < |employees| && employees[i].empId == empId ==>
                r == Some((empId, employees[i].name, employees[i].email, employees[i].department))
    {
      match FirstIndex(employees, (e: Employee) => e.empId == empId)
      case None => None
      case Some(i) => Some((employees[i].empId, employees[i].name, employees[i].email, employees[i].department))
    }

    /** With a non-empty date, the joined rows of that date newest check-in first;
        otherwise all joined rows, newest date first and, within a date, newest
        check-in first. Ties are in no particular order, as in SQL. */
    function GetAttendanceRecords(date: Option<string>): (r: seq<AttendanceRow>)
      reads this
      ensures date.Some? && date.value != "" ==>
                SortedBy(CheckInDesc, r) &&
                multiset(r) == multiset(OfDate(Join(attendance, employees), date.value)) &&
                forall k :: 0 <= k < |r| ==> r[k].4 == date.value
      ensures !(date.Some? && date.value != "") ==>
                SortedBy(DateThenCheckInDesc, r) && multiset(r) == multiset(Join(attendance, employees))
    {
      if date.Some? && date.value != "" then
        var r := Sort(CheckInDesc, OfDate(Join(attendance, employees), date.value));
        assert forall k :: 0 <= k < |r| ==> r[k] in multiset(OfDate(Join(attendance, employees), date.value));
        r
      else Sort(DateThenCheckInDesc, Join(attendance, employees))
    }
  }
}
