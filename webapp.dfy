/** The JSON handlers of main.py and the start-up that builds the store and
    the recognition system. Routing, templates and the HTTP layer are left
    out; a handler takes the parsed request and gives back a status and body. */
module WebApp {
  import opened Common
  import opened AttendanceDb
  import opened FaceRecognition

  /** `request.get_json()`: an object whose fields are strings, or a body that
      did not parse to an object (the exception's text is `error`). */
  datatype Request = JsonObject(fields: map<string, string>) | BadJson(error: string)

  /** `data.get(key)`. */
  function Get(fields: map<string, string>, key: string): (v: Option<string>)
  {
    if key in fields then Some(fields[key]) else None
  }

  /** `data.get(key, default)`. */
  function GetOr(fields: map<string, string>, key: string, default: string): (v: string)
  {
    if key in fields then fields[key] else default
  }

  /** Python truthiness of a string or None. */
  predicate Truthy(v: Option<string>) { v.Some? && v.value != "" }

  const MissingFieldsMessage := "Missing required fields"
  const NoImageMessage := "No image provided"
  /** `str()` of the TypeError raised by subscripting None. */
  const NoneSubscriptMessage := "'NoneType' object is not subscriptable"

  /** The `employee` object of a successful attendance response. */
  datatype EmployeeJson = EmployeeJson(empId: string, name: string, department: Option<string>)

  /** One element of the `records` list. */
  datatype RecordJson = RecordJson(empId: string, name: string, checkInTime: string,
                                   checkOutTime: Option<string>, date: string, status: string)

  /** One element of the `employees` list. */
  datatype EmployeeListing = EmployeeListing(empId: string, name: string, email: Option<string>,
                                             department: Option<string>, registeredDate: string)

  /** The JSON envelope; `success` is true exactly for the last four. */
  datatype Body =
    | Failure(message: string)
    | Registered(message: string)
    | Marked(message: string, employee: EmployeeJson)
    | Records(records: seq<RecordJson>)
    | Employees(employees: seq<EmployeeListing>)

  datatype Response = Response(status: int, body: Body)

  predicate RequiredFieldsPresent(fields: map<string, string>)
  {
    Truthy(Get(fields, "emp_id")) && Truthy(Get(fields, "name")) && Truthy(Get(fields, "image"))
  }

  /** The module-level objects of main.py: `db` and `face_system`. */
  class App {
    const db: Database
    const faceSystem: FaceRecognitionSystem

    /** The recognition system mirrors the employees table, and it is trained
        exactly when there is someone to recognize. */
    ghost predicate Valid()
      reads this, db, faceSystem
    {
      && db.Valid() && faceSystem.Valid()
      && faceSystem.MirrorsEmployees(db.employees)
      && (faceSystem.isTrained <==> |db.employees| > 0)
    }

    /** A match always names one stored employee: the id and the name it
        returns are both those of the same row of the employees table. */
    lemma MatchIsStoredEmployee(payload: Payload)
      requires Valid()
      ensures var rec := faceSystem.RecognizeFace(payload);
              rec.Match? ==>
                exists k :: 0 <= k < |db.employees| && rec.empId == db.employees[k].empId && rec.name == db.employees[k].name
    {
      var rec := faceSystem.RecognizeFace(payload);
      if rec.Match? {
        var g := faceSystem.DecodeImage(payload).value;
        var l := faceSystem.Classify(g).labelIndex;
        var n := |db.employees|;
        var k := if l >= 0 then l else n + l;
        assert 0 <= k < n && rec.empId == db.employees[k].empId && rec.name == db.employees[k].name;
      }
    }

    /** Lines 14-16: open the database, create the recognition system and load
        the stored encodings into it. */
    constructor Startup(vision: Vision, storedEmployees: seq<Employee>, storedAttendance: seq<Attendance>)
      requires UniqueEmpIds(storedEmployees)
      ensures Valid() && fresh(db) && fresh(faceSystem)
      ensures db.employees == storedEmployees && db.attendance == storedAttendance
      ensures faceSystem.vision == vision
    {
      var store := new Database.Open(storedEmployees, storedAttendance);
      var system := new FaceRecognitionSystem(vision);
      system.LoadEncodingsFromDb(store);
      db := store;
      faceSystem := system;
    }

    /** POST /api/register: required fields, then the quality check, then the
        encoding, then the insert; the first stage that fails answers 400 with
        its message and nothing later runs. Only a successful insert reloads the
        recognition system. `now` is the insert's CURRENT_TIMESTAMP. */
    method ApiRegister(req: Request, now: string) returns (resp: Response)
      requires Valid()
      modifies db, faceSystem
      ensures Valid()
      ensures db.attendance == old(db.attendance)
      ensures req.BadJson? ==> resp == Response(500, Failure(req.error))
      ensures resp.status == 500 ==> req.BadJson?
      ensures resp.status != 200 ==> db.employees == old(db.employees) && unchanged(faceSystem)
      ensures req.JsonObject? && !RequiredFieldsPresent(req.fields) ==> resp == Response(400, Failure(MissingFieldsMessage))
      ensures req.JsonObject? && RequiredFieldsPresent(req.fields) ==>
                var data := req.fields;
                var image := Text(data["image"]);
                var verdict := faceSystem.ValidateImageQuality(image);
                var encoding := faceSystem.EncodeFaceFromImage(image);
                if !verdict.ok then resp == Response(400, Failure(verdict.message))
                else if encoding.blob.None? then resp == Response(400, Failure(encoding.message))
                else
                  var reg := Register(old(db.employees), data["emp_id"], data["name"], Some(GetOr(data, "email", "")),
                                      Some(GetOr(data, "department", "")), encoding.blob.value, now);
                  db.employees == reg.table &&
                  resp == (if reg.success then Response(200, Registered(reg.message)) else Response(400, Failure(reg.message)))
    {
      match req
      case BadJson(e) =>
        resp := Response(500, Failure(e));
      case JsonObject(data) =>
        var empId := Get(data, "emp_id");
        var name := Get(data, "name");
        var email := GetOr(data, "email", "");
        var department := GetOr(data, "department", "");
        var imageData := Get(data, "image");
        if !Truthy(empId) || !Truthy(name) || !Truthy(imageData) {
          return Response(400, Failure(MissingFieldsMessage));
        }
        var image := Text(imageData.value);
        var verdict := faceSystem.ValidateImageQuality(image);
        if !verdict.ok {
          return Response(400, Failure(verdict.message));
        }
        var encoding := faceSystem.EncodeFaceFromImage(image);
        if encoding.blob.None? {
          return Response(400, Failure(encoding.message));
        }
        resp := Enroll(empId.value, name.value, Some(email), Some(department), encoding.blob.value, now);
    }

    /** The last stage of POST /api/register: the insert, and on success the
        reload of the recognition system from the grown table. */
    method Enroll(empId: string, name: string, email: Option<string>, department: Option<string>,
                  blob: Blob, now: string) returns (resp: Response)
      requires Valid()
      modifies db, faceSystem
      ensures Valid()
      ensures db.attendance == old(db.attendance)
      ensures var reg := Register(old(db.employees), empId, name, email, department, blob, now);
              && db.employees == reg.table
              && resp == (if reg.success then Response(200, Registered(reg.message)) else Response(400, Failure(reg.message)))
              && (!reg.success ==> unchanged(faceSystem))
    {
      var success, message := db.RegisterEmployee(empId, name, email, department, blob, now);
      if success {
        faceSystem.LoadEncodingsFromDb(db);
        resp := Response(200, Registered(message));
      } else {
        resp := Response(400, Failure(message));
      }
    }

    /** POST /api/mark_attendance: no image, or no recognized employee, answers
        400 and leaves attendance alone; otherwise the attendance state machine
        runs and its outcome is answered with the employee's summary (200) or
        its message (400). With the store and the recognition system in step,
        a recognized id always has its row, so none of this answers 500. */
    method ApiMarkAttendance(req: Request, today: string, now: string) returns (resp: Response)
      requires Valid()
      modifies db
      ensures Valid()
      ensures db.employees == old(db.employees)
      ensures old(OnePerDay(db.attendance)) ==> OnePerDay(db.attendance)
      ensures req.BadJson? ==> resp == Response(500, Failure(req.error)) && db.attendance == old(db.attendance)
      ensures req.JsonObject? ==> resp.status != 500
      ensures req.JsonObject? && !Truthy(Get(req.fields, "image")) ==>
                resp == Response(400, Failure(NoImageMessage)) && db.attendance == old(db.attendance)
      ensures req.JsonObject? && Truthy(Get(req.fields, "image")) ==>
                var rec := faceSystem.RecognizeFace(Text(req.fields["image"]));
                if rec.NoMatch? then resp == Response(400, Failure(rec.message)) && db.attendance == old(db.attendance)
                else
                  var m := Mark(old(db.attendance), rec.empId, today, now);
                  && db.attendance == m.table
                  && (m.Success() ==>
                        && db.GetEmployeeById(rec.empId).Some?
                        && var e := db.GetEmployeeById(rec.empId).value;
                           resp == Response(200, Marked(m.Message(), EmployeeJson(rec.empId, e.1, e.3))))
                  && (!m.Success() ==> resp == Response(400, Failure(m.Message())))
    {
      match req
      case BadJson(e) =>
        resp := Response(500, Failure(e));
      case JsonObject(data) =>
        var imageData := Get(data, "image");
        if !Truthy(imageData) {
          return Response(400, Failure(NoImageMessage));
        }
        var recognition := faceSystem.RecognizeFace(Text(imageData.value));
        if recognition.NoMatch? {
          return Response(400, Failure(recognition.message));
        }
        var success, message := db.MarkAttendance(recognition.empId, today, now);
        if success {
          var employee := db.GetEmployeeById(recognition.empId);
          if employee.None? {
            resp := Response(500, Failure(NoneSubscriptMessage));
          } else {
            var e := employee.value;
            resp := Response(200, Marked(message, EmployeeJson(e.0, e.1, e.3)));
          }
        } else {
          resp := Response(400, Failure(message));
        }
    }

    /** GET /api/records: filtered by `date` only when the parameter is
        non-empty; each row becomes a JSON record field by field, in order. */
    method ApiRecords(args: map<string, string>) returns (resp: Response)
      ensures var dateParam := Get(args, "date");
              var rows := db.GetAttendanceRecords(if Truthy(dateParam) then dateParam else None);
              && resp.status == 200 && resp.body.Records?
              && |resp.body.records| == |rows|
              && forall i :: 0 <= i < |rows| ==>
                   resp.body.records[i] == RecordJson(rows[i].0, rows[i].1, rows[i].2, rows[i].3, rows[i].4, rows[i].5)
    {
      var dateParam := Get(args, "date");
      var records;
      if Truthy(dateParam) {
        records := db.GetAttendanceRecords(dateParam);
      } else {
        records := db.GetAttendanceRecords(None);
      }
      var recordsList: seq<RecordJson> := [];
      for i := 0 to |records|
        invariant |recordsList| == i
        invariant forall k :: 0 <= k < i ==>
                    recordsList[k] == RecordJson(records[k].0, records[k].1, records[k].2, records[k].3, records[k].4, records[k].5)
      {
        var record := records[i];
        recordsList := recordsList + [RecordJson(record.0, record.1, record.2, record.3, record.4, record.5)];
      }
      resp := Response(200, Records(recordsList));
    }

    /** GET /api/employees: every employee, in storage order, field by field. */
    method ApiEmployees() returns (resp: Response)
      ensures var rows := db.GetAllEmployees();
              && resp.status == 200 && resp.body.Employees?
              && |resp.body.employees| == |rows|
              && forall i :: 0 <= i < |rows| ==>
                   resp.body.employees[i] == EmployeeListing(rows[i].0, rows[i].1, rows[i].2, rows[i].3, rows[i].4)
    {
      var employees := db.GetAllEmployees();
      var employeesList: seq<EmployeeListing> := [];
      for i := 0 to |employees|
        invariant |employeesList| == i
        invariant forall k :: 0 <= k < i ==>
                    employeesList[k] == EmployeeListing(employees[k].0, employees[k].1, employees[k].2, employees[k].3, employees[k].4)
      {
        var emp := employees[i];
        employeesList := employeesList + [EmployeeListing(emp.0, emp.1, emp.2, emp.3, emp.4)];
      }
      resp := Response(200, Employees(employeesList));
    }
  }
}
