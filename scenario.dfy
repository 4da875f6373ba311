/** A client of the handlers: what their contracts alone let a caller conclude
    about registering an employee and then marking attendance three times on
    one day. */
module Scenario {
  import opened Common
  import opened AttendanceDb
  import opened FaceRecognition
  import opened WebApp

  /** A 300×300 gray frame. */
  function Frame(): Gray
  {
    seq(300, i => seq(300, j => 128))
  }

  /** A library that decodes every text to `Frame()`, finds one 150×150 face
      in any image and matches every probe to label 0 at distance 20. */
  function OneFaceVision(): Vision
  {
    Vision(
      s => Ok(Plane(Frame())),
      img => img,
      img => Raised("unsupported image"),
      (g, params) => [Box(50, 50, 150, 150)],
      (g, w, h) => g,
      (faces, labels, probe) => Prediction(0, 20.0))
  }

  /** Start with empty tables and register employee E1 from a good frame. */
  method RegisterFirstEmployee() returns (app: App)
    ensures app.Valid() && fresh(app.db) && fresh(app.faceSystem)
    ensures app.db.attendance == [] && |app.db.employees| == 1
    ensures app.db.employees[0].empId == "E1" && app.db.employees[0].name == "Ada"
    ensures app.db.employees[0].department == Some("")
    ensures app.faceSystem.RecognizeFace(Text("AAAA")) == Match("E1", "Ada", 80.0)
  {
    app := new App.Startup(OneFaceVision(), [], []);
    var registration := JsonObject(map["emp_id" := "E1", "name" := "Ada", "image" := "AAAA"]);
    assert RequiredFieldsPresent(registration.fields);
    assert app.faceSystem.DecodeImage(Text("AAAA")) == Ok(Frame());
    assert Width(Frame()) == 300 && Height(Frame()) == 300;
    var r := app.ApiRegister(registration, "2024-05-01 08:59:00");
    assert r == Response(200, Registered(RegisteredMessage));
    assert app.faceSystem.knownFaceIds == ["E1"] && app.faceSystem.knownFaceNames == ["Ada"];
    assert app.faceSystem.Classify(Frame()) == Prediction(0, 20.0);
  }

  /** Then the same frame three times on one day: check-in, check-out, refusal. */
  method MarkAttendanceThreeTimes()
  {
    var app := RegisterFirstEmployee();
    var today := "2024-05-01";
    var frame := JsonObject(map["image" := "AAAA"]);
    assert Truthy(Get(frame.fields, "image")) && frame.fields["image"] == "AAAA";

    var first := app.ApiMarkAttendance(frame, today, "2024-05-01 09:00:00");
    assert first == Response(200, Marked(CheckInMessage, EmployeeJson("E1", "Ada", Some(""))));

    var second := app.ApiMarkAttendance(frame, today, "2024-05-01 17:30:00");
    assert second == Response(200, Marked(CheckOutMessage, EmployeeJson("E1", "Ada", Some(""))));
    assert app.db.attendance == [Attendance("E1", "2024-05-01 09:00:00", Some("2024-05-01 17:30:00"), today, DefaultStatus)];

    var third := app.ApiMarkAttendance(frame, today, "2024-05-01 17:31:00");
    assert third == Response(400, Failure(AlreadyMarkedMessage));
  }
}
