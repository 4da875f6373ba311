# Face-recognition attendance system, modelled in Dafny

This project models the hand-written logic of a small Flask service. The
service enrolls employees from a webcam photo and then marks their attendance
by recognizing their face. The model has five modules plus one client:

- `AttendanceDb` (`database.dfy`) holds the two SQLite tables, `employees` and
  `attendance`, as sequences of rows inside a `Database` class. Mutating
  operations are methods that are proved against pure functions:
  - `Register` does the insert under the UNIQUE constraint on `emp_id`.
  - `Mark` is the check-in / check-out / refuse state machine for one
    employee and day.

  The read-only queries are functions of the class state. They are built
  from these pure functions:
  - `Join`, the inner join on `emp_id`;
  - `OfDate`, the `WHERE date = ?` filter;
  - `Sort`, an `ORDER BY` on SQLite's binary TEXT collation.
- `FaceRecognition` (`face_recognition.dfy`) holds the `FaceRecognitionSystem`
  class. Its state is:
  - the three parallel lists of stored templates, ids and names;
  - the trained flag;
  - the recognizer's training set.

  `load_encodings_from_db` is a method with a loop. The three early-return
  decision chains are functions: quality check, encoding and recognition.
  The computer-vision library is an oracle, `Vision`: one deterministic
  function for each call the module makes. These are the base64/PIL decode,
  the two colour conversions, `detectMultiScale`, `resize`, and the trained
  LBPH `predict`.
- `Config` (`config.dfy`) holds the settings record, their default values,
  and the four start-up range checks.
- `WebApp` (`webapp.dfy`) holds the `App` class with the module-level `db` and
  `face_system`, the start-up load, and the JSON handlers. A handler takes
  the parsed request and returns a status and a body. Its class invariant
  says two things:
  - the recognition system mirrors the employees table;
  - the system is trained exactly when the table is non-empty.
- `Common` (`common.dfy`) holds the Python and SQLite behaviours the others
  rely on:
  - list indexing with negative indices and `IndexError`;
  - numpy slice clamping;
  - `Result` for calls that may raise;
  - the lexicographic text order.
- `Scenario` (`scenario.dfy`) uses only the handlers' contracts. It
  registers an employee from a 300×300 one-face image, then marks
  attendance three times on one day. The contracts yield check-in,
  check-out, and then 400 "Attendance already marked for today".

Times are parameters: the SQLite `CURRENT_TIMESTAMP` is `now`, and
`datetime.now().date()` is `today`. Both are strings.

Some facts of the code that shape the model:
- Recognition uses the first box, `faces[0]`, even when several faces are
  found.
- The recognition module hard-codes 70, 100 and 200; it does not read the
  configured thresholds.
- A decode error inside the quality check, the encoding or the recognition
  is caught. It becomes a 400 answer with an "Error …" message.
- A label returned by `predict` indexes the id and name lists with Python's
  rules. A negative label counts from the end. An out-of-range label gives
  "Error recognizing face: list index out of range".

## Model

| member | source | states |
|---|---|---|
| Config.Validate | config.py:39-51 | passes iff all four bounds hold; a failure names the first bound violated, in source order, with its exact message, whatever the other settings are |
| Config.Defaults | config.py:11-36 | the default settings pass validation; threshold 70, minimum face 100, minimum image 200×200 |
| Config.ValidateReadsOnlyCheckedSettings | config.py:39-51 | two settings records that agree on the four checked fields get the same outcome |
| Common.PyIndex | face_recognition_module.py:115-116 | `xs[i]` succeeds iff `-len <= i < len`, the element is one of the list's, a non-negative index gives that element, and anything else raises IndexError |
| Common.PySlice | face_recognition_module.py:82 | a slice never grows the sequence, is the exact sub-sequence for in-range bounds, and is empty when 0 <= stop <= start |
| Common.FirstIndex | database.py:83-88 | the first index whose element satisfies the condition, or none when no element does |
| Common.IndexOf | face_recognition_module.py:47 | the first occurrence of a character, or none when it is absent |
| Common.TextLessIrreflexive | database.py:122 | no text sorts before itself |
| Common.TextLessTransitive | database.py:122 | the TEXT order is transitive |
| Common.TextLessTotal | database.py:129 | two texts are equal or ordered exactly one way round |
| Common.Loads | face_recognition_module.py:32 | unpickling returns the crop that was pickled |
| AttendanceDb.Register | database.py:44-58 | succeeds iff the emp_id is new; on success exactly one row with the given fields is appended and earlier rows are kept; a duplicate fails with "Employee ID already exists" and leaves the table unchanged; uniqueness of emp_id is preserved |
| AttendanceDb.RegisterTwice | database.py:20 | registering the same emp_id again fails and keeps the first row intact |
| AttendanceDb.FindRecord | database.py:83-88 | finds the first row of (emp_id, date), or none exists |
| AttendanceDb.Mark | database.py:78-110 | no record: check-in appends one open row with status 'present'; an open record: check-out closes it and inserts nothing; a closed record: refused with the table unchanged; rows of other employees or days never change |
| AttendanceDb.SetCheckOut | database.py:92-96 | the UPDATE keeps the table's length, sets the check-out time of every row of that (emp_id, date), and leaves every other row as it was |
| AttendanceDb.CheckOutTouchesOneRow | database.py:90-99 | with one row per day, a check-out changes exactly the record that was found |
| AttendanceDb.MarkKeepsOnePerDay | database.py:83-110 | marking preserves "at most one row per (emp_id, date)" |
| AttendanceDb.MarkThreeTimes | database.py:83-110 | three calls on one day give check-in, check-out, then refusal, and leave one closed row |
| AttendanceDb.JoinRow | database.py:118-120 | the joined rows of one attendance row are exactly its pairings with employees of the same emp_id |
| AttendanceDb.JoinCount | database.py:118-120 | under the UNIQUE constraint the join has exactly one row for each attendance row whose emp_id is registered |
| AttendanceDb.JoinRowUnique | database.py:20 | under the UNIQUE constraint an attendance row joins once if its emp_id is registered and otherwise not at all |
| AttendanceDb.Join | database.py:118-120 | a row is in the join iff it pairs some attendance row with an employee of the same emp_id |
| AttendanceDb.OfDate | database.py:121 | each row of that date is kept as many times as it occurs, and every other row is dropped |
| AttendanceDb.PrecedesTotal | database.py:122 | any two rows are comparable under either ORDER BY |
| AttendanceDb.PrecedesTransitive | database.py:129 | each ORDER BY is transitive |
| AttendanceDb.Insert | database.py:122 | inserting into a sorted sequence keeps it sorted and adds exactly one element |
| AttendanceDb.Sort | database.py:122 | the result is sorted and is a permutation of the input |
| AttendanceDb.Database.Open | database.py:6-8 | the store holds exactly the rows of the opened file and the UNIQUE constraint |
| AttendanceDb.Database.InitDatabase | database.py:13-42 | re-creating existing tables leaves every row intact |
| AttendanceDb.Database.RegisterEmployee | database.py:44-60 | the employees table and the answer are those of `Register` on the old table; attendance is untouched |
| AttendanceDb.Database.MarkAttendance | database.py:78-110 | the attendance table and the answer are those of `Mark` on the old table; one row per day is preserved |
| AttendanceDb.Database.GetAllEmployees | database.py:62-68 | one summary per employee, in storage order, with their emp_id, name, email, department and registration time |
| AttendanceDb.Database.GetEmployeeEncodings | database.py:70-76 | one (emp_id, name, template) per employee, in storage order |
| AttendanceDb.Database.GetEmployeeById | database.py:136-142 | a row iff the emp_id is registered, and it is that employee's row |
| AttendanceDb.Database.GetAttendanceRecords | database.py:112-134 | with a non-empty date: exactly the joined rows of that date, newest check-in first; otherwise all joined rows, newest date first and newest check-in first within a date |
| FaceRecognition.StripDataUri | face_recognition_module.py:46-47 | text without the "data:image" prefix is kept; with it, the result is the text between the first comma and the next one, and with no comma it raises IndexError |
| FaceRecognition.DataUriRoundTrip | face_recognition_module.py:46-47 | a data-URI header, a comma and a comma-free payload strip to that payload |
| FaceRecognition.Crop | face_recognition_module.py:82 | cropping never adds rows |
| FaceRecognition.CropInBounds | face_recognition_module.py:81-82 | a box inside the image crops to exactly its h rows of w pixels taken from the image |
| FaceRecognition.FaceRecognitionSystem.constructor | face_recognition_module.py:10-20 | empty lists and an untrained recognizer |
| FaceRecognition.FaceRecognitionSystem.LoadEncodingsFromDb | face_recognition_module.py:22-42 | the three lists have one entry per employee row, entry i from row i; training on those templates with labels 0..n-1 happens exactly when there is a row; an empty table leaves the trained flag and recognizer as they were |
| FaceRecognition.FaceRecognitionSystem.ToGray | face_recognition_module.py:54-60 | a 2-D array is already gray; four channels go through RGBA→BGR first; any other count is converted from BGR |
| FaceRecognition.FaceRecognitionSystem.DecodeImage | face_recognition_module.py:44-62 | a text is stripped of a data-URI header, opened and converted to gray, while pixels are converted directly; it raises exactly when one of those steps raises, with that step's message |
| FaceRecognition.FaceRecognitionSystem.DecodeIgnoresDataUriHeader | face_recognition_module.py:44-50 | a data-URI decodes exactly as its bare payload does |
| FaceRecognition.FaceRecognitionSystem.ProbeIsFirstFaceCrop | face_recognition_module.py:81-83 | when the first detected box lies inside the image, what is resized to 200×200 is exactly that box's pixels |
| FaceRecognition.FaceRecognitionSystem.EncodeFaceFromImage | face_recognition_module.py:64-89 | a template iff the image decodes and exactly one face is detected, and it is that face's crop resized to 200×200; otherwise a decode error, "no face" or "multiple faces" message |
| FaceRecognition.FaceRecognitionSystem.Resolve | face_recognition_module.py:115-117 | an accepted label gives the id and name at that position (counted from the end when negative) and confidence 100 − score, or an index-error message when out of range |
| FaceRecognition.FaceRecognitionSystem.RecognizeFace | face_recognition_module.py:91-123 | untrained or empty: "No registered employees found" before any decoding; decode error: an error message; no face: "No face detected"; otherwise the first face is classified, and a score below 70 resolves the label while any other score is "Face not recognized" |
| FaceRecognition.FaceRecognitionSystem.ValidateImageQuality | face_recognition_module.py:125-155 | accepts iff the image decodes, is at least 200×200, and has exactly one face of at least 100×100; rejections in order are resolution (before detection), no face, several faces, face too small |
| FaceRecognition.FaceRecognitionSystem.QualityImpliesEncodable | face_recognition_module.py:125-152 | an image that passes the quality check always encodes, to the crop recognition classifies |
| WebApp.App.Startup | main.py:14-16 | the store holds the stored rows, and the recognition system mirrors the employees and is trained iff any exist |
| WebApp.App.MatchIsStoredEmployee | face_recognition_module.py:112-117 | with the recognition system in step with the table, a recognized id and name are both those of one stored employee |
| WebApp.App.ApiRegister | main.py:40-71 | an unparsable body answers 500 and only it does; missing fields answer 400 before any stage; then quality, encoding and insert run in that order, and the first failure answers 400 with its message; only a successful insert changes the table and the recognition system |
| WebApp.App.Enroll | main.py:62-68 | the insert of `Register`; on success 200 and a reload that keeps the system in step with the table; on failure 400 and the recognition system untouched |
| WebApp.App.ApiMarkAttendance | main.py:73-104 | no image, or no recognized employee, answers 400 with attendance untouched; otherwise the table becomes that of `Mark` and the answer is 200 with the employee's id, name and department or 400 with the refusal; employees never change, one row per day is kept, and a parsed request never reaches the 500 path |
| WebApp.App.ApiRecords | main.py:106-128 | filters by date only when the parameter is non-empty, and maps each record field by field in the query's order |
| WebApp.App.ApiEmployees | main.py:130-146 | one listing per employee, field by field, in storage order |
| Scenario.RegisterFirstEmployee | main.py:40-66 | from empty tables, a good one-face image registers the employee and makes its image recognized as that employee |

## Left out

- The browser scripts (static/js) are not part of this model: they hold UI code only.
- Flask routing, the HTML page routes and templates (main.py:18-38), and the
  `__main__` server start are left out because they are HTTP plumbing.
- The OpenCV internals, PIL decoding and base64 are oracles (`Vision`), each a
  deterministic function. Only the base64/PIL decode and the gray conversion
  may raise; detection, resize and `predict` are modelled as total.
- FaceRecognition.FaceRecognitionSystem.RecognizeFace: the round trip
  "a stored template classifies its own face back below 70" is a property of
  LBPH, not of this code. It stays an oracle assumption.
- Pickle is modelled as wrapping the crop in a `Blob`; byte-level pickling is not modelled.
- SQLite connections and SQL execution are left out. Storage faults other
  than the UNIQUE violation are not modelled. So the generic `str(e)` branch
  of `register_employee` (database.py:57-58), which would answer 400, cannot
  occur in the model. Neither can a failure to connect: `get_connection()`
  (database.py:45) runs before the `try`, so in the source it would reach the
  handler's 500 answer (main.py:70-71). No
  NOT NULL violation can arise from the handlers, because they only insert
  non-empty required fields.
- The surrogate `id` columns are not modelled. They are read only by the `SELECT *` at database.py:84, and no code uses them.
- The foreign key on `attendance.emp_id` is not modelled: SQLite does not
  enforce it by default.
- `CURRENT_TIMESTAMP` (UTC) and `datetime.now().date()` (local time) are
  parameters, so the model does not capture how the two clocks relate.
- The formatted "Recognized with …% confidence" message is left out: it is
  floating-point formatting, and the handler discards it.
- Environment loading, `SECRET_KEY` and `os.urandom` (config.py:5, 11-36) are
  left out. Config.Defaults gives the values used when nothing is set.
- The process exit when `Config.validate()` raises at import (main.py:9) is
  left out; Config.Validate gives the outcome that decides it.
- JSON bodies are modelled as maps from field names to strings, so
  non-string field values are not modelled. In the source they take other
  paths:
  - A falsy value (`0`, `false`, `[]`, `{}`) for `emp_id`, `name` or `image`
    answers 400 "Missing required fields" (main.py:50), as an empty string does.
  - A truthy non-string `image` goes through `np.array`
    (face_recognition_module.py:52). It then takes the channel dispatch of a
    decoded image (:54-60), so a nested list of pixels is processed like any
    image. A number or a flat list has no `shape[2]`, so it raises there, and
    the answer is 400: "Error validating image: …" on registration, and
    "Error recognizing face: …" on attendance.
  - A non-zero numeric `emp_id` is truthy, so it is registered when the
    quality, encoding and insert stages all pass (main.py:50-62).
  - A body that does not parse, or is not a JSON object, is the 500 answer of
    `BadJson`.
- WebApp.App.ApiRecords and WebApp.App.ApiEmployees: the 500 answer for a
  storage fault is not modelled, because storage faults are outside the model.
- Config.Validate: the scale factor is a Dafny `real`, so NaN is not
  modelled. In the source `FACE_DETECTION_SCALE_FACTOR=nan` fails the
  `<= 1.0` test and so passes `validate` (config.py:29, 47).
- Concurrent requests and the unguarded rebuild of the process-wide
  recognition system are left out: the model is sequential.
