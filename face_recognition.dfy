/** The decision logic of face_recognition_module.py. The computer-vision
    library is an oracle: `Vision` holds the calls the module makes into it,
    each a deterministic function of its arguments. */
module FaceRecognition {
  import opened Common
  import AttendanceDb

  /** A detected face as `(x, y, w, h)`. */
  datatype Box = Box(x: int, y: int, w: int, h: int)

  /** A decoded image as a numpy array: two-dimensional, or three-dimensional
      with `channels` values per pixel (`image.shape[2]`). */
  datatype Image = Plane(plane: Gray) | Interleaved(channels: nat, pixels: seq<seq<seq<int>>>)

  /** `image_data` as the callers hand it over: a (base64 or data-URI) string,
      or anything else, which is handed to `np.array`. */
  datatype Payload = Text(text: string) | Pixels(image: Image)

  /** The arguments of `detectMultiScale`. */
  datatype DetectParams = DetectParams(scaleFactor: real, minNeighbors: nat, minWidth: nat, minHeight: nat)

  /** What the LBPH recognizer's `predict` returns: a label and a distance (lower is closer). */
  datatype Prediction = Prediction(labelIndex: int, confidence: real)

  datatype Vision = Vision(
    openImage: string -> Result<Image>,                    // base64.b64decode, Image.open, np.array
    rgbaToBgr: Image -> Image,                             // cv2.cvtColor(image, COLOR_RGBA2BGR)
    bgrToGray: Image -> Result<Gray>,                      // cv2.cvtColor(image, COLOR_BGR2GRAY)
    detect: (Gray, DetectParams) -> seq<Box>,              // face_detector.detectMultiScale
    resize: (Gray, nat, nat) -> Gray,                      // cv2.resize(image, (width, height))
    predict: (seq<Gray>, seq<int>, Gray) -> Prediction)    // recognizer trained on (faces, labels), then predict

  /** The literals the module uses; it does not read the configuration. */
  const DetectorParams := DetectParams(1.1, 5, 100, 100)
  const MinImageSide := 200
  const MinFaceSide := 100
  const EncodingSide := 200
  const AcceptBelow: real := 70.0

  const NoFaceToEncodeMessage := "No face detected in the image"
  const MultipleFacesToEncodeMessage := "Multiple faces detected. Please ensure only one face is visible"
  const EncodedMessage := "Face encoded successfully"
  const EncodeErrorPrefix := "Error encoding face: "
  const NoEmployeesMessage := "No registered employees found"
  const NoFaceToRecognizeMessage := "No face detected"
  const NotRecognizedMessage := "Face not recognized"
  const RecognizeErrorPrefix := "Error recognizing face: "
  const LowResolutionMessage := "Image resolution too low. Please use better lighting or camera"
  const NoFaceInFrameMessage := "No face detected. Please position your face clearly in front of the camera"
  const MultipleFacesInFrameMessage := "Multiple faces detected. Please ensure only one person is in frame"
  const FaceTooSmallMessage := "Face too small. Please move closer to the camera"
  const QualityAcceptableMessage := "Image quality acceptable"
  const ValidateErrorPrefix := "Error validating image: "

  const DataUriPrefix := "data:image"

  /** `image_data.split(',')[1]` when the text starts with "data:image": the
      text between the first comma and the next one (or the end). Without a
      comma the index raises. Any other text is left as it is. */
  function StripDataUri(s: string): (r: Result<string>)
    ensures !(DataUriPrefix <= s) ==> r == Ok(s)
    ensures DataUriPrefix <= s ==> (r.Ok? <==> ',' in s)
    ensures r.Raised? ==> r.message == IndexErrorMessage
    ensures DataUriPrefix <= s && r.Ok? ==>
              ',' !in r.value &&
              exists i :: 0 <= i < |s| && s[i] == ',' && ',' !in s[..i] && i + 1 + |r.value| <= |s| &&
                          s[i + 1..i + 1 + |r.value|] == r.value &&
                          (i + 1 + |r.value| == |s| || s[i + 1 + |r.value|] == ',')
  {
    if DataUriPrefix <= s then
      match IndexOf(s, ',')
      case None => Raised(IndexErrorMessage)
      case Some(i) =>
        var rest := s[i + 1..];
        match IndexOf(rest, ',')
        case None =>
          assert s[i + 1..i + 1 + |rest|] == rest;
          Ok(rest)
        case Some(j) =>
          assert s[i + 1..i + 1 + j] == rest[..j];
          assert rest[j] == s[i + 1 + j];
          Ok(rest[..j])
    else Ok(s)
  }

  lemma {:induction false} IndexOfAfterCommaFree(head: string, tail: string)
    requires ',' !in head
    ensures IndexOf(head + "," + tail, ',') == Some(|head|)
  {
    if |head| > 0 {
      assert (head + "," + tail)[1..] == head[1..] + "," + tail;
      IndexOfAfterCommaFree(head[1..], tail);
    } else {
      assert (head + "," + tail)[0] == ',';
    }
  }

  /** A data-URI header followed by a comma and a comma-free payload strips to
      the payload: the browser's `canvas.toDataURL()` form. */
  lemma DataUriRoundTrip(header: string, payload: string)
    requires DataUriPrefix <= header && ',' !in header && ',' !in payload
    ensures StripDataUri(header + "," + payload) == Ok(payload)
  {
    var s := header + "," + payload;
    IndexOfAfterCommaFree(header, payload);
    assert DataUriPrefix <= s by { assert s[..|DataUriPrefix|] == header[..|DataUriPrefix|]; }
    assert s[|header| + 1..] == payload;
  }

  /** The box lies inside the image, every row of which is long enough. */
  predicate BoxInside(g: Gray, b: Box)
  {
    0 <= b.x && 0 <= b.w && 0 <= b.y && 0 <= b.h && b.y + b.h <= |g| &&
    forall i :: 0 <= i < |g| ==> b.x + b.w <= |g[i]|
  }

  /** `gray[y:y+h, x:x+w]`, with numpy's clamping of out-of-range bounds. */
  function Crop(g: Gray, b: Box): (r: Gray)
    ensures |r| <= |g|
  {
    var rows := PySlice(g, b.y, b.y + b.h);
    seq(|rows|, i requires 0 <= i < |rows| => PySlice(rows[i], b.x, b.x + b.w))
  }

  /** A box inside the image crops to exactly its `h` rows of `w` pixels. */
  lemma CropInBounds(g: Gray, b: Box)
    requires BoxInside(g, b)
    ensures |Crop(g, b)| == b.h
    ensures forall i, j :: 0 <= i < b.h && 0 <= j < b.w ==> |Crop(g, b)[i]| == b.w && Crop(g, b)[i][j] == g[b.y + i][b.x + j]
  {
    var rows := PySlice(g, b.y, b.y + b.h);
    assert rows == g[b.y..b.y + b.h];
    forall i | 0 <= i < b.h ensures Crop(g, b)[i] == g[b.y + i][b.x..b.x + b.w] {
      assert rows[i] == g[b.y + i];
    }
  }

  /** The labels `train` receives: 0, 1, …, n - 1. */
  function Labels(n: nat): (r: seq<int>)
    ensures |r| == n && forall i :: 0 <= i < n ==> r[i] == i
  {
    seq(n, i => i)
  }

  /** `(blob, message)` of encode_face_from_image; no blob is Python's None. */
  datatype Encoding = Encoding(blob: Option<Blob>, message: string)

  /** `(is_valid, message)` of validate_image_quality. */
  datatype Verdict = Verdict(ok: bool, message: string)

  /** recognize_face: a match with the percentage `100 - confidence`, or the reason for none. */
  datatype Recognition = Match(empId: string, name: string, matchConfidence: real) | NoMatch(message: string)

  class FaceRecognitionSystem {
    const vision: Vision
    var knownFaceEncodings: seq<Gray>
    var knownFaceIds: seq<string>
    var knownFaceNames: seq<string>
    var isTrained: bool
    /** The training set of the LBPH recognizer: its whole state. */
    var trainedFaces: seq<Gray>
    var trainedLabels: seq<int>

    ghost predicate Valid()
      reads this
    {
      |knownFaceIds| == |knownFaceNames| == |knownFaceEncodings|
    }

    /** Entry i of the three lists comes from the i-th employee row, and a non-empty
        table has been trained with labels 0..n-1: what load_encodings_from_db leaves. */
    ghost predicate MirrorsEmployees(emps: seq<AttendanceDb.Employee>)
      reads this
    {
      && |knownFaceIds| == |emps| && |knownFaceNames| == |emps| && |knownFaceEncodings| == |emps|
      && (forall i :: 0 <= i < |emps| ==>
            knownFaceIds[i] == emps[i].empId && knownFaceNames[i] == emps[i].name &&
            knownFaceEncodings[i] == Loads(emps[i].faceEncoding))
      && (|emps| > 0 ==> isTrained && trainedFaces == knownFaceEncodings && trainedLabels == Labels(|emps|))
    }

    constructor (vision: Vision)
      ensures Valid() && this.vision == vision
      ensures knownFaceEncodings == [] && knownFaceIds == [] && knownFaceNames == [] && !isTrained
      ensures trainedFaces == [] && trainedLabels == []
    {
      this.vision := vision;
      knownFaceEncodings, knownFaceIds, knownFaceNames := [], [], [];
      isTrained := false;
      trainedFaces, trainedLabels := [], [];
    }

    /** Rebuild the three lists from the employee rows and retrain, unless there
        are none: an empty table leaves the recognizer and `isTrained` as they were. */
    method LoadEncodingsFromDb(db: AttendanceDb.Database)
      modifies this
      ensures Valid()
      ensures var rows := db.GetEmployeeEncodings();
              && |knownFaceIds| == |rows| && |knownFaceNames| == |rows| && |knownFaceEncodings| == |rows|
              && (forall i :: 0 <= i < |rows| ==>
                    knownFaceIds[i] == rows[i].0 && knownFaceNames[i] == rows[i].1 &&
                    knownFaceEncodings[i] == Loads(rows[i].2))
              && (|rows| > 0 ==> isTrained && trainedFaces == knownFaceEncodings && trainedLabels == Labels(|rows|))
              && (|rows| == 0 ==> isTrained == old(isTrained) &&
                                  trainedFaces == old(trainedFaces) && trainedLabels == old(trainedLabels))
      ensures MirrorsEmployees(db.employees)
    {
      var employees := db.GetEmployeeEncodings();
      knownFaceEncodings, knownFaceIds, knownFaceNames := [], [], [];
      var faces: seq<Gray> := [];
      var labels: seq<int> := [];
      for idx := 0 to |employees|
        invariant |knownFaceIds| == idx && |knownFaceNames| == idx && |knownFaceEncodings| == idx
        invariant forall i :: 0 <= i < idx ==>
                    knownFaceIds[i] == employees[i].0 && knownFaceNames[i] == employees[i].1 &&
                    knownFaceEncodings[i] == Loads(employees[i].2)
        invariant faces == knownFaceEncodings && labels == Labels(idx)
        invariant isTrained == old(isTrained) && trainedFaces == old(trainedFaces) && trainedLabels == old(trainedLabels)
      {
        var (empId, name, encodingBlob) := employees[idx];
        var encoding := Loads(encodingBlob);
        knownFaceEncodings := knownFaceEncodings + [encoding];
        knownFaceIds := knownFaceIds + [empId];
        knownFaceNames := knownFaceNames + [name];
        faces := faces + [encoding];
        labels := labels + [idx];
      }
      if |faces| > 0 {
        trainedFaces, trainedLabels := faces, labels;
        isTrained := true;
      }
    }

    /** The channel dispatch of _decode_image: a 2-D array is already gray, a
        four-channel one goes through BGR first, anything else is taken as BGR. */
    function ToGray(img: Image): (r: Result<Gray>)
      ensures img.Plane? ==> r == Ok(img.plane)
      ensures img.Interleaved? && img.channels == 4 ==> r == vision.bgrToGray(vision.rgbaToBgr(img))
      ensures img.Interleaved? && img.channels != 4 ==> r == vision.bgrToGray(img)
    {
      match img
      case Plane(g) => Ok(g)
      case Interleaved(channels, _) =>
        if channels == 4 then vision.bgrToGray(vision.rgbaToBgr(img)) else vision.bgrToGray(img)
    }

    /** _decode_image, keeping only the gray image its callers use: a text is
        stripped of a data-URI header, opened, and converted to gray; pixels
        are converted directly. It raises exactly when one of those steps
        raises, with the message of the first one that does. */
    function DecodeImage(payload: Payload): (r: Result<Gray>)
      ensures payload.Pixels? ==> r == ToGray(payload.image)
      ensures payload.Text? && StripDataUri(payload.text).Raised? ==> r == Raised(StripDataUri(payload.text).message)
      ensures payload.Text? && StripDataUri(payload.text).Ok? ==>
                var decoded := vision.openImage(StripDataUri(payload.text).value);
                && (decoded.Raised? ==> r == Raised(decoded.message))
                && (decoded.Ok? ==> r == ToGray(decoded.value))
      ensures payload.Text? ==>
                (r.Raised? <==>
                   || StripDataUri(payload.text).Raised?
                   || vision.openImage(StripDataUri(payload.text).value).Raised?
                   || ToGray(vision.openImage(StripDataUri(payload.text).value).value).Raised?)
    {
      match payload
      case Text(s) =>
        var b64 :- StripDataUri(s);
        var img :- vision.openImage(b64);
        ToGray(img)
      case Pixels(img) => ToGray(img)
    }

    /** A data-URI decodes exactly as its bare base64 payload would. */
    lemma DecodeIgnoresDataUriHeader(header: string, payload: string)
      requires DataUriPrefix <= header && ',' !in header && ',' !in payload
      requires !(DataUriPrefix <= payload)
      ensures DecodeImage(Text(header + "," + payload)) == DecodeImage(Text(payload))
    {
      DataUriRoundTrip(header, payload);
    }

    function Faces(g: Gray): (boxes: seq<Box>)
    {
      vision.detect(g, DetectorParams)
    }

    /** The first detected face, cropped and resized to 200×200. */
    function Probe(g: Gray): (p: Gray)
      requires |Faces(g)| > 0
    {
      vision.resize(Crop(g, Faces(g)[0]), EncodingSide, EncodingSide)
    }

    /** When the first detected box lies inside the image, resize receives
        exactly the box's h rows of w pixels, taken at the box's offset. */
    lemma ProbeIsFirstFaceCrop(g: Gray)
      requires |Faces(g)| > 0 && BoxInside(g, Faces(g)[0])
      ensures var b := Faces(g)[0];
              Probe(g) == vision.resize(seq(b.h, i requires 0 <= i < b.h => g[b.y + i][b.x..b.x + b.w]),
                                        EncodingSide, EncodingSide)
    {
      var b := Faces(g)[0];
      CropInBounds(g, b);
      var window := seq(b.h, i requires 0 <= i < b.h => g[b.y + i][b.x..b.x + b.w]);
      assert Crop(g, b) == window by {
        forall i | 0 <= i < b.h ensures Crop(g, b)[i] == window[i] {
          assert |Crop(g, b)[i]| == b.w;
        }
      }
    }

    /** A blob exactly for an image with one detected face, holding that face's
        200×200 crop; otherwise the reason, in the order: decoding, no face,
        several faces. */
    function EncodeFaceFromImage(payload: Payload): (r: Encoding)
      ensures r.blob.Some? <==> DecodeImage(payload).Ok? && |Faces(DecodeImage(payload).value)| == 1
      ensures r.blob.Some? ==> r.blob.value == Pickled(Probe(DecodeImage(payload).value)) && r.message == EncodedMessage
      ensures DecodeImage(payload).Raised? ==> r.message == EncodeErrorPrefix + DecodeImage(payload).message
      ensures DecodeImage(payload).Ok? ==>
                var n := |Faces(DecodeImage(payload).value)|;
                (n == 0 ==> r.message == NoFaceToEncodeMessage) && (n > 1 ==> r.message == MultipleFacesToEncodeMessage)
    {
      match DecodeImage(payload)
      case Raised(e) => Encoding(None, EncodeErrorPrefix + e)
      case Ok(gray) =>
        var faces := Faces(gray);
        if |faces| == 0 then Encoding(None, NoFaceToEncodeMessage)
        else if |faces| > 1 then Encoding(None, MultipleFacesToEncodeMessage)
        else Encoding(Some(Pickled(Probe(gray))), EncodedMessage)
    }

    /** What the trained recognizer makes of the first face found in `g`; once
        the recognizer has been trained on the stored templates with labels
        0..n-1, that is a prediction over exactly those templates. */
    function Classify(g: Gray): (p: Prediction)
      reads this
      requires |Faces(g)| > 0
      ensures trainedFaces == knownFaceEncodings && trainedLabels == Labels(|knownFaceEncodings|) ==>
                p == vision.predict(knownFaceEncodings, Labels(|knownFaceEncodings|), Probe(g))
    {
      vision.predict(trainedFaces, trainedLabels, Probe(g))
    }

    /** The lookup of an accepted prediction's label in the id and name lists,
        with Python's indexing: a negative label counts from the end, one out of
        range raises and is reported as a recognition error. */
    function Resolve(p: Prediction): (r: Recognition)
      reads this
      ensures 0 <= p.labelIndex < |knownFaceIds| && p.labelIndex < |knownFaceNames| ==>
                r == Match(knownFaceIds[p.labelIndex], knownFaceNames[p.labelIndex], 100.0 - p.confidence)
      ensures |knownFaceIds| == |knownFaceNames| && -|knownFaceIds| <= p.labelIndex < 0 ==>
                r == Match(knownFaceIds[|knownFaceIds| + p.labelIndex], knownFaceNames[|knownFaceIds| + p.labelIndex],
                           100.0 - p.confidence)
      ensures !(-|knownFaceIds| <= p.labelIndex < |knownFaceIds|) ==> r == NoMatch(RecognizeErrorPrefix + IndexErrorMessage)
      ensures r.Match? ==> r.empId in knownFaceIds && r.name in knownFaceNames && r.matchConfidence == 100.0 - p.confidence
    {
      match PyIndex(knownFaceIds, p.labelIndex)
      case Raised(e) => NoMatch(RecognizeErrorPrefix + e)
      case Ok(empId) =>
        match PyIndex(knownFaceNames, p.labelIndex)
        case Raised(e) => NoMatch(RecognizeErrorPrefix + e)
        case Ok(name) => Match(empId, name, 100.0 - p.confidence)
    }

    /** Untrained or empty: no match, whatever the image. Otherwise the first
        detected face (even among several) is classified; a distance below 70
        resolves its label through the id and name lists, anything else is
        "not recognized". */
    function RecognizeFace(payload: Payload): (r: Recognition)
      reads this
      ensures !isTrained || |knownFaceEncodings| == 0 ==> r == NoMatch(NoEmployeesMessage)
      ensures r.Match? ==>
                && isTrained && |knownFaceEncodings| > 0
                && DecodeImage(payload).Ok? && |Faces(DecodeImage(payload).value)| > 0
                && Classify(DecodeImage(payload).value).confidence < AcceptBelow
                && r == Resolve(Classify(DecodeImage(payload).value))
      ensures isTrained && |knownFaceEncodings| > 0 && DecodeImage(payload).Raised? ==>
                r == NoMatch(RecognizeErrorPrefix + DecodeImage(payload).message)
      ensures isTrained && |knownFaceEncodings| > 0 && DecodeImage(payload).Ok? ==>
                var g := DecodeImage(payload).value;
                && (|Faces(g)| == 0 ==> r == NoMatch(NoFaceToRecognizeMessage))
                && (|Faces(g)| > 0 && Classify(g).confidence >= AcceptBelow ==> r == NoMatch(NotRecognizedMessage))
                && (|Faces(g)| > 0 && Classify(g).confidence < AcceptBelow ==> r == Resolve(Classify(g)))
    {
      if !isTrained || |knownFaceEncodings| == 0 then NoMatch(NoEmployeesMessage)
      else match DecodeImage(payload)
        case Raised(e) => NoMatch(RecognizeErrorPrefix + e)
        case Ok(gray) =>
          if |Faces(gray)| == 0 then NoMatch(NoFaceToRecognizeMessage)
          else
            var p := Classify(gray);
            if p.confidence < AcceptBelow then Resolve(p) else NoMatch(NotRecognizedMessage)
    }

    /** Acceptance exactly for a decodable image of at least 200×200 with one
        detected face of at least 100×100; a rejection names the first check
        that failed, the size check coming before any detection. */
    function ValidateImageQuality(payload: Payload): (r: Verdict)
      ensures r.ok <==>
                && DecodeImage(payload).Ok?
                && var g := DecodeImage(payload).value;
                   && Width(g) >= MinImageSide && Height(g) >= MinImageSide
                   && |Faces(g)| == 1 && Faces(g)[0].w >= MinFaceSide && Faces(g)[0].h >= MinFaceSide
      ensures r.ok ==> r.message == QualityAcceptableMessage
      ensures DecodeImage(payload).Raised? ==> r.message == ValidateErrorPrefix + DecodeImage(payload).message
      ensures DecodeImage(payload).Ok? ==>
                var g := DecodeImage(payload).value;
                if Width(g) < MinImageSide || Height(g) < MinImageSide then r.message == LowResolutionMessage
                else if |Faces(g)| == 0 then r.message == NoFaceInFrameMessage
                else if |Faces(g)| > 1 then r.message == MultipleFacesInFrameMessage
                else !r.ok ==> r.message == FaceTooSmallMessage
    {
      match DecodeImage(payload)
      case Raised(e) => Verdict(false, ValidateErrorPrefix + e)
      case Ok(gray) =>
        if Width(gray) < MinImageSide || Height(gray) < MinImageSide then Verdict(false, LowResolutionMessage)
        else
          var faces := Faces(gray);
          if |faces| == 0 then Verdict(false, NoFaceInFrameMessage)
          else if |faces| > 1 then Verdict(false, MultipleFacesInFrameMessage)
          else
            var Box(x, y, w, h) := faces[0];
            if w < MinFaceSide || h < MinFaceSide then Verdict(false, FaceTooSmallMessage)
            else Verdict(true, QualityAcceptableMessage)
    }

    /** An image that passes the quality check always encodes, and the template
        is the crop recognition later classifies for the same image. */
    lemma QualityImpliesEncodable(payload: Payload)
      requires ValidateImageQuality(payload).ok
      ensures EncodeFaceFromImage(payload).blob.Some?
      ensures EncodeFaceFromImage(payload).blob.value == Pickled(Probe(DecodeImage(payload).value))
    {
    }
  }
}
