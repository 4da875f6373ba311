/** The application settings of config.py and the start-up check on them. */
module Config {

  /** Every setting `Config` reads from the environment, except SECRET_KEY. */
  datatype Settings = Settings(
    flaskEnv: string,
    flaskDebug: bool,
    host: string,
    port: int,
    databaseName: string,
    recognitionConfidenceThreshold: int,
    minFaceSize: int,
    minImageWidth: int,
    minImageHeight: int,
    faceEncodingWidth: int,
    faceEncodingHeight: int,
    faceDetectionScaleFactor: real,
    faceDetectionMinNeighbors: int,
    maxRecordsLimit: int,
    logLevel: string)

  /** `Config.validate()` either returns or raises a ValueError with a message. */
  datatype Outcome = Pass | Fail(message: string)

  const ThresholdMessage := "RECOGNITION_CONFIDENCE_THRESHOLD must be between 0 and 100"
  const MinFaceSizeMessage := "MIN_FACE_SIZE must be at least 50 pixels"
  const ScaleFactorMessage := "FACE_DETECTION_SCALE_FACTOR must be greater than 1.0"
  const MinNeighborsMessage := "FACE_DETECTION_MIN_NEIGHBORS must be at least 1"

  predicate ThresholdOk(s: Settings) { 0 <= s.recognitionConfidenceThreshold <= 100 }
  predicate MinFaceSizeOk(s: Settings) { s.minFaceSize >= 50 }
  predicate ScaleFactorOk(s: Settings) { s.faceDetectionScaleFactor > 1.0 }
  predicate MinNeighborsOk(s: Settings) { s.faceDetectionMinNeighbors >= 1 }

  /** The four range checks, in the order the source makes them; the first that
      fails decides the message. */
  function Validate(s: Settings): (r: Outcome)
    ensures r.Pass? <==> ThresholdOk(s) && MinFaceSizeOk(s) && ScaleFactorOk(s) && MinNeighborsOk(s)
    ensures !ThresholdOk(s) ==> r == Fail(ThresholdMessage)
    ensures ThresholdOk(s) && !MinFaceSizeOk(s) ==> r == Fail(MinFaceSizeMessage)
    ensures ThresholdOk(s) && MinFaceSizeOk(s) && !ScaleFactorOk(s) ==> r == Fail(ScaleFactorMessage)
    ensures ThresholdOk(s) && MinFaceSizeOk(s) && ScaleFactorOk(s) && !MinNeighborsOk(s) ==> r == Fail(MinNeighborsMessage)
  {
    if s.recognitionConfidenceThreshold < 0 || s.recognitionConfidenceThreshold > 100 then Fail(ThresholdMessage)
    else if s.minFaceSize < 50 then Fail(MinFaceSizeMessage)
    else if s.faceDetectionScaleFactor <= 1.0 then Fail(ScaleFactorMessage)
    else if s.faceDetectionMinNeighbors < 1 then Fail(MinNeighborsMessage)
    else Pass
  }

  /** The values `Config` takes when the environment sets nothing. */
  function Defaults(): (s: Settings)
    ensures Validate(s) == Pass
    ensures s.recognitionConfidenceThreshold == 70 && s.minFaceSize == 100
    ensures s.minImageWidth == 200 && s.minImageHeight == 200
  {
    Settings(
      flaskEnv := "production",
      flaskDebug := false,
      host := "0.0.0.0",
      port := 5000,
      databaseName := "attendance.db",
      recognitionConfidenceThreshold := 70,
      minFaceSize := 100,
      minImageWidth := 200,
      minImageHeight := 200,
      faceEncodingWidth := 200,
      faceEncodingHeight := 200,
      faceDetectionScaleFactor := 1.1,
      faceDetectionMinNeighbors := 5,
      maxRecordsLimit := 50,
      logLevel := "INFO")
  }

  /** The outcome depends on the four checked settings only. */
  lemma ValidateReadsOnlyCheckedSettings(a: Settings, b: Settings)
    requires a.recognitionConfidenceThreshold == b.recognitionConfidenceThreshold
    requires a.minFaceSize == b.minFaceSize
    requires a.faceDetectionScaleFactor == b.faceDetectionScaleFactor
    requires a.faceDetectionMinNeighbors == b.faceDetectionMinNeighbors
    ensures Validate(a) == Validate(b)
  {
  }
}
