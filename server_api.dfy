/**
 * The submission endpoint: the ordered 400 checks on the request, the
 * try-block that reads the file, extracts its text and asks the AI client,
 * the mapping of whatever is raised to an HTTP error, and the table of
 * stored submissions that get_submission reads back.
 */
module ServerApi {
  import opened Wrappers
  import Text
  import opened PyRuntime
  import JsonText
  import FileParser
  import AiClient

  const AllowedTypes: seq<string> := [FileParser.PdfType, FileParser.DocxType]
  const MinDescriptionLength: nat := 50
  const MinResumeLength: nat := 100

  const UnsupportedUpload := "Unsupported file type. Only PDF and DOCX files are allowed."
  const EmptyDescription := "Job description cannot be empty."
  const ShortDescription :=
    "Job description is too short. Please provide a more detailed job description (at least 50 characters)."
  const EmptyFile := "Uploaded file is empty."
  const ShortResume :=
    "Resume text is too short. Please ensure your resume contains sufficient content for analysis."
  const ProcessingPrefix := "An error occurred while processing your resume: "
  const NotFound := "Submission not found"
  /** FastAPI's body for an exception no handler catches. */
  const InternalError := "Internal Server Error"
  /**
   * The message of FastAPI's 422 validation error for a required form field
   * that is absent or empty; FastAPI sends it inside a list of errors.
   */
  const FieldRequired := "Field required"
  /** Stands for the validation or database error an analysis of the wrong shape causes. */
  const RecordMismatch := "analysis does not fit the submission record"

  /** An HTTP error response: status code and `detail`. */
  datatype HttpError = HttpError(status: nat, detail: string)

  /** The uploaded file as the endpoint sees it. */
  datatype Upload = Upload(filename: string, contentType: string, bytes: FileParser.Bytes)

  /** The analysis with the types the response schema demands. */
  datatype Analysis = Analysis(score: real, feedback: string, matched: seq<string>, missing: seq<string>)

  /** A row of resume_submissions; the nullable columns are options, the keyword columns hold JSON text. */
  datatype Submission = Submission(
    filename: string,
    resumeText: string,
    jobDescription: string,
    score: Option<real>,
    feedback: Option<string>,
    matchedKeywords: Option<string>,
    missingKeywords: Option<string>)

  /** The UploadResponse body (the server timestamp is not modelled). */
  datatype UploadResponse = UploadResponse(id: int, score: real, feedback: string, matched: seq<string>, missing: seq<string>)

  /** What the try-block produces before the row is written: the extracted text and the typed analysis. */
  datatype Accepted = Accepted(resumeText: string, analysis: Analysis)

  /** Lines 29-48: the checks made before the try-block, first failure wins. */
  function CheckRequest(contentType: string, jobDescription: string): (failure: Option<HttpError>)
    ensures failure.None? <==> contentType in AllowedTypes && |Text.Trim(Text.Py, jobDescription)| >= MinDescriptionLength
    ensures failure.Some? ==> failure.value.status == 400
    ensures contentType !in AllowedTypes ==> failure == Some(HttpError(400, UnsupportedUpload))
    ensures contentType in AllowedTypes && Text.Blank(Text.Py, jobDescription) ==>
              failure == Some(HttpError(400, EmptyDescription))
    ensures contentType in AllowedTypes && !Text.Blank(Text.Py, jobDescription) &&
            |Text.Trim(Text.Py, jobDescription)| < MinDescriptionLength ==>
              failure == Some(HttpError(400, ShortDescription))
  {
    Text.TrimEmptyIffBlank(Text.Py, jobDescription);
    if contentType !in AllowedTypes then Some(HttpError(400, UnsupportedUpload))
    else if Text.Trim(Text.Py, jobDescription) == [] then Some(HttpError(400, EmptyDescription))
    else if |Text.Trim(Text.Py, jobDescription)| < MinDescriptionLength then Some(HttpError(400, ShortDescription))
    else None
  }

  /** The JSON items as strings, when every one of them is a string. */
  function Strings(items: seq<Json>): (r: Option<seq<string>>)
    ensures r.Some? <==> forall i :: 0 <= i < |items| ==> items[i].JStr?
    ensures r.Some? ==> |r.value| == |items| && forall i :: 0 <= i < |items| ==> items[i] == JStr(r.value[i])
  {
    if items == [] then Some([])
    else if !items[0].JStr? then None
    else
      match Strings(items[1..])
      case None => None
      case Some(rest) => Some([items[0].s] + rest)
  }

  /** A list built from strings reads back as those strings. */
  lemma StringsOfStrList(xs: seq<string>)
    ensures Strings(AiClient.StrList(xs).items) == Some(xs)
  {
    var r := Strings(AiClient.StrList(xs).items);
    assert r.Some?;
    assert r.value == xs;
  }

  /**
   * A feedback value as the `feedback` TEXT column stores it and `db.refresh`
   * reads it back: a string as it is, a number or a bool converted to text by
   * the column's TEXT affinity (sqlite3 binds a bool as the integer 1 or 0).
   * sqlite3 cannot bind a list or a dict, and a null is stored but read back
   * as None, which the response schema's `feedback: str` rejects.
   */
  function FeedbackText(rt: Runtime, v: Json): (r: Option<string>)
    ensures r.None? <==> v.JNull? || v.JArr? || v.JObj?
    ensures v.JStr? ==> r == Some(v.s)
    ensures v.JBool? ==> r == Some(if v.b then "1" else "0")
    ensures v.JNum? ==> r == Some(rt.sqliteNumberText(v.n))
  {
    match v
    case JStr(s) => Some(s)
    case JNum(n) => Some(rt.sqliteNumberText(n))
    case JBool(b) => Some(if b then "1" else "0")
    case _ => None
  }

  /**
   * The analysis as the record and the response schema take it: a numeric
   * score, the feedback as its column text, and keyword lists of strings
   * (the schema's `List[str]` takes no other item); anything else makes
   * storing or answering fail.
   */
  function TypedAnalysis(rt: Runtime, j: Json): (r: Option<Analysis>)
    requires AiClient.WellFormed(j)
    ensures r.Some? <==>
              (FeedbackText(rt, j.fields[AiClient.FeedbackKey]).Some? &&
               Strings(j.fields[AiClient.MatchedKey].items).Some? &&
               Strings(j.fields[AiClient.MissingKey].items).Some?)
    ensures r.Some? ==>
              && 0.0 <= r.value.score <= 100.0
              && j.fields[AiClient.ScoreKey] == JNum(r.value.score)
              && Some(r.value.feedback) == FeedbackText(rt, j.fields[AiClient.FeedbackKey])
              && j.fields[AiClient.MatchedKey] == AiClient.StrList(r.value.matched)
              && j.fields[AiClient.MissingKey] == AiClient.StrList(r.value.missing)
    ensures j.fields[AiClient.FeedbackKey].JStr? && r.Some? ==>
              j.fields[AiClient.FeedbackKey] == JStr(r.value.feedback)
  {
    var f := j.fields;
    var feedback := FeedbackText(rt, f[AiClient.FeedbackKey]);
    var matched := Strings(f[AiClient.MatchedKey].items);
    var missing := Strings(f[AiClient.MissingKey].items);
    if feedback.Some? && matched.Some? && missing.Some? then
      Some(Analysis(f[AiClient.ScoreKey].n, feedback.value, matched.value, missing.value))
    else None
  }

  /** The AI client's network fallback, typed. */
  const NetworkFallbackAnalysis :=
    Analysis(60.0, AiClient.NetworkFallbackFeedback, ["work experience", "education"],
             ["job-specific keywords", "technical skills"])

  /** The AI client's parse fallback, typed. */
  const ParseFallbackAnalysis :=
    Analysis(65.0, AiClient.ParseFallbackFeedback, ["experience", "skills", "education"],
             ["specific technical skills", "industry keywords"])

  /** The network fallback has the record's shape. */
  lemma NetworkFallbackIsTyped(rt: Runtime)
    ensures TypedAnalysis(rt, AiClient.NetworkFallback) == Some(NetworkFallbackAnalysis)
  {
    AiClient.FallbacksWellFormed();
    StringsOfStrList(["work experience", "education"]);
    StringsOfStrList(["job-specific keywords", "technical skills"]);
  }

  /** The parse fallback has the record's shape. */
  lemma ParseFallbackIsTyped(rt: Runtime)
    ensures TypedAnalysis(rt, AiClient.ParseFallback) == Some(ParseFallbackAnalysis)
  {
    AiClient.FallbacksWellFormed();
    StringsOfStrList(["experience", "skills", "education"]);
    StringsOfStrList(["specific technical skills", "industry keywords"]);
  }

  /**
   * Lines 52-80, the try-block up to building the record: empty bytes, then
   * extraction, then the resume-length check, then the AI analysis of the
   * extracted text against the job description as received.
   */
  function Analyse(upload: Upload, jobDescription: string, ex: FileParser.Extractors,
                   rt: Runtime, ai: AiClient.AiRequest -> AiClient.Transport): (r: Raises<Accepted>)
    ensures |upload.bytes| == 0 ==> r == Err(HTTPException(400, EmptyFile))
    ensures |upload.bytes| > 0 && FileParser.ExtractText(upload.bytes, upload.contentType, ex).Err? ==>
              r == Err(FileParser.ExtractText(upload.bytes, upload.contentType, ex).error)
    ensures |upload.bytes| > 0 && FileParser.ExtractText(upload.bytes, upload.contentType, ex).Ok? &&
            |FileParser.ExtractText(upload.bytes, upload.contentType, ex).value| < MinResumeLength ==>
              r == Err(HTTPException(400, ShortResume))
    ensures r.Err? && r.error.HTTPException? ==> (r.error.status == 400 || r.error.status == 500) && r.error.detail != ""
    ensures r.Ok? ==>
              && |upload.bytes| > 0
              && FileParser.ExtractText(upload.bytes, upload.contentType, ex) == Ok(r.value.resumeText)
              && |r.value.resumeText| >= MinResumeLength
              && var result := AiClient.CompareResumeJob(rt, ai, AiClient.AiRequest(r.value.resumeText, jobDescription));
                 result.Ok? && TypedAnalysis(rt, result.value) == Some(r.value.analysis)
  {
    if |upload.bytes| == 0 then Err(HTTPException(400, EmptyFile))
    else
      match FileParser.ExtractText(upload.bytes, upload.contentType, ex)
      case Err(e) => Err(e)
      case Ok(text) =>
        assert Text.Trim(Text.Py, text) == text;
        if |Text.Trim(Text.Py, text)| < MinResumeLength then Err(HTTPException(400, ShortResume))
        else
          match AiClient.CompareResumeJob(rt, ai, AiClient.AiRequest(text, jobDescription))
          case Err(e) => Err(e)
          case Ok(result) =>
            match TypedAnalysis(rt, result)
            case None => Err(LibraryError(RecordMismatch))
            case Some(a) => Ok(Accepted(text, a))
  }

  /** When every step succeeds, the try-block accepts the extracted text with the typed AI analysis. */
  lemma AnalyseSucceeds(upload: Upload, jobDescription: string, ex: FileParser.Extractors,
                        rt: Runtime, ai: AiClient.AiRequest -> AiClient.Transport, text: string, a: Analysis)
    requires |upload.bytes| > 0
    requires FileParser.ExtractText(upload.bytes, upload.contentType, ex) == Ok(text)
    requires |text| >= MinResumeLength
    requires var result := AiClient.CompareResumeJob(rt, ai, AiClient.AiRequest(text, jobDescription));
             result.Ok? && TypedAnalysis(rt, result.value) == Some(a)
    ensures Analyse(upload, jobDescription, ex, rt, ai) == Ok(Accepted(text, a))
  {
    assert Text.Trim(Text.Py, text) == text;
  }

  /**
   * With the AI service unreachable, a readable resume is accepted with the
   * network fallback: score 60.0 and its fixed keyword lists.
   */
  lemma UnreachableAiGivesFallback(upload: Upload, jobDescription: string, ex: FileParser.Extractors,
                                   rt: Runtime, ai: AiClient.AiRequest -> AiClient.Transport, text: string)
    requires |upload.bytes| > 0
    requires FileParser.ExtractText(upload.bytes, upload.contentType, ex) == Ok(text)
    requires |text| >= MinResumeLength
    requires ai(AiClient.AiRequest(text, jobDescription)).RequestFailed?
    ensures Analyse(upload, jobDescription, ex, rt, ai) == Ok(Accepted(text, NetworkFallbackAnalysis))
    ensures CheckRequest(upload.contentType, jobDescription).None? ==>
              Accept(upload, jobDescription, ex, rt, ai) == Ok(Accepted(text, NetworkFallbackAnalysis))
  {
    NetworkFallbackIsTyped(rt);
    AnalyseSucceeds(upload, jobDescription, ex, rt, ai, text, NetworkFallbackAnalysis);
  }

  /**
   * An AI reply whose feedback is a number is not an error: the request is
   * accepted, and the feedback stored and answered is the text SQLite makes
   * of the number.
   */
  lemma NumericFeedbackAccepted(upload: Upload, jobDescription: string, ex: FileParser.Extractors,
                                rt: Runtime, ai: AiClient.AiRequest -> AiClient.Transport, text: string)
    requires jobDescription != "" && CheckRequest(upload.contentType, jobDescription).None?
    requires |upload.bytes| > 0
    requires FileParser.ExtractText(upload.bytes, upload.contentType, ex) == Ok(text)
    requires |text| >= MinResumeLength
    requires var result := AiClient.CompareResumeJob(rt, ai, AiClient.AiRequest(text, jobDescription));
             && result.Ok?
             && result.value.fields[AiClient.FeedbackKey].JNum?
             && Strings(result.value.fields[AiClient.MatchedKey].items).Some?
             && Strings(result.value.fields[AiClient.MissingKey].items).Some?
    ensures var result := AiClient.CompareResumeJob(rt, ai, AiClient.AiRequest(text, jobDescription));
            && Accept(upload, jobDescription, ex, rt, ai).Ok?
            && Accept(upload, jobDescription, ex, rt, ai).value.analysis.feedback ==
               rt.sqliteNumberText(result.value.fields[AiClient.FeedbackKey].n)
  {
    var result := AiClient.CompareResumeJob(rt, ai, AiClient.AiRequest(text, jobDescription));
    var a := TypedAnalysis(rt, result.value);
    assert a.Some?;
    AnalyseSucceeds(upload, jobDescription, ex, rt, ai, text, a.value);
  }

  /** Lines 97-105: an HTTPException passes through unchanged, anything else is a 500 with the prefix. */
  function ExceptionResponse(e: PyExc): (err: HttpError)
    ensures e.HTTPException? ==> err == HttpError(e.status, e.detail)
    ensures !e.HTTPException? ==> err.status == 500 && ProcessingPrefix <= err.detail
    ensures !e.HTTPException? ==> err.detail[|ProcessingPrefix|..] == Str(e)
  {
    if e.HTTPException? then HttpError(e.status, e.detail)
    else HttpError(500, ProcessingPrefix + Str(e))
  }

  /**
   * Line 16's `job_description: str = Form(...)`: FastAPI treats an empty
   * value of a required form field as missing and answers 422 before the
   * endpoint runs, whatever the file.
   */
  function ValidateForm(jobDescription: string): (failure: Option<HttpError>)
    ensures failure.Some? <==> jobDescription == ""
    ensures failure.Some? ==> failure.value == HttpError(422, FieldRequired)
  {
    if jobDescription == "" then Some(HttpError(422, FieldRequired)) else None
  }

  /**
   * submit_resume up to the database write: the framework's form validation,
   * the checks, then the try-block with its exception mapping.
   */
  function Accept(upload: Upload, jobDescription: string, ex: FileParser.Extractors,
                  rt: Runtime, ai: AiClient.AiRequest -> AiClient.Transport): (r: Result<Accepted, HttpError>)
    ensures jobDescription == "" ==> r == Err(HttpError(422, FieldRequired))
    ensures jobDescription != "" && CheckRequest(upload.contentType, jobDescription).Some? ==>
              r == Err(CheckRequest(upload.contentType, jobDescription).value)
    ensures jobDescription != "" && CheckRequest(upload.contentType, jobDescription).None? ==>
              match Analyse(upload, jobDescription, ex, rt, ai)
              case Ok(acc) => r == Ok(acc)
              case Err(e) => r == Err(ExceptionResponse(e))
    ensures r.Err? ==> (r.error.status == 400 || r.error.status == 422 || r.error.status == 500) && r.error.detail != ""
    ensures r.Err? && r.error.status == 422 ==> jobDescription == ""
    ensures r.Ok? ==> 0.0 <= r.value.analysis.score <= 100.0
  {
    if ValidateForm(jobDescription).Some? then Err(ValidateForm(jobDescription).value)
    else match CheckRequest(upload.contentType, jobDescription)
    case Some(failure) => Err(failure)
    case None =>
      match Analyse(upload, jobDescription, ex, rt, ai)
      case Ok(acc) => Ok(acc)
      case Err(e) => Err(ExceptionResponse(e))
  }

  /** The row lines 72-80 build: the untrimmed description, and the keyword lists as json.dumps text. */
  function Record(upload: Upload, acc: Accepted, jobDescription: string): (row: Submission)
    ensures row.filename == upload.filename && row.resumeText == acc.resumeText
    ensures row.jobDescription == jobDescription
    ensures row.score == Some(acc.analysis.score) && row.feedback == Some(acc.analysis.feedback)
    ensures Column(row.matchedKeywords) == Some(acc.analysis.matched)
    ensures Column(row.missingKeywords) == Some(acc.analysis.missing)
  {
    Submission(upload.filename, acc.resumeText, jobDescription,
               Some(acc.analysis.score), Some(acc.analysis.feedback),
               Some(JsonText.EncodeList(acc.analysis.matched)),
               Some(JsonText.EncodeList(acc.analysis.missing)))
  }

  /** `json.loads(c) if c else []`: a null or empty column reads as []. */
  function Column(c: Option<string>): (r: Option<seq<string>>)
    ensures c.None? || c == Some("") ==> r == Some([])
    ensures forall xs :: c == Some(JsonText.EncodeList(xs)) ==> r == Some(xs)
  {
    if c.None? || c.value == "" then Some([])
    else
      assert forall xs :: c.value == JsonText.EncodeList(xs) ==> JsonText.DecodeList(c.value) == Some(xs) by {
        forall xs | c.value == JsonText.EncodeList(xs) ensures JsonText.DecodeList(c.value) == Some(xs) {
          JsonText.DecodeEncode(xs);
        }
      }
      JsonText.DecodeList(c.value)
  }

  /** Lines 120-127: a stored row as get_submission answers it; a row the schema rejects is a bare 500. */
  function ReadRow(id: int, row: Submission): (r: Result<UploadResponse, HttpError>)
    ensures r.Ok? <==> row.score.Some? && row.feedback.Some? &&
                       Column(row.matchedKeywords).Some? && Column(row.missingKeywords).Some?
    ensures r.Ok? ==> r.value == UploadResponse(id, row.score.value, row.feedback.value,
                                                Column(row.matchedKeywords).value,
                                                Column(row.missingKeywords).value)
    ensures r.Err? ==> r.error == HttpError(500, InternalError)
  {
    var matched := Column(row.matchedKeywords);
    var missing := Column(row.missingKeywords);
    if row.score.Some? && row.feedback.Some? && matched.Some? && missing.Some? then
      Ok(UploadResponse(id, row.score.value, row.feedback.value, matched.value, missing.value))
    else Err(HttpError(500, InternalError))
  }

  /** A row written by submit_resume reads back with the analysis' score, feedback and keyword lists. */
  lemma RecordReadsBack(id: int, upload: Upload, acc: Accepted, jobDescription: string)
    ensures ReadRow(id, Record(upload, acc, jobDescription)) ==
              Ok(UploadResponse(id, acc.analysis.score, acc.analysis.feedback,
                                acc.analysis.matched, acc.analysis.missing))
  {
    JsonText.DecodeEncode(acc.analysis.matched);
    JsonText.DecodeEncode(acc.analysis.missing);
  }

  /** The resume_submissions table, with the ids the database hands out. */
  class SubmissionStore {
    var rows: map<int, Submission>
    var nextId: int

    /** Every stored id is positive and below the next id to hand out. */
    ghost predicate Valid()
      reads this
    {
      1 <= nextId && forall id :: id in rows ==> 1 <= id < nextId
    }

    /** An empty table. */
    constructor ()
      ensures Valid()
      ensures rows == map[] && nextId == 1
    {
      rows := map[];
      nextId := 1;
    }

    /**
     * submit_resume: on a rejected request nothing is stored and the error
     * is returned; otherwise the record is stored under a fresh id and the
     * response carries the analysis, its keyword lists read back from the
     * stored JSON text.
     */
    method SubmitResume(upload: Upload, jobDescription: string, ex: FileParser.Extractors,
                        rt: Runtime, ai: AiClient.AiRequest -> AiClient.Transport)
      returns (r: Result<UploadResponse, HttpError>)
      requires Valid()
      modifies this
      ensures Valid()
      ensures var h := Accept(upload, jobDescription, ex, rt, ai);
              h.Err? ==> r == Err(h.error) && rows == old(rows) && nextId == old(nextId)
      ensures var h := Accept(upload, jobDescription, ex, rt, ai);
              h.Ok? ==>
                && old(nextId) !in old(rows)
                && rows == old(rows)[old(nextId) := Record(upload, h.value, jobDescription)]
                && nextId == old(nextId) + 1
                && r == Ok(UploadResponse(old(nextId), h.value.analysis.score, h.value.analysis.feedback,
                                          h.value.analysis.matched, h.value.analysis.missing))
                && r == ReadRow(old(nextId), rows[old(nextId)])
    {
      var h := Accept(upload, jobDescription, ex, rt, ai);
      if h.Err? {
        r := Err(h.error);
        return;
      }
      r := Store(upload, h.value, jobDescription);
    }

    /** Lines 72-95: the row is added and committed under the next id, and the response is read back from it. */
    method Store(upload: Upload, accepted: Accepted, jobDescription: string) returns (r: Result<UploadResponse, HttpError>)
      requires Valid()
      modifies this
      ensures Valid()
      ensures old(nextId) !in old(rows)
      ensures rows == old(rows)[old(nextId) := Record(upload, accepted, jobDescription)]
      ensures nextId == old(nextId) + 1
      ensures r == Ok(UploadResponse(old(nextId), accepted.analysis.score, accepted.analysis.feedback,
                                     accepted.analysis.matched, accepted.analysis.missing))
      ensures r == ReadRow(old(nextId), rows[old(nextId)])
    {
      var row := Record(upload, accepted, jobDescription);
      var id := nextId;
      RecordReadsBack(id, upload, accepted, jobDescription);
      r := ReadRow(id, row);
      rows := rows[id := row];
      nextId := id + 1;
    }

    /** get_submission: 404 for an unknown id, otherwise the stored row as ReadRow answers it. */
    method GetSubmission(id: int) returns (r: Result<UploadResponse, HttpError>)
      ensures id !in rows ==> r == Err(HttpError(404, NotFound))
      ensures id in rows ==> r == ReadRow(id, rows[id])
      ensures id < 1 && Valid() ==> r == Err(HttpError(404, NotFound))
    {
      if id !in rows {
        r := Err(HttpError(404, NotFound));
      } else {
        r := ReadRow(id, rows[id]);
      }
    }
  }
}
