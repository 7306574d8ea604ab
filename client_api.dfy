/**
 * The browser's API client: the file validator, the response interceptor that
 * turns every failed request into one user-facing message, and the
 * submit-a-resume call built on them.
 */
module ClientApi {
  import opened Wrappers
  import Text

  /** Largest accepted upload: 10 MiB. */
  const MaxFileSize: nat := 10 * 1024 * 1024
  const PdfType := "application/pdf"
  const DocxType := "application/vnd.openxmlformats-officedocument.wordprocessingml.document"
  const AllowedTypes: seq<string> := [PdfType, DocxType]

  const NoFileMessage := "No file selected"
  const TooLargeMessage := "File size must be less than 10MB"
  const WrongTypeMessage := "Only PDF and DOCX files are supported"

  /** The browser File the user picked or dropped: name, size in bytes and MIME type. */
  datatype FileInfo = FileInfo(name: string, size: nat, mimeType: string)

  /** `{isValid, error}` as validateFile returns it; `error` is absent on success. */
  datatype Validation = Validation(isValid: bool, error: Option<string>)

  /** validateFile: absence, then size, then type; the first failing rule decides the message. */
  function ValidateFile(file: Option<FileInfo>): (v: Validation)
    ensures v.isValid <==> file.Some? && file.value.size <= MaxFileSize && file.value.mimeType in AllowedTypes
    ensures v.isValid <==> v.error.None?
    ensures file.None? ==> v.error == Some(NoFileMessage)
    ensures file.Some? && file.value.size > MaxFileSize ==> v.error == Some(TooLargeMessage)
    ensures file.Some? && file.value.size <= MaxFileSize && file.value.mimeType !in AllowedTypes ==>
              v.error == Some(WrongTypeMessage)
  {
    if file.None? then Validation(false, Some(NoFileMessage))
    else if file.value.size > MaxFileSize then Validation(false, Some(TooLargeMessage))
    else if file.value.mimeType !in AllowedTypes then Validation(false, Some(WrongTypeMessage))
    else Validation(true, None)
  }

  /** The size limit is inclusive: a file of exactly 10 MiB of an allowed type is accepted, one byte more is not. */
  lemma SizeLimitIsInclusive(name: string, mimeType: string)
    requires mimeType in AllowedTypes
    ensures ValidateFile(Some(FileInfo(name, 10485760, mimeType))).isValid
    ensures ValidateFile(Some(FileInfo(name, 10485761, mimeType))).error == Some(TooLargeMessage)
  {
  }

  /** The size rule runs before the type rule: an oversized file of the wrong type gets the size message. */
  lemma SizeCheckedBeforeType(f: FileInfo)
    requires f.size > MaxFileSize && f.mimeType !in AllowedTypes
    ensures ValidateFile(Some(f)).error == Some(TooLargeMessage)
  {
  }

  /**
   * How a request failed, as the response interceptor sees the error:
   * a response with an error status and the body's optional `detail`,
   * a request that got no response, or an error raised before sending
   * (with its optional message).
   */
  datatype Outcome =
    | Response(status: nat, detail: Option<string>)
    | NoResponse
    | Other(message: Option<string>)

  const BadRequestFallback := "Invalid request. Please check your input."
  const TooLargeResponseMessage := "File too large. Please upload a smaller file."
  const UnprocessableMessage := "Invalid file format or missing required fields."
  const ServerErrorMessage := "Server error. Please try again later."
  const NetworkErrorMessage := "Network error. Please check your connection and try again."
  const UnexpectedErrorMessage := "An unexpected error occurred."
  const StatusPrefix := "Request failed with status "

  /** JavaScript's `x || fallback` on an optional string: a present, non-empty x wins. */
  function OrElse(x: Option<string>, fallback: string): (r: string)
    ensures x.Some? && x.value != "" ==> r == x.value
    ensures x.None? || x.value == "" ==> r == fallback
    ensures fallback != "" ==> r != ""
  {
    if x.Some? && x.value != "" then x.value else fallback
  }

  /** The statuses whose message is fixed whatever the body says. */
  predicate FixedStatus(status: nat) {
    status == 413 || status == 422 || status == 500
  }

  /** The message the response interceptor throws for a failed request. */
  function ErrorMessage(o: Outcome): (msg: string)
    ensures msg != ""
  {
    match o
    case Response(status, detail) =>
      if status == 400 then OrElse(detail, BadRequestFallback)
      else if status == 413 then TooLargeResponseMessage
      else if status == 422 then UnprocessableMessage
      else if status == 500 then ServerErrorMessage
      else OrElse(detail, StatusPrefix + Text.NatToString(status))
    case NoResponse => NetworkErrorMessage
    case Other(message) => OrElse(message, UnexpectedErrorMessage)
  }

  /** 413, 422 and 500 map to fixed messages: the body's detail makes no difference. */
  lemma FixedStatusIgnoresDetail(status: nat, d1: Option<string>, d2: Option<string>)
    requires FixedStatus(status)
    ensures ErrorMessage(Response(status, d1)) == ErrorMessage(Response(status, d2))
    ensures status == 413 ==> ErrorMessage(Response(status, d1)) == TooLargeResponseMessage
    ensures status == 422 ==> ErrorMessage(Response(status, d1)) == UnprocessableMessage
    ensures status == 500 ==> ErrorMessage(Response(status, d1)) == ServerErrorMessage
  {
  }

  /** For every other status a present, non-empty detail is shown verbatim. */
  lemma DetailShownVerbatim(status: nat, detail: string)
    requires !FixedStatus(status) && detail != ""
    ensures ErrorMessage(Response(status, Some(detail))) == detail
  {
  }

  /**
   * Without a usable detail, 400 gets its own fallback and any other
   * non-fixed status names itself; the status can be read back from that
   * message, so distinct statuses give distinct messages.
   */
  lemma MissingDetailFallback(status: nat, detail: Option<string>)
    requires !FixedStatus(status) && (detail.None? || detail.value == "")
    ensures status == 400 ==> ErrorMessage(Response(status, detail)) == BadRequestFallback
    ensures status != 400 ==>
      var msg := ErrorMessage(Response(status, detail));
      StatusPrefix <= msg && Text.IsDigits(msg[|StatusPrefix|..]) &&
      Text.DecimalValue(msg[|StatusPrefix|..]) == status
  {
    if status != 400 {
      var msg := ErrorMessage(Response(status, detail));
      assert msg[|StatusPrefix|..] == Text.NatToString(status);
      Text.DecimalRoundTrip(status);
    }
  }

  /** With no response the message is the fixed network message; with no request, the error's own message or a fallback. */
  lemma NoResponseMessages(message: Option<string>)
    ensures ErrorMessage(NoResponse) == NetworkErrorMessage
    ensures message.Some? && message.value != "" ==> ErrorMessage(Other(message)) == message.value
    ensures message.None? ==> ErrorMessage(Other(message)) == UnexpectedErrorMessage
  {
  }

  /** The body of a successful submission, as the browser receives it; the keyword lists may be missing. */
  datatype AnalysisBody = AnalysisBody(
    score: real,
    feedback: string,
    matchedKeywords: Option<seq<string>>,
    missingKeywords: Option<seq<string>>)

  /** One part of a multipart form: a file or a text field. */
  datatype PartValue = FilePart(file: FileInfo) | TextPart(text: string)
  datatype FormPart = FormPart(name: string, value: PartValue)

  /** A POST of a multipart form to a path relative to the API base URL. */
  datatype Request = Request(path: string, form: seq<FormPart>)

  /** What the HTTP layer delivers: a 2xx response's body, or the failure the interceptor sees. */
  datatype Reply = Success(data: AnalysisBody) | Failure(outcome: Outcome)

  const SubmitPath := "/api/v1/submit_resume"

  /** The first form part called `name`, as a server reading the form by field name finds it. */
  function FormField(form: seq<FormPart>, name: string): (v: Option<PartValue>)
    ensures v.Some? ==> exists i | 0 <= i < |form| :: form[i] == FormPart(name, v.value)
    ensures v.None? ==> forall i | 0 <= i < |form| :: form[i].name != name
  {
    if form == [] then None
    else if form[0].name == name then Some(form[0].value)
    else FormField(form[1..], name)
  }

  /** The request submitResume sends: `file` then `job_description`, posted to the submit path. */
  function SubmitRequest(file: FileInfo, jobDescription: string): (req: Request)
    ensures req.path == SubmitPath
    ensures |req.form| == 2 && req.form[0].name == "file" && req.form[1].name == "job_description"
    ensures FormField(req.form, "file") == Some(FilePart(file))
    ensures FormField(req.form, "job_description") == Some(TextPart(jobDescription))
  {
    Request(SubmitPath, [FormPart("file", FilePart(file)), FormPart("job_description", TextPart(jobDescription))])
  }

  /**
   * What the server receives for a text part: the multipart/form-data
   * encoding algorithm of the HTML standard (section 4.10.21.8) writes every
   * line break of a string value, whether CR, LF or CR LF, as CR LF.
   */
  function MultipartText(s: string): (r: string)
    ensures |r| >= |s|
    ensures s != [] && s[0] != '\r' && s[0] != '\n' ==> r != [] && r[0] == s[0]
    decreases |s|
  {
    if s == [] then []
    else if s[0] == '\r' && |s| >= 2 && s[1] == '\n' then "\r\n" + MultipartText(s[2..])
    else if s[0] == '\r' || s[0] == '\n' then "\r\n" + MultipartText(s[1..])
    else [s[0]] + MultipartText(s[1..])
  }

  /** A text without line breaks goes over the wire unchanged. */
  lemma {:induction false} MultipartTextNoBreaks(s: string)
    requires forall i | 0 <= i < |s| :: s[i] != '\r' && s[i] != '\n'
    ensures MultipartText(s) == s
    decreases |s|
  {
    if s != [] {
      MultipartTextNoBreaks(s[1..]);
    }
  }

  /** A text that does not end in a line break ends in the same character on the wire. */
  lemma {:induction false} MultipartTextLast(s: string)
    requires s != [] && s[|s| - 1] != '\r' && s[|s| - 1] != '\n'
    ensures var r := MultipartText(s); r != [] && r[|r| - 1] == s[|s| - 1]
    decreases |s|
  {
    if |s| > 1 {
      if s[0] == '\r' && s[1] == '\n' {
        MultipartTextLast(s[2..]);
      } else {
        MultipartTextLast(s[1..]);
      }
    }
  }

  /** On the wire every LF follows a CR and every CR precedes an LF. */
  predicate CrLfOnly(r: string) {
    && (forall i | 0 <= i < |r| && r[i] == '\n' :: i > 0 && r[i - 1] == '\r')
    && (forall i | 0 <= i < |r| && r[i] == '\r' :: i + 1 < |r| && r[i + 1] == '\n')
  }

  /** A CR LF pair or an ordinary character in front of a text without lone breaks leaves none. */
  lemma PrependKeepsCrLfOnly(head: string, t: string)
    requires head == "\r\n" || (|head| == 1 && head[0] != '\r' && head[0] != '\n')
    requires CrLfOnly(t)
    ensures CrLfOnly(head + t)
  {
    var r := head + t;
    forall i | 0 <= i < |r|
      ensures r[i] == '\n' ==> i > 0 && r[i - 1] == '\r'
      ensures r[i] == '\r' ==> i + 1 < |r| && r[i + 1] == '\n'
    {
      if i < |head| {
        assert r[i] == head[i];
        if |head| == 2 {
          assert r[1] == '\n';
        }
      } else {
        var j := i - |head|;
        assert r[i] == t[j];
        assert t[j] == '\n' ==> j > 0 && t[j - 1] == '\r';
        assert t[j] == '\r' ==> j + 1 < |t| && t[j + 1] == '\n';
        if j > 0 {
          assert r[i - 1] == t[j - 1];
        }
        if j + 1 < |t| {
          assert r[i + 1] == t[j + 1];
        }
      }
    }
  }

  /** The encoding leaves no lone CR and no lone LF. */
  lemma {:induction false} MultipartTextBreaksAreCrLf(s: string)
    ensures CrLfOnly(MultipartText(s))
    decreases |s|
  {
    if s != [] {
      if s[0] == '\r' && |s| >= 2 && s[1] == '\n' {
        MultipartTextBreaksAreCrLf(s[2..]);
        PrependKeepsCrLfOnly("\r\n", MultipartText(s[2..]));
      } else if s[0] == '\r' || s[0] == '\n' {
        MultipartTextBreaksAreCrLf(s[1..]);
        PrependKeepsCrLfOnly("\r\n", MultipartText(s[1..]));
      } else {
        MultipartTextBreaksAreCrLf(s[1..]);
        PrependKeepsCrLfOnly([s[0]], MultipartText(s[1..]));
      }
    }
  }

  /** How the awaited call settles: the response body, or the interceptor's message. */
  function Settle(reply: Reply): (r: Result<AnalysisBody, string>)
    ensures r.Ok? <==> reply.Success?
    ensures reply.Success? ==> r.value == reply.data
    ensures reply.Failure? ==> r.error == ErrorMessage(reply.outcome) && r.error != ""
  {
    match reply
    case Success(data) => Ok(data)
    case Failure(outcome) => Err(ErrorMessage(outcome))
  }

  /**
   * submitResume with the network as a parameter: one POST of the two-part
   * form, whose body is returned unchanged on success; a failure surfaces as a
   * non-empty message.
   */
  function SubmitResume(file: FileInfo, jobDescription: string, send: Request -> Reply): (r: Result<AnalysisBody, string>)
    ensures send(SubmitRequest(file, jobDescription)).Success? ==>
              r == Ok(send(SubmitRequest(file, jobDescription)).data)
    ensures send(SubmitRequest(file, jobDescription)).Failure? ==>
              r == Err(ErrorMessage(send(SubmitRequest(file, jobDescription)).outcome))
  {
    Settle(send(SubmitRequest(file, jobDescription)))
  }
}
