/**
 * How the browser side and the server side fit together: what the upload
 * form lets through the server's checks accept, how the server's errors read
 * to the user, and what an unreachable AI service leaves in the table.
 */
module Workflow {
  import opened Wrappers
  import Text
  import ClientApi
  import UploadFormModel
  import PyRuntime
  import FileParser
  import AiClient
  import ServerApi

  /**
   * The job_description the server receives when the form submits: the
   * description trimmed as JavaScript trims, with every line break written
   * as CR LF by the multipart encoding.
   */
  function Received(jobDescription: string): (w: string)
    ensures |w| >= |Text.Trim(Text.Js, jobDescription)|
    ensures Text.Trim(Text.Js, jobDescription) == [] ==> w == []
  {
    ClientApi.MultipartText(Text.Trim(Text.Js, jobDescription))
  }

  /**
   * The trimmed description has only Basic Multilingual Plane characters and
   * no whitespace only Python strips at its ends: then Python's strip leaves
   * what the server receives as it is, and its length is at least the form's
   * count.
   */
  lemma ReceivedKeepsCount(jobDescription: string)
    requires var t := Text.Trim(Text.Js, jobDescription);
             && (forall i | 0 <= i < |t| :: t[i] as int < 0x10000)
             && (t != [] ==> !Text.PyOnlySpace(t[0]) && !Text.PyOnlySpace(t[|t| - 1]))
    ensures Text.Trim(Text.Py, Received(jobDescription)) == Received(jobDescription)
    ensures |Received(jobDescription)| >= Text.Utf16Length(Text.Trim(Text.Js, jobDescription))
  {
    var t := Text.Trim(Text.Js, jobDescription);
    var w := Received(jobDescription);
    if t != [] {
      ClientApi.MultipartTextLast(t);
      Text.TrimUnchanged(Text.Py, w);
    }
  }

  /**
   * A file the browser accepts and a description the form submits pass the
   * server's form validation and checks, provided the trimmed description has
   * no character outside the Basic Multilingual Plane and neither starts nor
   * ends with whitespace only Python strips: the form sends the trimmed
   * description, and the server counts at least as many characters in it as
   * the form did.
   */
  lemma FormSubmissionPassesServerChecks(file: ClientApi.FileInfo, jobDescription: string)
    requires ClientApi.ValidateFile(Some(file)).isValid
    requires UploadFormModel.SubmitCheck(Some(file), jobDescription).None?
    requires var t := Text.Trim(Text.Js, jobDescription);
             && (forall i | 0 <= i < |t| :: t[i] as int < 0x10000)
             && (t != [] ==> !Text.PyOnlySpace(t[0]) && !Text.PyOnlySpace(t[|t| - 1]))
    ensures var t := Text.Trim(Text.Js, jobDescription);
            ClientApi.FormField(ClientApi.SubmitRequest(file, t).form, "job_description") == Some(ClientApi.TextPart(t))
    ensures ServerApi.ValidateForm(Received(jobDescription)).None?
    ensures ServerApi.CheckRequest(file.mimeType, Received(jobDescription)).None?
  {
    var t := Text.Trim(Text.Js, jobDescription);
    var request := ClientApi.SubmitRequest(file, t);
    assert ClientApi.FormField(request.form, "job_description") == Some(ClientApi.TextPart(t));
    ReceivedKeepsCount(jobDescription);
    SameAllowedTypes(file.mimeType);
  }

  /**
   * Without the whitespace proviso the form submits a description the server
   * rejects as too short: 49 letters followed by U+001C, which JavaScript's
   * trim keeps and Python's strip removes.
   */
  lemma FormSendsWhatServerStrips(file: ClientApi.FileInfo)
    requires ClientApi.ValidateFile(Some(file)).isValid
    ensures var d := seq(49, _ => 'a') + ['\U{1C}'];
            && UploadFormModel.SubmitCheck(Some(file), d).None?
            && ServerApi.CheckRequest(file.mimeType, Received(d)) ==
                 Some(ServerApi.HttpError(400, ServerApi.ShortDescription))
  {
    SameAllowedTypes(file.mimeType);
    var letters := seq(49, _ => 'a');
    var d := letters + ['\U{1C}'];
    Text.TrimUnchanged(Text.Js, d);
    assert forall i | 0 <= i < |d| :: d[i] as int < 0x10000 && d[i] != '\r' && d[i] != '\n';
    ClientApi.MultipartTextNoBreaks(d);
    assert Text.TrimStart(Text.Py, d) == d;
    assert d[..|d| - 1] == letters;
    assert Text.TrimEnd(Text.Py, letters) == letters;
    assert Text.Trim(Text.Py, d) == letters;
    Text.TrimEmptyIffBlank(Text.Py, d);
  }

  /**
   * Without the Basic Multilingual Plane proviso the form submits a
   * description the server rejects as too short: 25 emoji are 50 UTF-16
   * code units to the form but 25 characters to the server.
   */
  lemma FormCountsWhatServerHalves(file: ClientApi.FileInfo)
    requires ClientApi.ValidateFile(Some(file)).isValid
    ensures var d := seq(25, _ => '\U{1F600}');
            && UploadFormModel.SubmitCheck(Some(file), d).None?
            && ServerApi.CheckRequest(file.mimeType, Received(d)) ==
                 Some(ServerApi.HttpError(400, ServerApi.ShortDescription))
  {
    SameAllowedTypes(file.mimeType);
    var d := seq(25, _ => '\U{1F600}');
    Text.TrimUnchanged(Text.Js, d);
    ClientApi.MultipartTextNoBreaks(d);
    Text.TrimUnchanged(Text.Py, d);
    Text.TrimEmptyIffBlank(Text.Py, d);
  }

  /** Lower-case ASCII letters only: no whitespace, no line break, one UTF-16 code unit each. */
  predicate Letters(s: string) {
    forall i | 0 <= i < |s| :: 'a' <= s[i] <= 'z'
  }

  /** `n` line feeds, then `rest`. */
  function LineFeedsThen(n: nat, rest: string): (r: string)
    ensures |r| == n + |rest|
    ensures forall i | 0 <= i < n :: r[i] == '\n'
    ensures forall i | n <= i < |r| :: r[i] == rest[i - n]
  {
    if n == 0 then rest else "\n" + LineFeedsThen(n - 1, rest)
  }

  /** A description of FormStricterThanServer: a letter, five line feeds, then the given letters. */
  function MultiLine(letters: string): string {
    "a" + LineFeedsThen(5, letters)
  }

  /** In the text area it is not blank, trimming keeps it, and it is six code units longer than the letters. */
  lemma MultiLineInForm(letters: string)
    requires Letters(letters) && letters != []
    ensures var d := MultiLine(letters);
            && !Text.Blank(Text.Js, d)
            && Text.Trim(Text.Js, d) == d
            && Text.Utf16Length(d) == |letters| + 6
  {
    var d := MultiLine(letters);
    assert d[0] == 'a' && d[|d| - 1] == letters[|letters| - 1];
    Text.TrimUnchanged(Text.Js, d);
    assert forall i | 0 <= i < |d| :: d[i] as int < 0x10000 by {
      forall i | 0 <= i < |d| ensures d[i] as int < 0x10000 {
        if i > 0 { assert d[i] == LineFeedsThen(5, letters)[i - 1]; }
      }
    }
    assert !Text.IsSpace(Text.Js, d[0]);
  }

  /** A line feed in front becomes CR LF in front. */
  lemma PrependLineFeed(x: string)
    ensures ClientApi.MultipartText("\n" + x) == "\r\n" + ClientApi.MultipartText(x)
  {
    var y := "\n" + x;
    assert y[0] == '\n' && y[1..] == x;
  }

  /** On the wire each of `n` line feeds takes two characters, and a rest without line breaks keeps its length. */
  lemma {:induction false} LineFeedsOnWire(n: nat, rest: string)
    requires forall i | 0 <= i < |rest| :: rest[i] != '\r' && rest[i] != '\n'
    ensures |ClientApi.MultipartText(LineFeedsThen(n, rest))| == 2 * n + |rest|
  {
    if n == 0 {
      ClientApi.MultipartTextNoBreaks(rest);
    } else {
      PrependLineFeed(LineFeedsThen(n - 1, rest));
      LineFeedsOnWire(n - 1, rest);
    }
  }

  /** On the wire each of its five line feeds becomes CR LF, and it still starts and ends with a letter. */
  lemma MultiLineOnWire(letters: string)
    requires Letters(letters) && letters != []
    ensures var w := ClientApi.MultipartText(MultiLine(letters));
            |w| == |letters| + 11 && w[0] == 'a' && 'a' <= w[|w| - 1] <= 'z'
  {
    var tail := LineFeedsThen(5, letters);
    LineFeedsOnWire(5, letters);
    var d := MultiLine(letters);
    assert d[0] == 'a' && d[1..] == tail;
    assert ClientApi.MultipartText(d) == "a" + ClientApi.MultipartText(tail);
    assert d[|d| - 1] == letters[|letters| - 1];
    ClientApi.MultipartTextLast(d);
  }

  /**
   * The other way round, the form rejects as too short a description the
   * server would accept: one letter, five line breaks and 39 more letters
   * are 45 characters in the text area but 50 on the wire, where each break
   * is CR LF.
   */
  lemma FormStricterThanServer(file: ClientApi.FileInfo, letters: string)
    requires ClientApi.ValidateFile(Some(file)).isValid
    requires Letters(letters) && |letters| == 39
    ensures var d := MultiLine(letters);
            && UploadFormModel.SubmitCheck(Some(file), d) == Some(UploadFormModel.ShortDescriptionMessage)
            && ServerApi.ValidateForm(Received(d)).None?
            && ServerApi.CheckRequest(file.mimeType, Received(d)).None?
  {
    SameAllowedTypes(file.mimeType);
    MultiLineInForm(letters);
    MultiLineOnWire(letters);
    Text.TrimUnchanged(Text.Py, ClientApi.MultipartText(MultiLine(letters)));
  }

  /**
   * The form's checks counted the way the server counts: what the server
   * receives, stripped as Python strips and measured in characters.
   */
  function AlignedSubmitCheck(file: Option<ClientApi.FileInfo>, jobDescription: string): (failure: Option<string>)
    ensures failure.None? <==>
              file.Some? && |Text.Trim(Text.Py, Received(jobDescription))| >= ServerApi.MinDescriptionLength
    ensures file.Some? && Text.Blank(Text.Py, Received(jobDescription)) ==>
              failure == Some(UploadFormModel.EnterDescriptionMessage)
  {
    var stripped := Text.Trim(Text.Py, Received(jobDescription));
    Text.TrimEmptyIffBlank(Text.Py, Received(jobDescription));
    if file.None? then Some(UploadFormModel.SelectFileMessage)
    else if stripped == [] then Some(UploadFormModel.EnterDescriptionMessage)
    else if |stripped| < UploadFormModel.MinDescriptionLength then Some(UploadFormModel.ShortDescriptionMessage)
    else None
  }

  /**
   * With a file the browser accepts, the aligned checks pass exactly when the
   * server's form validation and checks pass on what it receives, and ask for
   * a description exactly when the server calls it missing or empty.
   */
  lemma AlignedCheckMatchesServer(file: ClientApi.FileInfo, jobDescription: string)
    requires ClientApi.ValidateFile(Some(file)).isValid
    ensures var w := Received(jobDescription);
            AlignedSubmitCheck(Some(file), jobDescription).None? <==>
              ServerApi.ValidateForm(w).None? && ServerApi.CheckRequest(file.mimeType, w).None?
    ensures var w := Received(jobDescription);
            AlignedSubmitCheck(Some(file), jobDescription) == Some(UploadFormModel.EnterDescriptionMessage) <==>
              ServerApi.ValidateForm(w).Some? ||
              ServerApi.CheckRequest(file.mimeType, w) == Some(ServerApi.HttpError(400, ServerApi.EmptyDescription))
  {
    SameAllowedTypes(file.mimeType);
    var w := Received(jobDescription);
    Text.TrimEmptyIffBlank(Text.Py, w);
    if w == [] {
      assert Text.Trim(Text.Py, w) == [];
    }
  }

  /**
   * Within the provisos of FormSubmissionPassesServerChecks the form is never
   * more lenient than the aligned checks, and without line breaks the two
   * give the same answer.
   */
  lemma AlignedAgreesWithForm(file: Option<ClientApi.FileInfo>, jobDescription: string)
    requires var t := Text.Trim(Text.Js, jobDescription);
             && (forall i | 0 <= i < |t| :: t[i] as int < 0x10000)
             && (t != [] ==> !Text.PyOnlySpace(t[0]) && !Text.PyOnlySpace(t[|t| - 1]))
    ensures UploadFormModel.SubmitCheck(file, jobDescription).None? ==> AlignedSubmitCheck(file, jobDescription).None?
    ensures var t := Text.Trim(Text.Js, jobDescription);
            (forall i | 0 <= i < |t| :: t[i] != '\r' && t[i] != '\n') ==>
              AlignedSubmitCheck(file, jobDescription) == UploadFormModel.SubmitCheck(file, jobDescription)
  {
    var t := Text.Trim(Text.Js, jobDescription);
    ReceivedKeepsCount(jobDescription);
    Text.TrimEmptyIffBlank(Text.Js, jobDescription);
    if forall i | 0 <= i < |t| :: t[i] != '\r' && t[i] != '\n' {
      ClientApi.MultipartTextNoBreaks(t);
    }
  }

  /** The browser and the server allow the same two content types. */
  lemma SameAllowedTypes(mimeType: string)
    ensures mimeType in ClientApi.AllowedTypes <==> mimeType in ServerApi.AllowedTypes
  {
    assert ClientApi.PdfType == FileParser.PdfType && ClientApi.DocxType == FileParser.DocxType;
  }

  /**
   * Every error the endpoint returns reads to the user as the fixed server
   * message when it is a 500, as the fixed "missing required fields" message
   * when it is the framework's 422, and as its own detail when it is a 400.
   */
  lemma ServerErrorAsShown(upload: ServerApi.Upload, jobDescription: string, ex: FileParser.Extractors,
                           rt: PyRuntime.Runtime, ai: AiClient.AiRequest -> AiClient.Transport)
    requires ServerApi.Accept(upload, jobDescription, ex, rt, ai).Err?
    ensures var e := ServerApi.Accept(upload, jobDescription, ex, rt, ai).error;
            ClientApi.ErrorMessage(ClientApi.Response(e.status, Some(e.detail))) ==
              if e.status == 500 then ClientApi.ServerErrorMessage
              else if e.status == 422 then ClientApi.UnprocessableMessage
              else e.detail
  {
    var e := ServerApi.Accept(upload, jobDescription, ex, rt, ai).error;
    if e.status == 500 || e.status == 422 {
      ClientApi.FixedStatusIgnoresDetail(e.status, Some(e.detail), None);
    } else {
      ClientApi.DetailShownVerbatim(e.status, e.detail);
    }
  }
}
