# ATS resume checker — a Dafny model of its core

The ATS resume checker takes a resume file (PDF or DOCX) and a job
description and returns an ATS compatibility score with feedback and
keyword lists. Its browser side is a React app:
- the API helper `api.js` validates files, builds the multipart request and maps failed responses to messages;
- the upload form, the result page and the app shell.

Its server side is a FastAPI endpoint in `api.py`. It:
- checks the request;
- extracts text with the parsers of `file_parser.py`;
- asks an AI chat service through `blackbox_client.py`;
- stores the outcome in the `resume_submissions` table and reads rows back.

This project models that core in Dafny and proves what the code promises about it.

| file | module | models |
|---|---|---|
| wrappers.dfy | `Wrappers` | `Option`, `Result` |
| text.dfy | `Text` | JavaScript `trim()` and Python `strip()` with their own whitespace sets, JavaScript's UTF-16 `length`, `"\n".join`, `${n}` for integers |
| client_api.dfy | `ClientApi` | `validateFile`, the response interceptor, the multipart request, `submitResume` |
| upload_form.dfy | `UploadFormModel` | the upload form's state (a class) and its handlers |
| result_page.dfy | `ResultPageModel` | the score bands, keyword previews and the rendered report |
| app.dfy | `AppShell` | the app shell's state (a class): which view is shown |
| python.dfy | `PyRuntime` | the JSON values and Python exceptions the server works with, and `in`, `len`, `[]`, `float()`, `str()` |
| json_text.dfy | `JsonText` | `json.dumps` of a list of strings (with `ensure_ascii`) and the `json.loads` reading it back |
| file_parser.dfy | `FileParser` | `parse_pdf`, `parse_docx`, `extract_text_from_file` |
| ai_client.dfy | `AiClient` | `compare_resume_job` from the HTTP call on |
| server_api.dfy | `ServerApi` | `submit_resume`, `get_submission`, and the submissions table (a class) |
| workflow.dfy | `Workflow` | how the browser side and the server side fit together |

The two text extractors (pdfminer and python-docx) are parameters (`FileParser.Extractors`). So are `json.loads` of the AI's reply, `float()` of a string and the text SQLite stores for a number (`PyRuntime.Runtime`). The HTTP exchange with the AI service is the function `ai`, and the one with the server is `send`.

Where the documented behaviour of the system and its code differ, the model follows the code:
- A 422 response shows the fixed message "Invalid file format or missing required fields." and ignores any detail the server sends.
- The form enforces no 5000-character limit when it submits. The only limit is the text area's `maxLength`, which `SetJobDescription` models by keeping what is typed up to 5000 UTF-16 code units.
- The "at least 50 characters" of the form and of the server are two different counts. The form counts UTF-16 code units after JavaScript's `trim()`. The server counts code points after Python's `strip()`, which also removes U+001C to U+001F and U+0085. See "## Findings".
- An empty `job_description` never reaches the endpoint's own checks. FastAPI answers it with a 422 "Field required" because the form field is required (api.py:16).
- What the server receives is not exactly what the form holds. The browser sends the form as `multipart/form-data`, and that encoding writes every line break (CR, LF or CR LF) as CR LF (section 4.10.21.8 of the HTML standard). A description with line breaks is therefore longer on the server than in the form. See "## Findings".
- Errors are plain message strings, not a taxonomy of error kinds.

## Model

| member | source | states |
|---|---|---|
| Text.TrimStart | frontend/src/components/UploadForm.jsx:57 | the result is no longer than the input and does not start with whitespace of the language in question |
| Text.TrimStartDrops | backend/api.py:41 | stripping the left end removes exactly a blank prefix |
| Text.TrimEnd | backend/api.py:41 | the result is no longer than the input and does not end with whitespace of the language in question |
| Text.TrimEndDrops | backend/api.py:41 | stripping the right end removes exactly a blank suffix |
| Text.Trim | frontend/src/components/UploadForm.jsx:57-62 | `trim()` / `strip()` never lengthens, and a non-empty result neither starts nor ends with that language's whitespace |
| Text.TrimBounds | frontend/src/components/UploadForm.jsx:57 | `trim()` gives a contiguous slice with blank text on both sides, and it neither starts nor ends with whitespace |
| Text.TrimEmptyIffBlank | backend/api.py:41-42 | `not s.strip()` holds exactly when every character is whitespace |
| Text.BlankTrimStart | frontend/src/components/UploadForm.jsx:57 | an all-whitespace string trims to empty |
| Text.TrimUnchanged | backend/api.py:41-44 | trimming leaves a string as it is iff it is empty or neither starts nor ends with whitespace |
| Text.TrimIdempotent | frontend/src/components/UploadForm.jsx:71 | trimming twice with the same language's whitespace is trimming once |
| Text.Join | backend/utils/file_parser.py:24 | joining no parts gives "", one part gives that part, and the first part always starts the result |
| Text.JoinBlankIff | backend/utils/file_parser.py:24-25 | parts joined with a blank separator are blank iff every part is blank |
| Text.BlankConcat | backend/utils/file_parser.py:24 | a concatenation is blank iff both halves are |
| Text.Utf16Length | frontend/src/components/UploadForm.jsx:62 | JavaScript's `length` lies between the number of characters and twice it; it equals it when every character is in the Basic Multilingual Plane and doubles it when none is |
| Text.Utf16Prefix | frontend/src/components/UploadForm.jsx:275 | the longest prefix that fits a UTF-16 limit: the whole string when it fits, and otherwise the next character would not fit |
| Text.DigitChar | frontend/src/utils/api.js:49 | a digit character has the digit's value |
| Text.NatToString | frontend/src/utils/api.js:49 | the status in the message is written as decimal digits with no leading zero |
| Text.DecimalRoundTrip | frontend/src/utils/api.js:49 | reading the written digits back gives the status |
| Text.NatToStringInjective | frontend/src/utils/api.js:49 | different statuses give different messages |
| ClientApi.ValidateFile | frontend/src/utils/api.js:105-125 | a file is valid iff one is selected, it is at most 10 MB and its type is PDF or DOCX; otherwise the first failing check's message, in order: no file, size, type |
| ClientApi.SizeLimitIsInclusive | frontend/src/utils/api.js:116 | exactly 10485760 bytes passes and one byte more is too large |
| ClientApi.SizeCheckedBeforeType | frontend/src/utils/api.js:116-122 | a file that is too large and of the wrong type is reported as too large |
| ClientApi.ErrorMessage | frontend/src/utils/api.js:31-58 | every failed request is turned into a non-empty message |
| ClientApi.FixedStatusIgnoresDetail | frontend/src/utils/api.js:42-47 | for 413, 422 and 500 the message is fixed and independent of the server's detail |
| ClientApi.DetailShownVerbatim | frontend/src/utils/api.js:40-41 | for any other status, a non-empty detail is shown as it is |
| ClientApi.MissingDetailFallback | frontend/src/utils/api.js:41 | without a detail, a 400 shows the "Invalid request" fallback and any other status shows "Request failed with status " followed by the status in decimal |
| ClientApi.NoResponseMessages | frontend/src/utils/api.js:51-57 | no response gives the network message; another failure gives its own message or the generic one |
| ClientApi.OrElse | frontend/src/utils/api.js:41 | JavaScript's logical or of an optional string and a fallback: a present, non-empty x wins; otherwise the fallback; the result is non-empty whenever the fallback is |
| ClientApi.FormField | frontend/src/utils/api.js:68-70 | a field found is in the form under that name; a field not found has no part with that name |
| ClientApi.SubmitRequest | frontend/src/utils/api.js:67-76 | the request goes to the submit path with exactly two parts: the file under "file" and the description under "job_description" |
| ClientApi.MultipartText | frontend/src/utils/api.js:68-72 | the text the server receives for a form field: never shorter than what was typed, starting with the same character unless that is a line break |
| ClientApi.MultipartTextNoBreaks | frontend/src/utils/api.js:68-72 | text without CR or LF is sent unchanged |
| ClientApi.MultipartTextLast | frontend/src/utils/api.js:68-72 | text that does not end in a line break ends in the same character on the wire |
| ClientApi.MultipartTextBreaksAreCrLf | frontend/src/utils/api.js:68-72 | on the wire every LF follows a CR and every CR is followed by an LF |
| ClientApi.Settle | frontend/src/utils/api.js:27-58 | success carries the response data; failure carries the interceptor's non-empty message |
| ClientApi.SubmitResume | frontend/src/utils/api.js:67-79 | the result is the data of a successful exchange or the interceptor's message for a failed one |
| UploadFormModel.SubmitCheck | frontend/src/components/UploadForm.jsx:52-65 | the form submits iff a file is selected and the description trimmed as JavaScript trims is at least 50 UTF-16 code units long; otherwise the message of the first failing check |
| UploadFormModel.EnabledButStillRejected | frontend/src/components/UploadForm.jsx:290 | the button can be enabled (non-blank description) while the submit handler still rejects the description as too short |
| UploadFormModel.UploadForm.SubmitEnabled | frontend/src/components/UploadForm.jsx:290 | the button is enabled iff not loading, a file is selected and the description is not blank |
| UploadFormModel.UploadForm.constructor | frontend/src/components/UploadForm.jsx:5-8 | no file, empty description, no error, not loading |
| UploadFormModel.UploadForm.HandleFileChange | frontend/src/components/UploadForm.jsx:12-24 | clears the error; a valid file is selected; an invalid one leaves the old file and shows the validation error; nothing selected changes nothing else |
| UploadFormModel.UploadForm.SetJobDescription | frontend/src/components/UploadForm.jsx:272-275 | the description becomes a prefix of what was typed: all of it when it fits in 5000 UTF-16 code units, otherwise cut where the next character would not fit |
| UploadFormModel.UploadForm.RemoveFile | frontend/src/components/UploadForm.jsx:80-85 | the file is cleared and nothing else changes |
| UploadFormModel.UploadForm.BeginSubmit | frontend/src/components/UploadForm.jsx:49-71 | a failing check sets its message and sends nothing; otherwise the form starts loading, clears the error and sends the file with the description trimmed as JavaScript trims |
| UploadFormModel.UploadForm.CompleteSubmit | frontend/src/components/UploadForm.jsx:71-77 | loading ends; a result is handed on, and a failure shows its message or the fallback |
| UploadFormModel.DisabledWhileLoading | frontend/src/components/UploadForm.jsx:290 | the button is disabled while a request is in flight |
| UploadFormModel.InterceptorMessageShownVerbatim | frontend/src/components/UploadForm.jsx:74 | the interceptor's messages are never empty, so the form's fallback never replaces them |
| ResultPageModel.BandOf | frontend/src/components/ResultPage.jsx:22-38 | excellent iff the score is at least 80, good iff it is from 60 up to 80, needs improvement iff it is below 60 |
| ResultPageModel.ScoreColor | frontend/src/components/ResultPage.jsx:22-26 | each of the three colours is shown exactly for its band |
| ResultPageModel.ScoreMessage | frontend/src/components/ResultPage.jsx:28-32 | each of the three headlines is shown exactly for its band |
| ResultPageModel.ScoreDescription | frontend/src/components/ResultPage.jsx:34-38 | each of the three descriptions is shown exactly for its band |
| ResultPageModel.StrokeColor | frontend/src/components/ResultPage.jsx:91 | each of the three ring colours is shown exactly for its band |
| ResultPageModel.BandMonotone | frontend/src/components/ResultPage.jsx:91 | a higher score never falls into a lower band |
| ResultPageModel.KeywordPreview | frontend/src/components/ResultPage.jsx:196-230 | the first five keywords are shown, and "+n more" appears iff there are more than five, where n is the remainder |
| ResultPageModel.KeywordsOrEmpty | frontend/src/components/ResultPage.jsx:19 | an absent keyword list defaults to the empty list |
| ResultPageModel.Render | frontend/src/components/ResultPage.jsx:6-19 | no result gives the "no results" page; otherwise the band of the score, the feedback, the counts, the previews, and the keyword sections present iff non-empty |
| AppShell.App.CurrentView | frontend/src/App.jsx:32-36 | the upload form is shown iff there is no result; otherwise the result page for that result |
| AppShell.App.FooterShown | frontend/src/App.jsx:39 | the footer is shown iff the upload form is |
| AppShell.App.constructor | frontend/src/App.jsx:8 | starts on the upload form |
| AppShell.App.HandleResult | frontend/src/App.jsx:10-14 | shows the result page for the analysis, without the footer |
| AppShell.App.HandleBack | frontend/src/App.jsx:16-25 | returns to the upload form, with the footer |
| AppShell.ResultViewNeverEmpty | frontend/src/App.jsx:32-33 | the result page the shell shows always renders a report |
| PyRuntime.Contains | backend/utils/blackbox_client.py:80 | `in` on a dict tests its keys; on a number, bool or None it raises TypeError |
| PyRuntime.Len | backend/utils/blackbox_client.py:80 | `len` of a list is its length |
| PyRuntime.GetItem | backend/utils/blackbox_client.py:81 | subscripting a dict by a present key or a list by an index in range gives that item |
| PyRuntime.Float | backend/utils/blackbox_client.py:93 | `float()` of a number is the number; of None, a list or a dict it is a TypeError; of a string it fails exactly when the string does not parse, with a ValueError |
| PyRuntime.Str | backend/api.py:104 | `str()` of an HTTPException is the status in decimal digits that read back as the status, then ": " and the detail; of any other exception, its message |
| JsonText.HexDigit | backend/api.py:78 | a hex digit character has the digit's value |
| JsonText.Hex4RoundTrip | backend/api.py:78 | four hex digits read back as the 16-bit value written |
| JsonText.UEscape | backend/api.py:78 | a `\uXXXX` escape is six characters with the value's four hex digits |
| JsonText.EscapeChar | backend/api.py:78 | with `ensure_ascii`, every escaped character is printable ASCII |
| JsonText.EscapeString | backend/api.py:78 | the text of an encoded string is printable ASCII |
| JsonText.QuoteAll | backend/api.py:78-79 | each item is quoted in place |
| JsonText.EncodeList | backend/api.py:78-79 | the text is bracketed, and it is "[]" iff the list is empty |
| JsonText.DecodeBody | backend/api.py:92 | a string body that reads leaves strictly less text after its closing quote |
| JsonText.DecodeItems | backend/api.py:92 | items that read start with a quote and are never an empty list |
| JsonText.DecodeList | backend/api.py:92 | a list that reads starts with "[", and it reads as the empty list iff the text is "[]" |
| JsonText.DecodeEscapedPair | backend/api.py:92 | a surrogate-pair escape reads back as the character beyond 16 bits |
| JsonText.DecodeSurrogatePair | backend/api.py:92 | a character beyond 16 bits reads back from its pair of escapes |
| JsonText.DecodeEscapedChar | backend/api.py:92 | every escaped character reads back as itself |
| JsonText.DecodeEscaped | backend/api.py:92 | an escaped string reads back up to its closing quote |
| JsonText.DecodeLastItem | backend/api.py:92 | the last quoted item of a list reads back |
| JsonText.DecodeNextItem | backend/api.py:92 | an item followed by ", " and the rest reads back in front of the rest |
| JsonText.DecodeItemsJoin | backend/api.py:92 | the comma-separated items of a non-empty list read back |
| JsonText.DecodeEncode | backend/api.py:78-93 | `json.loads(json.dumps(xs)) == xs` for every list of strings |
| JsonText.EncodeInjective | backend/api.py:78-79 | different keyword lists are stored as different text |
| FileParser.TrimmedIsStripped | backend/utils/file_parser.py:13-15 | the stripped text of a non-blank string is non-empty and already stripped |
| FileParser.Wrap | backend/utils/file_parser.py:16-18 | whatever a parser raises becomes a 500 whose detail starts with the parser's prefix |
| FileParser.ParsePdf | backend/utils/file_parser.py:9-18 | success iff the extractor succeeds with non-blank text, and then the stripped text; every failure, the 400 for blank text included, becomes the 500 with the PDF prefix |
| FileParser.NonBlankParagraphs | backend/utils/file_parser.py:24 | no paragraphs keep nothing; the kept paragraphs are exactly the non-blank ones, never more than there were |
| FileParser.NonBlankParagraphsSnoc | backend/utils/file_parser.py:24 | a paragraph added at the end is kept at the end iff it is not blank, so the kept list is in document order with its repetitions |
| FileParser.JoinedParagraphsBlank | backend/utils/file_parser.py:24-25 | the joined text is blank iff no paragraph was kept |
| FileParser.ParseDocx | backend/utils/file_parser.py:20-30 | success iff the document opens and has a non-blank paragraph, and then the stripped join of those paragraphs; every failure becomes the 500 with the DOCX prefix |
| FileParser.ExtractText | backend/utils/file_parser.py:32-39 | dispatch on the content type; any other type is a 400; the text is stripped and non-empty; errors are 400 or 500 |
| FileParser.BlankPdfBecomes500 | backend/utils/file_parser.py:13-18 | a blank PDF reaches the caller as a 500 "PDF parsing error: 400: Could not extract text …", not as a 400 |
| AiClient.StrList | backend/utils/blackbox_client.py:107-124 | a list of strings as a JSON array, item by item |
| AiClient.FallbacksWellFormed | backend/utils/blackbox_client.py:107-124 | both fallback dicts have every key, the scores 65.0 and 60.0, and list-valued keyword fields |
| AiClient.Clamp | backend/utils/blackbox_client.py:93 | `max(0, min(100, x))` lies in [0, 100], is x inside the range and saturates outside it |
| AiClient.ClampMonotone | backend/utils/blackbox_client.py:93 | clamping preserves the order of scores |
| AiClient.ListOrEmpty | backend/utils/blackbox_client.py:96-99 | a list is kept as it is, and anything that is not a list becomes [] |
| AiClient.Normalised | backend/utils/blackbox_client.py:93-99 | the same keys; a clamped score; keyword fields forced to lists; every other key unchanged; the result is well formed |
| AiClient.Normalise | backend/utils/blackbox_client.py:93-99 | the in-place updates of the analysis dict give the normalised dict |
| AiClient.NormalisedIdempotent | backend/utils/blackbox_client.py:93-99 | normalising a normalised analysis changes nothing |
| AiClient.AllIn | backend/utils/blackbox_client.py:88-89 | on a dict, `all(key in analysis ...)` is whether every required key is present |
| AiClient.Content | backend/utils/blackbox_client.py:80-81 | a chat reply yields its message content; a body without "choices", or with an empty list, is the "Invalid response structure" ValueError |
| AiClient.NormaliseAnalysis | backend/utils/blackbox_client.py:88-102 | missing keys raise the ValueError; otherwise the score goes through `float()` and the dict is normalised; any result is well formed |
| AiClient.ParseAnalysis | backend/utils/blackbox_client.py:84-102 | unparsable content is a ValueError (decode error); parsed content is normalised; non-string content is a TypeError |
| AiClient.Escape | backend/utils/blackbox_client.py:125-127 | anything else is re-raised as an Exception "Error analyzing resume: " followed by its message |
| AiClient.CompareResumeJob | backend/utils/blackbox_client.py:72-127 | every dict returned is well formed; every error is the prefixed Exception; a failed request gives the network fallback |
| AiClient.MissingChoicesEscapes | backend/utils/blackbox_client.py:113-114 | a body without a non-empty "choices" escapes as the prefixed "Invalid response structure" error, not as a fallback |
| AiClient.UnparsableContentFallsBack | backend/utils/blackbox_client.py:104-112 | content that is not JSON gives the 65.0 fallback |
| AiClient.MissingKeyFallsBack | backend/utils/blackbox_client.py:89-90 | a missing required key gives the 65.0 fallback |
| AiClient.UnreadableScoreFallsBack | backend/utils/blackbox_client.py:93 | a score string that `float()` rejects gives the 65.0 fallback |
| AiClient.NormalPath | backend/utils/blackbox_client.py:85-102 | a well-formed reply comes back with its keys, its score clamped (unchanged when in range), its feedback as sent, and keyword fields kept when they are lists or replaced by [] |
| AiClient.NonStringContentEscapes | backend/utils/blackbox_client.py:85 | content that is not a string raises TypeError, which is not caught as a parse error, so it escapes as the prefixed Exception wrapping that TypeError |
| ServerApi.CheckRequest | backend/api.py:29-48 | the request passes iff its type is PDF or DOCX and the stripped description has at least 50 characters; otherwise a 400 with the first failing check's detail |
| ServerApi.ValidateForm | backend/api.py:16 | FastAPI's validation of the required `job_description` form field fails iff the value is empty, with a 422 "Field required" |
| ServerApi.Strings | backend/api.py:78 | the items read as strings iff every item is a string, and then item by item |
| ServerApi.StringsOfStrList | backend/api.py:78 | a list built from strings reads back as those strings |
| ServerApi.FeedbackText | backend/models.py:13 | the `feedback` TEXT column holds a string as it is, a number as SQLite's text of it and a bool as "1" or "0"; null, a list or a dict give no text |
| ServerApi.TypedAnalysis | backend/api.py:72-95 | the analysis fits the record and the response iff its feedback has a column text and its keyword lists hold strings; then it carries the score, that text and the lists |
| ServerApi.NumericFeedbackAccepted | backend/api.py:72-95 | an AI reply whose feedback is a number is accepted, with SQLite's text of the number as the feedback |
| ServerApi.NetworkFallbackIsTyped | backend/utils/blackbox_client.py:119-124 | the network fallback fits the record |
| ServerApi.ParseFallbackIsTyped | backend/utils/blackbox_client.py:107-112 | the parse fallback fits the record |
| ServerApi.Analyse | backend/api.py:50-80 | empty bytes are a 400; extraction errors pass through; text under 100 characters is a 400; the accepted analysis is the AI's analysis of the extracted text against the description as received; HTTP errors are 400 or 500 with a detail |
| ServerApi.AnalyseSucceeds | backend/api.py:52-80 | when every step succeeds, the text and the typed analysis are accepted |
| ServerApi.UnreachableAiGivesFallback | backend/api.py:69 | with the AI unreachable, a readable resume is accepted with the 60.0 network fallback |
| ServerApi.ExceptionResponse | backend/api.py:97-105 | an HTTPException passes through unchanged; anything else is a 500 whose detail is the prefix followed by `str(e)` |
| ServerApi.Accept | backend/api.py:13-105 | an empty description is a 422 before anything else; then the checks; then the try-block's outcome, with exceptions mapped; errors are 400, 422 or 500 with a non-empty detail, and a 422 only for an empty description; an accepted score is in [0, 100] |
| ServerApi.Record | backend/api.py:72-80 | the row holds the file name, text and description as given, the analysis' score and feedback, and keyword columns that read back as the analysis' lists |
| ServerApi.Column | backend/api.py:124-125 | a null or empty column reads as []; a column written by `json.dumps` reads back as its list |
| ServerApi.ReadRow | backend/api.py:120-127 | a complete row reads back as its values; an incomplete row is a bare 500 |
| ServerApi.RecordReadsBack | backend/api.py:72-95 | a stored row reads back with the analysis' score, feedback and keyword lists |
| ServerApi.SubmissionStore.constructor | backend/api.py:82-84 | the table starts empty, and ids start at 1 |
| ServerApi.SubmissionStore.SubmitResume | backend/api.py:13-105 | a rejected request stores nothing and returns its error; otherwise one row is stored under a fresh id, and the response carries the analysis and equals what get_submission answers for that id |
| ServerApi.SubmissionStore.Store | backend/api.py:72-95 | one row is added under the next id, which was not in use, nothing else changes, and the response equals what get_submission answers for that id |
| ServerApi.SubmissionStore.GetSubmission | backend/api.py:112-127 | an unknown id is a 404 "Submission not found"; otherwise the stored row as read back |
| Workflow.FormSubmissionPassesServerChecks | backend/api.py:16-48 | a file the browser accepts, sent with a description the form lets through, passes FastAPI's form validation and the server's checks on what the server receives, provided the trimmed description has only Basic Multilingual Plane characters and no whitespace only Python strips at its ends |
| Workflow.Received | frontend/src/utils/api.js:68-72 | what the server receives for the description is at least as long as the trimmed description, and empty when that is |
| Workflow.ReceivedKeepsCount | backend/api.py:41-44 | within the provisos above, the server's strip leaves what it receives unchanged, and that is at least as long as the form's count |
| Workflow.FormSendsWhatServerStrips | backend/api.py:41-44 | 49 letters and U+001C pass the form's checks but the server rejects what it receives as too short |
| Workflow.FormCountsWhatServerHalves | frontend/src/components/UploadForm.jsx:62 | 25 emoji pass the form's checks but the server rejects what it receives as too short |
| Workflow.MultiLineInForm | frontend/src/components/UploadForm.jsx:62 | a letter, five line feeds and more letters is not blank, trimming keeps it, and the form counts six more than the letters |
| Workflow.LineFeedsOnWire | frontend/src/utils/api.js:68-72 | on the wire each line feed takes two characters |
| Workflow.MultiLineOnWire | frontend/src/utils/api.js:68-72 | a letter, five line feeds and more letters is eleven more than the letters on the wire, and starts and ends with a letter |
| Workflow.FormStricterThanServer | frontend/src/components/UploadForm.jsx:62 | a letter, five line feeds and 39 letters are too short for the form but pass FastAPI's validation and the server's checks |
| Workflow.AlignedSubmitCheck | frontend/src/components/UploadForm.jsx:52-65 | the form's checks counted as the server counts: they pass iff a file is selected and what the server receives, stripped as Python strips, has at least 50 characters |
| Workflow.AlignedCheckMatchesServer | backend/api.py:16-48 | with a file the browser accepts, the aligned checks pass iff FastAPI's validation and the server's checks pass on what the server receives, and ask for a description iff the server answers 422 or calls it empty |
| Workflow.AlignedAgreesWithForm | frontend/src/components/UploadForm.jsx:57-65 | within the provisos above, whatever the form's checks let through the aligned checks let through, and on text without line breaks the two agree |
| Workflow.SameAllowedTypes | frontend/src/utils/api.js:107-110 | the browser and the server allow the same two content types |
| Workflow.ServerErrorAsShown | frontend/src/utils/api.js:40-47 | every error of the endpoint is shown as the fixed server message when it is a 500, as the fixed 422 message when it is a 422, and as its own detail when it is a 400 |

## Left out

- `formatFileSize` (api.js:132-140) uses floating-point logarithms and `toFixed`. Only display formatting depends on it.
- The score ring's `strokeDashoffset` and `Math.round(score)` on the result page are left out. They are floating-point drawing details; the ring's colour is modelled.
- Drag-and-drop, tab switching, scrolling and the other presentational parts of the form and the result page are left out. `handleDrop` and the file input both funnel into `HandleFileChange`, which is modelled.
- The axios instance (base URL, 30-second timeout, headers), the logging interceptor and all `console`/`logger` output are left out. They are configuration and I/O.
- `getSubmission` and `healthCheck` in api.js are thin GET wrappers and are left out. The server side of `get_submission` is modelled, and the health endpoint returns a constant.
- The AI prompt, the payload, the API key and the request `timeout` of `blackbox_client.py` (lines 1-71) are left out. The exchange itself is the parameter `ai`.
- The database engine and session, the ORM and `created_at` are left out. The table is a map from ids to rows, with ids handed out in increasing order.
- Text.IsSpace: Python's whitespace is that of `str.isspace` in CPython 3 (the Unicode White_Space property together with U+001C to U+001F). JavaScript's is ECMAScript's WhiteSpace and LineTerminator with the Unicode 15 space separators.
- UploadFormModel.UploadForm.SetJobDescription: the cut is made at the last whole character that fits. A browser may cut at a grapheme-cluster boundary instead, and it applies `maxLength` to typing and pasting only.
- `AiClient.Clamp` works on exact reals. NaN, infinities and the int/float distinction of JSON numbers are not modelled.
- Dict key order is not modelled: a JSON object is a map.
- ServerApi.SubmissionStore.SubmitResume: when the analysis does not fit the record, the model stores no row and returns a 500. In the code, a null feedback or a keyword list with non-string items is committed before the response schema raises; only a list or dict feedback fails at the commit, when sqlite3 cannot bind it.
- ServerApi.FeedbackText: the text SQLite makes of a number is the parameter `sqliteNumberText` of `PyRuntime.Runtime`. That text depends on whether Python holds the number as an int or a float, and that distinction is not modelled.
- ServerApi.Accept: an analysis whose feedback is null, a list or a dict, or whose keyword lists hold non-strings, is reported as a 500 with the model's own wording `RecordMismatch`. In the code, sqlite3 or the response schema raises at that point, with a library message. A number or bool feedback is not an error in either: it is stored and answered as SQLite's text (`ServerApi.FeedbackText`).
- ServerApi.ValidateForm: FastAPI's 422 detail is a list of error objects. The model keeps only the message of its one entry, "Field required"; the browser shows its fixed 422 message whatever the detail. A missing `file` part, which the browser never sends, is not modelled.
- ClientApi.ErrorMessage: a `detail` that is not a string (FastAPI's 422 validation list, say) is not modelled. Details are strings or absent.
- ResultPageModel.Render: a keyword field that is present but `null` is not modelled. An absent field reads as [].
- `JsonText.DecodeList` reads only the layout `json.dumps` writes (", " separators, no other whitespace, the escapes it emits). It is not a general `json.loads`.
- AiClient.ParseAnalysis: the message of the `json.JSONDecodeError` raised for unparsable content is abstracted as `DecodeErrorMessage`. Only its kind (a ValueError) matters to the code.
- AiClient.CompareResumeJob: a body that `response.json()` cannot decode is modelled as a failed request. That is what requests from version 2.27 on does; older versions raise a plain ValueError.

## Findings

| source | as written | input that shows it | evidently intended | confidence | as-written member | corrected member |
|---|---|---|---|---|---|---|
| frontend/src/components/UploadForm.jsx:57-71 | the form trims with JavaScript's whitespace; the server (backend/api.py:41-44) strips with Python's, which also removes U+001C to U+001F and U+0085 | 49 letters followed by U+001C | a description the form submits passes the server's length check (Workflow.AlignedCheckMatchesServer) | high, not executed | Workflow.FormSendsWhatServerStrips | Workflow.AlignedSubmitCheck |
| frontend/src/components/UploadForm.jsx:62 | the form counts UTF-16 code units; the server (backend/api.py:44) counts code points | 25 copies of U+1F600 | both sides count the same 50 characters (Workflow.AlignedCheckMatchesServer) | high, not executed | Workflow.FormCountsWhatServerHalves | Workflow.AlignedSubmitCheck |
| frontend/src/components/UploadForm.jsx:62 | the form counts a line feed as one character; the multipart request (frontend/src/utils/api.js:68-72) sends it as CR LF, which the server (backend/api.py:44) counts as two | "a", five line feeds and 39 letters: 45 in the form, 50 on the server | both sides agree on which descriptions are long enough (Workflow.AlignedCheckMatchesServer) | medium, not executed | Workflow.FormStricterThanServer | Workflow.AlignedSubmitCheck |
