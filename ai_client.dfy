/**
 * compare_resume_job after the HTTP call: read the chat reply, parse the
 * model's JSON, normalise it (score clamped to [0,100], keyword fields
 * forced to lists), or fall back to one of two fixed analyses, or raise.
 */
module AiClient {
  import opened Wrappers
  import opened PyRuntime

  /** What `requests.post` + `raise_for_status` + `response.json()` yield. */
  datatype Transport =
    | RequestFailed(message: string)   // any requests.RequestException
    | Received(body: Json)             // the decoded reply body

  /** The two inputs that go into the prompt. */
  datatype AiRequest = AiRequest(resumeText: string, jobDescription: string)

  const ScoreKey := "score"
  const FeedbackKey := "feedback"
  const MatchedKey := "matched_keywords"
  const MissingKey := "missing_keywords"
  const RequiredKeys: seq<string> := [ScoreKey, FeedbackKey, MatchedKey, MissingKey]

  const InvalidStructure := "Invalid response structure from AI API"
  const MissingKeysMessage := "Missing required keys in AI response"
  const ErrorPrefix := "Error analyzing resume: "
  /** json.loads' own message is only logged, never returned. */
  const DecodeErrorMessage := "Expecting value"
  /** json.loads' TypeError for an argument that is not text. */
  const LoadsArgument := "the JSON object must be str, bytes or bytearray, not "

  const ParseFallbackFeedback :=
    "Resume analysis completed. The system detected moderate compatibility with the job description. Consider adding more relevant keywords and skills mentioned in the job posting."
  const NetworkFallbackFeedback :=
    "Resume analysis completed with limited connectivity. Basic compatibility detected. Please ensure your resume includes relevant keywords from the job description and highlights your most relevant experience."

  /** A Python list of strings as a JSON value. */
  function StrList(xs: seq<string>): (j: Json)
    ensures j.JArr? && |j.items| == |xs|
    ensures forall i :: 0 <= i < |xs| ==> j.items[i] == JStr(xs[i])
  {
    JArr(seq(|xs|, i requires 0 <= i < |xs| => JStr(xs[i])))
  }

  /** A dict literal with the four analysis keys. */
  function AnalysisDict(score: real, feedback: string, matched: seq<string>, missing: seq<string>): Json
  {
    JObj(map[ScoreKey := JNum(score), FeedbackKey := JStr(feedback),
             MatchedKey := StrList(matched), MissingKey := StrList(missing)])
  }

  /** Returned when the model's content is not JSON, lacks a key, or has a non-numeric score. */
  const ParseFallback: Json :=
    AnalysisDict(65.0, ParseFallbackFeedback, ["experience", "skills", "education"],
                 ["specific technical skills", "industry keywords"])

  /** Returned when the HTTP exchange itself fails. */
  const NetworkFallback: Json :=
    AnalysisDict(60.0, NetworkFallbackFeedback, ["work experience", "education"],
                 ["job-specific keywords", "technical skills"])

  predicate HasRequiredKeys(fields: map<string, Json>) {
    ScoreKey in fields && FeedbackKey in fields && MatchedKey in fields && MissingKey in fields
  }

  /** What every dict the function returns satisfies. */
  predicate WellFormed(j: Json) {
    && j.JObj?
    && HasRequiredKeys(j.fields)
    && j.fields[ScoreKey].JNum?
    && 0.0 <= j.fields[ScoreKey].n <= 100.0
    && j.fields[MatchedKey].JArr?
    && j.fields[MissingKey].JArr?
  }

  lemma FallbacksWellFormed()
    ensures WellFormed(ParseFallback) && ParseFallback.fields[ScoreKey] == JNum(65.0)
    ensures WellFormed(NetworkFallback) && NetworkFallback.fields[ScoreKey] == JNum(60.0)
  {
  }

  /** `max(0, min(100, x))`. */
  function Clamp(x: real): (c: real)
    ensures 0.0 <= c <= 100.0
    ensures 0.0 <= x <= 100.0 ==> c == x
    ensures x < 0.0 ==> c == 0.0
    ensures x > 100.0 ==> c == 100.0
  {
    var m := if x < 100.0 then x else 100.0;
    if m > 0.0 then m else 0.0
  }

  /** Clamping never moves a score out of order. */
  lemma ClampMonotone(x: real, y: real)
    requires x <= y
    ensures Clamp(x) <= Clamp(y)
  {
  }

  /** `v if isinstance(v, list) else []`. */
  function ListOrEmpty(v: Json): (r: Json)
    ensures r.JArr?
    ensures v.JArr? ==> r == v
    ensures !v.JArr? ==> r == JArr([])
  {
    if v.JArr? then v else JArr([])
  }

  /**
   * The dict after the three in-place assignments: every key kept, "score"
   * replaced by the clamped number, each keyword field forced to a list,
   * everything else untouched.
   */
  function Normalised(fields: map<string, Json>, score: real): (d: map<string, Json>)
    requires HasRequiredKeys(fields)
    ensures d.Keys == fields.Keys
    ensures d[ScoreKey] == JNum(Clamp(score))
    ensures d[MatchedKey] == ListOrEmpty(fields[MatchedKey])
    ensures d[MissingKey] == ListOrEmpty(fields[MissingKey])
    ensures forall k :: k in fields && k != ScoreKey && k != MatchedKey && k != MissingKey ==> d[k] == fields[k]
    ensures WellFormed(JObj(d))
  {
    fields[ScoreKey := JNum(Clamp(score))]
          [MatchedKey := ListOrEmpty(fields[MatchedKey])]
          [MissingKey := ListOrEmpty(fields[MissingKey])]
  }

  /** The mutation sequence of lines 93-99 on the parsed dict. */
  method Normalise(analysis: map<string, Json>, score: real) returns (d: map<string, Json>)
    requires HasRequiredKeys(analysis)
    ensures d == Normalised(analysis, score)
  {
    d := analysis;
    var low := if score < 100.0 then score else 100.0;
    var clamped := if low > 0.0 then low else 0.0;
    d := d[ScoreKey := JNum(clamped)];
    if !d[MatchedKey].JArr? {
      d := d[MatchedKey := JArr([])];
    }
    if !d[MissingKey].JArr? {
      d := d[MissingKey := JArr([])];
    }
  }

  /** Normalising an already normalised dict changes nothing. */
  lemma NormalisedIdempotent(fields: map<string, Json>, score: real)
    requires HasRequiredKeys(fields)
    ensures var d := Normalised(fields, score);
            Normalised(d, d[ScoreKey].n) == d
  {
    var d := Normalised(fields, score);
    var e := Normalised(d, d[ScoreKey].n);
    assert e.Keys == d.Keys;
    forall k | k in d ensures e[k] == d[k] {
    }
  }

  /** `all(key in container for key in keys)`, short-circuiting, with `in` possibly raising. */
  function AllIn(keys: seq<string>, container: Json): (r: Raises<bool>)
    ensures container.JObj? ==> r == Ok(forall k :: k in keys ==> k in container.fields)
  {
    if keys == [] then Ok(true)
    else
      match Contains(container, keys[0])
      case Err(e) => Err(e)
      case Ok(found) => if !found then Ok(false) else AllIn(keys[1..], container)
  }

  /** A subscript on a value that may already have raised. */
  function Then(r: Raises<Json>, key: Key): Raises<Json>
  {
    match r
    case Err(e) => Err(e)
    case Ok(j) => GetItem(j, key)
  }

  /** The reply shape the chat API is expected to send: choices[0].message.content. */
  predicate ChatReply(body: Json, content: Json) {
    && body.JObj?
    && "choices" in body.fields
    && body.fields["choices"].JArr?
    && |body.fields["choices"].items| > 0
    && body.fields["choices"].items[0].JObj?
    && "message" in body.fields["choices"].items[0].fields
    && body.fields["choices"].items[0].fields["message"].JObj?
    && "content" in body.fields["choices"].items[0].fields["message"].fields
    && body.fields["choices"].items[0].fields["message"].fields["content"] == content
  }

  /**
   * Lines 80-81 and 113-114: the message content of the first choice, or the
   * exception raised on the way (the ValueError when "choices" is missing or
   * empty, or whatever `in`, len() or a subscript raises).
   */
  function Content(body: Json): (r: Raises<Json>)
    ensures forall c :: ChatReply(body, c) ==> r == Ok(c)
    ensures body.JObj? && "choices" !in body.fields ==> r == Err(ValueError(InvalidStructure))
    ensures body.JObj? && "choices" in body.fields && body.fields["choices"] == JArr([]) ==>
              r == Err(ValueError(InvalidStructure))
  {
    match Contains(body, "choices")
    case Err(e) => Err(e)
    case Ok(found) =>
      if !found then Err(ValueError(InvalidStructure))
      else
        match GetItem(body, Name("choices"))
        case Err(e) => Err(e)
        case Ok(choices) =>
          match Len(choices)
          case Err(e) => Err(e)
          case Ok(n) =>
            if n == 0 then Err(ValueError(InvalidStructure))
            else Then(Then(GetItem(choices, Index(0)), Name("message")), Name("content"))
  }

  /**
   * Lines 93-99 once the keys are known to be present: float() of the score,
   * then the normalised dict. A score that float() rejects raises.
   */
  function NormaliseAnalysis(rt: Runtime, analysis: Json): (r: Raises<Json>)
    ensures r.Ok? ==> WellFormed(r.value)
    ensures analysis.JObj? && !HasRequiredKeys(analysis.fields) ==> r == Err(ValueError(MissingKeysMessage))
    ensures analysis.JObj? && HasRequiredKeys(analysis.fields) ==>
              match Float(rt, analysis.fields[ScoreKey])
              case Ok(x) => r == Ok(JObj(Normalised(analysis.fields, x)))
              case Err(e) => r == Err(e)
  {
    match AllIn(RequiredKeys, analysis)
    case Err(e) => Err(e)
    case Ok(all) =>
      if !all then Err(ValueError(MissingKeysMessage))
      else
        var item := GetItem(analysis, Name(ScoreKey));
        if item.Err? then Err(item.error)
        else
          match Float(rt, item.value)
          case Err(e) => Err(e)
          case Ok(x) =>
            assert analysis.JObj? && HasRequiredKeys(analysis.fields);
            Ok(JObj(Normalised(analysis.fields, x)))
  }

  /** Lines 85-102: json.loads of the content, then the key check and normalisation. */
  function ParseAnalysis(rt: Runtime, content: Json): (r: Raises<Json>)
    ensures r.Ok? ==> WellFormed(r.value)
    ensures content.JStr? && rt.jsonLoads(content.s).None? ==> r == Err(ValueError(DecodeErrorMessage))
    ensures content.JStr? && rt.jsonLoads(content.s).Some? ==> r == NormaliseAnalysis(rt, rt.jsonLoads(content.s).value)
    ensures !content.JStr? ==> r.Err? && r.error.TypeError?
  {
    match content
    case JStr(s) =>
      (match rt.jsonLoads(s)
       case None => Err(ValueError(DecodeErrorMessage))
       case Some(analysis) => NormaliseAnalysis(rt, analysis))
    case _ => Err(TypeError(LoadsArgument + TypeName(content)))
  }

  /** The outer `except Exception`: re-raise as a plain Exception with the prefix. */
  function Escape(e: PyExc): (x: PyExc)
    ensures x.Exception? && x.message == ErrorPrefix + Str(e)
  {
    Exception(ErrorPrefix + Str(e))
  }

  /**
   * compare_resume_job from the HTTP call on: the normalised analysis, a
   * fallback, or an escaping Exception. `ai` stands for the HTTP exchange.
   */
  function CompareResumeJob(rt: Runtime, ai: AiRequest -> Transport, req: AiRequest): (r: Raises<Json>)
    ensures r.Ok? ==> WellFormed(r.value)
    ensures r.Err? ==> r.error.Exception? && ErrorPrefix <= r.error.message
    ensures ai(req).RequestFailed? ==> r == Ok(NetworkFallback)
  {
    FallbacksWellFormed();
    match ai(req)
    case RequestFailed(_) => Ok(NetworkFallback)
    case Received(body) =>
      match Content(body)
      case Err(e) => Err(Escape(e))
      case Ok(content) =>
        match ParseAnalysis(rt, content)
        case Ok(analysis) => Ok(analysis)
        case Err(e) => if e.ValueError? then Ok(ParseFallback) else Err(Escape(e))
  }

  /** A body without a non-empty "choices" list escapes as "Error analyzing resume: Invalid response structure ...". */
  lemma MissingChoicesEscapes(rt: Runtime, ai: AiRequest -> Transport, req: AiRequest)
    requires ai(req).Received? && ai(req).body.JObj?
    requires var f := ai(req).body.fields; "choices" !in f || f["choices"] == JArr([])
    ensures CompareResumeJob(rt, ai, req) == Err(Exception(ErrorPrefix + InvalidStructure))
  {
  }

  /** Content that json.loads rejects gives the 65.0 fallback. */
  lemma UnparsableContentFallsBack(rt: Runtime, ai: AiRequest -> Transport, req: AiRequest, content: string)
    requires ai(req).Received? && ChatReply(ai(req).body, JStr(content))
    requires rt.jsonLoads(content).None?
    ensures CompareResumeJob(rt, ai, req) == Ok(ParseFallback)
  {
  }

  /** A parsed dict lacking any required key gives the 65.0 fallback. */
  lemma MissingKeyFallsBack(rt: Runtime, ai: AiRequest -> Transport, req: AiRequest, content: string)
    requires ai(req).Received? && ChatReply(ai(req).body, JStr(content))
    requires rt.jsonLoads(content).Some? && rt.jsonLoads(content).value.JObj?
    requires !HasRequiredKeys(rt.jsonLoads(content).value.fields)
    ensures CompareResumeJob(rt, ai, req) == Ok(ParseFallback)
  {
  }

  /** A score that float() rejects with ValueError (an unparsable string) gives the 65.0 fallback. */
  lemma UnreadableScoreFallsBack(rt: Runtime, ai: AiRequest -> Transport, req: AiRequest, content: string)
    requires ai(req).Received? && ChatReply(ai(req).body, JStr(content))
    requires rt.jsonLoads(content).Some? && rt.jsonLoads(content).value.JObj?
    requires var f := rt.jsonLoads(content).value.fields;
             HasRequiredKeys(f) && f[ScoreKey].JStr? && rt.floatOfString(f[ScoreKey].s).None?
    ensures CompareResumeJob(rt, ai, req) == Ok(ParseFallback)
  {
  }

  /**
   * The normal path: a dict with the four keys and a numeric score comes
   * back with the score clamped, feedback and list fields unchanged, and
   * non-list keyword fields replaced by [].
   */
  lemma NormalPath(rt: Runtime, ai: AiRequest -> Transport, req: AiRequest, content: string)
    requires ai(req).Received? && ChatReply(ai(req).body, JStr(content))
    requires rt.jsonLoads(content).Some? && rt.jsonLoads(content).value.JObj?
    requires var f := rt.jsonLoads(content).value.fields; HasRequiredKeys(f) && f[ScoreKey].JNum?
    ensures var f := rt.jsonLoads(content).value.fields;
            var r := CompareResumeJob(rt, ai, req);
            && r.Ok? && r.value.JObj? && r.value.fields.Keys == f.Keys
            && r.value.fields[ScoreKey] == JNum(Clamp(f[ScoreKey].n))
            && (0.0 <= f[ScoreKey].n <= 100.0 ==> r.value.fields[ScoreKey] == f[ScoreKey])
            && r.value.fields[FeedbackKey] == f[FeedbackKey]
            && (f[MatchedKey].JArr? ==> r.value.fields[MatchedKey] == f[MatchedKey])
            && (!f[MatchedKey].JArr? ==> r.value.fields[MatchedKey] == JArr([]))
            && (f[MissingKey].JArr? ==> r.value.fields[MissingKey] == f[MissingKey])
            && (!f[MissingKey].JArr? ==> r.value.fields[MissingKey] == JArr([]))
  {
  }

  /** Content that is not a string makes json.loads raise TypeError, which escapes. */
  lemma NonStringContentEscapes(rt: Runtime, ai: AiRequest -> Transport, req: AiRequest, content: Json)
    requires ai(req).Received? && ChatReply(ai(req).body, content) && !content.JStr?
    ensures CompareResumeJob(rt, ai, req).Err?
    ensures ParseAnalysis(rt, content).Err? && ParseAnalysis(rt, content).error.TypeError?
    ensures CompareResumeJob(rt, ai, req) == Err(Escape(ParseAnalysis(rt, content).error))
  {
  }
}
