/**
 * What the result page shows for an analysis: the three score bands that
 * pick colour, headline, description and gauge colour; the keyword counts;
 * the "first five, then +N more" previews; and the keyword sections.
 */
module ResultPageModel {
  import opened Wrappers
  import ClientApi

  /** The three bands, best first. */
  datatype Band = Excellent | Good | NeedsImprovement

  /**
   * The band partition all four score displays follow: at least 80, at
   * least 60, below. Each display below is a function of the band alone, so
   * its four separate if-chains never disagree about the band.
   */
  function BandOf(score: real): (b: Band)
    ensures b == Excellent <==> score >= 80.0
    ensures b == Good <==> 60.0 <= score < 80.0
    ensures b == NeedsImprovement <==> score < 60.0
  {
    if score >= 80.0 then Excellent else if score >= 60.0 then Good else NeedsImprovement
  }

  /** Higher rank, better band. */
  function Rank(b: Band): nat
  {
    match b
    case Excellent => 2
    case Good => 1
    case NeedsImprovement => 0
  }

  /**
   * What a display shows for a score: one of three distinct values, picked
   * by the score's band.
   */
  function ByBand(score: real, excellent: string, good: string, needsWork: string): (v: string)
    requires excellent != good && good != needsWork && excellent != needsWork
    ensures v == excellent <==> BandOf(score) == Excellent
    ensures v == good <==> BandOf(score) == Good
    ensures v == needsWork <==> BandOf(score) == NeedsImprovement
  {
    match BandOf(score)
    case Excellent => excellent
    case Good => good
    case NeedsImprovement => needsWork
  }

  /** getScoreColor: green, yellow or red text, one per band. */
  function ScoreColor(score: real): (c: string)
    ensures c == "text-success-600" <==> BandOf(score) == Excellent
    ensures c == "text-yellow-600" <==> BandOf(score) == Good
    ensures c == "text-error-600" <==> BandOf(score) == NeedsImprovement
  {
    ByBand(score, "text-success-600", "text-yellow-600", "text-error-600")
  }

  /** getScoreMessage: the headline, one per band. */
  function ScoreMessage(score: real): (m: string)
    ensures m == "Excellent ATS Compatibility" <==> BandOf(score) == Excellent
    ensures m == "Good ATS Compatibility" <==> BandOf(score) == Good
    ensures m == "Needs Improvement" <==> BandOf(score) == NeedsImprovement
  {
    ByBand(score, "Excellent ATS Compatibility", "Good ATS Compatibility", "Needs Improvement")
  }

  const ExcellentDescription :=
    "Your resume is well-optimized for ATS systems and should pass through most automated screening processes."
  const GoodDescription :=
    "Your resume has good compatibility but could benefit from some improvements to increase your chances."
  const WeakDescription :=
    "Your resume may face challenges with ATS systems. Consider implementing the suggested improvements."

  /** getScoreDescription: the paragraph under the headline, one per band. */
  function ScoreDescription(score: real): (d: string)
    ensures d == ExcellentDescription <==> BandOf(score) == Excellent
    ensures d == GoodDescription <==> BandOf(score) == Good
    ensures d == WeakDescription <==> BandOf(score) == NeedsImprovement
  {
    ByBand(score, ExcellentDescription, GoodDescription, WeakDescription)
  }

  /** The progress circle's stroke colour: green, amber or red, one per band. */
  function StrokeColor(score: real): (c: string)
    ensures c == "#10b981" <==> BandOf(score) == Excellent
    ensures c == "#f59e0b" <==> BandOf(score) == Good
    ensures c == "#ef4444" <==> BandOf(score) == NeedsImprovement
  {
    ByBand(score, "#10b981", "#f59e0b", "#ef4444")
  }

  /** A higher score never lands in a lower band. */
  lemma BandMonotone(low: real, high: real)
    requires low <= high
    ensures Rank(BandOf(low)) <= Rank(BandOf(high))
  {
  }

  /** How many keywords the overview shows before summarising the rest. */
  const PreviewSize: nat := 5

  /** An overview preview: the keywords shown and, when some are hidden, the "+k more" count. */
  datatype Preview = Preview(shown: seq<string>, more: Option<nat>)

  /** `keywords.slice(0, 5)` and the `+{length - 5} more` line shown when length > 5. */
  function KeywordPreview(keywords: seq<string>): (p: Preview)
    ensures p.shown <= keywords
    ensures |p.shown| == if |keywords| < PreviewSize then |keywords| else PreviewSize
    ensures p.more.Some? <==> |keywords| > PreviewSize
    ensures |p.shown| + (if p.more.Some? then p.more.value else 0) == |keywords|
    ensures p.more.Some? ==> p.more.value > 0
  {
    if |keywords| > PreviewSize then Preview(keywords[..PreviewSize], Some(|keywords| - PreviewSize))
    else Preview(keywords[..], None)
  }

  /** A keyword list field; a missing one defaults to the empty list. */
  function KeywordsOrEmpty(keywords: Option<seq<string>>): (ks: seq<string>)
    ensures keywords.None? ==> ks == []
    ensures keywords.Some? ==> ks == keywords.value
  {
    if keywords.Some? then keywords.value else []
  }

  /** The data the report renders, independent of which tab is open. */
  datatype Page =
    | NoResults
    | Report(
        band: Band,
        feedback: string,
        matchedCount: nat,
        missingCount: nat,
        matchedPreview: Preview,
        missingPreview: Preview,
        matchedSection: Option<seq<string>>,
        missingSection: Option<seq<string>>)

  /**
   * ResultPage: without a result only the fallback; with one, the band of the
   * unrounded score, the list lengths as counts, the two previews, and each
   * keyword-tab section only for a non-empty list.
   */
  function Render(result: Option<ClientApi.AnalysisBody>): (page: Page)
    ensures page.NoResults? <==> result.None?
    ensures result.Some? ==>
      var matched := KeywordsOrEmpty(result.value.matchedKeywords);
      var missing := KeywordsOrEmpty(result.value.missingKeywords);
      && page.band == BandOf(result.value.score)
      && page.feedback == result.value.feedback
      && page.matchedCount == |matched| && page.missingCount == |missing|
      && page.matchedPreview == KeywordPreview(matched)
      && page.missingPreview == KeywordPreview(missing)
      && (page.matchedSection.Some? <==> |matched| > 0)
      && (page.missingSection.Some? <==> |missing| > 0)
      && (page.matchedSection.Some? ==> page.matchedSection.value == matched)
      && (page.missingSection.Some? ==> page.missingSection.value == missing)
  {
    match result
    case None => NoResults
    case Some(r) =>
      var matched := KeywordsOrEmpty(r.matchedKeywords);
      var missing := KeywordsOrEmpty(r.missingKeywords);
      Report(
        BandOf(r.score), r.feedback, |matched|, |missing|,
        KeywordPreview(matched), KeywordPreview(missing),
        if |matched| > 0 then Some(matched) else None,
        if |missing| > 0 then Some(missing) else None)
  }
}
