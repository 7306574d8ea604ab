/**
 * The application shell: one piece of state, the current analysis result,
 * which selects between the upload form and the result page and decides
 * whether the footer is shown.
 */
module AppShell {
  import opened Wrappers
  import ClientApi
  import ResultPageModel

  /** The main view: the upload form, or the result page showing one result. */
  datatype View = UploadView | ResultView(result: ClientApi.AnalysisBody)

  class App {
    var result: Option<ClientApi.AnalysisBody>

    /** The view `result` selects: the result page exactly when a result is stored, showing that result. */
    function CurrentView(): (v: View)
      reads this
      ensures v.UploadView? <==> result.None?
      ensures result.Some? ==> v == ResultView(result.value)
    {
      if result.Some? then ResultView(result.value) else UploadView
    }

    /** The footer is rendered exactly when there is no result. */
    predicate FooterShown()
      reads this
      ensures FooterShown() <==> CurrentView().UploadView?
    {
      result.None?
    }

    /** Initially there is no result: the upload form and the footer are shown. */
    constructor ()
      ensures result.None?
      ensures CurrentView() == UploadView && FooterShown()
    {
      result := None;
    }

    /** handleResult: the result is stored and the result page shows exactly it. */
    method HandleResult(analysis: ClientApi.AnalysisBody)
      modifies this
      ensures result == Some(analysis)
      ensures CurrentView() == ResultView(analysis) && !FooterShown()
    {
      result := Some(analysis);
    }

    /** handleBack: the result is cleared and the upload form is shown again. */
    method HandleBack()
      modifies this
      ensures result.None?
      ensures CurrentView() == UploadView && FooterShown()
    {
      result := None;
    }
  }

  /** The result page the shell shows always has a result: its "No results to display" fallback is never reached from here. */
  lemma ResultViewNeverEmpty(v: View)
    requires v.ResultView?
    ensures ResultPageModel.Render(Some(v.result)).Report?
  {
  }
}
