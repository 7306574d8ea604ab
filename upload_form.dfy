/**
 * The upload form: its four pieces of state (selected file, job description,
 * error text, loading flag) and the handlers that change them. The async
 * submit handler is split at its await: BeginSubmit runs the checks and
 * decides whether a request goes out, CompleteSubmit handles its settlement.
 */
module UploadFormModel {
  import opened Wrappers
  import Text
  import ClientApi

  /** The textarea's maxLength, in UTF-16 code units like every JavaScript length. */
  const MaxDescriptionLength: nat := 5000
  /** The shortest trimmed description the form submits, in UTF-16 code units. */
  const MinDescriptionLength: nat := 50

  const SelectFileMessage := "Please select a resume file"
  const EnterDescriptionMessage := "Please enter a job description"
  const ShortDescriptionMessage := "Job description must be at least 50 characters long"
  const AnalysisFailedMessage := "An error occurred while analyzing your resume"

  /**
   * The first of handleSubmit's checks that fails, in the order it makes
   * them; None when all pass. The length is JavaScript's `trim().length`.
   */
  function SubmitCheck(file: Option<ClientApi.FileInfo>, jobDescription: string): (failure: Option<string>)
    ensures failure.None? <==>
              file.Some? && Text.Utf16Length(Text.Trim(Text.Js, jobDescription)) >= MinDescriptionLength
    ensures file.None? ==> failure == Some(SelectFileMessage)
    ensures file.Some? && Text.Blank(Text.Js, jobDescription) ==> failure == Some(EnterDescriptionMessage)
    ensures file.Some? && !Text.Blank(Text.Js, jobDescription) &&
            Text.Utf16Length(Text.Trim(Text.Js, jobDescription)) < MinDescriptionLength ==>
              failure == Some(ShortDescriptionMessage)
  {
    Text.TrimEmptyIffBlank(Text.Js, jobDescription);
    var trimmed := Text.Trim(Text.Js, jobDescription);
    if file.None? then Some(SelectFileMessage)
    else if trimmed == [] then Some(EnterDescriptionMessage)
    else if Text.Utf16Length(trimmed) < MinDescriptionLength then Some(ShortDescriptionMessage)
    else None
  }

  /** A non-blank description shorter than the minimum enables the button yet fails the submit checks. */
  lemma EnabledButStillRejected(file: ClientApi.FileInfo)
    ensures !Text.Blank(Text.Js, "short") && SubmitCheck(Some(file), "short") == Some(ShortDescriptionMessage)
  {
    assert !Text.IsSpace(Text.Js, "short"[0]);
    Text.TrimUnchanged(Text.Js, "short");
  }

  class UploadForm {
    var file: Option<ClientApi.FileInfo>
    var jobDescription: string
    var error: string
    var loading: bool

    /** The form's invariant: the description fits the textarea and a selected file passed validateFile. */
    ghost predicate Valid()
      reads this
    {
      Text.Utf16Length(jobDescription) <= MaxDescriptionLength &&
      (file.Some? ==> ClientApi.ValidateFile(file).isValid)
    }

    /** The submit button is enabled unless loading, no file, or a blank description. */
    function SubmitEnabled(): (enabled: bool)
      reads this
      ensures enabled ==> !loading && file.Some? && !Text.Blank(Text.Js, jobDescription)
      ensures !loading && file.Some? && !Text.Blank(Text.Js, jobDescription) ==> enabled
    {
      Text.TrimEmptyIffBlank(Text.Js, jobDescription);
      !(loading || file.None? || Text.Trim(Text.Js, jobDescription) == [])
    }

    /** The initial state: no file, empty description, no error, not loading. */
    constructor ()
      ensures Valid()
      ensures file.None? && jobDescription == "" && error == "" && !loading
    {
      file := None;
      jobDescription := "";
      error := "";
      loading := false;
    }

    /**
     * handleFileChange: the error is always cleared first; an absent file
     * changes nothing else; an invalid file sets the validator's message and
     * keeps the earlier selection; a valid file becomes the selection.
     */
    method HandleFileChange(selected: Option<ClientApi.FileInfo>)
      requires Valid()
      modifies this
      ensures Valid()
      ensures jobDescription == old(jobDescription) && loading == old(loading)
      ensures selected.None? ==> file == old(file) && error == ""
      ensures selected.Some? && !ClientApi.ValidateFile(selected).isValid ==>
                file == old(file) && error == ClientApi.ValidateFile(selected).error.value
      ensures ClientApi.ValidateFile(selected).isValid ==> file == selected && error == ""
    {
      error := "";
      if selected.None? {
        return;
      }
      var validation := ClientApi.ValidateFile(selected);
      if !validation.isValid {
        error := validation.error.value;
        return;
      }
      file := selected;
    }

    /**
     * The textarea's change handler: what is typed or pasted is kept up to
     * maxLength UTF-16 code units, and the rest never reaches the state.
     */
    method SetJobDescription(typed: string)
      requires Valid()
      modifies this
      ensures Valid()
      ensures jobDescription <= typed
      ensures Text.Utf16Length(typed) <= MaxDescriptionLength ==> jobDescription == typed
      ensures jobDescription != typed ==>
                Text.Utf16Length(jobDescription) + Text.Utf16Units(typed[|jobDescription|]) > MaxDescriptionLength
      ensures file == old(file) && error == old(error) && loading == old(loading)
    {
      jobDescription := Text.Utf16Prefix(typed, MaxDescriptionLength);
    }

    /** removeFile: the selection is cleared and nothing else changes, the error included. */
    method RemoveFile()
      requires Valid()
      modifies this
      ensures Valid()
      ensures file.None?
      ensures jobDescription == old(jobDescription) && error == old(error) && loading == old(loading)
    {
      file := None;
    }

    /**
     * handleSubmit up to its await. A failing check sets its message and
     * sends nothing, leaving loading as it was; otherwise loading is set, the
     * error cleared, and the request carrying the trimmed description is
     * returned for sending. The loading flag itself is not consulted.
     */
    method BeginSubmit() returns (request: Option<ClientApi.Request>)
      requires Valid()
      modifies this
      ensures Valid()
      ensures file == old(file) && jobDescription == old(jobDescription)
      ensures SubmitCheck(file, jobDescription).Some? ==>
                request.None? && error == SubmitCheck(file, jobDescription).value && loading == old(loading)
      ensures SubmitCheck(file, jobDescription).None? ==>
                request == Some(ClientApi.SubmitRequest(file.value, Text.Trim(Text.Js, jobDescription))) &&
                loading && error == ""
    {
      var failure := SubmitCheck(file, jobDescription);
      if failure.Some? {
        error := failure.value;
        return None;
      }
      var selected := file.value;
      var trimmed := Text.Trim(Text.Js, jobDescription);
      request := Some(ClientApi.SubmitRequest(selected, trimmed));
      loading := true;
      error := "";
    }

    /**
     * handleSubmit after its await. Exactly one of two things happens: the
     * result is handed to onResult (returned here), or the error shows the
     * thrown message (or the fallback for an empty one). Loading ends false.
     */
    method CompleteSubmit(settled: Result<ClientApi.AnalysisBody, string>) returns (delivered: Option<ClientApi.AnalysisBody>)
      requires Valid()
      modifies this
      ensures Valid()
      ensures !loading
      ensures file == old(file) && jobDescription == old(jobDescription)
      ensures delivered.Some? <==> settled.Ok?
      ensures settled.Ok? ==> delivered == Some(settled.value) && error == old(error)
      ensures settled.Err? ==> error == ClientApi.OrElse(Some(settled.error), AnalysisFailedMessage)
    {
      match settled {
        case Ok(result) =>
          delivered := Some(result);
        case Err(message) =>
          delivered := None;
          error := ClientApi.OrElse(Some(message), AnalysisFailedMessage);
      }
      loading := false;
    }
  }

  /** The button is disabled while a submission is in flight: the only double-submit guard. */
  lemma DisabledWhileLoading(form: UploadForm)
    requires form.loading
    ensures !form.SubmitEnabled()
  {
  }

  /**
   * The fallback text is never shown for a failure from submitResume: every
   * message the interceptor throws is non-empty, so it is shown verbatim.
   */
  lemma InterceptorMessageShownVerbatim(o: ClientApi.Outcome)
    ensures ClientApi.OrElse(Some(ClientApi.ErrorMessage(o)), AnalysisFailedMessage) == ClientApi.ErrorMessage(o)
  {
  }
}
