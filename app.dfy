/**
  The top-level shell (App.tsx): the transcript being edited, the explanation
  once one has arrived, the loading flag and the error message, the three
  handlers that change them, and the choice between the input screen and the
  result screen.

  The explanation service is not modelled: a request hands the transcript
  out, and the service's settled promise comes back as a `ServiceOutcome`.
 */
module App {
  import opened Types
  import opened Text

  const EmptyInputMessage := "Please enter some text to explain."
  const UnknownErrorMessage := "An unknown error occurred."

  /** What a rejected request threw: an `Error` with its message, or any other value. */
  datatype Thrown = ErrorValue(message: string) | OtherValue

  /** How the awaited service call settled. */
  datatype ServiceOutcome = Resolved(explanation: Explanation) | Rejected(thrown: Thrown)

  /** The four pieces of state of the shell. */
  datatype AppState = AppState(
    transcript: string,
    explanation: Option<Explanation>,
    isLoading: bool,
    error: Option<string>)

  /** The state on first render, and after a reset apart from what Reset keeps. */
  const Initial := AppState("", None, false, None)

  /**
    The synchronous part of `handleGenerate`, up to the awaited call: a blank
    transcript only sets the empty-input error; otherwise loading starts, the
    error is cleared and the transcript is sent.
   */
  function StartStep(s: AppState): (AppState, Option<string>)
  {
    if Trim(s.transcript) == "" then (s.(error := Some(EmptyInputMessage)), None)
    else (s.(isLoading := true, error := None), Some(s.transcript))
  }

  /** The message the shell shows for a rejection. */
  function ErrorMessage(thrown: Thrown): string
  {
    match thrown
    case ErrorValue(message) => message
    case OtherValue => UnknownErrorMessage
  }

  /**
    The rest of `handleGenerate` once the call settles: a result is stored, a
    rejection becomes the error message, and loading ends either way.
   */
  function CompleteStep(s: AppState, outcome: ServiceOutcome): AppState
  {
    match outcome
    case Resolved(e) => s.(explanation := Some(e), isLoading := false)
    case Rejected(thrown) => s.(error := Some(ErrorMessage(thrown)), isLoading := false)
  }

  /** The two screens the shell chooses between. */
  datatype View =
    | Collecting(transcript: string, isLoading: bool, error: Option<string>)
    | Reviewing(explanation: Explanation, rawTranscript: string)

  /** The result screen as soon as an explanation is present, the input screen otherwise. */
  function ViewOf(s: AppState): View
  {
    match s.explanation
    case Some(e) => Reviewing(e, s.transcript)
    case None => Collecting(s.transcript, s.isLoading, s.error)
  }

  /** The result screen is shown exactly when an explanation is present, and it shows that explanation. */
  lemma ViewReviewingIffExplanation(s: AppState)
    ensures ViewOf(s).Reviewing? <==> s.explanation.Some?
    ensures ViewOf(s).Reviewing? ==>
      ViewOf(s).explanation == s.explanation.value && ViewOf(s).rawTranscript == s.transcript
  {
  }

  /**
    A blank transcript (only whitespace, or nothing) is refused with the
    empty-input error and nothing is sent; anything else is sent as typed,
    with loading on and the error cleared. The transcript and the explanation
    are never touched.
   */
  lemma {:induction false} StartGuardsBlankInput(s: AppState)
    ensures StartStep(s).1 == None <==> IsBlank(s.transcript)
    ensures IsBlank(s.transcript) ==> StartStep(s).0 == s.(error := Some(EmptyInputMessage))
    ensures !IsBlank(s.transcript) ==>
      StartStep(s).1 == Some(s.transcript) && StartStep(s).0.isLoading && StartStep(s).0.error == None
    ensures StartStep(s).0.transcript == s.transcript && StartStep(s).0.explanation == s.explanation
  {
    TrimEmptyIffBlank(s.transcript);
  }

  /**
    Whatever the outcome, loading has ended and the transcript is kept; a
    result replaces the explanation and leaves the error alone, a rejection
    sets the error and leaves the explanation alone.
   */
  lemma CompleteEndsLoading(s: AppState, outcome: ServiceOutcome)
    ensures !CompleteStep(s, outcome).isLoading
    ensures CompleteStep(s, outcome).transcript == s.transcript
    ensures outcome.Resolved? ==>
      CompleteStep(s, outcome).explanation == Some(outcome.explanation) && CompleteStep(s, outcome).error == s.error
    ensures outcome.Rejected? ==>
      CompleteStep(s, outcome).explanation == s.explanation
      && CompleteStep(s, outcome).error == Some(ErrorMessage(outcome.thrown))
  {
  }

  /** From the input screen, a successful request for a non-blank transcript leads to its result screen. */
  lemma GenerateSuccessShowsResult(s: AppState, e: Explanation)
    requires !IsBlank(s.transcript)
    ensures ViewOf(CompleteStep(StartStep(s).0, Resolved(e))) == Reviewing(e, s.transcript)
  {
    StartGuardsBlankInput(s);
  }

  /**
    From the input screen, a failed request keeps the input screen with the
    transcript still there, no spinner, and the failure's message.
   */
  lemma GenerateFailureShowsError(s: AppState, thrown: Thrown)
    requires s.explanation == None && !IsBlank(s.transcript)
    ensures ViewOf(CompleteStep(StartStep(s).0, Rejected(thrown)))
      == Collecting(s.transcript, false, Some(ErrorMessage(thrown)))
  {
    StartGuardsBlankInput(s);
  }

  /** While a request is in flight the input screen shows the spinner and no error. */
  lemma StartShowsSpinner(s: AppState)
    requires s.explanation == None && !IsBlank(s.transcript)
    ensures ViewOf(StartStep(s).0) == Collecting(s.transcript, true, None)
  {
    StartGuardsBlankInput(s);
  }

  /** The shell's state, updated in place by its handlers. */
  class Shell {
    var transcript: string
    var explanation: Option<Explanation>
    var isLoading: bool
    var error: Option<string>

    function State(): AppState
      reads this
    {
      AppState(transcript, explanation, isLoading, error)
    }

    /** First render: empty transcript, no explanation, not loading, no error. */
    constructor()
      ensures State() == Initial
    {
      transcript := "";
      explanation := None;
      isLoading := false;
      error := None;
    }

    /** Typing in the input screen replaces the transcript. */
    method SetTranscript(text: string)
      modifies this
      ensures State() == old(State()).(transcript := text)
    {
      transcript := text;
    }

    /** `handleGenerate` up to the awaited call; the transcript to send, if any, is returned. */
    method Start() returns (request: Option<string>)
      modifies this
      ensures (State(), request) == StartStep(old(State()))
    {
      if Trim(transcript) == "" {
        error := Some(EmptyInputMessage);
        return None;
      }
      isLoading := true;
      error := None;
      request := Some(transcript);
    }

    /** `handleGenerate` after the awaited call settles. */
    method Complete(outcome: ServiceOutcome)
      modifies this
      ensures State() == CompleteStep(old(State()), outcome)
    {
      match outcome {
        case Resolved(e) =>
          explanation := Some(e);
        case Rejected(thrown) =>
          error := Some(ErrorMessage(thrown));
      }
      isLoading := false;
    }

    /**
      The whole of `handleGenerate` when the service settles with `outcome`:
      a blank transcript never reaches the service.
     */
    method Generate(outcome: ServiceOutcome)
      modifies this
      ensures IsBlank(old(transcript)) ==> State() == StartStep(old(State())).0
      ensures !IsBlank(old(transcript)) ==> State() == CompleteStep(StartStep(old(State())).0, outcome)
    {
      StartGuardsBlankInput(State());
      var request := Start();
      if request.Some? {
        Complete(outcome);
      }
    }

    /** `handleReset`: back to the first-render state. */
    method Reset()
      modifies this
      ensures State() == Initial
    {
      transcript := "";
      explanation := None;
      error := None;
      isLoading := false;
    }

    /** The screen now on display. */
    function Screen(): View
      reads this
    {
      ViewOf(State())
    }
  }

  /** After a reset the input screen is back, empty and without error or spinner. */
  lemma ResetShowsEmptyInput()
    ensures ViewOf(Initial) == Collecting("", false, None)
  {
  }
}
