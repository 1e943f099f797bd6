/**
 * The "Copy page" button of copy-markdown.js and the life cycle of one click
 * (handleCopyClick). The async handler is cut at its suspension points into
 * events: the click itself, the settling of the fetch, the settling of the
 * clipboard write, and the 1500 ms reset timer firing. The svg markup is an
 * enumerated icon, and `phase` records where the pending handler stands.
 */
module CopyButton {
  import opened Wrappers
  import PagePath
  import MarkdownCache

  datatype Icon = OriginalIcon | SpinnerIcon | CheckIcon

  /** Where the handler of the last accepted click stands. */
  datatype Phase =
    | Ready            // no handler pending
    | Fetching         // awaiting fetchMarkdown
    | Copying          // awaiting copyToClipboard
    | ShowingSuccess   // awaiting the 1500 ms reset timer

  datatype Event =
    | Click
    | FetchSettled(fetched: bool)
    | ClipboardSettled(copied: bool)
    | ResetTimerFired

  /** A toast passed to showNotification. */
  datatype Notification = Notification(message: string, isError: bool)

  const SUCCESS_MESSAGE := "Markdown copied to clipboard!"
  const FAILURE_MESSAGE := "Failed to copy markdown"

  /** `saved` is the svg captured as `originalSvg` when the click was accepted. */
  datatype ButtonState = ButtonState(icon: Icon, disabled: bool, phase: Phase, saved: Icon)

  datatype Transition = Transition(next: ButtonState, notice: Option<Notification>)

  /** The button as createCopyButton makes it. */
  const INITIAL := ButtonState(OriginalIcon, false, Ready, OriginalIcon)

  /** The catch block: restore the captured icon, re-enable, show the error toast. */
  function Fail(s: ButtonState): Transition {
    Transition(ButtonState(s.saved, false, Ready, s.saved), Some(Notification(FAILURE_MESSAGE, true)))
  }

  /**
   * One event. A disabled button receives no clicks; an event for a step the
   * pending handler is not at does not occur and changes nothing. A toast is
   * shown exactly when the handler ends in a clipboard outcome or a failed
   * fetch, and it is the success or the failure toast; only an accepted click
   * captures the icon, and the disabled flag changes only on a click or on
   * an event that ends the handler.
   */
  function Step(s: ButtonState, e: Event): (r: Transition)
    ensures r.notice.Some? <==> (s.phase == Fetching && e == FetchSettled(false)) || (s.phase == Copying && e.ClipboardSettled?)
    ensures r.notice.Some? ==> r.notice.value in {Notification(SUCCESS_MESSAGE, false), Notification(FAILURE_MESSAGE, true)}
    ensures r.next.saved == (if e.Click? && !s.disabled then s.icon else s.saved)
    ensures r.next.disabled != s.disabled ==> e.Click? || Releases(e)
  {
    match e
    case Click =>
      if s.disabled then Transition(s, None)
      else Transition(ButtonState(SpinnerIcon, true, Fetching, s.icon), None)
    case FetchSettled(fetched) =>
      if s.phase != Fetching then Transition(s, None)
      else if fetched then Transition(s.(phase := Copying), None)
      else Fail(s)
    case ClipboardSettled(copied) =>
      if s.phase != Copying then Transition(s, None)
      else if copied then
        Transition(s.(icon := CheckIcon, phase := ShowingSuccess), Some(Notification(SUCCESS_MESSAGE, false)))
      else Fail(s)
    case ResetTimerFired =>
      if s.phase != ShowingSuccess then Transition(s, None)
      else Transition(s.(icon := s.saved, disabled := false, phase := Ready), None)
  }

  /** The state after a series of events. */
  function Run(s: ButtonState, events: seq<Event>): ButtonState
    decreases |events|
  {
    if events == [] then s else Run(Step(s, events[0]).next, events[1..])
  }

  /**
   * The invariant of a button: it is disabled exactly while a handler is
   * pending, shows the original icon when ready, the spinner while fetching or
   * copying and the check mark while the reset timer runs, and the icon a
   * handler captured is the original one.
   */
  predicate Consistent(s: ButtonState) {
    && s.saved == OriginalIcon
    && (s.disabled <==> s.phase != Ready)
    && s.icon == (match s.phase
                  case Ready => OriginalIcon
                  case Fetching => SpinnerIcon
                  case Copying => SpinnerIcon
                  case ShowingSuccess => CheckIcon)
  }

  /** Events that end a pending handler and re-enable the button. */
  predicate Releases(e: Event) {
    e.ResetTimerFired? || (e.FetchSettled? && !e.fetched) || (e.ClipboardSettled? && !e.copied)
  }

  lemma StepConsistent(s: ButtonState, e: Event)
    requires Consistent(s)
    ensures Consistent(Step(s, e).next)
  {
  }

  /** Every state reachable from the initial button is consistent. */
  lemma {:induction false} RunConsistent(s: ButtonState, events: seq<Event>)
    requires Consistent(s)
    ensures Consistent(Run(s, events))
    decreases |events|
  {
    if events != [] {
      StepConsistent(s, events[0]);
      RunConsistent(Step(s, events[0]).next, events[1..]);
    }
  }

  /** While disabled, clicks are ignored: no second handler starts. */
  lemma ClickWhileDisabledIgnored(s: ButtonState)
    requires s.disabled
    ensures Step(s, Click) == Transition(s, None)
  {
  }

  /** A click on an enabled button disables it and shows the spinner. */
  lemma ClickStartsHandler(s: ButtonState)
    requires Consistent(s) && !s.disabled
    ensures Step(s, Click) == Transition(ButtonState(SpinnerIcon, true, Fetching, OriginalIcon), None)
  {
  }

  /** A failed fetch or clipboard write restores the original icon and re-enables the button at once, with an error toast. */
  lemma FailureRestoresAtOnce(s: ButtonState, e: Event)
    requires Consistent(s)
    requires (s.phase == Fetching && e == FetchSettled(false)) || (s.phase == Copying && e == ClipboardSettled(false))
    ensures Step(s, e) == Transition(INITIAL, Some(Notification(FAILURE_MESSAGE, true)))
  {
  }

  /**
   * The success path: after the click, a good fetch and a good clipboard write
   * the button shows the check mark and stays disabled; the reset timer then
   * restores the original icon and re-enables it.
   */
  lemma SuccessPath(s: ButtonState)
    requires Consistent(s) && !s.disabled
    ensures Run(s, [Click, FetchSettled(true), ClipboardSettled(true)]) == ButtonState(CheckIcon, true, ShowingSuccess, OriginalIcon)
    ensures Step(Run(s, [Click, FetchSettled(true)]), ClipboardSettled(true)).notice == Some(Notification(SUCCESS_MESSAGE, false))
    ensures Run(s, [Click, FetchSettled(true), ClipboardSettled(true), ResetTimerFired]) == INITIAL
  {
    var s1 := Step(s, Click).next;
    var s2 := Step(s1, FetchSettled(true)).next;
    var s3 := Step(s2, ClipboardSettled(true)).next;
    assert Run(s3, [ResetTimerFired]) == Step(s3, ResetTimerFired).next;
    assert [Click, FetchSettled(true), ClipboardSettled(true), ResetTimerFired][1..] == [FetchSettled(true), ClipboardSettled(true), ResetTimerFired];
    assert [FetchSettled(true), ClipboardSettled(true), ResetTimerFired][1..] == [ClipboardSettled(true), ResetTimerFired];
    assert [ClipboardSettled(true), ResetTimerFired][1..] == [ResetTimerFired];
    assert [Click, FetchSettled(true), ClipboardSettled(true)][1..] == [FetchSettled(true), ClipboardSettled(true)];
    assert [FetchSettled(true), ClipboardSettled(true)][1..] == [ClipboardSettled(true)];
    assert [Click, FetchSettled(true)][1..] == [FetchSettled(true)];
  }

  /**
   * Once a handler is pending the button stays disabled, whatever events
   * follow, until one of them ends the handler.
   */
  lemma {:induction false} DisabledUntilReleased(s: ButtonState, events: seq<Event>)
    requires Consistent(s) && s.disabled
    requires forall i :: 0 <= i < |events| ==> !Releases(events[i])
    ensures Run(s, events).disabled
    decreases |events|
  {
    if events != [] {
      StepConsistent(s, events[0]);
      DisabledUntilReleased(Step(s, events[0]).next, events[1..]);
    }
  }

  /** The copy button element: its svg and its disabled flag, updated in place. */
  class CopyMarkdownButton {
    var icon: Icon
    var disabled: bool
    var phase: Phase
    var saved: Icon

    function State(): ButtonState
      reads this
    {
      ButtonState(icon, disabled, phase, saved)
    }

    /** createCopyButton. */
    constructor ()
      ensures State() == INITIAL
    {
      icon, disabled, phase, saved := OriginalIcon, false, Ready, OriginalIcon;
    }

    /** The click listener runs handleCopyClick up to its first await. */
    method Click() returns (notice: Option<Notification>)
      modifies this
      ensures Transition(State(), notice) == Step(old(State()), Event.Click)
    {
      notice := None;
      if !disabled {
        saved := icon;
        disabled := true;
        icon := SpinnerIcon;
        phase := Fetching;
      }
    }

    /** handleCopyClick resumes after fetchMarkdown resolved or threw. */
    method FetchSettled(fetched: bool) returns (notice: Option<Notification>)
      modifies this
      ensures Transition(State(), notice) == Step(old(State()), Event.FetchSettled(fetched))
    {
      notice := None;
      if phase == Fetching {
        if fetched {
          phase := Copying;
        } else {
          notice := Restore();
        }
      }
    }

    /** handleCopyClick resumes after copyToClipboard resolved or threw. */
    method ClipboardSettled(copied: bool) returns (notice: Option<Notification>)
      modifies this
      ensures Transition(State(), notice) == Step(old(State()), Event.ClipboardSettled(copied))
    {
      notice := None;
      if phase == Copying {
        if copied {
          icon := CheckIcon;
          phase := ShowingSuccess;
          notice := Some(Notification(SUCCESS_MESSAGE, false));
        } else {
          notice := Restore();
        }
      }
    }

    /** The 1500 ms timer set on success restores the captured icon and re-enables the button. */
    method ResetTimerFired()
      modifies this
      ensures State() == Step(old(State()), Event.ResetTimerFired).next
    {
      if phase == ShowingSuccess {
        icon := saved;
        disabled := false;
        phase := Ready;
      }
    }

    /** The catch block of handleCopyClick. */
    method Restore() returns (notice: Option<Notification>)
      modifies this
      ensures Transition(State(), notice) == Fail(old(State()))
    {
      icon := saved;
      disabled := false;
      phase := Ready;
      notice := Some(Notification(FAILURE_MESSAGE, true));
    }
  }

  /**
   * The first await of handleCopyClick: the raw Markdown URL of the current
   * page is fetched through the session cache, and the handler resumes with
   * the outcome.
   */
  method CompleteFetch(button: CopyMarkdownButton, storage: MarkdownCache.SessionStorage, pathname: string, response: MarkdownCache.Response)
    returns (notice: Option<Notification>)
    requires button.phase == Fetching
    modifies button, storage
    ensures var o := MarkdownCache.Fetch(old(storage.items), PagePath.RawMarkdownUrl(pathname), response);
      && storage.items == o.storage
      && Transition(button.State(), notice) == Step(old(button.State()), FetchSettled(o.result.Success?))
  {
    var url := PagePath.RawMarkdownUrl(pathname);
    var result, _ := MarkdownCache.FetchMarkdown(storage, url, response);
    notice := button.FetchSettled(result.Success?);
  }
}
