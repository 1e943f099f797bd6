/**
 * injectButton of copy-markdown.js over an abstract page: whether the
 * `.md-content h1` heading is present, whether its parent is already a
 * `.md-title-wrapper`, how many `.md-copy-markdown-button` elements exist,
 * and how many 100 ms retries are scheduled.
 */
module ButtonInjection {

  datatype Page = Page(hasHeading: bool, headingWrapped: bool, buttons: nat, retriesScheduled: nat)

  /**
   * injectButton as a function of the page before the call. It never creates
   * or removes the heading or the wrapper, schedules a retry exactly when the
   * heading is missing, and adds at most one button, to a page that had none.
   */
  function Inject(p: Page): (r: Page)
    ensures r.hasHeading == p.hasHeading
    ensures p.headingWrapped ==> r.headingWrapped
    ensures r.retriesScheduled == p.retriesScheduled + (if p.hasHeading then 0 else 1)
    ensures p.buttons <= r.buttons <= (if p.buttons == 0 then 1 else p.buttons)
  {
    if !p.hasHeading then p.(retriesScheduled := p.retriesScheduled + 1)
    else if p.buttons > 0 then p
    else if !p.headingWrapped then p.(headingWrapped := true, buttons := 1)
    else p
  }

  /** The page after `n` calls. */
  function InjectTimes(p: Page, n: nat): Page
    decreases n
  {
    if n == 0 then p else InjectTimes(Inject(p), n - 1)
  }

  /** Without a heading nothing changes but a retry is scheduled, even when a button exists. */
  lemma MissingHeadingRetries(p: Page)
    requires !p.hasHeading
    ensures Inject(p) == p.(retriesScheduled := p.retriesScheduled + 1)
  {
  }

  /** With a heading no retry is scheduled, and an existing button means nothing changes. */
  lemma ExistingButtonNoChange(p: Page)
    requires p.hasHeading && p.buttons > 0
    ensures Inject(p) == p
  {
  }

  /** An already wrapped heading without a button gets no button. */
  lemma WrappedHeadingGetsNothing(p: Page)
    requires p.hasHeading && p.headingWrapped && p.buttons == 0
    ensures Inject(p) == p
  {
  }

  /** A button is added exactly when there is a heading, no button and no wrapper, and then it is one button in a wrapper. */
  lemma AddsButtonExactly(p: Page)
    ensures Inject(p).buttons > p.buttons <==> p.hasHeading && p.buttons == 0 && !p.headingWrapped
    ensures Inject(p).buttons > p.buttons ==> Inject(p).buttons == 1 && Inject(p).headingWrapped
    ensures Inject(p).buttons >= p.buttons
  {
  }

  /** With a heading, a second call changes nothing. */
  lemma InjectIdempotent(p: Page)
    requires p.hasHeading
    ensures Inject(Inject(p)) == Inject(p)
  {
  }

  /** However often it runs, injectButton never makes a second button. */
  lemma {:induction false} NeverSecondButton(p: Page, n: nat)
    requires p.buttons <= 1
    ensures InjectTimes(p, n).buttons <= 1
    ensures InjectTimes(p, n).hasHeading == p.hasHeading
    decreases n
  {
    if n > 0 {
      NeverSecondButton(Inject(p), n - 1);
    }
  }

  /** The document, restructured in place by injectButton. */
  class Document {
    var hasHeading: bool
    var headingWrapped: bool
    var buttons: nat
    var retriesScheduled: nat

    function State(): Page
      reads this
    {
      Page(hasHeading, headingWrapped, buttons, retriesScheduled)
    }

    constructor (p: Page)
      ensures State() == p
    {
      hasHeading, headingWrapped, buttons, retriesScheduled := p.hasHeading, p.headingWrapped, p.buttons, p.retriesScheduled;
    }

    method InjectButton()
      modifies this
      ensures State() == Inject(old(State()))
    {
      if !hasHeading {
        retriesScheduled := retriesScheduled + 1;
        return;
      }
      if buttons > 0 {
        return;
      }
      if !headingWrapped {
        headingWrapped := true;
        buttons := buttons + 1;
      }
    }
  }
}
