/**
 * The waitlist form of `ComingSoonPage`: its React state (email, isSubmitted,
 * submitStatus, isOpen, toast), the handlers that update it, the 3000 ms close timers
 * they schedule, and the render rules that read it. The request to the edge function
 * is split into `Submit` (the request leaves) and `Respond` (its reply arrives);
 * a timer is a pending entry fired by `CloseTimerFires`.
 */
module ComingSoon {
  import Toast

  datatype SubmitStatus = Idle | Success | Duplicate | Error

  datatype ToastData = ToastData(isVisible: bool, message: string, kind: Toast.ToastType)

  const SuccessToastMessage: string := " You're on the List! We'll be in touch soon"
  const ErrorToastMessage: string := "Something went wrong. Please try again."

  /** The reply as the client sees it: a status and whether its body parsed as JSON, or a failed fetch. */
  datatype Reply = Reply(status: nat, jsonBody: bool) | TransportFailure

  /**
   * The component's state. `closeTimers` counts pending close timers (all identical,
   * so only their number matters); `inFlight` counts requests awaiting their reply.
   */
  datatype Page = Page(
    email: string,
    isSubmitted: bool,
    submitStatus: SubmitStatus,
    isOpen: bool,
    toast: ToastData,
    closeTimers: nat,
    inFlight: nat)

  const Initial: Page := Page("", false, Idle, false, ToastData(false, "", Toast.Success), 0, 0)

  datatype Event =
    | OpenChange(open: bool)   // the dialog asks to open or close (handleOpenChange)
    | EditEmail(value: string) // the input's onChange
    | Submit                   // the form is submitted (handleWaitlistSignup)
    | Respond(reply: Reply)    // the reply to an outstanding request arrives
    | CloseTimerFires          // one pending 3000 ms close timer runs
    | CloseToast               // the toast's onClose (closeToast)

  /** `response.ok`. */
  predicate IsOk(status: nat): (r: bool)
    ensures status == 200 ==> r
    ensures r ==> status != 409
  {
    200 <= status <= 299
  }

  // ----- Render rules -----

  /** The dialog header with the prompt. */
  predicate HeaderShown(s: Page): (r: bool)
    ensures r <==> !StatusMessageShown(s)
  {
    s.submitStatus != Success && s.submitStatus != Duplicate
  }

  /** The centred confirmation line. */
  predicate StatusMessageShown(s: Page): (r: bool)
    ensures r ==> s.submitStatus != Idle && s.submitStatus != Error
  {
    s.submitStatus == Success || s.submitStatus == Duplicate
  }

  /** The email input. */
  predicate InputShown(s: Page): (r: bool)
    ensures r <==> HeaderShown(s)
  {
    s.submitStatus != Success && s.submitStatus != Duplicate
  }

  /** The submit button's `disabled`: a confirmed form can never be submitted. */
  predicate ButtonDisabled(s: Page): (r: bool)
    ensures StatusMessageShown(s) ==> r
    ensures !StatusMessageShown(s) ==> (r <==> s.isSubmitted)
  {
    s.isSubmitted || s.submitStatus == Success || s.submitStatus == Duplicate
  }

  datatype Label = AnimatedYoureIn | PlainYoureIn | GetFirstAccess

  /** The button's label: the prompt exactly while the button is enabled. */
  function ButtonLabel(s: Page): (r: Label)
    ensures r == GetFirstAccess <==> !ButtonDisabled(s)
    ensures r == AnimatedYoureIn <==> StatusMessageShown(s)
  {
    if s.submitStatus == Success || s.submitStatus == Duplicate then AnimatedYoureIn
    else if s.isSubmitted then PlainYoureIn
    else GetFirstAccess
  }

  // ----- Transitions -----

  /** A reply can only arrive for an outstanding request, a timer only fire if pending. */
  predicate CanOccur(s: Page, e: Event)
  {
    match e
    case Respond(_) => s.inFlight > 0
    case CloseTimerFires => s.closeTimers > 0
    case _ => true
  }

  /**
   * What each handler does to the state. No handler assigns `error`; a timer is only
   * ever added by a reply and removed by its firing; a reply consumes its request.
   */
  function Next(s: Page, e: Event): (r: Page)
    requires CanOccur(s, e)
    ensures s.submitStatus != Error ==> r.submitStatus != Error
    ensures r.closeTimers < s.closeTimers ==> e == CloseTimerFires
    ensures r.closeTimers > s.closeTimers ==> e.Respond?
    ensures e.Respond? ==> r.inFlight == s.inFlight - 1
  {
    match e
    case OpenChange(open) =>
      if open then s.(isOpen := true, email := "", isSubmitted := false, submitStatus := Idle)
      else s.(isOpen := false)
    case EditEmail(value) =>
      s.(email := value)
    case Submit =>
      if s.email == "" then s
      else s.(isSubmitted := true, submitStatus := Idle, inFlight := s.inFlight + 1)
    case Respond(reply) =>
      var s1 := s.(inFlight := s.inFlight - 1);
      if reply.Reply? && reply.jsonBody && IsOk(reply.status) then
        s1.(submitStatus := Success,
            toast := ToastData(true, SuccessToastMessage, Toast.Success),
            email := "",
            closeTimers := s1.closeTimers + 1)
      else if reply.Reply? && reply.jsonBody && reply.status == 409 then
        s1.(submitStatus := Duplicate, closeTimers := s1.closeTimers + 1)
      else
        // a failed fetch, an unreadable body or any other status all end in the catch
        s1.(toast := ToastData(true, ErrorToastMessage, Toast.Error))
    case CloseTimerFires =>
      s.(isOpen := false, submitStatus := Idle, closeTimers := s.closeTimers - 1)
    case CloseToast =>
      s.(toast := s.toast.(isVisible := false))
  }

  /**
   * Events a user and the browser can actually produce: the input exists only while
   * shown in an open dialog, and the form submits only through its enabled button.
   */
  predicate Allowed(s: Page, e: Event)
  {
    CanOccur(s, e) &&
    match e
    case EditEmail(_) => s.isOpen && InputShown(s)
    case Submit => s.isOpen && !ButtonDisabled(s)
    case _ => true
  }

  /** A run of events from `s`; an event that cannot happen in the state it meets is dropped. */
  function Run(s: Page, es: seq<Event>): Page
    decreases |es|
  {
    if es == [] then s
    else Run(if Allowed(s, es[0]) then Next(s, es[0]) else s, es[1..])
  }

  // ----- Properties of single transitions -----

  /** Opening resets the form; pending close timers and outstanding requests survive it. */
  lemma OpenResetsForm(s: Page)
    ensures var r := Next(s, OpenChange(true));
      r.isOpen && r.email == "" && !r.isSubmitted && r.submitStatus == Idle &&
      r.toast == s.toast && r.closeTimers == s.closeTimers && r.inFlight == s.inFlight
  {
  }

  /** Closing changes nothing but `isOpen`. */
  lemma CloseChangesOnlyIsOpen(s: Page)
    ensures Next(s, OpenChange(false)) == s.(isOpen := false)
  {
  }

  /** Editing the input replaces the email and changes nothing else. */
  lemma EditChangesOnlyEmail(s: Page, v: string)
    ensures Next(s, EditEmail(v)) == s.(email := v)
  {
  }

  /** Submitting an empty email changes nothing and sends no request. */
  lemma EmptySubmitIsInert(s: Page)
    requires s.email == ""
    ensures Next(s, Submit) == s
  {
  }

  /** A non-empty submit marks the form submitted and status idle before any reply. */
  lemma SubmitStartsRequest(s: Page)
    requires s.email != ""
    ensures Next(s, Submit) == s.(isSubmitted := true, submitStatus := Idle, inFlight := s.inFlight + 1)
  {
  }

  /** An ok reply with a JSON body: success, email cleared, success toast, one more close timer. */
  lemma OkReplySucceeds(s: Page, status: nat)
    requires s.inFlight > 0 && IsOk(status)
    ensures var r := Next(s, Respond(Reply(status, true)));
      r.submitStatus == Success && r.email == "" && r.isSubmitted == s.isSubmitted &&
      r.toast == ToastData(true, SuccessToastMessage, Toast.Success) &&
      r.closeTimers == s.closeTimers + 1 && r.inFlight == s.inFlight - 1 && r.isOpen == s.isOpen
  {
  }

  /** A 409 with a JSON body: duplicate and one more close timer; toast and email untouched. */
  lemma ConflictReplyIsDuplicate(s: Page)
    requires s.inFlight > 0
    ensures Next(s, Respond(Reply(409, true)))
         == s.(submitStatus := Duplicate, closeTimers := s.closeTimers + 1, inFlight := s.inFlight - 1)
  {
  }

  /**
   * Every other reply (another status, a failed fetch, a body that is not JSON even
   * with an ok status) only shows the error toast: status, email and isSubmitted stay.
   */
  lemma OtherReplyShowsErrorToast(s: Page, reply: Reply)
    requires s.inFlight > 0
    requires reply.TransportFailure? || !reply.jsonBody || (!IsOk(reply.status) && reply.status != 409)
    ensures Next(s, Respond(reply))
         == s.(toast := ToastData(true, ErrorToastMessage, Toast.Error), inFlight := s.inFlight - 1)
  {
  }

  /** The close timer closes the dialog and resets the status, but leaves isSubmitted. */
  lemma CloseTimerKeepsSubmitted(s: Page)
    requires s.closeTimers > 0
    ensures Next(s, CloseTimerFires)
         == s.(isOpen := false, submitStatus := Idle, closeTimers := s.closeTimers - 1)
  {
  }

  /** closeToast hides the toast, keeps its message and type, and changes nothing else. */
  lemma CloseToastKeepsContent(s: Page)
    ensures Next(s, CloseToast).toast == ToastData(false, s.toast.message, s.toast.kind)
    ensures Next(s, CloseToast) == s.(toast := s.toast.(isVisible := false))
  {
  }

  /** A confirmed form hides the header and input, shows the confirmation, and locks the button. */
  lemma ConfirmedRendering(s: Page)
    requires s.submitStatus == Success || s.submitStatus == Duplicate
    ensures !HeaderShown(s) && !InputShown(s) && StatusMessageShown(s)
    ensures ButtonDisabled(s) && ButtonLabel(s) == AnimatedYoureIn
  {
  }

  /** Otherwise header and input are shown, and the button is disabled exactly when submitted. */
  lemma UnconfirmedRendering(s: Page)
    requires s.submitStatus != Success && s.submitStatus != Duplicate
    ensures HeaderShown(s) && InputShown(s) && !StatusMessageShown(s)
    ensures ButtonDisabled(s) <==> s.isSubmitted
    ensures ButtonLabel(s) == if s.isSubmitted then PlainYoureIn else GetFirstAccess
  {
  }

  // ----- Properties of runs -----

  /** No handler assigns `error`: from a state that is not `error`, no run reaches it. */
  lemma {:induction false} NeverError(s: Page, es: seq<Event>)
    requires s.submitStatus != Error
    ensures Run(s, es).submitStatus != Error
    decreases |es|
  {
    if es != [] {
      var s1 := if Allowed(s, es[0]) then Next(s, es[0]) else s;
      assert s1.submitStatus != Error;
      NeverError(s1, es[1..]);
    }
  }

  predicate NoReopen(es: seq<Event>)
  {
    forall i | 0 <= i < |es| :: es[i] != OpenChange(true)
  }

  /**
   * Once submitted, the form stays submitted, and its button disabled, until the
   * dialog is shown again, whatever replies, timers and toasts come in between: after
   * an error reply the user cannot resubmit without closing and reopening the dialog.
   */
  lemma {:induction false} SubmittedUntilReopened(s: Page, es: seq<Event>)
    requires s.isSubmitted && NoReopen(es)
    ensures Run(s, es).isSubmitted && ButtonDisabled(Run(s, es))
    decreases |es|
  {
    if es != [] {
      var s1 := if Allowed(s, es[0]) then Next(s, es[0]) else s;
      assert s1.isSubmitted;
      assert NoReopen(es[1..]) by {
        forall i | 0 <= i < |es[1..]| ensures es[1..][i] != OpenChange(true) {
          assert es[1..][i] == es[i + 1];
        }
      }
      SubmittedUntilReopened(s1, es[1..]);
    }
  }

  // ----- Scenarios (each step is one a user, the network or a timer can produce) -----

  /** Open, type a new email, submit, get 200, let the timer fire. */
  lemma NewSignupScenario()
    ensures var shown := Next(Initial, OpenChange(true));
      var typed := Next(shown, EditEmail("a@b.com"));
      var sent := Next(typed, Submit);
      var confirmed := Next(sent, Respond(Reply(200, true)));
      var closed := Next(confirmed, CloseTimerFires);
      Allowed(shown, EditEmail("a@b.com")) && Allowed(typed, Submit) &&
      Allowed(sent, Respond(Reply(200, true))) && Allowed(confirmed, CloseTimerFires) &&
      ButtonDisabled(sent) && InputShown(sent) &&
      confirmed.submitStatus == Success && confirmed.email == "" && confirmed.isOpen &&
      confirmed.toast == ToastData(true, SuccessToastMessage, Toast.Success) &&
      !closed.isOpen && closed.submitStatus == Idle && closed.isSubmitted && closed.closeTimers == 0
  {
  }

  /** An email already on the list: duplicate, no toast, closed by the timer. */
  lemma DuplicateSignupScenario()
    ensures var typed := Next(Next(Initial, OpenChange(true)), EditEmail("a@b.com"));
      var sent := Next(typed, Submit);
      var duplicate := Next(sent, Respond(Reply(409, true)));
      Allowed(typed, Submit) && Allowed(sent, Respond(Reply(409, true))) &&
      duplicate.submitStatus == Duplicate && duplicate.email == "a@b.com" && !duplicate.toast.isVisible &&
      StatusMessageShown(duplicate) && duplicate.closeTimers == 1 &&
      !Next(duplicate, CloseTimerFires).isOpen
  {
  }

  /** A 500 shows the error toast and leaves the button disabled: no second submit is possible. */
  lemma ErrorLocksFormScenario()
    ensures var sent := Next(Next(Next(Initial, OpenChange(true)), EditEmail("a@b.com")), Submit);
      var failed := Next(sent, Respond(Reply(500, true)));
      failed.submitStatus == Idle && failed.isSubmitted && failed.email == "a@b.com" &&
      failed.toast == ToastData(true, ErrorToastMessage, Toast.Error) &&
      ButtonDisabled(failed) && !Allowed(failed, Submit)
  {
  }

  /**
   * Reopening before the close timer fires resets the form at once, but the timer
   * is not cancelled: it then closes the freshly reopened dialog.
   */
  lemma ReopenDoesNotCancelTimer()
    ensures var sent := Next(Next(Next(Initial, OpenChange(true)), EditEmail("a@b.com")), Submit);
      var confirmed := Next(sent, Respond(Reply(200, true)));
      var reopened := Next(Next(confirmed, OpenChange(false)), OpenChange(true));
      reopened.isOpen && reopened.submitStatus == Idle && reopened.email == "" && reopened.closeTimers == 1 &&
      Allowed(reopened, CloseTimerFires) && !Next(reopened, CloseTimerFires).isOpen
  {
  }

  /** A reply that arrives after the dialog was reopened is applied to the fresh form. */
  lemma StaleReplyAppliesToFreshForm()
    ensures var sent := Next(Next(Next(Initial, OpenChange(true)), EditEmail("a@b.com")), Submit);
      var reopened := Next(Next(sent, OpenChange(false)), OpenChange(true));
      var s := Next(reopened, Respond(Reply(200, true)));
      Allowed(reopened, Respond(Reply(200, true))) &&
      s.isOpen && s.submitStatus == Success && !s.isSubmitted && s.closeTimers == 1
  {
  }

  // ----- The component -----

  /** The component instance; each handler updates its state fields in sequence. */
  class ComingSoonPage {
    var email: string
    var isSubmitted: bool
    var submitStatus: SubmitStatus
    var isOpen: bool
    var toast: ToastData
    var closeTimers: nat
    var inFlight: nat

    function State(): Page
      reads this
    {
      Page(email, isSubmitted, submitStatus, isOpen, toast, closeTimers, inFlight)
    }

    /** `error` is declared but never reached. */
    predicate Valid()
      reads this
    {
      submitStatus != Error
    }

    constructor ()
      ensures Valid() && State() == Initial
    {
      email, isSubmitted, submitStatus, isOpen := "", false, Idle, false;
      toast := ToastData(false, "", Toast.Success);
      closeTimers, inFlight := 0, 0;
    }

    method HandleOpenChange(open: bool)
      requires Valid()
      modifies this
      ensures Valid() && State() == Next(old(State()), OpenChange(open))
    {
      isOpen := open;
      if open {
        email := "";
        isSubmitted := false;
        submitStatus := Idle;
      }
    }

    method SetEmail(value: string)
      requires Valid()
      modifies this
      ensures Valid() && State() == Next(old(State()), EditEmail(value))
    {
      email := value;
    }

    /** Returns whether a request was sent. */
    method HandleWaitlistSignup() returns (requested: bool)
      requires Valid()
      modifies this
      ensures Valid() && State() == Next(old(State()), Submit)
      ensures requested <==> old(email) != ""
    {
      requested := email != "";
      if !requested {
        return;
      }
      isSubmitted := true;
      submitStatus := Idle;
      inFlight := inFlight + 1;
    }

    method ReceiveReply(reply: Reply)
      requires Valid() && inFlight > 0
      modifies this
      ensures Valid() && State() == Next(old(State()), Respond(reply))
    {
      inFlight := inFlight - 1;
      if reply.Reply? && reply.jsonBody && IsOk(reply.status) {
        submitStatus := Success;
        toast := ToastData(true, SuccessToastMessage, Toast.Success);
        email := "";
        closeTimers := closeTimers + 1;
      } else if reply.Reply? && reply.jsonBody && reply.status == 409 {
        submitStatus := Duplicate;
        closeTimers := closeTimers + 1;
      } else {
        toast := ToastData(true, ErrorToastMessage, Toast.Error);
      }
    }

    method FireCloseTimer()
      requires Valid() && closeTimers > 0
      modifies this
      ensures Valid() && State() == Next(old(State()), CloseTimerFires)
    {
      closeTimers := closeTimers - 1;
      isOpen := false;
      submitStatus := Idle;
    }

    method CloseToast()
      requires Valid()
      modifies this
      ensures Valid() && State() == Next(old(State()), Event.CloseToast)
    {
      toast := toast.(isVisible := false);
    }
  }
}
