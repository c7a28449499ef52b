/**
 * The `Toast` component: renders its message only while `isVisible`, and an effect
 * keyed on `[isVisible, onClose]` that, while visible, schedules `onClose` 4000 ms
 * later. Whenever a dependency changes (or the component unmounts) the effect's
 * cleanup clears the pending timer before a new one is set. Time is an abstract clock
 * in milliseconds; a timer is its deadline on that clock.
 */
module Toast {
  import opened Wrappers

  datatype ToastType = Success | Error | Info

  const AutoDismissMs: nat := 4000

  /** The `type` prop; an omitted type is `success`. */
  function EffectiveType(t: Option<ToastType>): (r: ToastType)
    ensures t.Some? ==> r == t.value
    ensures t.None? ==> r == Success
  {
    if t.Some? then t.value else Success
  }

  /** The style looked up for a type. */
  function StyleClass(t: ToastType): (r: string)
    ensures r == "bg-white text-gray-800"
  {
    match t
    case Success => "bg-white text-gray-800"
    case Error => "bg-white text-gray-800"
    case Info => "bg-white text-gray-800"
  }

  /** All three types look the same. */
  lemma StyleIgnoresType(a: ToastType, b: ToastType)
    ensures StyleClass(a) == StyleClass(b)
  {
  }

  /**
   * The component's timer state: the clock, the `isVisible` prop of the last render
   * and the deadline of the pending timer, if any (there is never more than one).
   */
  datatype Timer = Timer(now: int, isVisible: bool, deadline: Option<int>)

  /** A pending timer belongs to a visible toast and is due within the next 4000 ms. */
  predicate Consistent(t: Timer)
  {
    t.deadline.Some? ==> t.isVisible && t.now < t.deadline.value <= t.now + AutoDismissMs
  }

  /** Whether anything is rendered (`if (!isVisible) return null`). */
  predicate Rendered(t: Timer): (r: bool)
    ensures Consistent(t) && !r ==> t.deadline.None?
  {
    t.isVisible
  }

  /** The timer the effect body sets at time `now`: one 4000 ms ahead when visible, else none. */
  function Scheduled(now: int, visible: bool): Option<int>
  {
    if visible then Some(now + AutoDismissMs) else None
  }

  /** First render: the effect always runs once after mounting. */
  function Mount(now: int, visible: bool): (r: Timer)
    ensures Consistent(r) && r.now == now && Rendered(r) == visible
    ensures r.deadline.Some? <==> visible
    ensures visible ==> r.deadline == Some(now + AutoDismissMs)
  {
    Timer(now, visible, Scheduled(now, visible))
  }

  /** What happens to the toast, and whether it made it call `onClose`. */
  datatype Event =
    | Rerender(visible: bool, onCloseChanged: bool)  // a render with these props
    | Elapse(ms: nat)                                  // the clock advances
    | ClickClose                                       // the close button is clicked
    | Unmount

  /**
   * One event. A re-render re-runs the effect only when `isVisible` or the identity of
   * `onClose` changed; the cleanup clears the old timer first. A timer whose deadline
   * is reached fires `onClose` once and is gone. The close button, which exists only
   * while rendered, calls `onClose` at once and leaves the timer alone.
   */
  function Step(t: Timer, e: Event): (r: (Timer, bool))
    ensures r.0.now >= t.now
    ensures r.1 ==> Rendered(t) || t.deadline.Some?
    ensures r.0.deadline.Some? && r.0.deadline != t.deadline ==> r.0.deadline == Some(r.0.now + AutoDismissMs)
  {
    match e
    case Rerender(visible, onCloseChanged) =>
      if visible != t.isVisible || onCloseChanged then (Timer(t.now, visible, Scheduled(t.now, visible)), false)
      else (t, false)
    case Elapse(ms) =>
      if t.deadline.Some? && t.deadline.value <= t.now + ms then (Timer(t.now + ms, t.isVisible, None), true)
      else (t.(now := t.now + ms), false)
    case ClickClose =>
      (t, Rendered(t))
    case Unmount =>
      (t.(deadline := None), false)
  }

  /** Runs the events in order; the result counts the calls to `onClose`. */
  function Run(t: Timer, es: seq<Event>): (r: (Timer, nat))
    decreases |es|
  {
    if es == [] then (t, 0)
    else
      var (t1, called) := Step(t, es[0]);
      var (t2, n) := Run(t1, es[1..]);
      (t2, n + if called then 1 else 0)
  }

  // ----- Properties -----

  /** While hidden nothing is rendered, no timer is pending and none is set. */
  lemma HiddenSchedulesNothing(t: Timer, onCloseChanged: bool, now: int)
    requires Consistent(t)
    ensures !Rendered(Mount(now, false)) && Mount(now, false).deadline.None?
    ensures var r := Step(t, Rerender(false, onCloseChanged)).0; !Rendered(r) && r.deadline.None?
  {
  }

  /** Every step keeps a pending timer tied to a visible toast and due within 4000 ms. */
  lemma StepConsistent(t: Timer, e: Event)
    requires Consistent(t)
    ensures Consistent(Step(t, e).0)
  {
  }

  /** A render that changes a dependency while visible restarts the full 4000 ms countdown. */
  lemma ChangeRestartsCountdown(t: Timer, onCloseChanged: bool)
    requires !t.isVisible || onCloseChanged
    ensures Step(t, Rerender(true, onCloseChanged)) == (Timer(t.now, true, Some(t.now + AutoDismissMs)), false)
  {
  }

  /** A render with the same dependencies leaves the pending timer running. */
  lemma SameDepsKeepTimer(t: Timer)
    ensures Step(t, Rerender(t.isVisible, false)) == (t, false)
  {
  }

  /** The pending timer calls `onClose` exactly when the clock reaches its deadline, and only for a visible toast. */
  lemma FiresAtDeadline(t: Timer, ms: nat)
    requires Consistent(t)
    ensures Step(t, Elapse(ms)).1 <==> t.deadline.Some? && t.now + ms >= t.deadline.value
    ensures Step(t, Elapse(ms)).1 ==> t.isVisible && ms >= 1
    ensures Step(t, Elapse(ms)).0
         == Timer(t.now + ms, t.isVisible,
                  if t.deadline.Some? && t.deadline.value <= t.now + ms then None else t.deadline)
  {
  }

  /** Hiding the toast (or a new `onClose` while hidden) clears the timer and leaves the clock. */
  lemma HiddenRenderKeepsClock(t: Timer, onCloseChanged: bool)
    requires t.isVisible || onCloseChanged
    ensures Step(t, Rerender(false, onCloseChanged)) == (Timer(t.now, false, None), false)
  {
  }

  /** Unmounting runs the cleanup: the timer is cleared and nothing else changes. */
  lemma UnmountClearsTimer(t: Timer)
    ensures Step(t, Unmount) == (t.(deadline := None), false)
  {
  }

  /** The close button calls `onClose` at once whenever the toast is shown, timer or not. */
  lemma CloseButtonImmediate(t: Timer)
    requires Rendered(t)
    ensures Step(t, ClickClose) == (t, true)
  {
  }

  /** After unmounting no timer is pending, so `onClose` is never called by the clock again. */
  lemma {:induction false} UnmountSilencesClock(t: Timer, ms: seq<nat>)
    ensures var r := Run(Step(t, Unmount).0, seq(|ms|, i requires 0 <= i < |ms| => Elapse(ms[i])));
      r.1 == 0 && r.0.deadline.None?
    decreases |ms|
  {
    var es := seq(|ms|, i requires 0 <= i < |ms| => Elapse(ms[i]));
    if ms != [] {
      var u := Step(t, Unmount).0;
      var u1 := Step(u, es[0]).0;
      assert u1 == Step(u1, Unmount).0;
      assert es[1..] == seq(|ms[1..]|, i requires 0 <= i < |ms[1..]| => Elapse(ms[1..][i]));
      UnmountSilencesClock(u1, ms[1..]);
    }
  }

  /** Consistency holds along any sequence of events. */
  lemma {:induction false} RunConsistent(t: Timer, es: seq<Event>)
    requires Consistent(t)
    ensures Consistent(Run(t, es).0)
    decreases |es|
  {
    if es != [] {
      StepConsistent(t, es[0]);
      RunConsistent(Step(t, es[0]).0, es[1..]);
    }
  }

  /**
   * A second toast shown while the first is visible (new message, new `onClose`) keeps
   * one toast and one timer: `onClose` comes 4000 ms after the latest render, not the first.
   */
  lemma SecondToastRestartsTimer(now: int, gap: nat)
    requires gap < AutoDismissMs
    ensures var t0 := Mount(now, true);
      var t1 := Step(t0, Elapse(gap)).0;
      var t2 := Step(t1, Rerender(true, true)).0;
      !Step(t0, Elapse(gap)).1 &&
      t2.deadline == Some(now + gap + AutoDismissMs) &&
      !Step(t2, Elapse(AutoDismissMs - 1)).1 && Step(t2, Elapse(AutoDismissMs)).1
  {
  }

  /** The toast's timer as a component instance whose effect updates it in place. */
  class ToastTimer {
    var now: int
    var isVisible: bool
    var deadline: Option<int>

    function State(): Timer
      reads this
    {
      Timer(now, isVisible, deadline)
    }

    predicate Valid()
      reads this
    {
      Consistent(State())
    }

    constructor (now: int, visible: bool)
      ensures Valid() && State() == Mount(now, visible)
    {
      this.now := now;
      isVisible := visible;
      deadline := if visible then Some(now + AutoDismissMs) else None;
    }

    method Render(visible: bool, onCloseChanged: bool)
      requires Valid()
      modifies this
      ensures Valid() && State() == Step(old(State()), Rerender(visible, onCloseChanged)).0
    {
      if visible != isVisible || onCloseChanged {
        deadline := None;  // the previous effect's cleanup
        isVisible := visible;
        if visible {
          deadline := Some(now + AutoDismissMs);
        }
      }
    }

    method Advance(ms: nat) returns (calledOnClose: bool)
      requires Valid()
      modifies this
      ensures Valid() && (State(), calledOnClose) == Step(old(State()), Elapse(ms))
    {
      now := now + ms;
      calledOnClose := deadline.Some? && deadline.value <= now;
      if calledOnClose {
        deadline := None;
      }
    }

    method ClickClose() returns (calledOnClose: bool)
      requires Valid()
      ensures calledOnClose == Step(State(), Event.ClickClose).1
    {
      calledOnClose := isVisible;
    }

    method Unmount()
      requires Valid()
      modifies this
      ensures Valid() && State() == Step(old(State()), Event.Unmount).0
    {
      deadline := None;
    }
  }
}
