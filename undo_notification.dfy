/**
 * The undo banner: a countdown in whole seconds that dismisses the banner
 * when it runs out, and two buttons that only report what was pressed.
 */
module UndoNotification {
  /** The banner's default lifetime, in milliseconds. */
  const DefaultDuration: real := 30000.0

  /** timeLeft starts at duration / 1000 seconds. */
  function InitialTimeLeft(duration: real): (r: real)
    ensures r * 1000.0 == duration
  {
    duration / 1000.0
  }

  /** What a button press or the countdown asks of the dashboard. */
  datatype Callback = OnUndo | OnDismiss

  /** The state after one interval callback, and whether it called onDismiss. */
  datatype TickResult = TickResult(timeLeft: real, dismissed: bool)

  /** One second of the interval: at one second or less the banner is dismissed and shows 0. */
  function Step(t: real): (r: TickResult)
    ensures r.timeLeft >= 0.0
    ensures r.dismissed <==> t <= 1.0
    ensures r.dismissed ==> r.timeLeft == 0.0
    ensures !r.dismissed ==> r.timeLeft == t - 1.0
  {
    if t <= 1.0 then TickResult(0.0, true) else TickResult(t - 1.0, false)
  }

  /** timeLeft after n ticks from t, assuming the interval keeps firing. */
  function AfterTicks(t: real, n: nat): real
    decreases n
  {
    if n == 0 then t else AfterTicks(Step(t).timeLeft, n - 1)
  }

  /** Whether one of the first n ticks from t calls onDismiss. */
  predicate DismissedWithin(t: real, n: nat)
    decreases n
  {
    n > 0 && (Step(t).dismissed || DismissedWithin(Step(t).timeLeft, n - 1))
  }

  /** The countdown never shows a negative number of seconds after a tick. */
  lemma {:induction false} AfterTicksNonNegative(t: real, n: nat)
    requires n > 0 || t >= 0.0
    ensures AfterTicks(t, n) >= 0.0
    decreases n
  {
    if n > 0 {
      AfterTicksNonNegative(Step(t).timeLeft, n - 1);
    }
  }

  /**
   * From a whole number n >= 1 of seconds the first n - 1 ticks count down
   * to 1 without dismissing, and the n-th tick dismisses.
   */
  lemma {:induction false} DismissOnTickN(n: nat)
    requires n >= 1
    ensures AfterTicks(n as real, n - 1) == 1.0
    ensures !DismissedWithin(n as real, n - 1)
    ensures DismissedWithin(n as real, n)
  {
    if n > 1 {
      DismissOnTickN(n - 1);
      assert Step(n as real) == TickResult((n - 1) as real, false);
    }
  }

  /** With the default duration the banner dismisses itself on the 30th tick. */
  lemma DefaultDismissesAfterThirtyTicks()
    ensures InitialTimeLeft(DefaultDuration) == 30.0
    ensures !DismissedWithin(InitialTimeLeft(DefaultDuration), 29)
    ensures DismissedWithin(InitialTimeLeft(DefaultDuration), 30)
  {
    DismissOnTickN(30);
  }

  class Countdown {
    var timeLeft: real

    constructor (duration: real)
      ensures timeLeft == InitialTimeLeft(duration)
    {
      timeLeft := duration / 1000.0;
    }

    /** The functional update of the interval callback. */
    method Tick() returns (dismissed: bool)
      modifies this
      ensures TickResult(timeLeft, dismissed) == Step(old(timeLeft))
      ensures timeLeft >= 0.0
    {
      if timeLeft <= 1.0 {
        dismissed := true;
        timeLeft := 0.0;
      } else {
        dismissed := false;
        timeLeft := timeLeft - 1.0;
      }
    }

    /** handleUndo: reports the press and leaves the countdown alone. */
    method PressUndo() returns (c: Callback)
      ensures c == OnUndo
    {
      c := OnUndo;
    }

    /** handleDismiss: reports the press and leaves the countdown alone. */
    method PressDismiss() returns (c: Callback)
      ensures c == OnDismiss
    {
      c := OnDismiss;
    }
  }
}
