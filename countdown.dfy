/**
 * The cancellable countdown that runs after the server has stopped. The
 * console listener that closes the cancellation channel is replaced by an
 * oracle: `cancelledAt(k)` says whether the k-th non-blocking look at the
 * channel finds it closed. Looks 0 .. N-1 happen at the top of the loop
 * iterations that show N, N-1, .., 1 seconds remaining; look N is the
 * final check after the loop (N is the configured number of seconds, or 0
 * when that is not positive). Sleeping is not modelled.
 */
module Countdown {

  datatype Outcome = Fired | Cancelled

  /** A channel is closed at most once and never reopened. */
  ghost predicate Monotone(cancelledAt: nat -> bool)
  {
    forall j: nat, k: nat :: j <= k && cancelledAt(j) ==> cancelledAt(k)
  }

  /** Number of loop iterations: the loop runs from `seconds` down to 1. */
  function LoopChecks(seconds: int): nat
  {
    if seconds > 0 then seconds else 0
  }

  /**
   * The first look in `from .. last` that finds the channel closed, or
   * `last + 1` when none does.
   */
  function FirstCancel(cancelledAt: nat -> bool, from: nat, last: nat): (k: nat)
    requires from <= last + 1
    ensures from <= k <= last + 1
    ensures forall j :: from <= j < k ==> !cancelledAt(j)
    ensures k <= last ==> cancelledAt(k)
    decreases last + 1 - from
  {
    if from > last || cancelledAt(from) then from
    else FirstCancel(cancelledAt, from + 1, last)
  }

  /** The values shown on the console: `from`, `from - 1`, .. (`count` of them). */
  function Ticks(from: int, count: nat): (r: seq<int>)
    ensures |r| == count
    ensures forall i :: 0 <= i < count ==> r[i] == from - i
    decreases count
  {
    if count == 0 then [] else [from] + Ticks(from - 1, count - 1)
  }

  /** The result of the countdown, as a function of the configured seconds and the oracle. */
  function CountdownOutcome(seconds: int, cancelledAt: nat -> bool): Outcome
  {
    if FirstCancel(cancelledAt, 0, LoopChecks(seconds)) <= LoopChecks(seconds) then Cancelled
    else Fired
  }

  /** The remaining-seconds values the countdown shows before it resolves. */
  function Displayed(seconds: int, cancelledAt: nat -> bool): seq<int>
  {
    var first := FirstCancel(cancelledAt, 0, LoopChecks(seconds));
    Ticks(seconds, if first < LoopChecks(seconds) then first else LoopChecks(seconds))
  }

  /**
   * `countdown`: each iteration first looks at the channel and returns
   * Cancelled if it is closed, otherwise shows the remaining seconds; after
   * the loop one last look decides between Cancelled and Fired.
   */
  method RunCountdown(seconds: int, cancelledAt: nat -> bool) returns (outcome: Outcome, shown: seq<int>)
    ensures outcome == CountdownOutcome(seconds, cancelledAt)
    ensures shown == Displayed(seconds, cancelledAt)
  {
    ghost var n := LoopChecks(seconds);
    shown := [];
    var look: nat := 0;
    var i := seconds;
    while i > 0
      invariant look <= n
      invariant seconds > 0 ==> i == seconds - look
      invariant seconds <= 0 ==> i == seconds && look == 0
      invariant forall j :: 0 <= j < look ==> !cancelledAt(j)
      invariant shown == Ticks(seconds, look)
    {
      if cancelledAt(look) {
        return Cancelled, shown;
      }
      shown := shown + [i];
      i := i - 1;
      look := look + 1;
    }
    if cancelledAt(look) {
      return Cancelled, shown;
    }
    return Fired, shown;
  }

  /**
   * Cancellation pre-empts firing: the countdown is cancelled exactly when
   * one of its N + 1 looks finds the channel closed.
   */
  lemma CancelledIffObserved(seconds: int, cancelledAt: nat -> bool)
    ensures CountdownOutcome(seconds, cancelledAt) == Cancelled <==>
      exists k :: 0 <= k <= LoopChecks(seconds) && cancelledAt(k)
  {
    var n := LoopChecks(seconds);
    var first := FirstCancel(cancelledAt, 0, n);
    if exists k :: 0 <= k <= n && cancelledAt(k) {
      var k :| 0 <= k <= n && cancelledAt(k);
      assert first <= k;
    }
  }

  /**
   * The shown values count down one by one from the configured seconds and
   * are all positive; the countdown stops showing values at the look that
   * observed the cancellation, and shows all N values when it fires.
   */
  lemma DisplayedCountsDown(seconds: int, cancelledAt: nat -> bool)
    ensures var shown := Displayed(seconds, cancelledAt);
      && (forall i :: 0 <= i < |shown| ==> shown[i] == seconds - i && shown[i] >= 1)
      && (forall i, j :: 0 <= i < j < |shown| ==> shown[i] > shown[j])
      && (CountdownOutcome(seconds, cancelledAt) == Fired ==> |shown| == LoopChecks(seconds))
      && (CountdownOutcome(seconds, cancelledAt) == Cancelled ==>
            cancelledAt(|shown|) && forall j :: 0 <= j < |shown| ==> !cancelledAt(j))
  {
  }

  /**
   * With a channel that stays closed once closed, only the final look
   * matters for the result: the countdown fires exactly when the channel is
   * still open at the end.
   */
  lemma FiresIffOpenAtFinalCheck(seconds: int, cancelledAt: nat -> bool)
    requires Monotone(cancelledAt)
    ensures CountdownOutcome(seconds, cancelledAt) == Fired <==> !cancelledAt(LoopChecks(seconds))
  {
    var n := LoopChecks(seconds);
    var first := FirstCancel(cancelledAt, 0, n);
    if first <= n {
      assert cancelledAt(first);
    }
  }

  /** With zero or negative seconds nothing is shown and only the final look happens. */
  lemma NonPositiveSeconds(seconds: int, cancelledAt: nat -> bool)
    requires seconds <= 0
    ensures Displayed(seconds, cancelledAt) == []
    ensures CountdownOutcome(seconds, cancelledAt) == Fired <==> !cancelledAt(0)
  {
  }

  /** When no look finds the channel closed, the countdown shows all N values and fires. */
  lemma NoSignalFires(seconds: int, cancelledAt: nat -> bool)
    requires forall k :: 0 <= k <= LoopChecks(seconds) ==> !cancelledAt(k)
    ensures CountdownOutcome(seconds, cancelledAt) == Fired
    ensures Displayed(seconds, cancelledAt) == Ticks(seconds, LoopChecks(seconds))
  {
    var n := LoopChecks(seconds);
    assert FirstCancel(cancelledAt, 0, n) == n + 1;
  }

  /** The oracle of an operator who never presses Enter. */
  function NeverCancelled(): (cancelledAt: nat -> bool)
    ensures Monotone(cancelledAt)
    ensures forall k: nat :: !cancelledAt(k)
  {
    (k: nat) => false
  }

  /** The oracle of an operator who presses Enter so that look `t` is the first to see it. */
  function SignalAt(t: nat): (cancelledAt: nat -> bool)
    ensures Monotone(cancelledAt)
    ensures forall k: nat :: cancelledAt(k) <==> k >= t
  {
    (k: nat) => k >= t
  }

  /**
   * A signal first seen at look `t`, with `t` at most N, cancels the
   * countdown after it has shown exactly `t` values; a later signal, or
   * none, lets it fire after showing all N values.
   */
  lemma SignalObservedAt(seconds: int, t: nat)
    ensures t <= LoopChecks(seconds) ==>
      CountdownOutcome(seconds, SignalAt(t)) == Cancelled && Displayed(seconds, SignalAt(t)) == Ticks(seconds, t)
    ensures t > LoopChecks(seconds) ==>
      CountdownOutcome(seconds, SignalAt(t)) == Fired
      && Displayed(seconds, SignalAt(t)) == Ticks(seconds, LoopChecks(seconds))
  {
    var n := LoopChecks(seconds);
    var first := FirstCancel(SignalAt(t), 0, n);
    if t <= n {
      assert SignalAt(t)(t);
      assert first == t;
    } else {
      assert first == n + 1;
    }
  }

  /** A five-second countdown cancelled at look 2 shows 5 and 4, then resolves Cancelled. */
  lemma CancelAtSecondTick()
    ensures CountdownOutcome(5, SignalAt(2)) == Cancelled
    ensures Displayed(5, SignalAt(2)) == [5, 4]
  {
    SignalObservedAt(5, 2);
  }
}
