/** Telling a tap from a drag (display.js, `_onTouchStart`, `_onTouchMove`, `_onTouchEnd`).
    The display keeps one counter, `_dragging`: a touch start with exactly one finger down
    resets it, every touch move increments it, and a touch end that leaves no finger down
    counts as a tap only while the counter is below 3. */
module Gesture {

  /** The touch events the display listens to, with the length of `event.touches`
      (the fingers still down once the event has happened). */
  datatype TouchEvent = TouchStart(active: nat) | TouchMove | TouchEnd(remaining: nat)

  /** Fewer moves than this between start and end make a tap. */
  const TapThreshold: int := 3

  /** The counter after one event. */
  function Next(dragging: int, e: TouchEvent): int
  {
    match e
    case TouchStart(active) => if active == 1 then 0 else dragging
    case TouchMove => dragging + 1
    case TouchEnd(_) => dragging
  }

  /** Whether the event makes `_onTouchEnd` call `_click`, given the counter before it. */
  predicate FiresClick(dragging: int, e: TouchEvent)
  {
    e.TouchEnd? && e.remaining == 0 && dragging < TapThreshold
  }

  /** The counter after a run of events. */
  function Counter(dragging: int, events: seq<TouchEvent>): int
    decreases |events|
  {
    if events == [] then dragging else Counter(Next(dragging, events[0]), events[1..])
  }

  /** How many times a run of events calls `_click`. */
  function Clicks(dragging: int, events: seq<TouchEvent>): nat
    decreases |events|
  {
    if events == [] then 0
    else (if FiresClick(dragging, events[0]) then 1 else 0) + Clicks(Next(dragging, events[0]), events[1..])
  }

  function Moves(k: nat): (ms: seq<TouchEvent>)
    ensures |ms| == k && forall i :: 0 <= i < k ==> ms[i] == TouchMove
  {
    if k == 0 then [] else [TouchMove] + Moves(k - 1)
  }

  /** Running two runs one after the other. */
  lemma {:induction false} RunAppend(d: int, a: seq<TouchEvent>, b: seq<TouchEvent>)
    ensures Counter(d, a + b) == Counter(Counter(d, a), b)
    ensures Clicks(d, a + b) == Clicks(d, a) + Clicks(Counter(d, a), b)
    decreases |a|
  {
    if a == [] {
      assert a + b == b;
    } else {
      assert (a + b)[0] == a[0];
      assert (a + b)[1..] == a[1..] + b;
      RunAppend(Next(d, a[0]), a[1..], b);
    }
  }

  /** Each move adds exactly one to the counter, and moves never click. */
  lemma {:induction false} MovesCount(d: int, k: nat)
    ensures Counter(d, Moves(k)) == d + k
    ensures Clicks(d, Moves(k)) == 0
    decreases k
  {
    if k > 0 {
      MovesCount(d + 1, k - 1);
    }
  }

  /** A one-finger gesture with `k` moves clicks once when k <= 2 and not at all when k >= 3,
      whatever the counter held before. */
  lemma TapIffFewMoves(d: int, k: nat)
    ensures Clicks(d, [TouchStart(1)] + Moves(k) + [TouchEnd(0)]) == (if k < TapThreshold then 1 else 0)
  {
    RunAppend(d, [TouchStart(1)] + Moves(k), [TouchEnd(0)]);
    RunAppend(d, [TouchStart(1)], Moves(k));
    MovesCount(0, k);
  }

  /** A second finger does not reset the counter: in a two-finger gesture the moves of both
      phases add up, and the gesture clicks once, on the last finger's release, exactly when
      fewer than 3 moves happened in all. */
  lemma TwoFingerGesture(d: int, a: nat, b: nat)
    ensures Clicks(d, [TouchStart(1)] + Moves(a) + [TouchStart(2)] + Moves(b) + [TouchEnd(1), TouchEnd(0)])
            == (if a + b < TapThreshold then 1 else 0)
  {
    var s1 := [TouchStart(1)] + Moves(a);
    var s2 := s1 + [TouchStart(2)];
    var s3 := s2 + Moves(b);
    RunAppend(d, [TouchStart(1)], Moves(a));
    MovesCount(0, a);
    RunAppend(d, s1, [TouchStart(2)]);
    RunAppend(d, s2, Moves(b));
    MovesCount(a, b);
    RunAppend(d, s3, [TouchEnd(1), TouchEnd(0)]);
  }

  /** While a finger stays down no click happens. */
  lemma {:induction false} NoClickWhileTouching(d: int, events: seq<TouchEvent>)
    requires forall i :: 0 <= i < |events| && events[i].TouchEnd? ==> events[i].remaining > 0
    ensures Clicks(d, events) == 0
    decreases |events|
  {
    if events != [] {
      NoClickWhileTouching(Next(d, events[0]), events[1..]);
    }
  }

  /** Starting from the constructor's 0 the counter never goes negative, so a click needs one
      of the values 0, 1 or 2. */
  lemma {:induction false} CounterNonNegative(d: int, events: seq<TouchEvent>)
    requires d >= 0
    ensures Counter(d, events) >= 0
    decreases |events|
  {
    if events != [] {
      CounterNonNegative(Next(d, events[0]), events[1..]);
    }
  }
}
