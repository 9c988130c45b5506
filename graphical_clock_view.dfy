/**
 * The hand-position state machine of an analog clock view.
 *
 * The view keeps two positions on a 60-unit dial, one for the minute hand and
 * one for the second hand. Configured start positions are normalised once
 * (a negative value is clamped to 0, then the value is reduced modulo 60), and
 * every tick advances the second hand by one unit, advancing the minute hand
 * as well when the second hand has just come back to 0.
 */
module SimpleClock {

  /** Number of units on the dial. */
  const TotalNum: int := 60

  /** A position a hand can point at: 0 is twelve o'clock, 59 the last unit. */
  predicate InDial(p: int) {
    0 <= p < TotalNum
  }

  /** The clamp-then-reduce normalisation applied to a configured start position. */
  function Normalize(p: int): (r: int)
    ensures InDial(r)
    // a negative setting is clamped to 0, not wrapped to its modular equivalent
    ensures p < 0 ==> r == 0
    // a non-negative setting keeps its place on the dial: r is p minus whole turns
    ensures p >= 0 ==> r <= p && (p - r) % TotalNum == 0
    // normalising a position already on the dial leaves it unchanged
    ensures InDial(p) ==> r == p
  {
    var clamped := if p < 0 then 0 else p;
    clamped % TotalNum
  }

  /** The effect of `++p % 60` on a position already on the dial. */
  function Advance(p: int): (r: int)
    requires InDial(p)
    ensures InDial(r)
    // the last unit wraps to 0, and only the last unit does
    ensures r == 0 <==> p == TotalNum - 1
    // every other unit moves one step clockwise
    ensures p < TotalNum - 1 ==> r == p + 1
  {
    (p + 1) % TotalNum
  }

  /** The two hand positions of a clock view. */
  datatype ClockState = ClockState(min: int, sec: int) {
    /** Both hands point at a unit of the dial. */
    predicate Valid() {
      InDial(min) && InDial(sec)
    }
  }

  /** The state after one tick: second hand forward, minute hand forward when the second hand wraps. */
  function NextState(s: ClockState): (r: ClockState)
    requires s.Valid()
    ensures r.Valid()
    // the second hand always moves one unit, modulo a full turn
    ensures r.sec == (s.sec + 1) % TotalNum
    // the minute hand moves exactly when the second hand leaves its last unit
    ensures r.min != s.min <==> s.sec == TotalNum - 1
    // and when it moves, it moves one unit
    ensures r.min != s.min ==> r.min == (s.min + 1) % TotalNum
  {
    var sec := Advance(s.sec);
    var min := if sec % TotalNum == 0 then Advance(s.min) else s.min;
    ClockState(min, sec)
  }

  /** The state after n ticks. */
  function TickN(s: ClockState, n: nat): (r: ClockState)
    requires s.Valid()
    ensures r.Valid()
    decreases n
  {
    if n == 0 then s else NextState(TickN(s, n - 1))
  }

  /** After n ticks the second hand is n units further on, modulo a full turn. */
  lemma {:induction false} TickNSec(s: ClockState, n: nat)
    requires s.Valid()
    ensures TickN(s, n).sec == (s.sec + n) % TotalNum
  {
    if n > 0 {
      TickNSec(s, n - 1);
    }
  }

  /** A quotient by the dial size grows by one exactly when its argument reaches a whole turn. */
  lemma TurnsStep(k: int)
    requires k >= 1
    ensures k % TotalNum == 0 ==> k / TotalNum == (k - 1) / TotalNum + 1
    ensures k % TotalNum != 0 ==> k / TotalNum == (k - 1) / TotalNum
  {
  }

  /**
   * After n ticks the minute hand has moved once for every whole turn the second
   * hand has completed, counting from its start position.
   */
  lemma {:induction false} TickNMin(s: ClockState, n: nat)
    requires s.Valid()
    ensures TickN(s, n).min == (s.min + (s.sec + n) / TotalNum) % TotalNum
  {
    if n > 0 {
      var t := TickN(s, n - 1);
      TickNMin(s, n - 1);
      TickNSec(s, n);
      TurnsStep(s.sec + n);
      var q := (s.sec + n - 1) / TotalNum;
      if (s.sec + n) % TotalNum == 0 {
        assert t.min == (s.min + q) % TotalNum;
        assert TickN(s, n).min == (t.min + 1) % TotalNum;
        assert (s.min + (s.sec + n) / TotalNum) % TotalNum == ((s.min + q) % TotalNum + 1) % TotalNum;
      }
    }
  }

  /** Running m ticks and then n more is the same as running m + n ticks. */
  lemma {:induction false} TickNCompose(s: ClockState, m: nat, n: nat)
    requires s.Valid()
    ensures TickN(TickN(s, m), n) == TickN(s, m + n)
  {
    if n > 0 {
      TickNCompose(s, m, n - 1);
    }
  }

  /**
   * Whatever the clock has done so far, the next sixty ticks bring the second
   * hand back to where it was and move the minute hand by exactly one unit
   * (with n = 0: sixty ticks from the start state).
   */
  lemma MinuteOncePerRevolution(s: ClockState, n: nat)
    requires s.Valid()
    ensures TickN(s, n + TotalNum).sec == TickN(s, n).sec
    ensures TickN(s, n + TotalNum).min == Advance(TickN(s, n).min)
  {
    TickNSec(s, n);
    TickNSec(s, n + TotalNum);
    TickNMin(s, n);
    TickNMin(s, n + TotalNum);
    assert (s.sec + n + TotalNum) / TotalNum == (s.sec + n) / TotalNum + 1;
  }

  /**
   * Within the first sixty ticks from any valid state, the minute hand moves on
   * exactly one of them: the tick taken from the state reached after 59 - sec ticks.
   */
  lemma MinuteMovesOnceWithinRevolution(s: ClockState, k: nat)
    requires s.Valid()
    requires k < TotalNum
    ensures TickN(s, k + 1).min != TickN(s, k).min <==> k == TotalNum - 1 - s.sec
  {
    TickNSec(s, k);
  }

  /**
   * The same holds for every sixty-tick window, not only the first: among the
   * ticks taken from the states reached after j, j + 1, ..., j + 59 ticks, the
   * minute hand moves on exactly one, the tick taken after j + 59 - sec ticks,
   * where sec is the second position reached after j ticks.
   */
  lemma MinuteMovesOnceInEveryRevolution(s: ClockState, j: nat, k: nat)
    requires s.Valid()
    requires k < TotalNum
    ensures TickN(s, j + k + 1).min != TickN(s, j + k).min
            <==> k == TotalNum - 1 - TickN(s, j).sec
  {
    var t := TickN(s, j);
    TickNCompose(s, j, k);
    TickNCompose(s, j, k + 1);
    assert TickN(t, k + 1) == TickN(s, j + k + 1);
    MinuteMovesOnceWithinRevolution(t, k);
  }

  /**
   * Worked cases of the normalisation: -5 is clamped to 0 before any reduction
   * takes place, so neither a truncating remainder (-5) nor a Euclidean one (55)
   * is ever applied to it; 75 becomes 15.
   */
  lemma NormalizeExamples()
    ensures Normalize(-5) == 0
    ensures Normalize(75) == 15
    ensures Normalize(59) == 59 && Normalize(60) == 0
  {
  }

  /** The view object, holding the two hand positions it updates in place. */
  class GraphicalClockView {
    var minHandStartsAt: int
    var secHandStartsAt: int

    /** Both hand positions lie on the dial. */
    ghost predicate Valid()
      reads this
    {
      State().Valid()
    }

    /** The hand positions as a value. */
    function State(): ClockState
      reads this
    {
      ClockState(minHandStartsAt, secHandStartsAt)
    }

    /** Builds a view from the two configured start positions, whatever integers they are. */
    constructor (minStart: int, secStart: int)
      ensures Valid()
      ensures minHandStartsAt == Normalize(minStart)
      ensures secHandStartsAt == Normalize(secStart)
    {
      minHandStartsAt := minStart;
      secHandStartsAt := secStart;
      new;
      ValidateAttrs();
    }

    /** Clamps negative positions to 0, then reduces both modulo the dial size. */
    method ValidateAttrs()
      modifies this
      ensures Valid()
      ensures minHandStartsAt == Normalize(old(minHandStartsAt))
      ensures secHandStartsAt == Normalize(old(secHandStartsAt))
    {
      if minHandStartsAt < 0 {
        minHandStartsAt := 0;
      }
      if secHandStartsAt < 0 {
        secHandStartsAt := 0;
      }
      minHandStartsAt := minHandStartsAt % TotalNum;
      secHandStartsAt := secHandStartsAt % TotalNum;
    }

    /** Moves the minute hand one unit, wrapping from 59 to 0; the second hand stays. */
    method IncrementMin()
      requires Valid()
      modifies this
      ensures Valid()
      ensures minHandStartsAt == Advance(old(minHandStartsAt))
      ensures secHandStartsAt == old(secHandStartsAt)
    {
      minHandStartsAt := minHandStartsAt + 1;
      minHandStartsAt := minHandStartsAt % TotalNum;
    }

    /** Moves the second hand one unit, wrapping from 59 to 0; the minute hand stays. */
    method IncrementSec()
      requires Valid()
      modifies this
      ensures Valid()
      ensures secHandStartsAt == Advance(old(secHandStartsAt))
      ensures minHandStartsAt == old(minHandStartsAt)
    {
      secHandStartsAt := secHandStartsAt + 1;
      secHandStartsAt := secHandStartsAt % TotalNum;
    }

    /** One firing of the periodic callback, without its rescheduling and redraw request. */
    method Tick()
      requires Valid()
      modifies this
      ensures Valid()
      ensures State() == NextState(old(State()))
    {
      IncrementSec();
      if secHandStartsAt % TotalNum == 0 {
        IncrementMin();
      }
    }
  }
}
