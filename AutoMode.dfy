/**
 * The day/night switch (auto_mode.py): a light-dependent resistor reading
 * below the threshold means day, otherwise night. When a reading disagrees
 * with the current mode (or no mode is set yet) four more readings vote,
 * and the mode pin is written only when the voted mode differs from the
 * current one.
 *
 * Sensor readings are supplied as natural numbers in place of the timed
 * GPIO measurement; the mode pin writes are recorded in a ghost log.
 */
module AutoMode {
  import opened Wrappers

  /** The two camera modes; `Level` gives the GPIO level that selects each. */
  datatype Mode = Day | Night

  /** `GPIO.HIGH` and `GPIO.LOW`. */
  const High: int := 1
  const Low: int := 0

  /** `LDR_THRESHOLD`: a charge time below this means enough light for day mode. */
  const LdrThreshold: nat := 100000

  /** `VERIFY_LOOP_COUNT`. */
  const VerifyLoopCount: nat := 5

  /** `DAY_MODE = GPIO.HIGH`, `NIGHT_MODE = GPIO.LOW`. */
  function Level(m: Mode): int
  {
    match m
    case Day => High
    case Night => Low
  }

  /** `ldr_mode()` on a supplied reading: night unless the reading is below the threshold. */
  function LdrMode(reading: nat): (m: Mode)
    ensures m == Day <==> reading < LdrThreshold
  {
    if reading < LdrThreshold then Day else Night
  }

  /**
   * `mode(m)`, the name logged for a mode value: a GPIO level, or `None`
   * before the first write.
   */
  function ModeName(m: Option<int>): (name: string)
    ensures name == "UNKNOWN" <==> m.Some? && m.value != High && m.value != Low
    ensures name == "None" <==> m.None?
  {
    if m == Some(Level(Day)) then "DAY"
    else if m == Some(Level(Night)) then "NIGHT"
    else if m.None? then "None"
    else "UNKNOWN"
  }

  /** Number of day classifications among some readings. */
  function DayCount(samples: seq<nat>): (n: nat)
    ensures n <= |samples|
    ensures n == 0 <==> forall k :: 0 <= k < |samples| ==> LdrMode(samples[k]) == Night
    decreases |samples|
  {
    if samples == [] then 0
    else DayCount(samples[..|samples| - 1]) + (if LdrMode(samples[|samples| - 1]) == Day then 1 else 0)
  }

  /** The majority test `day_count * 2 > VERIFY_LOOP_COUNT`: day needs at least three day votes. */
  function VerifiedMode(dayCount: nat): (m: Mode)
    ensures m == Day <==> dayCount >= 3
  {
    if dayCount * 2 > VerifyLoopCount then Day else Night
  }

  /**
   * The verification loop `for i in range(1, VERIFY_LOOP_COUNT)`: one reading
   * per iteration, four in all, each counted when it classifies as day.
   */
  method VerifyVote(samples: seq<nat>) returns (dayCount: nat, verified: Mode)
    requires |samples| >= VerifyLoopCount - 1
    ensures dayCount == DayCount(samples[..VerifyLoopCount - 1])
    ensures dayCount <= VerifyLoopCount - 1
    ensures verified == VerifiedMode(dayCount)
  {
    dayCount := 0;
    for i := 1 to VerifyLoopCount
      invariant dayCount == DayCount(samples[..i - 1])
    {
      assert samples[..i][..i - 1] == samples[..i - 1];
      if LdrMode(samples[i - 1]) == Day {
        dayCount := dayCount + 1;
      }
    }
    verified := Night;
    if dayCount * 2 > VerifyLoopCount {
      verified := Day;
    }
  }

  /** What one pass of the main loop does: how many readings it takes and which mode, if any, it writes. */
  datatype StepResult = StepResult(consumed: nat, write: Option<Mode>)

  /**
   * One pass of the main loop from mode `current`, with `window` the next
   * readings the sensor would give: the first is the initial test, the next
   * four the vote.
   */
  function StepOutcome(current: Option<Mode>, window: seq<nat>): (r: StepResult)
    requires |window| >= VerifyLoopCount
    ensures r.consumed == 1 || r.consumed == VerifyLoopCount
    ensures r.consumed == 1 ==> r.write.None?
    ensures r.write.Some? ==> current != r.write
    ensures current.None? ==> r.write.Some?
  {
    var tested := LdrMode(window[0]);
    if current.None? || current.value != tested then
      var verified := VerifiedMode(DayCount(window[1..VerifyLoopCount]));
      if current.None? || current.value != verified then StepResult(VerifyLoopCount, Some(verified))
      else StepResult(VerifyLoopCount, None)
    else StepResult(1, None)
  }

  /** No two consecutive pin writes are the same mode. */
  ghost predicate NoRepeats(writes: seq<Mode>)
  {
    forall k :: 0 < k < |writes| ==> writes[k - 1] != writes[k]
  }

  /** The module state of the script: `current_mode`, and the log of writes to the mode pin. */
  class Controller {
    var currentMode: Option<Mode>
    ghost var pinWrites: seq<Mode>

    /** `current_mode` is unset exactly before the first write, and is always the last mode written. */
    ghost predicate Valid()
      reads this
    {
      (currentMode.None? <==> pinWrites == [])
      && (pinWrites != [] ==> currentMode == Some(pinWrites[|pinWrites| - 1]))
      && NoRepeats(pinWrites)
    }

    /** `current_mode = None` before the main loop. */
    constructor ()
      ensures currentMode == None && pinWrites == []
      ensures Valid()
    {
      currentMode := None;
      pinWrites := [];
    }

    /** `set_mode(new_mode)`: drive the mode pin to the mode's level. */
    method SetMode(newMode: Mode)
      modifies this
      ensures pinWrites == old(pinWrites) + [newMode]
      ensures currentMode == old(currentMode)
    {
      pinWrites := pinWrites + [newMode];
    }

    /**
     * One pass of the main loop (without its delay): test, and on a
     * disagreement vote, and write the pin only on a confirmed change.
     */
    method Step(window: seq<nat>) returns (consumed: nat)
      requires Valid() && |window| >= VerifyLoopCount
      modifies this
      ensures Valid()
      ensures consumed == StepOutcome(old(currentMode), window).consumed
      ensures StepOutcome(old(currentMode), window).write.Some? ==>
                currentMode == StepOutcome(old(currentMode), window).write
                && pinWrites == old(pinWrites) + [StepOutcome(old(currentMode), window).write.value]
      ensures StepOutcome(old(currentMode), window).write.None? ==>
                currentMode == old(currentMode) && pinWrites == old(pinWrites)
      ensures old(currentMode).Some? ==> currentMode.Some?
    {
      var testedMode := LdrMode(window[0]);
      consumed := 1;
      if currentMode.None? || currentMode.value != testedMode {
        var dayCount, verifiedMode := VerifyVote(window[1..]);
        assert window[1..][..VerifyLoopCount - 1] == window[1..VerifyLoopCount];
        consumed := VerifyLoopCount;
        if currentMode.None? || currentMode.value != verifiedMode {
          SetMode(verifiedMode);
          currentMode := Some(verifiedMode);
        }
      }
    }

    /**
     * The main loop over a finite stream of readings: passes run while the
     * stream still holds a full window.
     */
    method Run(stream: seq<nat>) returns (steps: nat)
      requires Valid()
      modifies this
      ensures Valid()
      ensures currentMode == RunFrom(old(currentMode), stream).final
      ensures pinWrites == old(pinWrites) + RunFrom(old(currentMode), stream).writes
      ensures steps == RunFrom(old(currentMode), stream).steps
    {
      var pos := 0;
      steps := 0;
      ghost var total := RunFrom(currentMode, stream);
      ghost var initialWrites := pinWrites;
      while |stream| - pos >= VerifyLoopCount
        invariant 0 <= pos <= |stream|
        invariant Valid()
        invariant total.final == RunFrom(currentMode, stream[pos..]).final
        invariant initialWrites + total.writes == pinWrites + RunFrom(currentMode, stream[pos..]).writes
        invariant total.steps == steps + RunFrom(currentMode, stream[pos..]).steps
        decreases |stream| - pos
      {
        ghost var before, writesBefore := currentMode, pinWrites;
        var consumed := Step(stream[pos..]);
        PassAdvances(before, stream[pos..], consumed, currentMode, writesBefore, pinWrites);
        assert stream[pos..][consumed..] == stream[pos + consumed..];
        pos := pos + consumed;
        steps := steps + 1;
      }
      assert RunFrom(currentMode, stream[pos..]) == Trace(currentMode, [], 0);
    }
  }

  /**
   * One pass moves the run forward: what remains of the passes from the new
   * mode, after the readings the pass took, completes the same log.
   */
  lemma PassAdvances(before: Option<Mode>, window: seq<nat>, consumed: nat, after: Option<Mode>,
                     writesBefore: seq<Mode>, writesAfter: seq<Mode>)
    requires |window| >= VerifyLoopCount
    requires consumed == StepOutcome(before, window).consumed
    requires StepOutcome(before, window).write.Some? ==>
               after == StepOutcome(before, window).write
               && writesAfter == writesBefore + [StepOutcome(before, window).write.value]
    requires StepOutcome(before, window).write.None? ==> after == before && writesAfter == writesBefore
    ensures consumed <= |window|
    ensures RunFrom(before, window).final == RunFrom(after, window[consumed..]).final
    ensures writesBefore + RunFrom(before, window).writes == writesAfter + RunFrom(after, window[consumed..]).writes
    ensures RunFrom(before, window).steps == 1 + RunFrom(after, window[consumed..]).steps
  {
    var r := StepOutcome(before, window);
    var tail := RunFrom(after, window[consumed..]);
    assert RunFrom(before, window).writes == (if r.write.Some? then [r.write.value] else []) + tail.writes;
    if r.write.Some? {
      assert writesBefore + ([r.write.value] + tail.writes) == (writesBefore + [r.write.value]) + tail.writes;
    }
  }

  /** The mode log of several passes: the final mode, the pin writes in order, and the number of passes. */
  datatype Trace = Trace(final: Option<Mode>, writes: seq<Mode>, steps: nat)

  /** Passes from mode `current` while `stream` holds a full window. */
  function RunFrom(current: Option<Mode>, stream: seq<nat>): (t: Trace)
    ensures t.steps <= |stream|
    ensures |t.writes| <= t.steps
    decreases |stream|
  {
    if |stream| < VerifyLoopCount then Trace(current, [], 0)
    else
      var r := StepOutcome(current, stream);
      var next := if r.write.Some? then r.write else current;
      var rest := RunFrom(next, stream[r.consumed..]);
      Trace(rest.final, (if r.write.Some? then [r.write.value] else []) + rest.writes, rest.steps + 1)
  }

  /* ---------------------------------------------------------------------- */
  /* Properties of one pass                                                 */
  /* ---------------------------------------------------------------------- */

  /**
   * Classification: more light (a shorter charge time) never gives night.
   * The first and third clauses only spell out `LdrMode` and `Level` with the
   * threshold written as its literal value; the second is the property.
   */
  lemma ClassifyThreshold(reading: nat, brighter: nat)
    ensures LdrMode(reading) == (if reading < 100000 then Day else Night)
    ensures brighter <= reading && LdrMode(reading) == Day ==> LdrMode(brighter) == Day
    ensures Level(LdrMode(reading)) == (if reading < 100000 then High else Low)
  {
  }

  /** The names logged for the two modes and for the unset mode. */
  lemma ModeNames()
    ensures ModeName(Some(Level(Day))) == "DAY" && ModeName(Some(Level(Night))) == "NIGHT"
    ensures ModeName(None) == "None" && ModeName(Some(7)) == "UNKNOWN"
  {
  }

  /** When the first reading agrees with the set mode the pass takes one reading and writes nothing. */
  lemma AgreeingReadingIsNoOp(current: Option<Mode>, window: seq<nat>)
    requires |window| >= VerifyLoopCount
    requires current.Some? && LdrMode(window[0]) == current.value
    ensures StepOutcome(current, window) == StepResult(1, None)
  {
  }

  /**
   * A pass writes exactly when no mode is set, or when the first reading
   * disagrees with the mode and so does the vote; what it writes is the vote.
   * Otherwise the mode is kept.
   */
  lemma WritesIff(current: Option<Mode>, window: seq<nat>)
    requires |window| >= VerifyLoopCount
    ensures var verified := VerifiedMode(DayCount(window[1..VerifyLoopCount]));
            (StepOutcome(current, window).write.Some?
             <==> (current.None? || (LdrMode(window[0]) != current.value && verified != current.value)))
            && (StepOutcome(current, window).write.Some? ==> StepOutcome(current, window).write == Some(verified))
    ensures StepOutcome(current, window).consumed == (if current.Some? && LdrMode(window[0]) == current.value
                                                      then 1 else VerifyLoopCount)
  {
  }

  /** The vote counts the four readings after the first; the first one does not count. */
  lemma InitialSampleNotCounted(current: Option<Mode>, first: nat, other: nat, samples: seq<nat>)
    requires |samples| >= VerifyLoopCount - 1
    requires current.None? || (LdrMode(first) != current.value && LdrMode(other) != current.value)
    ensures StepOutcome(current, [first] + samples) == StepOutcome(current, [other] + samples)
  {
    assert ([first] + samples)[1..VerifyLoopCount] == samples[..VerifyLoopCount - 1];
    assert ([other] + samples)[1..VerifyLoopCount] == samples[..VerifyLoopCount - 1];
  }

  /** The vote over four readings counts each day reading once. */
  lemma DayCountOfFour(a: nat, b: nat, c: nat, d: nat)
    ensures DayCount([a, b, c, d]) == (if LdrMode(a) == Day then 1 else 0) + (if LdrMode(b) == Day then 1 else 0)
                                      + (if LdrMode(c) == Day then 1 else 0) + (if LdrMode(d) == Day then 1 else 0)
  {
    DayCountSnoc([], a);
    assert [] + [a] == [a];
    DayCountSnoc([a], b);
    assert [a] + [b] == [a, b];
    DayCountSnoc([a, b], c);
    assert [a, b] + [c] == [a, b, c];
    DayCountSnoc([a, b, c], d);
    assert [a, b, c] + [d] == [a, b, c, d];
  }

  /** Three day readings out of four switch night to day. */
  lemma ThreeOfFourGivesDay()
    ensures StepOutcome(Some(Night), [0, 0, 0, 0, 200000]) == StepResult(5, Some(Day))
  {
    var w: seq<nat> := [0, 0, 0, 0, 200000];
    assert w[1..5] == [0, 0, 0, 200000];
    DayCountOfFour(0, 0, 0, 200000);
  }

  /** Two day readings out of four are not a majority: night is kept although the first reading was day. */
  lemma TwoOfFourKeepsNight()
    ensures StepOutcome(Some(Night), [0, 0, 0, 200000, 200000]) == StepResult(5, None)
  {
    var w: seq<nat> := [0, 0, 0, 200000, 200000];
    assert w[1..5] == [0, 0, 200000, 200000];
    DayCountOfFour(0, 0, 200000, 200000);
  }

  /** From no mode, a day first reading with two day votes out of four writes night. */
  lemma TwoOfFourFromNoModeWritesNight()
    ensures StepOutcome(None, [0, 0, 0, 200000, 200000]) == StepResult(5, Some(Night))
  {
    var w: seq<nat> := [0, 0, 0, 200000, 200000];
    assert w[1..5] == [0, 0, 200000, 200000];
    DayCountOfFour(0, 0, 200000, 200000);
  }

  /** Counting one more reading adds one exactly when it is a day reading. */
  lemma DayCountSnoc(samples: seq<nat>, reading: nat)
    ensures DayCount(samples + [reading]) == DayCount(samples) + (if LdrMode(reading) == Day then 1 else 0)
  {
    assert (samples + [reading])[..|samples|] == samples;
  }

  /* ---------------------------------------------------------------------- */
  /* Properties of the pin-write log                                        */
  /* ---------------------------------------------------------------------- */

  /**
   * Over any number of passes: the mode ends as the last write (or unchanged
   * without writes), is never unset again once set, consecutive writes differ,
   * the first write differs from the starting mode, and a start without a
   * mode writes on the first pass.
   */
  lemma {:induction false} RunFromLog(current: Option<Mode>, stream: seq<nat>)
    ensures RunFrom(current, stream).writes == [] ==> RunFrom(current, stream).final == current
    ensures RunFrom(current, stream).writes != [] ==>
              RunFrom(current, stream).final
              == Some(RunFrom(current, stream).writes[|RunFrom(current, stream).writes| - 1])
    ensures current.Some? ==> RunFrom(current, stream).final.Some?
    ensures NoRepeats(RunFrom(current, stream).writes)
    ensures current.Some? && RunFrom(current, stream).writes != [] ==>
              RunFrom(current, stream).writes[0] != current.value
    ensures current.None? && |stream| >= VerifyLoopCount ==> RunFrom(current, stream).writes != []
    decreases |stream|
  {
    if |stream| >= VerifyLoopCount {
      var r := StepOutcome(current, stream);
      var next := if r.write.Some? then r.write else current;
      RunFromLog(next, stream[r.consumed..]);
      var rest := RunFrom(next, stream[r.consumed..]);
      if r.write.Some? {
        var w := [r.write.value] + rest.writes;
        assert w[1..] == rest.writes;
        forall k | 0 < k < |w| ensures w[k - 1] != w[k] {
          if k > 1 {
            assert w[k - 1] == rest.writes[k - 2] && w[k] == rest.writes[k - 1];
          }
        }
      }
    }
  }

  /** The log of a controller that ran from its start has no repeats and ends in its mode. */
  lemma RunFromStart(stream: seq<nat>)
    requires |stream| >= VerifyLoopCount
    ensures var t := RunFrom(None, stream);
            t.writes != [] && t.final == Some(t.writes[|t.writes| - 1]) && NoRepeats(t.writes) && t.steps >= 1
  {
    RunFromLog(None, stream);
  }
}
