/** The per-event scoring engine of src/components/calculator/ACFTScoring.tsx:
    a fixed table of raw-value bounds per event, clamping outside the bounds,
    linear interpolation between them, and `Math.round`.

    The two time events (`sprintDragCarry`, `run`) take an "inverted"
    branch. As written, that branch interpolates on `min - (value - max)`
    rather than on `min - value`, which lifts every interior score by
    `40 * max / (min - max)` (65 points for the run, 26 2/3 for the
    sprint-drag-carry). `Score` models the code as written;
    `IntendedScore` is the curve the comments describe. */
module ACFTScoring {
  import opened JsNumber

  /** One row of the bound table. `min` is the raw value worth `minScore`
      and `max` the one worth `maxScore`; for the time events `max` is the
      fast threshold and lies below `min`. */
  datatype Bounds = Bounds(min: real, max: real, minScore: int, maxScore: int)

  /** `ACFTScore`: one score per event and their total. */
  datatype ScoreRecord = ScoreRecord(
    deadlift: Number,
    powerThrow: Number,
    pushups: Number,
    sprintDragCarry: Number,
    legTuckPlank: Number,
    run: Number,
    total: Number)

  const DeadliftBounds := Bounds(140.0, 340.0, 60, 100)
  const PowerThrowBounds := Bounds(4.5, 12.5, 60, 100)
  const PushupsBounds := Bounds(10.0, 60.0, 60, 100)
  const SprintDragCarryBounds := Bounds(300.0, 120.0, 60, 100)
  const LegTuckPlankBounds := Bounds(1.0, 20.0, 60, 100)
  const RunBounds := Bounds(21.0 * 60.0, 13.0 * 60.0, 60, 100)

  /** `baseScores`, keyed by event name. */
  const BaseScores: map<string, Bounds> := map[
    "deadlift" := DeadliftBounds,
    "powerThrow" := PowerThrowBounds,
    "pushups" := PushupsBounds,
    "sprintDragCarry" := SprintDragCarryBounds,
    "legTuckPlank" := LegTuckPlankBounds,
    "run" := RunBounds]

  /** The events whose lookup is followed by the higher-is-better branch. */
  const RisingEvents: set<string> := {"deadlift", "powerThrow", "pushups", "legTuckPlank"}

  /** The keys that select the inverted (lower time is better) branch. */
  predicate IsTimeEvent(event: string) {
    event == "sprintDragCarry" || event == "run"
  }

  /** A table row for a higher-is-better event. */
  predicate RisingBounds(b: Bounds) {
    b.min < b.max && b.minScore <= b.maxScore
  }

  /** A table row for a lower-is-better event. */
  predicate FallingBounds(b: Bounds) {
    b.max < b.min && b.minScore <= b.maxScore
  }

  /** `minScore + t * scoreRange`, the straight line through both score ends. */
  function Lerp(b: Bounds, t: real): real {
    b.minScore as real + t * (b.maxScore - b.minScore) as real
  }

  // ---------------------------------------------------------------------------
  // The scoring function
  // ---------------------------------------------------------------------------

  /** The higher-is-better branch. */
  function HigherIsBetterScore(b: Bounds, value: real): (r: int)
    ensures RisingBounds(b) ==> b.minScore <= r <= b.maxScore
  {
    if value >= b.max then b.maxScore
    else if value <= b.min then b.minScore
    else
      RisingLineWithin(b, value);
      Round(Lerp(b, (value - b.min) / (b.max - b.min)))
  }

  /** Strictly inside a rising row's thresholds, the rounded line stays
      between the score ends. */
  lemma RisingLineWithin(b: Bounds, value: real)
    requires b.min < value < b.max
    ensures RisingBounds(b) ==> b.minScore <= Round(Lerp(b, (value - b.min) / (b.max - b.min))) <= b.maxScore
  {
    if RisingBounds(b) {
      var t := (value - b.min) / (b.max - b.min);
      FractionWithin(value - b.min, b.max - b.min);
      LerpWithin(b, t);
      RoundWithin(Lerp(b, t), b.minScore, b.maxScore);
    }
  }

  /** The inverted branch as written: it interpolates on
      `normalized = min - (value - max)`. */
  function InvertedScore(b: Bounds, value: real): (r: int)
    ensures FallingBounds(b) && 0.0 <= b.max ==> b.minScore <= r
  {
    if value <= b.max then b.maxScore
    else if value >= b.min then b.minScore
    else
      var t := (b.min - (value - b.max)) / (b.min - b.max);
      InvertedFractionPositive(b, value);
      LerpAtLeastMin(b, t);
      Round(Lerp(b, t))
  }

  /** Below the slow threshold, a non-negative fast threshold keeps the
      as-written fraction positive. */
  lemma InvertedFractionPositive(b: Bounds, value: real)
    requires value < b.min
    ensures FallingBounds(b) && 0.0 <= b.max ==> (b.min - (value - b.max)) / (b.min - b.max) > 0.0
  {
    if FallingBounds(b) && 0.0 <= b.max {
      assert b.min - (value - b.max) > 0.0;
    }
  }

  /** From a non-negative fraction on, the line is at or above `minScore`. */
  lemma LerpAtLeastMin(b: Bounds, t: real)
    ensures FallingBounds(b) && t >= 0.0 ==> Lerp(b, t) >= b.minScore as real
  {
    if FallingBounds(b) && t >= 0.0 {
      assert t * (b.maxScore - b.minScore) as real >= 0.0;
    }
  }

  /** `calculateScore` on a finite raw value: 0 for an unknown event key,
      otherwise the branch its key selects on the bounds its key names. */
  function Score(value: real, event: string): (r: int)
    ensures event !in BaseScores ==> r == 0
    ensures event in BaseScores ==> 60 <= r
  {
    if event !in BaseScores then 0
    else if IsTimeEvent(event) then
      assert FallingBounds(BaseScores[event]) && 0.0 <= BaseScores[event].max;
      InvertedScore(BaseScores[event], value)
    else
      assert RisingBounds(BaseScores[event]);
      HigherIsBetterWithin(BaseScores[event], value);
      HigherIsBetterScore(BaseScores[event], value)
  }

  /** `calculateScore(value, event, age, gender)` on any JavaScript number.
      A NaN value fails every comparison and poisons the interpolation, so a
      known event scores NaN; an unknown event still scores 0. */
  function CalculateScore(value: Number, event: string, age: Number, gender: string): (r: Number)
    ensures event !in BaseScores ==> r == Finite(0.0)
    ensures event in BaseScores ==> (r.Finite? <==> value.Finite?)
    ensures r.Finite? ==> r.val == (r.val.Floor as real)
  {
    match value
    case NaN => if event in BaseScores then NaN else Finite(0.0)
    case Finite(v) => OfInt(Score(v, event))
  }

  // ---------------------------------------------------------------------------
  // The corrected curve for the time events
  // ---------------------------------------------------------------------------

  /** The interpolation the inverted branch evidently means: `minScore` at
      the slow threshold `min`, `maxScore` at the fast threshold `max`. */
  function IntendedCurve(b: Bounds, value: real): real
    requires b.min != b.max
  {
    Lerp(b, (b.min - value) / (b.min - b.max))
  }

  /** The inverted branch with the interpolation corrected. */
  function IntendedInvertedScore(b: Bounds, value: real): int {
    if value <= b.max then b.maxScore
    else if value >= b.min then b.minScore
    else Round(IntendedCurve(b, value))
  }

  /** `calculateScore` with the corrected inverted branch. */
  function IntendedScore(value: real, event: string): (r: int) {
    if event !in BaseScores then 0
    else if IsTimeEvent(event) then IntendedInvertedScore(BaseScores[event], value)
    else HigherIsBetterScore(BaseScores[event], value)
  }

  // ---------------------------------------------------------------------------
  // Arithmetic helpers
  // ---------------------------------------------------------------------------

  lemma FractionMonotone(a1: real, a2: real, d: real)
    requires a1 <= a2 && d > 0.0
    ensures a1 / d <= a2 / d
  {
    assert a2 / d - a1 / d == (a2 - a1) / d;
  }

  /** A fraction of a positive denominator by a value between 0 and it. */
  lemma FractionWithin(a: real, d: real)
    requires 0.0 <= a <= d && d > 0.0
    ensures 0.0 <= a / d <= 1.0
  {
    FractionMonotone(0.0, a, d);
    FractionMonotone(a, d, d);
  }

  lemma LerpMonotone(b: Bounds, t1: real, t2: real)
    requires b.minScore <= b.maxScore && t1 <= t2
    ensures Lerp(b, t1) <= Lerp(b, t2)
  {
    var k := (b.maxScore - b.minScore) as real;
    assert (t2 - t1) * k >= 0.0;
  }

  /** On [0, 1] the line stays between the two score ends. */
  lemma LerpWithin(b: Bounds, t: real)
    requires b.minScore <= b.maxScore && 0.0 <= t <= 1.0
    ensures b.minScore as real <= Lerp(b, t) <= b.maxScore as real
  {
    LerpMonotone(b, 0.0, t);
    LerpMonotone(b, t, 1.0);
  }

  // ---------------------------------------------------------------------------
  // Higher-is-better events
  // ---------------------------------------------------------------------------

  /** A higher-is-better score lies between the row's two score ends. */
  lemma HigherIsBetterWithin(b: Bounds, value: real)
    requires RisingBounds(b)
    ensures b.minScore <= HigherIsBetterScore(b, value) <= b.maxScore
  {
  }

  /** A higher-is-better score never drops when the raw value grows. */
  lemma HigherIsBetterMonotone(b: Bounds, v1: real, v2: real)
    requires RisingBounds(b) && v1 <= v2
    ensures HigherIsBetterScore(b, v1) <= HigherIsBetterScore(b, v2)
  {
    HigherIsBetterWithin(b, v1);
    HigherIsBetterWithin(b, v2);
    if b.min < v1 && v2 < b.max {
      var d := b.max - b.min;
      FractionMonotone(v1 - b.min, v2 - b.min, d);
      LerpMonotone(b, (v1 - b.min) / d, (v2 - b.min) / d);
      RoundMonotone(Lerp(b, (v1 - b.min) / d), Lerp(b, (v2 - b.min) / d));
    }
  }

  /** The table's rows have the shape their branch expects. */
  lemma TableShape()
    ensures forall e :: e in RisingEvents ==> e in BaseScores && !IsTimeEvent(e) && RisingBounds(BaseScores[e])
    ensures forall e :: e in BaseScores && IsTimeEvent(e) ==> FallingBounds(BaseScores[e])
    ensures BaseScores.Keys == RisingEvents + {"sprintDragCarry", "run"}
  {
  }

  /** The four count and weight events score 100 at or above `max`, 60 at or
      below `min`, always within [60, 100], and never less for a larger
      value. `legTuckPlank` is among them. */
  lemma RisingEventScores(event: string, v1: real, v2: real)
    requires event in RisingEvents
    ensures v1 >= BaseScores[event].max ==> Score(v1, event) == 100
    ensures v1 <= BaseScores[event].min ==> Score(v1, event) == 60
    ensures 60 <= Score(v1, event) <= 100
    ensures v1 <= v2 ==> Score(v1, event) <= Score(v2, event)
  {
    TableShape();
    var b := BaseScores[event];
    HigherIsBetterWithin(b, v1);
    if v1 <= v2 {
      HigherIsBetterMonotone(b, v1, v2);
    }
  }

  lemma RisingEventExamples()
    ensures Score(240.0, "deadlift") == 80
    ensures Score(35.0, "pushups") == 80
    ensures Score(340.0, "deadlift") == 100
    ensures Score(140.0, "deadlift") == 60
    ensures Score(13.0, "powerThrow") == 100
    ensures Score(60.0, "pushups") == 100
    ensures Score(20.0, "legTuckPlank") == 100
  {
  }

  // ---------------------------------------------------------------------------
  // Time events, as written
  // ---------------------------------------------------------------------------

  /** `(a / d) * k` is `k * a / d`. */
  lemma DivTimes(a: real, d: real, k: real)
    requires d != 0.0
    ensures (a / d) * k == k * a / d
  {
    var q := a / d;
    assert q * d == a;
    assert (q * k) * d == k * a;
  }

  /** Inside the thresholds the as-written score is
      `round(minScore + scoreRange * (min + max - value) / (min - max))`. */
  lemma InvertedInteriorClosedForm(b: Bounds, value: real)
    requires FallingBounds(b) && b.max < value < b.min
    ensures InvertedScore(b, value)
         == Round(b.minScore as real + (b.maxScore - b.minScore) as real * (b.min + b.max - value) / (b.min - b.max))
  {
    var d := b.min - b.max;
    var k := (b.maxScore - b.minScore) as real;
    var a := b.min + b.max - value;
    assert b.min - (value - b.max) == a;
    assert (b.min - (value - b.max)) / d == a / d;
    DivTimes(a, d, k);
    assert Lerp(b, a / d) == b.minScore as real + k * a / d;
    assert InvertedScore(b, value) == Round(Lerp(b, (b.min - (value - b.max)) / d));
    assert InvertedScore(b, value) == Round(b.minScore as real + k * a / d);
    assert b.minScore as real + k * a / d == b.minScore as real + (b.maxScore - b.minScore) as real * (b.min + b.max - value) / (b.min - b.max);
  }

  /** Inside the thresholds the as-written score does not rise as the time
      grows. */
  lemma InvertedInteriorNonIncreasing(b: Bounds, v1: real, v2: real)
    requires FallingBounds(b) && b.max < v1 <= v2 < b.min
    ensures InvertedScore(b, v2) <= InvertedScore(b, v1)
  {
    var d := b.min - b.max;
    var t1 := (b.min - (v1 - b.max)) / d;
    var t2 := (b.min - (v2 - b.max)) / d;
    FractionMonotone(b.min - (v2 - b.max), b.min - (v1 - b.max), d);
    LerpMonotone(b, t2, t1);
    RoundMonotone(Lerp(b, t2), Lerp(b, t1));
  }

  /** Inside the thresholds the as-written score is the corrected curve
      shifted up by `scoreRange * max / (min - max)`. */
  lemma InvertedOffset(b: Bounds, value: real)
    requires FallingBounds(b) && b.max < value < b.min
    ensures InvertedScore(b, value)
         == Round(IntendedCurve(b, value) + (b.maxScore - b.minScore) as real * b.max / (b.min - b.max))
  {
    var d := b.min - b.max;
    var k := (b.maxScore - b.minScore) as real;
    var a := b.min - value;
    var tw := (b.min - (value - b.max)) / d;
    var ti := a / d;
    var c := b.max / d;
    assert tw == ti + c by {
      assert b.min - (value - b.max) == a + b.max;
      assert (a + b.max) / d == a / d + b.max / d;
    }
    assert tw * k == ti * k + c * k;
    DivTimes(b.max, d, k);
    assert Lerp(b, tw) == IntendedCurve(b, value) + k * b.max / d;
    assert InvertedScore(b, value) == Round(Lerp(b, tw));
    assert IntendedCurve(b, value) + k * b.max / d
        == IntendedCurve(b, value) + (b.maxScore - b.minScore) as real * b.max / (b.min - b.max);
  }

  /** Both time events: 100 at or below the fast threshold, 60 at or above
      the slow one. */
  lemma TimeEventClamps(event: string, value: real)
    requires event in BaseScores && IsTimeEvent(event)
    ensures value <= BaseScores[event].max ==> Score(value, event) == 100
    ensures value >= BaseScores[event].min ==> Score(value, event) == 60
  {
  }

  /** Interior run times (13:00 to 21:00 exclusive) score 125 to 165. */
  lemma RunInteriorRange(value: real)
    requires 780.0 < value < 1260.0
    ensures 125 <= Score(value, "run") <= 165
  {
    var x := Lerp(RunBounds, (1260.0 - (value - 780.0)) / 480.0);
    assert x == 60.0 + (2040.0 - value) / 12.0;
    RoundWithin(x, 125, 165);
  }

  /** Interior sprint-drag-carry times (2:00 to 5:00 exclusive) score 87 to 127. */
  lemma SprintDragCarryInteriorRange(value: real)
    requires 120.0 < value < 300.0
    ensures 87 <= Score(value, "sprintDragCarry") <= 127
  {
    var x := Lerp(SprintDragCarryBounds, (300.0 - (value - 120.0)) / 180.0);
    assert x == 60.0 + 2.0 * (420.0 - value) / 9.0;
    RoundWithin(x, 87, 127);
  }

  /** Whole-second sprint-drag-carry times score at most 126: 127 needs
      a time in (120, 120.75]. */
  lemma SprintDragCarryWholeSeconds(value: real)
    requires value == value.Floor as real
    ensures Score(value, "sprintDragCarry") <= 126
  {
    if 120.0 < value < 300.0 {
      assert value >= 121.0;
      var x := Lerp(SprintDragCarryBounds, (300.0 - (value - 120.0)) / 180.0);
      assert x == 60.0 + 2.0 * (420.0 - value) / 9.0;
      RoundWithin(x, 87, 126);
    }
  }

  /** Half a second past the fast threshold scores 127. */
  lemma SprintDragCarryHalfSecond()
    ensures Score(120.5, "sprintDragCarry") == 127
  {
    var x := Lerp(SprintDragCarryBounds, (300.0 - (120.5 - 120.0)) / 180.0);
    assert x == 60.0 + 2.0 * (420.0 - 120.5) / 9.0;
    RoundWithin(x, 127, 127);
  }

  /** Every score of a known event, including the over-100 time scores. */
  lemma KnownEventScoreRange(value: real, event: string)
    requires event in BaseScores
    ensures 60 <= Score(value, event)
    ensures event in RisingEvents ==> Score(value, event) <= 100
    ensures event == "sprintDragCarry" ==> Score(value, event) <= 127
    ensures event == "run" ==> Score(value, event) <= 165
  {
    TableShape();
    if event in RisingEvents {
      RisingEventScores(event, value, value);
    } else if event == "run" {
      if 780.0 < value < 1260.0 {
        RunInteriorRange(value);
      }
    } else {
      assert event == "sprintDragCarry";
      if 120.0 < value < 300.0 {
        SprintDragCarryInteriorRange(value);
      }
    }
  }

  /** The highest score an event can get as written. */
  function Cap(event: string): int {
    if event == "run" then 165 else if event == "sprintDragCarry" then 127 else 100
  }

  /** A finite score of a known event lies in [60, Cap(event)]. */
  lemma CalculateScoreBounds(value: Number, event: string, age: Number, gender: string)
    requires event in BaseScores
    ensures CalculateScore(value, event, age, gender).Finite? ==>
              60.0 <= CalculateScore(value, event, age, gender).val <= Cap(event) as real
  {
    if value.Finite? {
      KnownEventScoreRange(value.val, event);
    }
  }

  /** A score is 0 exactly when the event key is not one of the six. */
  lemma ZeroExactlyForUnknownEvents(value: real, event: string)
    ensures Score(value, event) == 0 <==> event !in BaseScores
  {
    if event in BaseScores {
      KnownEventScoreRange(value, event);
    }
  }

  /** Age and gender never change a score. */
  lemma ScoreIgnoresDemographics(value: Number, event: string, a1: Number, g1: string, a2: Number, g2: string)
    ensures CalculateScore(value, event, a1, g1) == CalculateScore(value, event, a2, g2)
  {
  }

  /** The run at 13:30 scores 163, and crossing the fast threshold by one
      second lifts the score from 100 to 165: as written, the time scores
      are neither bounded by 100 nor non-increasing. */
  lemma TimeScoreExamples()
    ensures Score(810.0, "run") == 163
    ensures Score(780.0, "run") == 100
    ensures Score(781.0, "run") == 165
    ensures Score(1260.0, "run") == 60
    ensures Score(120.0, "sprintDragCarry") == 100
    ensures Score(121.0, "sprintDragCarry") == 126
    ensures Score(300.0, "sprintDragCarry") == 60
    ensures Score(150.0, "sprintDragCarry") == 120
  {
    assert Lerp(SprintDragCarryBounds, (300.0 - (150.0 - 120.0)) / 180.0) == 120.0;
    assert Lerp(RunBounds, (1260.0 - (810.0 - 780.0)) / 480.0) == 162.5;
    assert Lerp(RunBounds, (1260.0 - (781.0 - 780.0)) / 480.0) == 60.0 + 1259.0 / 12.0;
    assert Lerp(SprintDragCarryBounds, (300.0 - (121.0 - 120.0)) / 180.0) == 60.0 + 598.0 / 9.0;
  }

  // ---------------------------------------------------------------------------
  // Time events, corrected
  // ---------------------------------------------------------------------------

  /** The corrected inverted score stays between the row's score ends. */
  lemma IntendedInvertedWithin(b: Bounds, value: real)
    requires FallingBounds(b)
    ensures b.minScore <= IntendedInvertedScore(b, value) <= b.maxScore
  {
    if b.max < value < b.min {
      FractionWithin(b.min - value, b.min - b.max);
      LerpWithin(b, (b.min - value) / (b.min - b.max));
      RoundWithin(IntendedCurve(b, value), b.minScore, b.maxScore);
    }
  }

  /** The corrected inverted score never rises as the time grows, across
      both thresholds. */
  lemma IntendedInvertedMonotone(b: Bounds, v1: real, v2: real)
    requires FallingBounds(b) && v1 <= v2
    ensures IntendedInvertedScore(b, v2) <= IntendedInvertedScore(b, v1)
  {
    IntendedInvertedWithin(b, v1);
    IntendedInvertedWithin(b, v2);
    if b.max < v1 && v2 < b.min {
      var d := b.min - b.max;
      FractionMonotone(b.min - v2, b.min - v1, d);
      LerpMonotone(b, (b.min - v2) / d, (b.min - v1) / d);
      RoundMonotone(IntendedCurve(b, v2), IntendedCurve(b, v1));
    }
  }

  /** With the correction every known event scores within [60, 100], time
      events never score more for a slower time, and the other events never
      score less for a larger value. */
  lemma IntendedScoreBoundedAndMonotone(event: string, v1: real, v2: real)
    requires event in BaseScores
    ensures 60 <= IntendedScore(v1, event) <= 100
    ensures v1 <= v2 && IsTimeEvent(event) ==> IntendedScore(v2, event) <= IntendedScore(v1, event)
    ensures v1 <= v2 && !IsTimeEvent(event) ==> IntendedScore(v1, event) <= IntendedScore(v2, event)
  {
    TableShape();
    var b := BaseScores[event];
    if IsTimeEvent(event) {
      IntendedInvertedWithin(b, v1);
      if v1 <= v2 {
        IntendedInvertedMonotone(b, v1, v2);
      }
    } else {
      RisingEventScores(event, v1, v2);
    }
  }

  /** The correction changes only time scores strictly between the two
      thresholds. */
  lemma IntendedDiffersOnlyInside(event: string, value: real)
    requires IntendedScore(value, event) != Score(value, event)
    ensures IsTimeEvent(event) && BaseScores[event].max < value < BaseScores[event].min
  {
  }

  lemma IntendedTimeExamples()
    ensures IntendedScore(810.0, "run") == 98
    ensures IntendedScore(781.0, "run") == 100
    ensures IntendedScore(1020.0, "run") == 80
  {
    assert IntendedCurve(RunBounds, 810.0) == 60.0 + 450.0 / 12.0;
    assert IntendedCurve(RunBounds, 781.0) == 60.0 + 479.0 / 12.0;
  }
}
