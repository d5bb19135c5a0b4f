/** The results screen: the performance band shown for a total, and the
    six event tiles shown under it. */
module ScoreResults {
  import opened JsNumber
  import opened ACFTScoring
  import opened ACFTCalculator

  datatype Interpretation = Interpretation(level: string, message: string)

  /** The band thresholds, lowest first. */
  const Thresholds: seq<real> := [360.0, 420.0, 480.0, 540.0]

  /** Band names and messages, indexed by the number of thresholds reached. */
  const Levels: seq<string> := ["Needs Improvement", "Satisfactory", "Good", "Very Good", "Excellent"]
  const Messages: seq<string> := [
    "Additional training required. Don't give up!",
    "You passed! Focus on improving weak areas.",
    "Good performance! Keep up the training.",
    "Great job! Your fitness level is well above average.",
    "Outstanding performance! You're in top condition."
  ]

  const FailingMessage: string := "Additional training required. Don't give up!"

  /** How many of `ts` the score reaches; NaN reaches none. */
  function Reached(score: Number, ts: seq<real>): (n: nat)
    ensures n <= |ts|
  {
    if ts == [] then 0
    else (if AtLeast(score, ts[0]) then 1 else 0) + Reached(score, ts[1..])
  }

  /** The band of a total: 0 for "Needs Improvement" up to 4 for "Excellent". */
  function Band(score: Number): (b: nat)
    ensures b < |Levels|
  {
    Reached(score, Thresholds)
  }

  /** The band, counted threshold by threshold from the top. */
  lemma BandCases(score: Number)
    ensures Band(score) == (if AtLeast(score, 540.0) then 4
                            else if AtLeast(score, 480.0) then 3
                            else if AtLeast(score, 420.0) then 2
                            else if AtLeast(score, 360.0) then 1
                            else 0)
  {
    var t0 := Thresholds;
    var t1, t2, t3 := t0[1..], t0[2..], t0[3..];
    assert t3 == [540.0] && t3[1..] == [];
    assert t2[1..] == t3 && t1[1..] == t2 && t0[1..] == t1;
    assert Reached(score, t3) == (if AtLeast(score, 540.0) then 1 else 0);
    assert Reached(score, t2) == (if AtLeast(score, 480.0) then 1 else 0) + Reached(score, t3);
    assert Reached(score, t1) == (if AtLeast(score, 420.0) then 1 else 0) + Reached(score, t2);
  }

  /** The results screen's `getScoreInterpretation`, without colours and icons. */
  function Interpret(score: Number): (i: Interpretation)
    ensures i.level == Levels[Band(score)]
    ensures i.message == Messages[Band(score)]
  {
    BandCases(score);
    if AtLeast(score, 540.0) then
      Interpretation("Excellent", "Outstanding performance! You're in top condition.")
    else if AtLeast(score, 480.0) then
      Interpretation("Very Good", "Great job! Your fitness level is well above average.")
    else if AtLeast(score, 420.0) then
      Interpretation("Good", "Good performance! Keep up the training.")
    else if AtLeast(score, 360.0) then
      Interpretation("Satisfactory", "You passed! Focus on improving weak areas.")
    else
      Interpretation("Needs Improvement", FailingMessage)
  }

  /** Reaching more of an ascending list is monotone in the score. */
  lemma {:induction false} ReachedMonotone(a: Number, b: Number, ts: seq<real>)
    requires a.Finite? && b.Finite? && a.val <= b.val
    ensures Reached(a, ts) <= Reached(b, ts)
  {
    if ts != [] {
      ReachedMonotone(a, b, ts[1..]);
    }
  }

  /** A higher total never lands in a lower band. */
  lemma BandMonotone(a: Number, b: Number)
    requires a.Finite? && b.Finite? && a.val <= b.val
    ensures Band(a) <= Band(b)
  {
    ReachedMonotone(a, b, Thresholds);
  }

  /** Each band is the half-open interval between two thresholds. */
  lemma LevelThresholds(score: Number)
    ensures Interpret(score).level == "Excellent" <==> AtLeast(score, 540.0)
    ensures Interpret(score).level == "Very Good" <==> AtLeast(score, 480.0) && !AtLeast(score, 540.0)
    ensures Interpret(score).level == "Good" <==> AtLeast(score, 420.0) && !AtLeast(score, 480.0)
    ensures Interpret(score).level == "Satisfactory" <==> AtLeast(score, 360.0) && !AtLeast(score, 420.0)
    ensures Interpret(score).level == "Needs Improvement" <==> !AtLeast(score, 360.0)
  {
  }

  /** Both copies of `getScoreInterpretation` name the same level for every total. */
  lemma LevelsAgree(score: Number)
    ensures Interpret(score).level == CalculatorLevel(score)
  {
  }

  /** The calculator's level never drops as the total grows: it is the
      band's name, and the band is monotone. */
  lemma CalculatorLevelMonotone(a: Number, b: Number)
    requires a.Finite? && b.Finite? && a.val <= b.val
    ensures CalculatorLevel(a) == Levels[Band(a)] && CalculatorLevel(b) == Levels[Band(b)]
    ensures Band(a) <= Band(b)
  {
    LevelsAgree(a);
    LevelsAgree(b);
    BandMonotone(a, b);
  }

  /** Two totals get the same message exactly when they get the same level. */
  lemma MessageFollowsLevel(a: Number, b: Number)
    ensures Interpret(a).level == Interpret(b).level <==> Interpret(a).message == Interpret(b).message
  {
  }

  /** The one non-passing message is shown exactly for totals below 360, and NaN. */
  lemma FailingMessageExactly(score: Number)
    ensures Interpret(score).message == FailingMessage <==> !AtLeast(score, 360.0)
  {
  }

  /** A total in [360, 420) gets the "passed" message. */
  lemma SatisfactoryMessage(score: Number)
    requires score.Finite? && 360.0 <= score.val < 420.0
    ensures Interpret(score).message == "You passed! Focus on improving weak areas."
  {
  }

  /** The band edges themselves, and the top of the nominal range. */
  lemma LevelExamples()
    ensures Interpret(Finite(600.0)).level == "Excellent"
    ensures Interpret(Finite(540.0)).level == "Excellent"
    ensures Interpret(Finite(480.0)).level == "Very Good"
    ensures Interpret(Finite(420.0)).level == "Good"
    ensures Interpret(Finite(360.0)).level == "Satisfactory"
    ensures Interpret(Finite(359.0)).level == "Needs Improvement"
  {
  }

  /** A NaN total, from an event field with no digits, is "Needs Improvement". */
  lemma NaNNeedsImprovement()
    ensures Interpret(NaN).level == "Needs Improvement"
  {
  }

  /** A submitted form whose fields all parse never needs improvement: the
      six scores are at least 60 each. */
  lemma ParsedFormPasses(form: FormData)
    requires ComputeScores(form).total.Finite?
    ensures Interpret(ComputeScores(form).total).level != "Needs Improvement"
  {
    var t := ComputeScores(form).total;
    SubmittedTotalRange(form);
    PassingTotal(t);
  }

  /** A finite total of at least 360 passes. */
  lemma PassingTotal(t: Number)
    requires t.Finite? && 360.0 <= t.val
    ensures Interpret(t).level != "Needs Improvement"
  {
  }

  /** The form totalling 683 is "Excellent", although 683/600 is displayed. */
  lemma FastFormExcellent(form: FormData)
    requires form == FormData("20", "male", "340", "13", "60", "2:30", "20", "legTuck", "13:30")
    ensures Interpret(ComputeScores(form).total).level == "Excellent"
  {
    TotalCanExceed600(form);
  }

  // ---------------------------------------------------------------------------
  // Event tiles
  // ---------------------------------------------------------------------------

  /** One tile of the results grid; the icon is presentation only. */
  datatype Tile = Tile(score: Number, name: string)

  const EventLabels: seq<string> := ["Deadlift", "Power Throw", "Push-ups", "Sprint-Drag-Carry", "Leg Tuck/Plank", "2-Mile Run"]

  /** The fixed list of event tiles under the total. */
  function DisplayList(scores: ScoreRecord): (tiles: seq<Tile>)
    ensures |tiles| == |EventLabels|
    ensures forall i :: 0 <= i < |tiles| ==> tiles[i].name == EventLabels[i]
    ensures forall i :: 0 <= i < |tiles| ==> tiles[i].score == EventScores(scores)[i]
  {
    [ Tile(scores.deadlift, "Deadlift"),
      Tile(scores.powerThrow, "Power Throw"),
      Tile(scores.pushups, "Push-ups"),
      Tile(scores.sprintDragCarry, "Sprint-Drag-Carry"),
      Tile(scores.legTuckPlank, "Leg Tuck/Plank"),
      Tile(scores.run, "2-Mile Run") ]
  }

  function TileScores(tiles: seq<Tile>): (s: seq<Number>)
    ensures |s| == |tiles|
  {
    seq(|tiles|, i requires 0 <= i < |tiles| => tiles[i].score)
  }

  /** The total is never one of the tiles: changing it changes nothing shown there. */
  lemma DisplayIgnoresTotal(scores: ScoreRecord, t: Number)
    ensures DisplayList(scores.(total := t)) == DisplayList(scores)
  {
  }

  /** No two tiles carry the same label. */
  lemma LabelsDistinct(scores: ScoreRecord)
    ensures forall i, j :: 0 <= i < j < |DisplayList(scores)| ==> DisplayList(scores)[i].name != DisplayList(scores)[j].name
  {
  }

  /** The tiles show the six event scores, in record order. */
  lemma TileScoresAreEventScores(scores: ScoreRecord)
    ensures TileScores(DisplayList(scores)) == EventScores(scores)
  {
  }

  /** For a record totalled as on submission, the tiles add up to the
      displayed total, and the total is finite exactly when every tile is. */
  lemma TilesSumToTotal(r: ScoreRecord)
    requires r.total == Finite(0.0)
    ensures var tiles := TileScores(DisplayList(WithTotal(r)));
            WithTotal(r).total.Finite? <==> AllFinite(tiles)
    ensures var tiles := TileScores(DisplayList(WithTotal(r)));
            AllFinite(tiles) ==> WithTotal(r).total.val == FiniteSum(tiles)
  {
    TileScoresAreEventScores(WithTotal(r));
  }

  /** The run tile of the 683 form shows 163, so its bar, whose width is the
      score in percent, overflows. */
  lemma BarCanOverflow(form: FormData)
    requires form == FormData("20", "male", "340", "13", "60", "2:30", "20", "legTuck", "13:30")
    ensures DisplayList(ComputeScores(form))[5].score == OfInt(163)
  {
    FastFormScores(form);
  }
}
