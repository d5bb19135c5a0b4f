/** The scoring side of src/components/ACFTCalculator.tsx: its inline copy
    of `calculateScore`, the form submission that parses the six inputs,
    scores them and totals them, and the calculator's own
    `getScoreInterpretation`. */
module ACFTCalculator {
  import opened JsNumber
  import opened JsParse
  import opened ACFTScoring

  /** `ACFTScore | null`, the calculator's `scores` state. */
  datatype Option<T> = None | Some(value: T)

  /** The form state: every field is the text the user typed or selected. */
  datatype FormData = FormData(
    age: string,
    gender: string,
    deadlift: string,
    powerThrow: string,
    pushups: string,
    sprintDragCarry: string,
    legTuckPlank: string,
    legTuckPlankType: string,
    run: string)

  // ---------------------------------------------------------------------------
  // The inline copy of calculateScore
  // ---------------------------------------------------------------------------

  /** The calculator's own copy of the bound table. */
  const InlineBaseScores: map<string, Bounds> := map[
    "deadlift" := Bounds(140.0, 340.0, 60, 100),
    "powerThrow" := Bounds(4.5, 12.5, 60, 100),
    "pushups" := Bounds(10.0, 60.0, 60, 100),
    "sprintDragCarry" := Bounds(300.0, 120.0, 60, 100),
    "legTuckPlank" := Bounds(1.0, 20.0, 60, 100),
    "run" := Bounds(21.0 * 60.0, 13.0 * 60.0, 60, 100)]

  /** The calculator's own `calculateScore`, written out in full. */
  function InlineCalculateScore(value: Number, event: string, age: Number, gender: string): (r: Number)
    ensures event !in InlineBaseScores ==> r == Finite(0.0)
    ensures event in InlineBaseScores ==> (r.Finite? <==> value.Finite?)
  {
    if event !in InlineBaseScores then Finite(0.0)
    else if value.NaN? then NaN
    else if event == "sprintDragCarry" || event == "run" then InlineInverted(InlineBaseScores[event], value.val)
    else InlineRising(InlineBaseScores[event], value.val)
  }

  /** The inline copy's lower-is-better branch for one row. */
  function InlineInverted(e: Bounds, v: real): (r: Number)
    ensures r.Finite?
  {
    if v <= e.max then OfInt(e.maxScore)
    else if v >= e.min then OfInt(e.minScore)
    else OfInt(Round(InlineInvertedLine(e, v)))
  }

  /** `minScore + (normalizedValue / (min - max)) * scoreRange`, with
      `normalizedValue = min - (value - max)`. */
  function InlineInvertedLine(e: Bounds, v: real): real
    requires e.min != e.max
  {
    var scoreRange := (e.maxScore - e.minScore) as real;
    var normalized := e.min - (v - e.max);
    e.minScore as real + (normalized / (e.min - e.max)) * scoreRange
  }

  /** The inline copy's higher-is-better branch for one row. */
  function InlineRising(e: Bounds, v: real): (r: Number)
    ensures r.Finite?
  {
    if v >= e.max then OfInt(e.maxScore)
    else if v <= e.min then OfInt(e.minScore)
    else OfInt(Round(InlineRisingLine(e, v)))
  }

  /** `minScore + ((value - min) / (max - min)) * scoreRange`. */
  function InlineRisingLine(e: Bounds, v: real): real
    requires e.min != e.max
  {
    var scoreRange := (e.maxScore - e.minScore) as real;
    e.minScore as real + ((v - e.min) / (e.max - e.min)) * scoreRange
  }

  /** The two copies of `calculateScore` agree on every input. */
  lemma InlineCalculateScoreAgrees(value: Number, event: string, age: Number, gender: string)
    ensures InlineCalculateScore(value, event, age, gender) == CalculateScore(value, event, age, gender)
  {
    InlineTableAgrees();
    if event in BaseScores && value.Finite? {
      if IsTimeEvent(event) {
        InlineInvertedAgrees(BaseScores[event], value.val);
      } else {
        InlineRisingAgrees(BaseScores[event], value.val);
      }
    }
  }

  /** For any row, the inline lower-is-better branch is the shared one. */
  lemma InlineInvertedAgrees(e: Bounds, v: real)
    ensures InlineInverted(e, v) == OfInt(InvertedScore(e, v))
  {
    if e.max < v < e.min {
      var t := (e.min - (v - e.max)) / (e.min - e.max);
      assert InlineInvertedLine(e, v) == Lerp(e, t);
    }
  }

  /** For any row, the inline higher-is-better branch is the shared one. */
  lemma InlineRisingAgrees(e: Bounds, v: real)
    ensures InlineRising(e, v) == OfInt(HigherIsBetterScore(e, v))
  {
    if e.min < v < e.max {
      var t := (v - e.min) / (e.max - e.min);
      assert InlineRisingLine(e, v) == Lerp(e, t);
    }
  }

  /** The two bound tables are the same table. */
  lemma InlineTableAgrees()
    ensures InlineBaseScores == BaseScores
  {
    assert InlineBaseScores.Keys == BaseScores.Keys;
    forall k | k in BaseScores
      ensures InlineBaseScores[k] == BaseScores[k]
    {
    }
  }

  // ---------------------------------------------------------------------------
  // Parsing the inputs
  // ---------------------------------------------------------------------------

  /** `parseInt(parts[0]) * 60 + parseInt(parts[1] || '0')` for
      `parts = text.split(':')`: a missing or empty seconds part counts as 0,
      and anything after a second colon is ignored. */
  function TimeToSeconds(text: string): (r: Number)
    ensures r.Finite? ==> r.val == r.val.Floor as real
  {
    SecondsOfParts(Split(text, ':'))
  }

  /** Whole minutes and whole seconds make whole seconds. */
  function SecondsOfParts(parts: seq<string>): (r: Number)
    requires |parts| >= 1
    ensures r.Finite? ==> r.val == r.val.Floor as real
  {
    var minutes := ParseInt(parts[0]);
    var seconds := ParseInt(SecondsText(parts));
    WholeMinutesAndSeconds(minutes, seconds);
    Add(Mul(minutes, Finite(60.0)), seconds)
  }

  lemma WholeMinutesAndSeconds(a: Number, b: Number)
    requires a.Finite? ==> a.val == a.val.Floor as real
    requires b.Finite? ==> b.val == b.val.Floor as real
    ensures var r := Add(Mul(a, Finite(60.0)), b);
            r.Finite? ==> r.val == r.val.Floor as real
  {
    if a.Finite? && b.Finite? {
      var m, s := a.val.Floor, b.val.Floor;
      assert a.val * 60.0 + b.val == (m * 60 + s) as real;
    }
  }

  /** `parts[1] || '0'`. */
  function SecondsText(parts: seq<string>): string {
    if |parts| > 1 && parts[1] != [] then parts[1] else NoSeconds
  }

  /** The text read when the seconds part is missing or empty. */
  const NoSeconds: string := "0"

  lemma NoSecondsIsZero()
    ensures ParseInt(NoSeconds) == OfInt(0)
  {
    ParseIntShowAlone(0);
    assert Show(0) == NoSeconds;
  }

  /** Two colon-free pieces around one colon: minutes from the first,
      seconds from the second. */
  lemma TimeToSecondsOfParts(mins: string, secs: string)
    requires ':' !in mins && ':' !in secs && secs != ""
    ensures TimeToSeconds(mins + ":" + secs) == Add(Mul(ParseInt(mins), Finite(60.0)), ParseInt(secs))
  {
    SplitAtFirstSeparator(mins, ':', secs);
    SplitWithoutSeparator(secs, ':');
    assert mins + ":" + secs == mins + [':'] + secs;
    var parts := Split(mins + ":" + secs, ':');
    assert parts == [mins, secs];
    assert SecondsText(parts) == secs;
  }

  /** One colon-free piece: seconds count as 0. */
  lemma TimeToSecondsOfMinutes(mins: string)
    requires ':' !in mins
    ensures TimeToSeconds(mins) == Add(Mul(ParseInt(mins), Finite(60.0)), OfInt(0))
  {
    SplitWithoutSeparator(mins, ':');
    assert SecondsText([mins]) == NoSeconds;
    NoSecondsIsZero();
  }

  /** One colon-free piece and a lone colon: the empty seconds part counts as 0. */
  lemma TimeToSecondsOfMinutesColon(mins: string)
    requires ':' !in mins
    ensures TimeToSeconds(mins + ":") == Add(Mul(ParseInt(mins), Finite(60.0)), OfInt(0))
  {
    SplitAtFirstSeparator(mins, ':', []);
    assert mins + ":" == mins + [':'] + [];
    assert Split([], ':') == [[]];
    assert Split(mins + ":", ':') == [mins, []];
    NoSecondsIsZero();
  }

  /** A canonical decimal spelling, alone, parses to its value. */
  lemma ParseIntShowAlone(n: nat)
    ensures ParseInt(Show(n)) == OfInt(n)
    ensures ':' !in Show(n)
  {
    ParseIntShow(n, []);
    assert Show(n) + [] == Show(n);
    ShowDigits(n);
  }

  /** `m * 60 + s` on numbers that hold the integers `m` and `s`. */
  lemma MinutesArithmetic(a: Number, b: Number, m: nat, s: nat)
    requires a == OfInt(m) && b == OfInt(s)
    ensures Add(Mul(a, Finite(60.0)), b) == OfInt(60 * m + s)
  {
    assert (60 * m + s) as real == m as real * 60.0 + s as real;
  }

  /** `m * 60 + 0` on a number that holds the integer `m`. */
  lemma MinutesTimesSixty(a: Number, m: nat)
    requires a == OfInt(m)
    ensures Add(Mul(a, Finite(60.0)), OfInt(0)) == OfInt(60 * m)
  {
    assert (60 * m) as real == m as real * 60.0;
  }

  /** Minutes and seconds that parse to `m` and `s` make `60 * m + s` seconds. */
  lemma PartsValue(mins: string, secs: string, m: nat, s: nat)
    requires ':' !in mins && ':' !in secs && secs != ""
    requires ParseInt(mins) == OfInt(m) && ParseInt(secs) == OfInt(s)
    ensures TimeToSeconds(mins + ":" + secs) == OfInt(60 * m + s)
  {
    TimeToSecondsOfParts(mins, secs);
    MinutesArithmetic(ParseInt(mins), ParseInt(secs), m, s);
  }

  /** Minutes that parse to `m`, alone, make `60 * m` seconds. */
  lemma MinutesValue(mins: string, m: nat)
    requires ':' !in mins && ParseInt(mins) == OfInt(m)
    ensures TimeToSeconds(mins) == OfInt(60 * m)
  {
    TimeToSecondsOfMinutes(mins);
    MinutesTimesSixty(ParseInt(mins), m);
  }

  /** Minutes that parse to `m`, before a lone colon, make `60 * m` seconds. */
  lemma MinutesColonValue(mins: string, m: nat)
    requires ':' !in mins && ParseInt(mins) == OfInt(m)
    ensures TimeToSeconds(mins + ":") == OfInt(60 * m)
  {
    TimeToSecondsOfMinutesColon(mins);
    MinutesTimesSixty(ParseInt(mins), m);
  }

  /** "m:s" is `60 * m + s` seconds. */
  lemma MinutesSecondsToSeconds(m: nat, s: nat)
    ensures TimeToSeconds(Show(m) + ":" + Show(s)) == OfInt(60 * m + s)
  {
    ParseIntShowAlone(m);
    ParseIntShowAlone(s);
    PartsValue(Show(m), Show(s), m, s);
  }

  /** "m" is `60 * m` seconds. */
  lemma MinutesToSeconds(m: nat)
    ensures TimeToSeconds(Show(m)) == OfInt(60 * m)
  {
    ParseIntShowAlone(m);
    MinutesValue(Show(m), m);
  }

  /** "m:" is `60 * m` seconds too. */
  lemma MinutesColonToSeconds(m: nat)
    ensures TimeToSeconds(Show(m) + ":") == OfInt(60 * m)
  {
    ParseIntShowAlone(m);
    MinutesColonValue(Show(m), m);
  }

  /** An empty time field scores as NaN seconds. */
  lemma EmptyTimeIsNaN()
    ensures TimeToSeconds("") == NaN
  {
    var e: string := [];
    assert Split(e, ':') == [e];
    EmptyParseIntIsNaN();
  }

  /** A 13:30 run is 810 seconds. */
  lemma RunTimeExample()
    ensures TimeToSeconds("13:30") == OfInt(810)
  {
    var thirteen, thirty := Show(13), Show(30);
    assert thirteen == "13";
    assert thirty == "30";
    assert "13" + ":" + "30" == "13:30";
    MinutesSecondsToSeconds(13, 30);
  }

  /** A 1:33 sprint-drag-carry is 93 seconds. */
  lemma SprintTimeExample()
    ensures TimeToSeconds("1:33") == OfInt(93)
  {
    var one, thirtyThree := Show(1), Show(33);
    assert one == "1";
    assert thirtyThree == "33";
    assert "1" + ":" + "33" == "1:33";
    MinutesSecondsToSeconds(1, 33);
  }

  /** "13" alone is 13 minutes. */
  lemma MinutesOnlyExample()
    ensures TimeToSeconds("13") == OfInt(780)
  {
    assert Show(13) == "13";
    MinutesToSeconds(13);
  }

  // ---------------------------------------------------------------------------
  // Totalling
  // ---------------------------------------------------------------------------

  /** `Object.values(record)`: the fields in declaration order, total last. */
  function ObjectValues(r: ScoreRecord): (vs: seq<Number>)
    ensures |vs| == 7 && vs[..6] == EventScores(r) && vs[6] == r.total
  {
    [r.deadlift, r.powerThrow, r.pushups, r.sprintDragCarry, r.legTuckPlank, r.run, r.total]
  }

  /** `values.reduce((sum, score) => sum + score, acc)`: every value is a
      number, so every one is added. */
  function Reduce(values: seq<Number>, acc: Number): (r: Number)
    ensures r.Finite? ==> acc.Finite?
    ensures r.Finite? ==> forall i :: 0 <= i < |values| ==> values[i].Finite?
  {
    if values == [] then acc else Reduce(values[1..], Add(acc, values[0]))
  }

  /** The six event scores in record order. */
  function EventScores(r: ScoreRecord): (s: seq<Number>)
    ensures |s| == 6
  {
    [r.deadlift, r.powerThrow, r.pushups, r.sprintDragCarry, r.legTuckPlank, r.run]
  }

  predicate AllFinite(values: seq<Number>) {
    forall i :: 0 <= i < |values| ==> values[i].Finite?
  }

  /** The plain sum of the finite values. */
  function FiniteSum(values: seq<Number>): real {
    if values == [] then 0.0
    else (if values[0].Finite? then values[0].val else 0.0) + FiniteSum(values[1..])
  }

  /** A left fold of `+` is the plain sum, or NaN once any operand is NaN. */
  lemma {:induction false} ReduceIsSum(values: seq<Number>, acc: Number)
    ensures Reduce(values, acc).Finite? <==> acc.Finite? && AllFinite(values)
    ensures Reduce(values, acc).Finite? ==> Reduce(values, acc).val == acc.val + FiniteSum(values)
  {
    if values != [] {
      ReduceIsSum(values[1..], Add(acc, values[0]));
      assert AllFinite(values) <==> values[0].Finite? && AllFinite(values[1..]) by {
        if AllFinite(values[1..]) && values[0].Finite? {
          forall i | 0 <= i < |values| ensures values[i].Finite? {
            if i > 0 { assert values[i] == values[1..][i - 1]; }
          }
        }
      }
    }
  }

  /** The record with its total computed the way `handleSubmit` does:
      reduce over every field, placeholder total included, then subtract
      the placeholder. */
  function WithTotal(r: ScoreRecord): (t: ScoreRecord)
    requires r.total == Finite(0.0)
    ensures EventScores(t) == EventScores(r)
    ensures t.total.Finite? <==> AllFinite(EventScores(r))
    ensures t.total.Finite? ==> t.total.val == FiniteSum(EventScores(r))
  {
    var values := ObjectValues(r);
    ReduceIsSum(values, Finite(0.0));
    assert values == EventScores(r) + [r.total];
    SumAppendZero(EventScores(r));
    AllFiniteAppend(EventScores(r), r.total);
    r.(total := Sub(Reduce(values, Finite(0.0)), r.total))
  }

  lemma {:induction false} SumAppendZero(values: seq<Number>)
    ensures FiniteSum(values + [Finite(0.0)]) == FiniteSum(values)
  {
    if values != [] {
      assert (values + [Finite(0.0)])[1..] == values[1..] + [Finite(0.0)];
      SumAppendZero(values[1..]);
    }
  }

  lemma AllFiniteAppend(values: seq<Number>, x: Number)
    requires x.Finite?
    ensures AllFinite(values + [x]) <==> AllFinite(values)
  {
    if AllFinite(values + [x]) {
      forall i | 0 <= i < |values| ensures values[i].Finite? {
        assert values[i] == (values + [x])[i];
      }
    }
  }

  // ---------------------------------------------------------------------------
  // Submitting the form
  // ---------------------------------------------------------------------------

  /** The six `calculateScore` calls of `handleSubmit`, with the placeholder
      total 0; each event is scored under its own key from its own input. */
  function ScoreEvents(form: FormData): (r: ScoreRecord)
    ensures
      var age := ParseInt(form.age);
      && r.deadlift == CalculateScore(ParseInt(form.deadlift), "deadlift", age, form.gender)
      && r.powerThrow == CalculateScore(ParseFloat(form.powerThrow), "powerThrow", age, form.gender)
      && r.pushups == CalculateScore(ParseInt(form.pushups), "pushups", age, form.gender)
      && r.sprintDragCarry == CalculateScore(TimeToSeconds(form.sprintDragCarry), "sprintDragCarry", age, form.gender)
      && r.legTuckPlank == CalculateScore(ParseInt(form.legTuckPlank), "legTuckPlank", age, form.gender)
      && r.run == CalculateScore(TimeToSeconds(form.run), "run", age, form.gender)
    ensures r.total == Finite(0.0)
  {
    var age := ParseInt(form.age);
    var runSeconds := TimeToSeconds(form.run);
    var sdcSeconds := TimeToSeconds(form.sprintDragCarry);
    InlineCalculateScoreAgrees(ParseInt(form.deadlift), "deadlift", age, form.gender);
    InlineCalculateScoreAgrees(ParseFloat(form.powerThrow), "powerThrow", age, form.gender);
    InlineCalculateScoreAgrees(ParseInt(form.pushups), "pushups", age, form.gender);
    InlineCalculateScoreAgrees(sdcSeconds, "sprintDragCarry", age, form.gender);
    InlineCalculateScoreAgrees(ParseInt(form.legTuckPlank), "legTuckPlank", age, form.gender);
    InlineCalculateScoreAgrees(runSeconds, "run", age, form.gender);
    ScoreRecord(
      InlineCalculateScore(ParseInt(form.deadlift), "deadlift", age, form.gender),
      InlineCalculateScore(ParseFloat(form.powerThrow), "powerThrow", age, form.gender),
      InlineCalculateScore(ParseInt(form.pushups), "pushups", age, form.gender),
      InlineCalculateScore(sdcSeconds, "sprintDragCarry", age, form.gender),
      InlineCalculateScore(ParseInt(form.legTuckPlank), "legTuckPlank", age, form.gender),
      InlineCalculateScore(runSeconds, "run", age, form.gender),
      Finite(0.0))
  }

  /** The record `handleSubmit` stores for a form that passed the guard. */
  function ComputeScores(form: FormData): (r: ScoreRecord)
    ensures EventScores(r) == EventScores(ScoreEvents(form))
    ensures r.total.Finite? <==> AllFinite(EventScores(r))
    ensures r.total.Finite? ==> r.total.val == FiniteSum(EventScores(r))
  {
    WithTotal(ScoreEvents(form))
  }

  /** `handleSubmit`: with age or gender missing the `scores` state is left
      as it was; otherwise it becomes the freshly computed record. */
  function Submit(form: FormData, scores: Option<ScoreRecord>): (r: Option<ScoreRecord>)
    ensures form.age == "" || form.gender == "" ==> r == scores
    ensures form.age != "" && form.gender != "" ==> r == Some(ComputeScores(form))
  {
    if form.age == "" || form.gender == "" then scores
    else Some(ComputeScores(form))
  }

  /** The leg-tuck/plank choice changes no score. */
  lemma LegTuckPlankTypeIgnored(form: FormData, kind: string, scores: Option<ScoreRecord>)
    ensures Submit(form.(legTuckPlankType := kind), scores) == Submit(form, scores)
  {
  }

  /** The sum of six finite numbers. */
  lemma FiniteSumOfSix(s: seq<Number>)
    requires |s| == 6 && AllFinite(s)
    ensures FiniteSum(s) == s[0].val + s[1].val + s[2].val + s[3].val + s[4].val + s[5].val
  {
    assert s[5..][1..] == [];
    assert s[4..][1..] == s[5..];
    assert s[3..][1..] == s[4..];
    assert s[2..][1..] == s[3..];
    assert s[1..][1..] == s[2..];
    assert s[0..] == s;
    assert s[0..][1..] == s[1..];
    assert FiniteSum(s[5..]) == s[5].val;
    assert FiniteSum(s[4..]) == s[4].val + FiniteSum(s[5..]);
    assert FiniteSum(s[3..]) == s[3].val + FiniteSum(s[4..]);
    assert FiniteSum(s[2..]) == s[2].val + FiniteSum(s[3..]);
    assert FiniteSum(s[1..]) == s[1].val + FiniteSum(s[2..]);
  }

  /** `x` is NaN or a score between 60 and `hi`. */
  predicate InScoreRange(x: Number, hi: real) {
    x.Finite? ==> 60.0 <= x.val <= hi
  }

  /** Six in-range event scores total to between 360 and 691. */
  lemma RecordTotalRange(r: ScoreRecord)
    requires r.total == Finite(0.0)
    requires InScoreRange(r.deadlift, 100.0) && InScoreRange(r.powerThrow, 100.0)
    requires InScoreRange(r.pushups, 100.0) && InScoreRange(r.sprintDragCarry, 126.0)
    requires InScoreRange(r.legTuckPlank, 100.0) && InScoreRange(r.run, 165.0)
    requires WithTotal(r).total.Finite?
    ensures 360.0 <= WithTotal(r).total.val <= 691.0
  {
    FiniteSumOfSix(EventScores(r));
  }

  /** A sprint-drag-carry entered as `MM:SS` scores at most 126. */
  lemma SprintDragCarryFieldScore(text: string, age: Number, gender: string)
    ensures InScoreRange(CalculateScore(TimeToSeconds(text), "sprintDragCarry", age, gender), 126.0)
  {
    var seconds := TimeToSeconds(text);
    CalculateScoreBounds(seconds, "sprintDragCarry", age, gender);
    if seconds.Finite? {
      SprintDragCarryWholeSeconds(seconds.val);
    }
  }

  /** When every input parses, each event scores at least 60, and the
      as-written time scores reach 126 and 165: the total lies in
      [360, 691], not [0, 600]. */
  lemma SubmittedTotalRange(form: FormData)
    requires ComputeScores(form).total.Finite?
    ensures 360.0 <= ComputeScores(form).total.val <= 691.0
  {
    var r := ScoreEvents(form);
    var age := ParseInt(form.age);
    assert InScoreRange(r.deadlift, 100.0) by {
      CalculateScoreBounds(ParseInt(form.deadlift), "deadlift", age, form.gender);
    }
    assert InScoreRange(r.powerThrow, 100.0) by {
      CalculateScoreBounds(ParseFloat(form.powerThrow), "powerThrow", age, form.gender);
    }
    assert InScoreRange(r.pushups, 100.0) by {
      CalculateScoreBounds(ParseInt(form.pushups), "pushups", age, form.gender);
    }
    assert InScoreRange(r.sprintDragCarry, 126.0) by {
      SprintDragCarryFieldScore(form.sprintDragCarry, age, form.gender);
    }
    assert InScoreRange(r.legTuckPlank, 100.0) by {
      CalculateScoreBounds(ParseInt(form.legTuckPlank), "legTuckPlank", age, form.gender);
    }
    assert InScoreRange(r.run, 165.0) by {
      CalculateScoreBounds(TimeToSeconds(form.run), "run", age, form.gender);
    }
    RecordTotalRange(r);
  }

  /** A 2:30 sprint-drag-carry is 150 seconds. */
  lemma SprintTimeExampleTwoThirty()
    ensures TimeToSeconds("2:30") == OfInt(150)
  {
    var two, thirty := Show(2), Show(30);
    assert two == "2";
    assert thirty == "30";
    assert "2" + ":" + "30" == "2:30";
    MinutesSecondsToSeconds(2, 30);
  }

  /** The numeric fields of the fast form. */
  lemma FastFormNumbers()
    ensures ParseInt("340") == OfInt(340)
    ensures ParseFloat("13") == OfInt(13)
    ensures ParseInt("60") == OfInt(60)
    ensures ParseInt("20") == OfInt(20)
  {
    var a, b, c, d := Show(340), Show(13), Show(60), Show(20);
    assert a == "340";
    assert b == "13";
    assert c == "60";
    assert d == "20";
    ParseIntShowAlone(340);
    ParseIntShowAlone(60);
    ParseIntShowAlone(20);
    ParseFloatShow(13, []);
    assert b + [] == "13";
  }

  /** The six scores of the form with every strength and count event at its
      top, a 2:30 sprint-drag-carry and a 13:30 run. */
  lemma FastFormScores(form: FormData)
    requires form == FormData("20", "male", "340", "13", "60", "2:30", "20", "legTuck", "13:30")
    ensures EventScores(ScoreEvents(form)) == [OfInt(100), OfInt(100), OfInt(100), OfInt(120), OfInt(100), OfInt(163)]
  {
    FastFormNumbers();
    SprintTimeExampleTwoThirty();
    RunTimeExample();
    TimeScoreExamples();
    RisingEventExamples();
  }

  /** Six finite scores total to their plain sum. */
  lemma TotalOfFiniteScores(r: ScoreRecord)
    requires r.total == Finite(0.0) && AllFinite(EventScores(r))
    ensures var s := EventScores(r);
            WithTotal(r).total == Finite(s[0].val + s[1].val + s[2].val + s[3].val + s[4].val + s[5].val)
  {
    FiniteSumOfSix(EventScores(r));
  }

  /** The fast form's six scores total 683. */
  lemma FastScoresTotal(r: ScoreRecord)
    requires r.total == Finite(0.0)
    requires EventScores(r) == [OfInt(100), OfInt(100), OfInt(100), OfInt(120), OfInt(100), OfInt(163)]
    ensures WithTotal(r).total == Finite(683.0)
  {
    TotalOfFiniteScores(r);
  }

  /** A form whose total is 683, although both the toast and the results
      screen print it out of 600. */
  lemma TotalCanExceed600(form: FormData)
    requires form == FormData("20", "male", "340", "13", "60", "2:30", "20", "legTuck", "13:30")
    ensures Submit(form, None) == Some(ComputeScores(form))
    ensures ComputeScores(form).total == Finite(683.0)
  {
    FastFormScores(form);
    FastScoresTotal(ScoreEvents(form));
  }

  /** A zero-padded seconds part. */
  const PaddedOne: string := "01"

  /** The padded seconds part reads as 1. */
  lemma PaddedOneParses()
    ensures ParseInt(PaddedOne) == OfInt(1)
  {
    ZeroPaddedDigit(1);
    assert PaddedOne == ['0', DigitChar(1)];
  }

  lemma PaddedOneHasNoColon()
    ensures ':' !in PaddedOne && |PaddedOne| == 2
  {
    assert PaddedOne == ['0', '1'];
  }

  /** "m:" before seconds that parse to `s` is `60 * m + s` seconds. */
  lemma MinutesAndParsedSeconds(m: nat, secs: string, s: nat)
    requires ':' !in secs && |secs| > 0 && ParseInt(secs) == OfInt(s)
    ensures TimeToSeconds(Show(m) + ":" + secs) == OfInt(60 * m + s)
  {
    ParseIntShowAlone(m);
    PartsValue(Show(m), secs, m, s);
  }

  /** "m:01" is `60 * m + 1` seconds. */
  lemma MinutesAndOneSecond(m: nat)
    ensures TimeToSeconds(Show(m) + ":" + PaddedOne) == OfInt(60 * m + 1)
  {
    PaddedOneParses();
    PaddedOneHasNoColon();
    MinutesAndParsedSeconds(m, PaddedOne, 1);
  }

  /** "2:01" is 121 seconds, one past the sprint-drag-carry fast threshold. */
  lemma SprintTimeTwoOhOne()
    ensures TimeToSeconds("2:01") == OfInt(121)
  {
    var two, one := Show(2), PaddedOne;
    assert two == "2";
    assert one == "01";
    assert two + ":" + one == "2:01";
    MinutesAndOneSecond(2);
  }

  /** "13:01" is 781 seconds, one past the run fast threshold. */
  lemma RunTimeThirteenOhOne()
    ensures TimeToSeconds("13:01") == OfInt(781)
  {
    var thirteen, one := Show(13), PaddedOne;
    assert thirteen == "13";
    assert one == "01";
    assert thirteen + ":" + one == "13:01";
    MinutesAndOneSecond(13);
  }

  /** The six scores of the form with every strength and count event at its
      top and both times one second past the fast threshold. */
  lemma TopFormScores(form: FormData)
    requires form == FormData("20", "male", "340", "13", "60", "2:01", "20", "legTuck", "13:01")
    ensures EventScores(ScoreEvents(form)) == [OfInt(100), OfInt(100), OfInt(100), OfInt(126), OfInt(100), OfInt(165)]
  {
    FastFormNumbers();
    SprintTimeTwoOhOne();
    RunTimeThirteenOhOne();
    TimeScoreExamples();
    RisingEventExamples();
  }

  /** The top form's six scores total 691. */
  lemma TopScoresTotal(r: ScoreRecord)
    requires r.total == Finite(0.0)
    requires EventScores(r) == [OfInt(100), OfInt(100), OfInt(100), OfInt(126), OfInt(100), OfInt(165)]
    ensures WithTotal(r).total == Finite(691.0)
  {
    TotalOfFiniteScores(r);
  }

  /** The bound of `SubmittedTotalRange` is reached: this form totals 691. */
  lemma TotalReaches691(form: FormData)
    requires form == FormData("20", "male", "340", "13", "60", "2:01", "20", "legTuck", "13:01")
    ensures Submit(form, None) == Some(ComputeScores(form))
    ensures ComputeScores(form).total == Finite(691.0)
  {
    TopFormScores(form);
    TopScoresTotal(ScoreEvents(form));
  }

  /** With the corrected time curve, six numeric inputs always total between
      360 and 600, the range the program's pages promise. `vs` holds the
      values in the order the form scores them. */
  lemma IntendedTotalWithin600(vs: seq<real>)
    requires |vs| == 6
    ensures var total := IntendedScore(vs[0], "deadlift") + IntendedScore(vs[1], "powerThrow")
                         + IntendedScore(vs[2], "pushups") + IntendedScore(vs[3], "sprintDragCarry")
                         + IntendedScore(vs[4], "legTuckPlank") + IntendedScore(vs[5], "run");
            360 <= total <= 600
  {
    TableShape();
    IntendedScoreBoundedAndMonotone("deadlift", vs[0], vs[0]);
    IntendedScoreBoundedAndMonotone("powerThrow", vs[1], vs[1]);
    IntendedScoreBoundedAndMonotone("pushups", vs[2], vs[2]);
    IntendedScoreBoundedAndMonotone("sprintDragCarry", vs[3], vs[3]);
    IntendedScoreBoundedAndMonotone("legTuckPlank", vs[4], vs[4]);
    IntendedScoreBoundedAndMonotone("run", vs[5], vs[5]);
  }

  // ---------------------------------------------------------------------------
  // Interpretation
  // ---------------------------------------------------------------------------

  /** The `level` of the calculator's `getScoreInterpretation`; colours
      are presentation only. */
  function CalculatorLevel(score: Number): (r: string)
    ensures r == "Needs Improvement" <==> !AtLeast(score, 360.0)
  {
    if AtLeast(score, 540.0) then "Excellent"
    else if AtLeast(score, 480.0) then "Very Good"
    else if AtLeast(score, 420.0) then "Good"
    else if AtLeast(score, 360.0) then "Satisfactory"
    else "Needs Improvement"
  }
}
