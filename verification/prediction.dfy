/**
 The "Predict stop outcome and violation" form: a majority vote over the
 historical rows that match the submitted stop, with a fixed answer when
 none match, and the two flag phrases of the summary sentence.
 */
module Prediction {
  import opened Tally
  import opened Ledger

  /** The guessed violation and stop outcome shown to the user. */
  datatype PredictionResult = PredictionResult(violation: string, outcome: string)

  /** The answer given when no historical row matches: violation
      "speeding", outcome "warning". */
  const Fallback := PredictionResult("speeding", "warning")

  /** The `violation` column of some rows. */
  function Violations(rows: seq<StopRecord>): (col: seq<string>)
    ensures |col| == |rows|
    ensures forall i :: 0 <= i < |rows| ==> col[i] == rows[i].violation
  {
    seq(|rows|, i requires 0 <= i < |rows| => rows[i].violation)
  }

  /** The `stop_outcome` column of some rows. */
  function Outcomes(rows: seq<StopRecord>): (col: seq<string>)
    ensures |col| == |rows|
    ensures forall i :: 0 <= i < |rows| ==> col[i] == rows[i].stopOutcome
  {
    seq(|rows|, i requires 0 <= i < |rows| => rows[i].stopOutcome)
  }

  /** The prediction for a submitted stop, given the loaded historical rows.
      Outcome and violation are voted on separately over the same matching
      rows. */
  function Predict(data: seq<StopRecord>, q: Request): (p: PredictionResult)
    requires IsValidRequest(q)
    ensures var rows := Filter(data, KeyOf(q));
      && (|rows| == 0 ==> p == Fallback)
      && (|rows| > 0 ==> IsModeOf(Violations(rows), p.violation))
      && (|rows| > 0 ==> IsModeOf(Outcomes(rows), p.outcome))
  {
    var rows := Filter(data, KeyOf(q));
    if |rows| == 0 then Fallback
    else PredictionResult(Mode(Violations(rows)), Mode(Outcomes(rows)))
  }

  /** When no historical row matches the request, the prediction is the
      fixed pair: violation "speeding", outcome "warning". */
  lemma NoMatchFallsBack(data: seq<StopRecord>, q: Request)
    requires IsValidRequest(q)
    ensures (forall r :: r in data ==> !Matches(r, KeyOf(q))) ==>
              Predict(data, q) == Fallback
  {
    var rows := Filter(data, KeyOf(q));
    if |rows| > 0 {
      assert rows[0] in rows;
    }
  }

  /** When some historical row matches, the predicted outcome is the outcome
      of a matching row, and no outcome is more frequent among the matching
      rows. */
  lemma {:induction false} PredictedOutcomeIsMatchingMajority(data: seq<StopRecord>, q: Request, other: string)
    requires IsValidRequest(q)
    requires exists r :: r in data && Matches(r, KeyOf(q))
    ensures exists r :: r in data && Matches(r, KeyOf(q)) && r.stopOutcome == Predict(data, q).outcome
    ensures Count(Outcomes(Filter(data, KeyOf(q))), other)
              <= Count(Outcomes(Filter(data, KeyOf(q))), Predict(data, q).outcome)
  {
    var rows := Filter(data, KeyOf(q));
    var r0 :| r0 in data && Matches(r0, KeyOf(q));
    assert r0 in rows;
    var col := Outcomes(rows);
    var m := Predict(data, q).outcome;
    assert m in col;
    var i :| 0 <= i < |col| && col[i] == m;
    assert rows[i] in rows;
  }

  /** When some historical row matches, the predicted violation is the
      violation of a matching row, and no violation is more frequent among
      the matching rows. */
  lemma {:induction false} PredictedViolationIsMatchingMajority(data: seq<StopRecord>, q: Request, other: string)
    requires IsValidRequest(q)
    requires exists r :: r in data && Matches(r, KeyOf(q))
    ensures exists r :: r in data && Matches(r, KeyOf(q)) && r.violation == Predict(data, q).violation
    ensures Count(Violations(Filter(data, KeyOf(q))), other)
              <= Count(Violations(Filter(data, KeyOf(q))), Predict(data, q).violation)
  {
    var rows := Filter(data, KeyOf(q));
    var r0 :| r0 in data && Matches(r0, KeyOf(q));
    assert r0 in rows;
    var col := Violations(rows);
    var m := Predict(data, q).violation;
    assert m in col;
    var i :| 0 <= i < |col| && col[i] == m;
    assert rows[i] in rows;
  }

  /** The summary's search phrase: it reads "a search was conducted" exactly
      when the submitted option is "1". */
  function SearchPhrase(choice: string): (text: string)
    requires IsFlagChoice(choice)
    ensures text == "a search was conducted" <==> choice == "1"
    ensures text == "no search was conducted" <==> choice == "0"
  {
    if FlagInt(choice) != 0 then "a search was conducted" else "no search was conducted"
  }

  /** The summary's drug phrase: it reads "was drug-related" exactly when the
      submitted option is "1". */
  function DrugPhrase(choice: string): (text: string)
    requires IsFlagChoice(choice)
    ensures text == "was drug-related" <==> choice == "1"
    ensures text == "was not drug-related" <==> choice == "0"
  {
    if FlagInt(choice) != 0 then "was drug-related" else "was not drug-related"
  }

  /** A sample row carrying exactly the compared columns of `key`, with the
      given violation and outcome. */
  function Sample(key: MatchKey, violation: string, outcome: string): (r: StopRecord)
    ensures Matches(r, key) && r.driverAge == key.driverAge
    ensures r.violation == violation && r.stopOutcome == outcome
  {
    StopRecord("2020-01-01", "10:00:00", "canada", key.driverGender, key.driverAge, "White",
               key.searchConducted, "", key.drugsRelatedStop, key.stopDuration, "AB1234",
               violation, outcome, 0)
  }

  /** Three rows match a 30-year-old female driver, not searched, not
      drug-related, stopped 0-15 minutes, with violations speeding, speeding
      and parking; a fourth row differs in age. The predicted violation is
      speeding. */
  lemma ScenarioMajorityViolation()
    ensures var key := MatchKey("female", 30, 0, "0-15 Min", 0);
      var data := [
        Sample(key, "speeding", "warning"),
        Sample(key, "speeding", "ticket"),
        Sample(MatchKey("female", 31, 0, "0-15 Min", 0), "parking", "arrest"),
        Sample(key, "parking", "warning")];
      Predict(data, Request("female", 30, "0", "0-15 Min", "0")).violation == "speeding"
  {
    var key := MatchKey("female", 30, 0, "0-15 Min", 0);
    var data := [
      Sample(key, "speeding", "warning"),
      Sample(key, "speeding", "ticket"),
      Sample(MatchKey("female", 31, 0, "0-15 Min", 0), "parking", "arrest"),
      Sample(key, "parking", "warning")];
    var q := Request("female", 30, "0", "0-15 Min", "0");
    var rows := [data[0], data[1], data[3]];
    assert Filter(data, KeyOf(q)) == rows by {
      assert KeyOf(q) == key;
      assert !Matches(data[2], key);
      FilterOfFour(data[0], data[1], data[2], data[3], key);
    }
    assert Mode(Violations(rows)) == "speeding" by {
      assert Violations(rows) == ["speeding", "speeding", "parking"];
      TwoOfThreeIsMode(Violations(rows), "speeding", "parking");
    }
  }

  /** In a column holding `v` twice and another value once, `v` is the mode. */
  lemma TwoOfThreeIsMode(col: seq<string>, v: string, a: string)
    requires col == [v, v, a] && v != a
    ensures |col| > 0 && Mode(col) == v
  {
    forall w | w != v
      ensures Count(col, w) < Count(col, v)
    {
      assert col[1..] == [v, a];
      assert col[2..] == [a];
      assert col[3..] == [];
    }
    UniqueModeIsChosen(col, v);
  }

  /** Outcome and violation are voted on separately, so the predicted pair
      need not occur together in any one row: with violations v, v, a, b and
      outcomes c, d, o, o over four matching rows, the prediction is (v, o)
      though no row has both. */
  lemma PredictedPairNeedNotCoOccur(q: Request, v: string, a: string, b: string,
                                    o: string, c: string, d: string)
    requires IsValidRequest(q)
    requires v != a && v != b && a != b
    requires o != c && o != d && c != d
    ensures var key := KeyOf(q);
      var data := [Sample(key, v, c), Sample(key, v, d), Sample(key, a, o), Sample(key, b, o)];
      var p := Predict(data, q);
      && p == PredictionResult(v, o)
      && forall r :: r in data ==> !(r.violation == p.violation && r.stopOutcome == p.outcome)
  {
    var key := KeyOf(q);
    var data := [Sample(key, v, c), Sample(key, v, d), Sample(key, a, o), Sample(key, b, o)];
    assert Mode(Violations(data)) == v by {
      assert Violations(data) == [v, v, a, b] by {
        ColumnsOfFour(data[0], data[1], data[2], data[3]);
      }
      SingleMajority(Violations(data), v, a, b);
    }
    assert Mode(Outcomes(data)) == o by {
      assert Outcomes(data) == [c, d, o, o] by {
        ColumnsOfFour(data[0], data[1], data[2], data[3]);
      }
      SingleMajority(Outcomes(data), o, c, d);
    }
    PredictOnAllMatching(data, q);
  }

  /** The violation and outcome columns of four rows. */
  lemma ColumnsOfFour(r0: StopRecord, r1: StopRecord, r2: StopRecord, r3: StopRecord)
    ensures Violations([r0, r1, r2, r3]) == [r0.violation, r1.violation, r2.violation, r3.violation]
    ensures Outcomes([r0, r1, r2, r3]) == [r0.stopOutcome, r1.stopOutcome, r2.stopOutcome, r3.stopOutcome]
  {
  }

  /** When every row matches the request, the vote runs over the whole
      data. */
  lemma PredictOnAllMatching(data: seq<StopRecord>, q: Request)
    requires IsValidRequest(q) && |data| > 0
    requires forall i :: 0 <= i < |data| ==> Matches(data[i], KeyOf(q))
    ensures Predict(data, q) == PredictionResult(Mode(Violations(data)), Mode(Outcomes(data)))
  {
    FilterKeepsAllWhenAllMatch(data, KeyOf(q));
  }

  /** In a column holding `v` twice and two other distinct values once each, `v` is strictly the most frequent value and so the mode. */
  lemma SingleMajority(col: seq<string>, v: string, a: string, b: string)
    requires col == [v, v, a, b] || col == [a, b, v, v]
    requires v != a && v != b && a != b
    ensures |col| > 0 && Mode(col) == v
  {
    assert multiset(col) == multiset([v, v, a, b]);
    forall w
      ensures Count(col, w) == multiset([v, v, a, b])[w]
    {
      CountIsMultiplicity(col, w);
    }
    UniqueModeIsChosen(col, v);
  }
}
