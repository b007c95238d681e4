/**
 The historical traffic-stop records loaded from the `ledger` table, the
 prediction form's submitted values, and the exact-match filter that keeps
 the historical rows resembling the submitted stop.
 */
module Ledger {

  /** One row of the `ledger` table. Dates, times and free text are kept as
      opaque strings; the three flags (search conducted, drug-related stop,
      arrested) are the 0/1 integers the table stores. */
  datatype StopRecord = StopRecord(
    stopDate: string,
    stopTime: string,
    countryName: string,
    driverGender: string,
    driverAge: int,
    driverRace: string,
    searchConducted: int,
    searchType: string,
    drugsRelatedStop: int,
    stopDuration: string,
    vehicleNumber: string,
    violation: string,
    stopOutcome: string,
    isArrested: int)

  /** The form's submitted values that take part in the match. The two flags
      are the selected option texts "0" and "1", exactly as the form's select
      boxes return them. */
  datatype Request = Request(
    driverGender: string,
    driverAge: int,
    searchConducted: string,
    stopDuration: string,
    drugsRelatedStop: string)

  /** The options of the form's two yes/no select boxes. */
  predicate IsFlagChoice(choice: string) {
    choice == "0" || choice == "1"
  }

  /** The text of a 0/1 flag, as the select box spells it. */
  function FlagText(flag: int): (choice: string)
    requires 0 <= flag <= 1
    ensures IsFlagChoice(choice)
  {
    if flag == 1 then "1" else "0"
  }

  /** Integer conversion of a select-box option; it is undone by `FlagText`. */
  function FlagInt(choice: string): (flag: int)
    requires IsFlagChoice(choice)
    ensures 0 <= flag <= 1
    ensures FlagText(flag) == choice
  {
    if choice == "1" then 1 else 0
  }

  /** The two flags of a request are options the form offers. */
  predicate IsValidRequest(q: Request) {
    IsFlagChoice(q.searchConducted) && IsFlagChoice(q.drugsRelatedStop)
  }

  /** The values a historical row must carry to survive the filter. */
  datatype MatchKey = MatchKey(
    driverGender: string,
    driverAge: int,
    searchConducted: int,
    stopDuration: string,
    drugsRelatedStop: int)

  /** The match key of a request: the two flags pass through integer
      conversion, the other values are taken as submitted. */
  function KeyOf(q: Request): (key: MatchKey)
    requires IsValidRequest(q)
    ensures 0 <= key.searchConducted <= 1 && FlagText(key.searchConducted) == q.searchConducted
    ensures 0 <= key.drugsRelatedStop <= 1 && FlagText(key.drugsRelatedStop) == q.drugsRelatedStop
    ensures key.driverGender == q.driverGender && key.driverAge == q.driverAge
    ensures key.stopDuration == q.stopDuration
  {
    MatchKey(q.driverGender, q.driverAge, FlagInt(q.searchConducted),
             q.stopDuration, FlagInt(q.drugsRelatedStop))
  }

  /** The five compared columns of a row, read as a match key. */
  function RowKey(r: StopRecord): MatchKey {
    MatchKey(r.driverGender, r.driverAge, r.searchConducted, r.stopDuration, r.drugsRelatedStop)
  }

  /** All five compared columns of `r` equal the key: the row's own key is
      the given one. */
  function Matches(r: StopRecord, key: MatchKey): (b: bool)
    ensures b <==> RowKey(r) == key
  {
    && r.driverGender == key.driverGender
    && r.driverAge == key.driverAge
    && r.searchConducted == key.searchConducted
    && r.stopDuration == key.stopDuration
    && r.drugsRelatedStop == key.drugsRelatedStop
  }

  /** The rows of `data` that match `key`, in their original order. The
      recursion peels off the last row rather than the first, so every row
      keeps its position in the shorter data; `MatchingIndices` and
      `FilterIsMatchingSubsequence` rely on that. */
  function Filter(data: seq<StopRecord>, key: MatchKey): (rows: seq<StopRecord>)
    ensures |rows| <= |data|
    ensures forall r :: r in rows <==> r in data && Matches(r, key)
  {
    if |data| == 0 then []
    else
      var last := data[|data| - 1];
      assert data == data[..|data| - 1] + [last];
      Filter(data[..|data| - 1], key) + (if Matches(last, key) then [last] else [])
  }

  /** The positions in `data` of the rows matching `key`, in increasing order. */
  function MatchingIndices(data: seq<StopRecord>, key: MatchKey): (idx: seq<int>)
    ensures forall k :: 0 <= k < |idx| ==> 0 <= idx[k] < |data|
    ensures forall k, l :: 0 <= k < l < |idx| ==> idx[k] < idx[l]
    ensures forall i :: 0 <= i < |data| ==> (i in idx <==> Matches(data[i], key))
  {
    if |data| == 0 then []
    else
      var n := |data| - 1;
      var pidx := MatchingIndices(data[..n], key);
      assert forall i :: 0 <= i < n ==> data[..n][i] == data[i];
      pidx + (if Matches(data[n], key) then [n] else [])
  }

  /** `a` is `b` with some rows left out: `idx` picks, in strictly increasing
      order, the position in `b` of each row of `a`. */
  ghost predicate IsSubsequenceVia<T>(a: seq<T>, b: seq<T>, idx: seq<int>) {
    && |idx| == |a|
    && (forall k :: 0 <= k < |idx| ==> 0 <= idx[k] < |b| && a[k] == b[idx[k]])
    && (forall k, l :: 0 <= k < l < |idx| ==> idx[k] < idx[l])
  }

  /** The filtered rows are exactly the rows at the matching positions, each
      unchanged and in the order the data holds them: no row is added,
      altered, duplicated or reordered. */
  lemma {:induction false} FilterIsMatchingSubsequence(data: seq<StopRecord>, key: MatchKey)
    ensures IsSubsequenceVia(Filter(data, key), data, MatchingIndices(data, key))
  {
    if |data| > 0 {
      var n := |data| - 1;
      var prefix := data[..n];
      FilterIsMatchingSubsequence(prefix, key);
      var rows, prows := Filter(data, key), Filter(prefix, key);
      var idx, pidx := MatchingIndices(data, key), MatchingIndices(prefix, key);
      assert rows == prows + (if Matches(data[n], key) then [data[n]] else []);
      assert idx == pidx + (if Matches(data[n], key) then [n] else []);
      forall k | 0 <= k < |idx|
        ensures rows[k] == data[idx[k]]
      {
        if k < |pidx| {
          assert rows[k] == prows[k] == prefix[pidx[k]];
        }
      }
    }
  }

  /** A row survives the filter for a request exactly when its gender, age
      and stop duration equal the submitted ones and its two flags equal the
      integer conversions of the submitted options. */
  lemma SurvivesIff(data: seq<StopRecord>, q: Request, r: StopRecord)
    requires IsValidRequest(q)
    ensures r in Filter(data, KeyOf(q)) <==>
      && r in data
      && r.driverGender == q.driverGender
      && r.driverAge == q.driverAge
      && r.searchConducted == (if q.searchConducted == "1" then 1 else 0)
      && r.stopDuration == q.stopDuration
      && r.drugsRelatedStop == (if q.drugsRelatedStop == "1" then 1 else 0)
  {
  }

  /** Each row occurs in the filtered rows as often as it occurs in the data
      if it matches, and not at all otherwise. */
  lemma {:induction false} FilterKeepsMultiplicity(data: seq<StopRecord>, key: MatchKey, r: StopRecord)
    ensures multiset(Filter(data, key))[r] == if Matches(r, key) then multiset(data)[r] else 0
  {
    if |data| == 0 {
    } else {
      var n := |data| - 1;
      FilterKeepsMultiplicity(data[..n], key, r);
      assert data == data[..n] + [data[n]];
    }
  }

  /** When every row matches, the filter returns the data unchanged. */
  lemma {:induction false} FilterKeepsAllWhenAllMatch(data: seq<StopRecord>, key: MatchKey)
    requires forall i :: 0 <= i < |data| ==> Matches(data[i], key)
    ensures Filter(data, key) == data
  {
    if |data| > 0 {
      var n := |data| - 1;
      var prefix, last := data[..n], data[n];
      assert data == prefix + [last];
      assert forall i :: 0 <= i < n ==> Matches(prefix[i], key) by {
        forall i | 0 <= i < n ensures Matches(prefix[i], key) {
          assert prefix[i] == data[i];
        }
      }
      FilterKeepsAllWhenAllMatch(prefix, key);
      assert Matches(last, key);
      FilterSnoc(prefix, last, key);
    }
  }

  /** Filtering a row appended to the data appends it to the filtered rows
      when it matches, and changes nothing otherwise. */
  lemma FilterSnoc(data: seq<StopRecord>, r: StopRecord, key: MatchKey)
    ensures Filter(data + [r], key) == Filter(data, key) + (if Matches(r, key) then [r] else [])
  {
    assert (data + [r])[..|data|] == data;
  }

  /** Filtering four rows, spelled out. */
  lemma FilterOfFour(r0: StopRecord, r1: StopRecord, r2: StopRecord, r3: StopRecord, key: MatchKey)
    ensures Filter([r0, r1, r2, r3], key) ==
      (if Matches(r0, key) then [r0] else []) + (if Matches(r1, key) then [r1] else []) +
      (if Matches(r2, key) then [r2] else []) + (if Matches(r3, key) then [r3] else [])
  {
    FilterSnoc([], r0, key);
    assert [] + [r0] == [r0];
    FilterSnoc([r0], r1, key);
    assert [r0] + [r1] == [r0, r1];
    FilterSnoc([r0, r1], r2, key);
    assert [r0, r1] + [r2] == [r0, r1, r2];
    FilterSnoc([r0, r1, r2], r3, key);
    assert [r0, r1, r2] + [r3] == [r0, r1, r2, r3];
  }
}
