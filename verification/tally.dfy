/**
 Frequency counting over a column of values, and the "most frequent value"
 of a non-empty column. This is the part of the dashboard's majority vote
 that the data-frame library supplies (`mode()[0]`).
 */
module Tally {

  /** Number of occurrences of `v` in `s`. */
  function Count<T(==,!new)>(s: seq<T>, v: T): (n: nat)
    ensures n <= |s|
  {
    if |s| == 0 then 0
    else (if s[0] == v then 1 else 0) + Count(s[1..], v)
  }

  /** `m` is a most frequent value of `s`: it occurs in `s`, and no value
      occurs in `s` more often than it does. */
  ghost predicate IsModeOf<T(!new)>(s: seq<T>, m: T) {
    && m in s
    && forall v :: Count(s, v) <= Count(s, m)
  }

  /** The count of a value is its multiplicity in the multiset of `s`. */
  lemma {:induction false} CountIsMultiplicity<T(!new)>(s: seq<T>, v: T)
    ensures Count(s, v) == multiset(s)[v]
  {
    if |s| == 0 {
    } else {
      CountIsMultiplicity(s[1..], v);
      assert s == [s[0]] + s[1..];
      assert multiset(s) == multiset([s[0]]) + multiset(s[1..]);
    }
  }

  /** A value is counted at least once exactly when it occurs. */
  lemma {:induction false} CountPositiveIffMember<T(!new)>(s: seq<T>, v: T)
    ensures Count(s, v) > 0 <==> v in s
  {
    if |s| == 0 {
    } else {
      CountPositiveIffMember(s[1..], v);
      assert s == [s[0]] + s[1..];
    }
  }

  /** Scans `candidates`, keeping whichever value seen so far has the
      largest count in `s`; an earlier value wins a tie. */
  function BestOf<T(==,!new)>(s: seq<T>, candidates: seq<T>, best: T): (m: T)
    ensures m == best || m in candidates
    ensures Count(s, best) <= Count(s, m)
    ensures forall k :: 0 <= k < |candidates| ==> Count(s, candidates[k]) <= Count(s, m)
    decreases |candidates|
  {
    if |candidates| == 0 then best
    else
      var next := if Count(s, candidates[0]) > Count(s, best) then candidates[0] else best;
      BestOf(s, candidates[1..], next)
  }

  /** A most frequent value of a non-empty column. */
  function Mode<T(==,!new)>(s: seq<T>): (m: T)
    requires |s| > 0
    ensures m in s
    ensures forall v :: Count(s, v) <= Count(s, m)
  {
    var m := BestOf(s, s[1..], s[0]);
    assert forall v :: Count(s, v) <= Count(s, m) by {
      forall v
        ensures Count(s, v) <= Count(s, m)
      {
        CountPositiveIffMember(s, v);
        if v in s {
          var i :| 0 <= i < |s| && s[i] == v;
          if i > 0 {
            assert s[1..][i - 1] == v;
          }
        }
      }
    }
    m
  }

  /** When one value occurs strictly more often than every other value,
      that value is the mode. */
  lemma UniqueModeIsChosen<T(!new)>(s: seq<T>, v: T)
    requires |s| > 0
    requires forall w :: w != v ==> Count(s, w) < Count(s, v)
    ensures Mode(s) == v
  {
  }
}
