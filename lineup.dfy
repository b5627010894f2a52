/**
 * `lineup`: one retrieval task. The true identity is put first in a lineup,
 * followed by identities drawn at random from the rest of the face registry;
 * every candidate's face is scored against the reconstruction, and the task
 * reports which lineup position scored lowest.
 *
 * The random draw of `np.random.choice` is the input `others`, and the
 * Frechet distance `fid` is a caller-supplied function on faces.
 */
module Lineups {
  import opened Wrappers

  datatype LineupError =
    | PoolTooSmall        // the lineup is longer than the registry: the assertion fails
    | UnknownIdentity     // removing the true identity from the keys fails: it is no key
    | NegativeSampleSize  // the sample of lineup length less one impostors has a negative size

  /** What `lineup` returns: one more than the first index of the ascending order, and the true face's error. */
  datatype Outcome = Outcome(rank: int, trueDistance: real)

  /** The error `lineup` raises before any distance is computed, checks taken in program order. */
  function LineupFailure<F>(realId: int, faceDict: map<int, F>, lineupLength: int)
    : (e: Option<LineupError>)
    ensures e.None? <==> 1 <= lineupLength <= |faceDict| && realId in faceDict
  {
    if lineupLength > |faceDict| then Some(PoolTooSmall)
    else if realId !in faceDict then Some(UnknownIdentity)
    else if lineupLength - 1 < 0 then Some(NegativeSampleSize)
    else None
  }

  predicate Distinct(s: seq<int>)
  {
    forall i, j :: 0 <= i < j < |s| ==> s[i] != s[j]
  }

  /** What `np.random.choice(pool, size=k, replace=False)` returns: `k` distinct members of `pool`. */
  predicate IsSample(others: seq<int>, pool: set<int>, k: int)
  {
    |others| == k && Distinct(others) && forall i :: 0 <= i < |others| ==> others[i] in pool
  }

  /**
   * `others` is the `np.random.choice` draw `lineup` makes whenever it gets that far:
   * a sample without replacement of the identities other than `realId`.
   */
  predicate SampleDrawn<F>(realId: int, faceDict: map<int, F>, lineupLength: int, others: seq<int>)
  {
    LineupFailure(realId, faceDict, lineupLength).None? ==>
      IsSample(others, faceDict.Keys - {realId}, lineupLength - 1)
  }

  /**
   * The lineup, the true identity followed by the sample, has the requested length, starts with
   * the true identity and holds distinct registered identities, the others
   * all different from the true one.
   */
  lemma LineupWellFormed<F>(realId: int, faceDict: map<int, F>, lineupLength: int, others: seq<int>)
    requires LineupFailure(realId, faceDict, lineupLength).None?
    requires SampleDrawn(realId, faceDict, lineupLength, others)
    ensures var lineUp := [realId] + others;
            |lineUp| == lineupLength && lineUp[0] == realId && Distinct(lineUp) &&
            (forall i :: 0 <= i < |lineUp| ==> lineUp[i] in faceDict) &&
            (forall i :: 1 <= i < |lineUp| ==> lineUp[i] != realId)
  {
    var lineUp := [realId] + others;
    forall i, j | 0 <= i < j < |lineUp| ensures lineUp[i] != lineUp[j] {
      assert lineUp[j] == others[j - 1];
      if i > 0 {
        assert lineUp[i] == others[i - 1];
      }
    }
  }

  /** The distance of the reconstruction to the face of each lineup position. */
  function Distances<F>(faceReconstr: F, lineUp: seq<int>, faceDict: map<int, F>, fid: (F, F) -> real)
    : (d: seq<real>)
    requires forall i :: 0 <= i < |lineUp| ==> lineUp[i] in faceDict
    ensures |d| == |lineUp|
  {
    seq(|lineUp|, i requires 0 <= i < |lineUp| => fid(faceReconstr, faceDict[lineUp[i]]))
  }

  /**
   * The errors array of a lineup that gets past its checks: entry 0 is the
   * true face's distance, entry j + 1 that of the j-th sampled impostor.
   */
  function LineupDistances<F>(faceReconstr: F, realId: int, faceDict: map<int, F>,
                              lineupLength: int, others: seq<int>, fid: (F, F) -> real)
    : (d: seq<real>)
    requires LineupFailure(realId, faceDict, lineupLength).None?
    requires SampleDrawn(realId, faceDict, lineupLength, others)
    ensures |d| == lineupLength
    ensures d[0] == fid(faceReconstr, faceDict[realId])
    ensures forall j :: 0 <= j < |others| ==> d[j + 1] == fid(faceReconstr, faceDict[others[j]])
  {
    LineupWellFormed(realId, faceDict, lineupLength, others);
    Distances(faceReconstr, [realId] + others, faceDict, fid)
  }

  /** Position `k` has the smallest error: what the first index of an ascending argsort may be. */
  predicate IsNearest(errors: seq<real>, k: int)
  {
    0 <= k < |errors| && forall j :: 0 <= j < |errors| ==> errors[k] <= errors[j]
  }

  /** A non-empty list of errors has a position of smallest error. */
  lemma {:induction false} NearestExists(errors: seq<real>)
    requires |errors| > 0
    ensures exists k :: IsNearest(errors, k)
  {
    if |errors| > 1 {
      var init := errors[..|errors| - 1];
      NearestExists(init);
      var k :| IsNearest(init, k);
      if errors[|errors| - 1] < errors[k] {
        assert IsNearest(errors, |errors| - 1);
      } else {
        assert IsNearest(errors, k);
      }
    } else {
      assert IsNearest(errors, 0);
    }
  }

  /**
   * `rank` is a rank `lineup` may return for a lineup that passes its checks:
   * one more than a position of smallest error.
   */
  ghost predicate IsLineupRank<F>(rank: int, faceReconstr: F, realId: int, faceDict: map<int, F>,
                                  lineupLength: int, others: seq<int>, fid: (F, F) -> real)
  {
    LineupFailure(realId, faceDict, lineupLength).None? &&
    SampleDrawn(realId, faceDict, lineupLength, others) &&
    1 <= rank <= lineupLength &&
    IsNearest(LineupDistances(faceReconstr, realId, faceDict, lineupLength, others, fid), rank - 1)
  }

  /** When the true face (position 0) is strictly nearest, it is the only nearest position. */
  lemma StrictlyNearestWins(errors: seq<real>, k: int)
    requires IsNearest(errors, k)
    ensures (forall j :: 1 <= j < |errors| ==> errors[0] < errors[j]) ==> k == 0
  {
    assert errors[k] <= errors[0];
  }

  /** The errors array, filled with one `fid` per lineup position. */
  method ComputeErrors<F>(faceReconstr: F, lineUp: seq<int>, faceDict: map<int, F>,
                          fid: (F, F) -> real)
    returns (errors: array<real>)
    requires forall i :: 0 <= i < |lineUp| ==> lineUp[i] in faceDict
    ensures fresh(errors)
    ensures errors[..] == Distances(faceReconstr, lineUp, faceDict, fid)
  {
    errors := new real[|lineUp|];
    for i := 0 to |lineUp|
      invariant forall j :: 0 <= j < i ==> errors[j] == fid(faceReconstr, faceDict[lineUp[j]])
    {
      errors[i] := fid(faceReconstr, faceDict[lineUp[i]]);
    }
  }

  /**
   * `lineup`: the rank is one more than a lineup position whose face is
   * nearest the reconstruction, so rank 1 means the true face won (and it
   * must win when it is strictly nearest); any other rank names the impostor
   * that won. The distance returned is the true face's, not the winner's.
   */
  method Lineup<F>(faceReconstr: F, realId: int, faceDict: map<int, F>, lineupLength: int,
                   others: seq<int>, fid: (F, F) -> real)
    returns (r: Result<Outcome, LineupError>)
    requires SampleDrawn(realId, faceDict, lineupLength, others)
    ensures r.Err? <==> LineupFailure(realId, faceDict, lineupLength).Some?
    ensures r.Err? ==> LineupFailure(realId, faceDict, lineupLength) == Some(r.error)
    ensures r.Ok? ==> 1 <= r.value.rank <= lineupLength
    ensures r.Ok? ==>
              var errors := LineupDistances(faceReconstr, realId, faceDict, lineupLength, others, fid);
              IsNearest(errors, r.value.rank - 1) &&
              r.value.trueDistance == errors[0] == fid(faceReconstr, faceDict[realId]) &&
              ((forall j :: 1 <= j < lineupLength ==> errors[0] < errors[j]) ==> r.value.rank == 1)
  {
    if lineupLength > |faceDict| {
      return Err(PoolTooSmall);
    }
    if realId !in faceDict {
      return Err(UnknownIdentity);
    }
    ghost var otherIds := faceDict.Keys - {realId};
    if lineupLength - 1 < 0 {
      return Err(NegativeSampleSize);
    }
    assert IsSample(others, otherIds, lineupLength - 1);
    var lineUp := [realId] + others;
    LineupWellFormed(realId, faceDict, lineupLength, others);
    var errors := ComputeErrors(faceReconstr, lineUp, faceDict, fid);
    ghost var expected := LineupDistances(faceReconstr, realId, faceDict, lineupLength, others, fid);
    assert errors[..] == expected;

    // np.argsort is not stable: the first entry of its order is some
    // position of smallest error, not necessarily the first one.
    NearestExists(errors[..]);
    var first :| 0 <= first < lineupLength && IsNearest(errors[..], first);
    StrictlyNearestWins(expected, first);
    r := Ok(Outcome(first + 1, errors[0]));
  }
}
