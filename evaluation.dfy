/**
 * `evaluate_model`: runs one lineup task per evaluated identity, in order,
 * collecting the ranks, and summarises them as the top-n accuracy curve.
 * The trained model's `predict` is a caller-supplied function from identity to
 * reconstructed face; `samples[i]` is the random draw of the i-th lineup.
 */
module Evaluation {
  import opened Wrappers
  import opened TopN
  import opened Lineups

  /** The ranks written to `ranks.csv` and the curve `evaluate_model` returns. */
  datatype Evaluation = Evaluation(ranks: seq<int>, topNAccuracy: seq<real>)

  /**
   * Each `ranks[i]` is a rank `lineup` may return for the i-th evaluated
   * identity (there may be fewer ranks than identities while the run is going).
   */
  ghost predicate RanksFromLineups<F>(ranks: seq<int>, predict: int -> F, evaluateIds: seq<int>,
                                      faceDict: map<int, F>, lineupLength: int,
                                      samples: seq<seq<int>>, fid: (F, F) -> real)
  {
    |ranks| <= |evaluateIds| && |ranks| <= |samples| &&
    forall i :: 0 <= i < |ranks| ==>
      IsLineupRank(ranks[i], predict(evaluateIds[i]), evaluateIds[i], faceDict, lineupLength,
                   samples[i], fid)
  }

  /** The first identity whose lineup fails its checks fails with `e`. */
  predicate FirstLineupFailure<F>(evaluateIds: seq<int>, faceDict: map<int, F>, lineupLength: int,
                            e: LineupError)
  {
    exists i :: 0 <= i < |evaluateIds| &&
      LineupFailure(evaluateIds[i], faceDict, lineupLength) == Some(e) &&
      forall j :: 0 <= j < i ==> LineupFailure(evaluateIds[j], faceDict, lineupLength).None?
  }

  /**
   * The loop of `evaluate_model`: one prediction and one lineup per identity,
   * in order, appending each rank; the first lineup that fails aborts the run.
   */
  method RankAll<F>(predict: int -> F, evaluateIds: seq<int>, faceDict: map<int, F>,
                    lineupLength: int, samples: seq<seq<int>>, fid: (F, F) -> real)
    returns (r: Result<seq<int>, LineupError>)
    requires |samples| == |evaluateIds|
    requires forall i :: 0 <= i < |evaluateIds| ==>
               SampleDrawn(evaluateIds[i], faceDict, lineupLength, samples[i])
    ensures r.Err? <==>
              exists i :: 0 <= i < |evaluateIds| &&
                LineupFailure(evaluateIds[i], faceDict, lineupLength).Some?
    ensures r.Err? ==> FirstLineupFailure(evaluateIds, faceDict, lineupLength, r.error)
    ensures r.Ok? ==> |r.value| == |evaluateIds|
    ensures r.Ok? ==> RanksFromLineups(r.value, predict, evaluateIds, faceDict, lineupLength, samples, fid)
  {
    var ranks := [];
    for i := 0 to |evaluateIds|
      invariant |ranks| == i
      invariant RanksFromLineups(ranks, predict, evaluateIds, faceDict, lineupLength, samples, fid)
    {
      var faceReconstr := predict(evaluateIds[i]);
      var outcome := Lineup(faceReconstr, evaluateIds[i], faceDict, lineupLength, samples[i], fid);
      if outcome.Err? {
        return Err(outcome.error);
      }
      ranks := ranks + [outcome.value.rank];
    }
    r := Ok(ranks);
  }

  /**
   * `evaluate_model`: the first lineup that fails aborts the whole run with
   * its error; otherwise there is one rank per identity, in input order, each
   * a rank its lineup may return, and the curve is `top_n_accuracy` of them.
   * Once the curve reaches the lineup length, it has reached 1 there.
   */
  method EvaluateModel<F>(predict: int -> F, evaluateIds: seq<int>, faceDict: map<int, F>,
                          lineupLength: int, topN: int, samples: seq<seq<int>>,
                          fid: (F, F) -> real)
    returns (r: Result<Evaluation, LineupError>)
    requires |samples| == |evaluateIds|
    requires forall i :: 0 <= i < |evaluateIds| ==>
               SampleDrawn(evaluateIds[i], faceDict, lineupLength, samples[i])
    ensures r.Err? <==>
              exists i :: 0 <= i < |evaluateIds| &&
                LineupFailure(evaluateIds[i], faceDict, lineupLength).Some?
    ensures r.Err? ==> FirstLineupFailure(evaluateIds, faceDict, lineupLength, r.error)
    ensures r.Ok? ==> |r.value.ranks| == |evaluateIds|
    ensures r.Ok? ==>
              RanksFromLineups(r.value.ranks, predict, evaluateIds, faceDict, lineupLength, samples, fid)
    ensures r.Ok? ==> r.value.topNAccuracy == Curve(r.value.ranks, topN)
    ensures r.Ok? && 1 <= lineupLength <= |r.value.topNAccuracy| ==>
              r.value.topNAccuracy[lineupLength - 1] == 1.0
  {
    var ranked := RankAll(predict, evaluateIds, faceDict, lineupLength, samples, fid);
    if ranked.Err? {
      return Err(ranked.error);
    }
    var ranks := ranked.value;
    var topNAcc := TopNAccuracy(ranks, topN);
    if 1 <= lineupLength <= |topNAcc| {
      forall k | k in ranks ensures k <= lineupLength {
        var i :| 0 <= i < |ranks| && ranks[i] == k;
        assert IsLineupRank(ranks[i], predict(evaluateIds[i]), evaluateIds[i], faceDict, lineupLength,
                            samples[i], fid);
      }
      CurveReachesOne(ranks, topN, lineupLength);
    }
    r := Ok(Evaluation(ranks, topNAcc));
  }
}
