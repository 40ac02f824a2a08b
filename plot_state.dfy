/** The plot settings record both scatter plots share, the annotation label record,
    and the score auto-scaling rule that both plots apply when the data changes. */
module PlotSettings {
  import opened Common

  /** A cluster annotation placed at data coordinates; `name` is its `label` text.
      The drag bookkeeping fields (`isDragging`, offsets, original position) are not
      part of this model. */
  datatype LabelPoint = LabelPoint(x: real, y: real, name: string, color: Option<string>)

  datatype PlotState = PlotState(
    minScore: real,
    maxScore: real,
    autoMinScore: bool,
    autoMaxScore: bool,
    minColor: string,
    maxColor: string,
    pointSize: real,
    transformX: real,
    transformY: real,
    toggleLabels: bool,
    toggleGridlines: bool)

  /** The score column of the data. */
  function Scores(data: seq<DataPoint>): (r: seq<real>)
    ensures |r| == |data|
    ensures forall i :: 0 <= i < |data| ==> r[i] == data[i].score
  {
    seq(|data|, i requires 0 <= i < |data| => data[i].score)
  }

  /** The extremes coincide exactly when every element is the same. */
  lemma ExtentEqual(s: seq<real>)
    requires s != []
    ensures SeqMin(s) == SeqMax(s) <==> forall i :: 0 <= i < |s| ==> s[i] == s[0]
  {
    if SeqMin(s) == SeqMax(s) {
      forall i | 0 <= i < |s| ensures s[i] == s[0] {
        assert SeqMin(s) <= s[i] <= SeqMax(s);
        assert SeqMin(s) <= s[0] <= SeqMax(s);
      }
    }
  }

  /** Every score in the data is the score of the first point. */
  predicate UniformScores(data: seq<DataPoint>) {
    forall i :: 0 <= i < |data| ==> data[i].score == data[0].score
  }

  /** A new `[minScore, maxScore]` pair. */
  datatype ScoreRange = ScoreRange(minScore: real, maxScore: real)

  /** The auto-scaled score range for the data. Without either auto flag the range is
      kept. Expression data (flagged on its first point) of one repeated score `s` gets
      `[s - 0.1, s + 0.1]`. Data whose scores differ gets the data extremes where the
      flag is set and `0` / `10` where it is not. Anything else (no data, or
      non-expression data of one repeated score) gets `0` and `1` / `10`. */
  function AutoScale(st: PlotState, data: seq<DataPoint>): (r: ScoreRange)
    ensures !st.autoMinScore && !st.autoMaxScore ==> r == ScoreRange(st.minScore, st.maxScore)
    ensures (st.autoMinScore || st.autoMaxScore) && data != [] && data[0].hasExpressionData &&
            UniformScores(data) ==>
              r == ScoreRange(data[0].score - 0.1, data[0].score + 0.1)
    ensures (st.autoMinScore || st.autoMaxScore) && !UniformScores(data) ==>
              r == ScoreRange(if st.autoMinScore then SeqMin(Scores(data)) else 0.0,
                              if st.autoMaxScore then SeqMax(Scores(data)) else 10.0)
    ensures (st.autoMinScore || st.autoMaxScore) &&
            (data == [] || (!data[0].hasExpressionData && UniformScores(data))) ==>
              r == ScoreRange(0.0, if st.autoMaxScore then 1.0 else 10.0)
  {
    if !st.autoMinScore && !st.autoMaxScore then ScoreRange(st.minScore, st.maxScore)
    else if data == [] then ScoreRange(0.0, if st.autoMaxScore then 1.0 else 10.0)
    else
      var scores := Scores(data);
      var lo := SeqMin(scores);
      var hi := SeqMax(scores);
      ExtentEqual(scores);
      if data[0].hasExpressionData && lo == hi then ScoreRange(lo - 0.1, hi + 0.1)
      else if data[0].hasExpressionData || hi > lo then
        ScoreRange(if st.autoMinScore then lo else 0.0, if st.autoMaxScore then hi else 10.0)
      else ScoreRange(0.0, if st.autoMaxScore then 1.0 else 10.0)
  }

  /** The auto-scaling effect's computation: one pass over the data for the score
      extremes (an absent extreme stands for the initial `Infinity` / `-Infinity`),
      then the case analysis on expression data and a meaningful range. */
  method ComputeAutoScale(st: PlotState, data: seq<DataPoint>) returns (r: ScoreRange)
    ensures r == AutoScale(st, data)
  {
    r := ScoreRange(st.minScore, st.maxScore);
    if st.autoMinScore || st.autoMaxScore {
      var minScore: Option<real> := None;
      var maxScore: Option<real> := None;
      for i := 0 to |data|
        invariant minScore.None? <==> i == 0
        invariant maxScore.None? <==> i == 0
        invariant i > 0 ==> minScore.value == SeqMin(Scores(data)[..i])
        invariant i > 0 ==> maxScore.value == SeqMax(Scores(data)[..i])
      {
        assert Scores(data)[..i + 1][..i] == Scores(data)[..i];
        if minScore.None? || data[i].score < minScore.value {
          minScore := Some(data[i].score);
        }
        if maxScore.None? || data[i].score > maxScore.value {
          maxScore := Some(data[i].score);
        }
      }
      assert Scores(data)[..|data|] == Scores(data);
      var hasExpressionData := |data| > 0 && data[0].hasExpressionData;
      var hasMeaningfulData := minScore.Some? && maxScore.Some? && maxScore.value > minScore.value;
      if hasExpressionData {
        if minScore.value == maxScore.value {
          r := ScoreRange(minScore.value - 0.1, maxScore.value + 0.1);
        } else {
          r := ScoreRange(if st.autoMinScore then minScore.value else 0.0,
                          if st.autoMaxScore then maxScore.value else 10.0);
        }
      } else if hasMeaningfulData {
        r := ScoreRange(if st.autoMinScore then minScore.value else 0.0,
                        if st.autoMaxScore then maxScore.value else 10.0);
      } else {
        r := ScoreRange(0.0, if st.autoMaxScore then 1.0 else 10.0);
      }
    }
  }

  /** With a flag set the new range is ordered, except where exactly one flag is set
      and the data extreme it takes lies beyond the fixed default (`10` or `0`) it is
      paired with. */
  lemma AutoScaleOrdered(st: PlotState, data: seq<DataPoint>)
    requires st.autoMinScore || st.autoMaxScore
    ensures AutoScale(st, data).minScore <= AutoScale(st, data).maxScore ||
            (data != [] && st.autoMinScore && !st.autoMaxScore && SeqMin(Scores(data)) > 10.0) ||
            (data != [] && !st.autoMinScore && st.autoMaxScore && SeqMax(Scores(data)) < 0.0)
  {
    if data != [] {
      ExtentEqual(Scores(data));
    }
  }
}
