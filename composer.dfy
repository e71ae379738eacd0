/** The two-stage change finder of zabbix_anomaly.go: the `ChangeFinder` struct with its
    `Update` method, its constructor `NewChangePoint`, and the `sum` helper. Each `Update`
    is proved to take the finder from one state of the reference model in FinderModel to
    the next, so the stream lemmas there describe every finder built here. */
module Composer {
  import opened Detectors
  import opened FinderModel

  /** `sum`: the left-to-right total of `values`. */
  method Sum(values: seq<real>) returns (total: real)
    ensures total == SumOf(values)
  {
    total := 0.0;
    for i := 0 to |values|
      invariant total == SumOf(values[..i])
    {
      assert values[..i + 1][..i] == values[..i];
      total := total + values[i];
    }
    assert values[..|values|] == values;
  }

  class ChangeFinder {
    const O: Detector
    const S: Detector
    const Smooth: int
    var Last: real
    var LastScore: real
    var Buffer: seq<real>
    /** Every value passed to `Update`, in call order. */
    ghost var Inputs: seq<real>

    function Cfg(): Config {
      Config(O.Spec(), S.Spec(), Smooth)
    }

    function State(): FinderModel.State
      reads this, O, S
    {
      FinderModel.State(Last, LastScore, Buffer, O.Log, S.Log)
    }

    /** The finder is where the reference model says the calls so far lead. */
    ghost predicate Valid()
      reads this, O, S
    {
      O != S && Smooth >= 1 && |Buffer| <= Smooth && State() == Run(Cfg(), Inputs)
    }

    /** `NewChangePoint(outlier_term, outlier_discount, score_term, score_discount, smooth_term)`:
        two fresh detectors from `library`, an empty buffer, and `Last`, `LastScore` at 0. */
    constructor NewChangePoint(library: Sdar, outlierTerm: int, outlierDiscount: real,
                               scoreTerm: int, scoreDiscount: real, smoothTerm: int)
      requires smoothTerm >= 1
      ensures Valid() && fresh(O) && fresh(S)
      ensures Cfg() == Config(DetectorSpec(library, outlierTerm, outlierDiscount),
                              DetectorSpec(library, scoreTerm, scoreDiscount), smoothTerm)
      ensures Inputs == [] && State() == Initial
    {
      O := new Detector(library, outlierTerm, outlierDiscount);
      S := new Detector(library, scoreTerm, scoreDiscount);
      Smooth := smoothTerm;
      Last, LastScore, Buffer := 0.0, 0.0, [];
      Inputs := [];
    }

    /** `(*ChangeFinder).Update(v)`: the repeat-value guard, or one pass through both stages. */
    method Update(v: real) returns (score: real)
      requires Valid()
      modifies this, O, S
      ensures Valid() && Inputs == old(Inputs) + [v]
      ensures State() == Step(Cfg(), old(State()), v)
      ensures Last == v && LastScore == score
      ensures Guarded(old(Last), old(LastScore), v) ==>
                score == old(LastScore) && Buffer == old(Buffer) && unchanged(O, S)
      ensures !Guarded(old(Last), old(LastScore), v) ==>
                O.Log == old(O.Log) + [v] && S.Log == old(S.Log) + [Mean(Buffer)] &&
                score == S.Spec().Score(S.Log)
      ensures |Buffer| <= Smooth
    {
      ghost var c, before := Cfg(), State();
      score := 0.0;
      if v == Last && LastScore < 3.0 {
        score := LastScore;
      } else {
        var r := O.Update(v);
        assert r == c.outlier.Score(before.oLog + [v]);
        Buffer := Buffer + [r];
        if |Buffer| > Smooth {
          Buffer := Buffer[1..];
        }
        assert Buffer == Push(before.buffer, r, Smooth);
        PushKeepsLast(before.buffer, r, Smooth);
        var total := Sum(Buffer);
        score := S.Update(total / |Buffer| as real);
        assert S.Log == before.sLog + [Mean(Buffer)];
      }
      Last := v;
      LastScore := score;
      assert State() == Step(c, before, v);
      RunAppend(c, Inputs, v);
      Inputs := Inputs + [v];
      score := LastScore;
    }
  }

  /** What every finder satisfies between calls: its outlier detector has been fed exactly
      the inputs the guard let through, its buffer holds that detector's last `Smooth`
      scores, and its change detector has been fed the window mean after each of them. */
  lemma FinderInvariants(cp: ChangeFinder)
    requires cp.Valid()
    ensures cp.O.Log == Passed(cp.Inputs, Fired(cp.Cfg(), cp.Inputs))
    ensures cp.Buffer == LastN(Outputs(cp.O.Spec(), cp.O.Log), cp.Smooth)
    ensures |cp.Buffer| <= cp.Smooth
    ensures cp.S.Log == ChangeInputs(cp.Cfg(), cp.O.Log)
    ensures cp.LastScore == if cp.S.Log == [] then 0.0 else cp.S.Spec().Score(cp.S.Log)
  {
    RunInvariants(cp.Cfg(), cp.Inputs);
    RunChangeLog(cp.Cfg(), cp.Inputs);
  }
}
