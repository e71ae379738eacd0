/** A value-level reference model of the change finder of zabbix_anomaly.go: its state,
    one `Update` step as a function, and the state reached after a whole stream of calls.
    The class in module Composer is proved to follow this model step by step; the lemmas
    here say what the model does over a stream. */
module FinderModel {
  import opened Detectors

  /** A score at or above this value is always re-evaluated, even for a repeated input. */
  const Threshold: real := 3.0

  /** What a finder is built with: the outlier stage, the change stage and the smoothing window. */
  datatype Config = Config(outlier: DetectorSpec, change: DetectorSpec, smooth: int)

  /** The finder's fields, together with the input logs of its two detectors. */
  datatype State = State(last: real, lastScore: real, buffer: seq<real>, oLog: seq<real>, sLog: seq<real>)

  /** A fresh finder: Go zero values, both detectors unfed. */
  const Initial: State := State(0.0, 0.0, [], [], [])

  // ---------------------------------------------------------------- sums and means

  /** The left-to-right total of `s`, 0 for the empty sequence. */
  function SumOf(s: seq<real>): real {
    if s == [] then 0.0 else SumOf(s[..|s| - 1]) + s[|s| - 1]
  }

  function Mean(s: seq<real>): real
    requires s != []
  {
    SumOf(s) / |s| as real
  }

  /** Summing from the right gives the same total: the order of accumulation does not matter. */
  lemma {:induction false} SumOfCons(s: seq<real>)
    requires s != []
    ensures SumOf(s) == s[0] + SumOf(s[1..])
  {
    if |s| > 1 {
      var init := s[..|s| - 1];
      SumOfCons(init);
      assert init[1..] == s[1..][..|s[1..]| - 1];
    } else {
      assert s[1..] == [];
      assert s[..0] == [];
    }
  }

  /** Every element in [lo, hi] bounds the total by |s|*lo and |s|*hi. */
  lemma {:induction false} SumOfBounds(s: seq<real>, lo: real, hi: real)
    requires forall i :: 0 <= i < |s| ==> lo <= s[i] <= hi
    ensures |s| as real * lo <= SumOf(s) <= |s| as real * hi
  {
    if s != [] {
      SumOfBounds(s[..|s| - 1], lo, hi);
    }
  }

  /** The mean lies between the smallest and the largest element. */
  lemma MeanBounds(s: seq<real>, lo: real, hi: real)
    requires s != []
    requires forall i :: 0 <= i < |s| ==> lo <= s[i] <= hi
    ensures lo <= Mean(s) <= hi
  {
    SumOfBounds(s, lo, hi);
    var n := |s| as real;
    assert n * lo / n <= SumOf(s) / n <= n * hi / n;
    assert n * lo / n == lo && n * hi / n == hi;
  }

  // ---------------------------------------------------------------- the smoothing buffer

  /** The most recent `n` elements of `xs` (all of them when there are fewer). */
  function LastN(xs: seq<real>, n: int): (r: seq<real>)
    requires n >= 0
    ensures |r| == if |xs| <= n then |xs| else n
  {
    if |xs| <= n then xs else xs[|xs| - n..]
  }

  /** One buffer update: append, then drop the oldest element once if over `smooth`. */
  function Push(buffer: seq<real>, r: real, smooth: int): (b': seq<real>)
    requires smooth >= 1
    ensures b' != []
  {
    var b := buffer + [r];
    if |b| > smooth then b[1..] else b
  }

  /** On a buffer within its bound, a push keeps exactly the last min(|buffer|+1, smooth)
      elements of buffer + [r], so the bound holds again and the buffer is never empty. */
  lemma PushKeepsLast(buffer: seq<real>, r: real, smooth: int)
    requires smooth >= 1 && |buffer| <= smooth
    ensures Push(buffer, r, smooth) == LastN(buffer + [r], smooth)
    ensures 1 <= |Push(buffer, r, smooth)| <= smooth
  {
  }

  /** Pushing onto the window of a stream gives the window of the longer stream. */
  lemma PushLastN(xs: seq<real>, r: real, smooth: int)
    requires smooth >= 1
    ensures Push(LastN(xs, smooth), r, smooth) == LastN(xs + [r], smooth)
  {
  }

  /** The element at position k of the window is the element of `xs` that far from the
      window's start: the oldest are evicted first and order is kept. */
  lemma LastNAt(xs: seq<real>, n: int, k: int)
    requires n >= 0 && 0 <= k < |LastN(xs, n)|
    ensures LastN(xs, n)[k] == xs[|xs| - |LastN(xs, n)| + k]
  {
  }

  // ---------------------------------------------------------------- the two stages

  /** The scores a detector returns, one per input, when fed `xs` in order. */
  function Outputs(d: DetectorSpec, xs: seq<real>): (r: seq<real>)
    ensures |r| == |xs|
  {
    if xs == [] then [] else Outputs(d, xs[..|xs| - 1]) + [d.Score(xs)]
  }

  /** The j-th score is the one returned after the first j+1 inputs. */
  lemma {:induction false} OutputsAt(d: DetectorSpec, xs: seq<real>, j: int)
    requires 0 <= j < |xs|
    ensures Outputs(d, xs)[j] == d.Score(xs[..j + 1])
  {
    if j < |xs| - 1 {
      var init := xs[..|xs| - 1];
      OutputsAt(d, init, j);
      assert init[..j + 1] == xs[..j + 1];
    } else {
      assert xs[..j + 1] == xs;
    }
  }

  /** The value the change stage is fed once the outlier stage has seen `xs`: the mean of
      the last `smooth` outlier scores. */
  function WindowMean(c: Config, xs: seq<real>): real
    requires c.smooth >= 1 && xs != []
  {
    Mean(LastN(Outputs(c.outlier, xs), c.smooth))
  }

  /** Everything the change stage is fed while the outlier stage is fed `xs`. */
  function ChangeInputs(c: Config, xs: seq<real>): (r: seq<real>)
    requires c.smooth >= 1
    ensures |r| == |xs|
  {
    seq(|xs|, j requires 0 <= j < |xs| => WindowMean(c, xs[..j + 1]))
  }

  lemma ChangeInputsAppend(c: Config, xs: seq<real>, x: real)
    requires c.smooth >= 1
    ensures ChangeInputs(c, xs + [x]) == ChangeInputs(c, xs) + [WindowMean(c, xs + [x])]
  {
    var ys := xs + [x];
    forall j | 0 <= j < |xs|
      ensures ChangeInputs(c, ys)[j] == ChangeInputs(c, xs)[j]
    {
      assert ys[..j + 1] == xs[..j + 1];
    }
    assert ys[..|xs| + 1] == ys;
  }

  // ---------------------------------------------------------------- one update

  /** The repeat-value guard: the same value as last time, with a score below the threshold. */
  predicate Guarded(last: real, lastScore: real, v: real) {
    v == last && lastScore < Threshold
  }

  /** `(*ChangeFinder).Update(v)` on values; the score it returns is the new `lastScore`. */
  function Step(c: Config, st: State, v: real): State
    requires c.smooth >= 1
  {
    if Guarded(st.last, st.lastScore, v) then
      st.(last := v, lastScore := st.lastScore)
    else
      var oLog := st.oLog + [v];
      var buffer := Push(st.buffer, c.outlier.Score(oLog), c.smooth);
      var sLog := st.sLog + [Mean(buffer)];
      State(v, c.change.Score(sLog), buffer, oLog, sLog)
  }

  /** When the guard fires nothing changes, and in particular no detector is fed. */
  lemma GuardFreezes(c: Config, st: State, v: real)
    requires c.smooth >= 1 && Guarded(st.last, st.lastScore, v)
    ensures Step(c, st, v) == st
  {
  }

  /** When it does not fire (a new value, or an old score at or above the threshold) the
      outlier detector is fed v (even when v repeats the last value) and the change detector
      is fed the mean of the new buffer. */
  lemma UnguardedFeedsBoth(c: Config, st: State, v: real)
    requires c.smooth >= 1 && |st.buffer| <= c.smooth
    requires v != st.last || st.lastScore >= Threshold
    ensures Step(c, st, v).oLog == st.oLog + [v]
    ensures Step(c, st, v).buffer == LastN(st.buffer + [c.outlier.Score(st.oLog + [v])], c.smooth)
    ensures Step(c, st, v).buffer != []
    ensures Step(c, st, v).sLog == st.sLog + [Mean(Step(c, st, v).buffer)]
  {
  }

  /** After every step `last` is the value just passed in. */
  lemma StepRecordsLast(c: Config, st: State, v: real)
    requires c.smooth >= 1
    ensures Step(c, st, v).last == v
    ensures Step(c, st, v).lastScore == if Guarded(st.last, st.lastScore, v) then st.lastScore
                                        else c.change.Score(Step(c, st, v).sLog)
  {
  }

  /** A second call with the same value, after a call that scored below the threshold,
      returns the same score and changes nothing. */
  lemma StepIdempotent(c: Config, st: State, v: real)
    requires c.smooth >= 1 && Step(c, st, v).lastScore < Threshold
    ensures Step(c, Step(c, st, v), v) == Step(c, st, v)
  {
  }

  /** A fresh finder has last value 0 and score 0, so a first call with 0 returns 0 and
      feeds neither detector. */
  lemma FreshZeroIsGuarded(c: Config)
    requires c.smooth >= 1
    ensures Step(c, Initial, 0.0) == Initial
  {
  }

  // ---------------------------------------------------------------- a stream of updates

  /** The state after the calls `Update(vs[0]), ..., Update(vs[|vs|-1])` on a fresh finder. */
  function Run(c: Config, vs: seq<real>): State
    requires c.smooth >= 1
  {
    if vs == [] then Initial else Step(c, Run(c, vs[..|vs| - 1]), vs[|vs| - 1])
  }

  lemma RunAppend(c: Config, vs: seq<real>, v: real)
    requires c.smooth >= 1
    ensures Run(c, vs + [v]) == Step(c, Run(c, vs), v)
  {
  }

  /** The scores returned by the calls `vs`, made after the calls `before`. */
  function ScoresAfter(c: Config, before: seq<real>, vs: seq<real>): (r: seq<real>)
    requires c.smooth >= 1
    ensures |r| == |vs|
  {
    if vs == [] then [] else ScoresAfter(c, before, vs[..|vs| - 1]) + [Run(c, before + vs).lastScore]
  }

  lemma ScoresAfterAppend(c: Config, before: seq<real>, vs: seq<real>, v: real)
    requires c.smooth >= 1
    ensures ScoresAfter(c, before, vs + [v])
         == ScoresAfter(c, before, vs) + [Run(c, before + vs + [v]).lastScore]
  {
    assert (vs + [v])[..|vs|] == vs;
    assert before + (vs + [v]) == before + vs + [v];
  }

  /** The i-th score is the one returned once the calls `before` and `vs[..i+1]` are made. */
  lemma {:induction false} ScoresAfterAt(c: Config, before: seq<real>, vs: seq<real>, i: int)
    requires c.smooth >= 1 && 0 <= i < |vs|
    ensures ScoresAfter(c, before, vs)[i] == Run(c, before + vs[..i + 1]).lastScore
  {
    if i < |vs| - 1 {
      var init := vs[..|vs| - 1];
      ScoresAfterAt(c, before, init, i);
      assert init[..i + 1] == vs[..i + 1];
    } else {
      assert vs[..i + 1] == vs;
    }
  }

  /** For each call of `vs` on a fresh finder, whether the repeat-value guard fired. */
  function Fired(c: Config, vs: seq<real>): (r: seq<bool>)
    requires c.smooth >= 1
    ensures |r| == |vs|
  {
    if vs == [] then []
    else
      var st := Run(c, vs[..|vs| - 1]);
      Fired(c, vs[..|vs| - 1]) + [Guarded(st.last, st.lastScore, vs[|vs| - 1])]
  }

  lemma FiredAppend(c: Config, vs: seq<real>, v: real)
    requires c.smooth >= 1
    ensures Fired(c, vs + [v]) == Fired(c, vs) + [Guarded(Run(c, vs).last, Run(c, vs).lastScore, v)]
  {
  }

  /** Call i was guarded exactly when the state after the first i calls guards vs[i]. */
  lemma {:induction false} FiredAt(c: Config, vs: seq<real>, i: int)
    requires c.smooth >= 1 && 0 <= i < |vs|
    ensures Fired(c, vs)[i] == Guarded(Run(c, vs[..i]).last, Run(c, vs[..i]).lastScore, vs[i])
  {
    if i < |vs| - 1 {
      var init := vs[..|vs| - 1];
      FiredAt(c, init, i);
      assert init[..i] == vs[..i];
    }
  }

  /** The elements of `vs` at the positions where `fired` is false, in order. */
  function Passed(vs: seq<real>, fired: seq<bool>): seq<real>
    requires |vs| == |fired|
  {
    if vs == [] then []
    else Passed(vs[..|vs| - 1], fired[..|vs| - 1]) + (if fired[|vs| - 1] then [] else [vs[|vs| - 1]])
  }

  /** `last` is always the latest input (0 before the first call). */
  lemma RunLast(c: Config, vs: seq<real>)
    requires c.smooth >= 1
    ensures Run(c, vs).last == if vs == [] then 0.0 else vs[|vs| - 1]
  {
  }

  /** The guard fires on call i exactly when its input repeats the input of call i-1 (0 for
      the first call) and the score call i-1 returned (0 for the first call) is below the
      threshold. */
  lemma FiredExactlyOnRepeats(c: Config, vs: seq<real>, i: int)
    requires c.smooth >= 1 && 0 <= i < |vs|
    ensures Fired(c, vs)[i] <==>
              vs[i] == (if i == 0 then 0.0 else vs[i - 1]) &&
              (if i == 0 then 0.0 else ScoresAfter(c, [], vs)[i - 1]) < Threshold
  {
    FiredAt(c, vs, i);
    RunLast(c, vs[..i]);
    if i > 0 {
      ScoresAfterAt(c, [], vs, i - 1);
      assert vs[..i][i - 1] == vs[i - 1];
      assert [] + vs[..i - 1 + 1] == vs[..i];
    }
  }

  /** The outlier detector receives exactly the inputs on which the guard did not fire, in
      call order. */
  lemma {:induction false} RunOutlierLog(c: Config, vs: seq<real>)
    requires c.smooth >= 1
    ensures Run(c, vs).oLog == Passed(vs, Fired(c, vs))
  {
    if vs != [] {
      var p, v := vs[..|vs| - 1], vs[|vs| - 1];
      assert vs == p + [v];
      RunOutlierLog(c, p);
      FiredAppend(c, p, v);
      assert Fired(c, vs)[..|p|] == Fired(c, p);
    }
  }

  /** The buffer always holds the last `smooth` scores the outlier detector returned, so
      it is within its bound and never empty once anything has passed the guard. */
  lemma {:induction false} RunBuffer(c: Config, vs: seq<real>)
    requires c.smooth >= 1
    ensures Run(c, vs).buffer == LastN(Outputs(c.outlier, Run(c, vs).oLog), c.smooth)
    ensures |Run(c, vs).buffer| <= c.smooth
  {
    if vs != [] {
      var p, v := vs[..|vs| - 1], vs[|vs| - 1];
      var st := Run(c, p);
      RunBuffer(c, p);
      if !Guarded(st.last, st.lastScore, v) {
        var oLog := st.oLog + [v];
        PushLastN(Outputs(c.outlier, st.oLog), c.outlier.Score(oLog), c.smooth);
        assert oLog[..|oLog| - 1] == st.oLog;
      }
    }
  }

  /** The change detector is fed, for each input the outlier detector received, the mean of
      the window of outlier scores at that point; and the score returned is always the
      change detector's latest score (0 before it has been fed). */
  lemma {:induction false} RunChangeLog(c: Config, vs: seq<real>)
    requires c.smooth >= 1
    ensures Run(c, vs).sLog == ChangeInputs(c, Run(c, vs).oLog)
    ensures Run(c, vs).lastScore == if Run(c, vs).sLog == [] then 0.0 else c.change.Score(Run(c, vs).sLog)
  {
    if vs != [] {
      var p, v := vs[..|vs| - 1], vs[|vs| - 1];
      var st := Run(c, p);
      RunChangeLog(c, p);
      if !Guarded(st.last, st.lastScore, v) {
        RunBuffer(c, p);
        var oLog := st.oLog + [v];
        PushLastN(Outputs(c.outlier, st.oLog), c.outlier.Score(oLog), c.smooth);
        assert oLog[..|oLog| - 1] == st.oLog;
        ChangeInputsAppend(c, st.oLog, v);
      }
    }
  }

  /** The three stream facts above, together. */
  lemma RunInvariants(c: Config, vs: seq<real>)
    requires c.smooth >= 1
    ensures Run(c, vs).oLog == Passed(vs, Fired(c, vs))
    ensures Run(c, vs).buffer == LastN(Outputs(c.outlier, Run(c, vs).oLog), c.smooth)
    ensures |Run(c, vs).buffer| <= c.smooth
    ensures Run(c, vs).sLog == ChangeInputs(c, Run(c, vs).oLog)
  {
    RunOutlierLog(c, vs);
    RunBuffer(c, vs);
    RunChangeLog(c, vs);
  }

  /** `k` copies of `v`. */
  function Repeat(v: real, k: nat): (r: seq<real>)
    ensures |r| == k
  {
    seq(k, _ => v)
  }

  /** Once a value has scored below the threshold, repeating it any number of times leaves
      the finder where it was and keeps returning that score. */
  lemma {:induction false} RunRepeated(c: Config, vs: seq<real>, v: real, k: nat)
    requires c.smooth >= 1 && Run(c, vs + [v]).lastScore < Threshold
    ensures Run(c, vs + [v] + Repeat(v, k)) == Run(c, vs + [v])
  {
    if k > 0 {
      RunRepeated(c, vs, v, k - 1);
      assert vs + [v] + Repeat(v, k) == (vs + [v] + Repeat(v, k - 1)) + [v];
      RunAppend(c, vs + [v] + Repeat(v, k - 1), v);
      RunLast(c, vs + [v]);
    } else {
      assert vs + [v] + Repeat(v, k) == vs + [v];
    }
  }
}
