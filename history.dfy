/** The scoring loop of `main` in zabbix_anomaly.go: every history sample is fed to the
    change finder in order, and the (clock, score) pairs of the samples inside the trailing
    send window are collected for the alerting sink. */
module History {
  import opened FinderModel
  import opened Composer

  /** One history record, with the clock and the value already parsed. */
  datatype Sample = Sample(clock: int, value: real)

  /** What is handed to the sender: the sample's clock and its score. */
  datatype DataPoint = DataPoint(clock: int, score: real)

  /** A sample is sent when it is younger than `interval` seconds. */
  predicate InSendWindow(clock: int, now: int, interval: int) {
    clock > now - interval
  }

  /** The points inside the send window, in order. */
  function Recent(points: seq<DataPoint>, now: int, interval: int): seq<DataPoint> {
    if points == [] then []
    else
      var p := points[|points| - 1];
      Recent(points[..|points| - 1], now, interval) + (if InSendWindow(p.clock, now, interval) then [p] else [])
  }

  /** A point is sent exactly when it is among the points and inside the window. */
  lemma {:induction false} RecentMembers(points: seq<DataPoint>, now: int, interval: int, p: DataPoint)
    ensures p in Recent(points, now, interval) <==> p in points && InSendWindow(p.clock, now, interval)
  {
    if points != [] {
      var init := points[..|points| - 1];
      RecentMembers(init, now, interval, p);
      assert points == init + [points[|points| - 1]];
    }
  }

  predicate Ascending(points: seq<DataPoint>) {
    forall i, j :: 0 <= i < j < |points| ==> points[i].clock <= points[j].clock
  }

  lemma {:induction false} RecentNone(points: seq<DataPoint>, now: int, interval: int)
    requires forall i :: 0 <= i < |points| ==> !InSendWindow(points[i].clock, now, interval)
    ensures Recent(points, now, interval) == []
  {
    if points != [] {
      RecentNone(points[..|points| - 1], now, interval);
    }
  }

  /** On samples in clock order the points sent are a suffix of all points: the trailing
      window of the most recent samples. */
  lemma {:induction false} RecentIsSuffix(points: seq<DataPoint>, now: int, interval: int)
    requires Ascending(points)
    ensures |Recent(points, now, interval)| <= |points|
    ensures Recent(points, now, interval) == points[|points| - |Recent(points, now, interval)|..]
  {
    if points != [] {
      var n := |points|;
      var init, p := points[..n - 1], points[n - 1];
      if InSendWindow(p.clock, now, interval) {
        assert Ascending(init) by {
          forall i, j | 0 <= i < j < |init| ensures init[i].clock <= init[j].clock {
            assert init[i] == points[i] && init[j] == points[j];
          }
        }
        RecentIsSuffix(init, now, interval);
        var k := |init| - |Recent(init, now, interval)|;
        assert init[k..] + [p] == points[k..];
      } else {
        forall i | 0 <= i < |init| ensures !InSendWindow(init[i].clock, now, interval) {
          assert init[i] == points[i];
          assert points[i].clock <= points[n - 1].clock;
        }
        RecentNone(init, now, interval);
      }
    }
  }

  function Values(history: seq<Sample>): (r: seq<real>)
    ensures |r| == |history|
  {
    seq(|history|, i requires 0 <= i < |history| => history[i].value)
  }

  function Scored(history: seq<Sample>, scores: seq<real>): (r: seq<DataPoint>)
    requires |scores| == |history|
    ensures |r| == |history|
  {
    seq(|history|, i requires 0 <= i < |history| => DataPoint(history[i].clock, scores[i]))
  }

  /** What the loop sends when a finder that has already seen `before` scores `history`. */
  function Report(c: Config, before: seq<real>, history: seq<Sample>, now: int, interval: int): seq<DataPoint>
    requires c.smooth >= 1
  {
    Recent(Scored(history, ScoresAfter(c, before, Values(history))), now, interval)
  }

  /** One more record adds its point, with the score of its own call, when it is recent. */
  lemma ReportAppend(c: Config, before: seq<real>, history: seq<Sample>, i: int, score: real, now: int, interval: int)
    requires c.smooth >= 1 && 0 <= i < |history|
    requires score == Run(c, before + Values(history[..i]) + [history[i].value]).lastScore
    ensures Values(history[..i + 1]) == Values(history[..i]) + [history[i].value]
    ensures Report(c, before, history[..i + 1], now, interval)
         == Report(c, before, history[..i], now, interval) +
            (if InSendWindow(history[i].clock, now, interval) then [DataPoint(history[i].clock, score)] else [])
  {
    var hs, h := history[..i], history[i];
    assert history[..i + 1] == hs + [h];
    assert Values(hs + [h]) == Values(hs) + [h.value];
    ScoresAfterAppend(c, before, Values(hs), h.value);
    var all := Scored(hs + [h], ScoresAfter(c, before, Values(hs + [h])));
    assert all[..|hs|] == Scored(hs, ScoresAfter(c, before, Values(hs)));
  }

  /** The loop over the history records: score each in order and keep the recent ones. */
  method ScoreHistory(cp: ChangeFinder, history: seq<Sample>, now: int, interval: int)
    returns (sent: seq<DataPoint>)
    requires cp.Valid()
    modifies cp, cp.O, cp.S
    ensures cp.Valid()
    ensures cp.Inputs == old(cp.Inputs) + Values(history)
    ensures sent == Report(cp.Cfg(), old(cp.Inputs), history, now, interval)
  {
    ghost var before, c := cp.Inputs, cp.Cfg();
    sent := [];
    for i := 0 to |history|
      invariant cp.Valid() && cp.Cfg() == c
      invariant cp.Inputs == before + Values(history[..i])
      invariant sent == Report(c, before, history[..i], now, interval)
    {
      var score := cp.Update(history[i].value);
      ReportAppend(c, before, history, i, score, now, interval);
      if InSendWindow(history[i].clock, now, interval) {
        sent := sent + [DataPoint(history[i].clock, score)];
      }
    }
    assert history[..|history|] == history;
  }
}
