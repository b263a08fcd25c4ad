/** The older hysteresis rule of Application.bluetooth_listen (bluedo.py): a
    miss raises lost_pings by one and, once the counter reaches away_count,
    resets it and fires `away`, so `away` repeats every away_count misses; an
    in-range sample resets a positive counter and fires `here`. There is no
    enabled check: disabling stops the loop instead. */
module LegacyPresence {
  import opened Presence

  /** A sample is what get_rssi returned: a value, or None. */
  type Sample = Option<int>

  /** A miss: no value, or a value below the threshold. */
  predicate IsMiss(sample: Sample, threshold: int) {
    sample.None? || sample.value < threshold
  }

  /** One tick as bluedo.py writes it: the level bar is set to 10 + rssi
      before the miss test, so a None sample raises a TypeError that ends the
      loop; the result is None then. */
  function StepAsWritten(awayCount: int, threshold: int, lost: nat, sample: Sample): Option<Tick> {
    match sample
    case None => None
    case Some(v) =>
      if v < threshold then
        if lost + 1 >= awayCount then Some(Tick(0, Some(Away))) else Some(Tick(lost + 1, None))
      else if lost > 0 then Some(Tick(0, Some(Here)))
      else Some(Tick(0, None))
  }

  /** One tick as the miss test intends it: a None sample is a miss. */
  function Step(awayCount: int, threshold: int, lost: nat, sample: Sample): (t: Tick)
    ensures t.event == Some(Here) <==> !IsMiss(sample, threshold) && lost > 0
    ensures t.event == Some(Away) <==> IsMiss(sample, threshold) && lost + 1 >= awayCount
    ensures t.lost < if awayCount > 1 then awayCount else 1
  {
    if IsMiss(sample, threshold) then
      if lost + 1 >= awayCount then Tick(0, Some(Away)) else Tick(lost + 1, None)
    else if lost > 0 then Tick(0, Some(Here))
    else Tick(0, None)
  }

  /** The ticks of a sequence of samples, from a starting counter. */
  function Run(awayCount: int, threshold: int, lost: nat, samples: seq<Sample>): (o: Outcome)
    ensures |o.events| == |samples|
  {
    if samples == [] then Outcome(lost, [])
    else
      var prev := Run(awayCount, threshold, lost, samples[..|samples| - 1]);
      var t := Step(awayCount, threshold, prev.lost, samples[|samples| - 1]);
      Outcome(t.lost, prev.events + [t.event])
  }

  /** The level bar after the ticks of a sequence of samples: 10 + rssi for
      the last sample that held a value. */
  function LevelRun(level: int, samples: seq<Sample>): int {
    if samples == [] then level
    else
      var prev := LevelRun(level, samples[..|samples| - 1]);
      match samples[|samples| - 1]
      case Some(v) => 10 + v
      case None => prev
  }

  // ---------------------------------------------------------------------
  // The None sample

  /** As written, a None sample ends the loop, although the miss test right
      after it is meant to count it as a miss. */
  lemma NoneSampleCrashes(awayCount: int, threshold: int, lost: nat)
    ensures StepAsWritten(awayCount, threshold, lost, None) == None
    ensures IsMiss(None, threshold)
    ensures Step(awayCount, threshold, lost, None).lost != lost ||
            Step(awayCount, threshold, lost, None).event == Some(Away)
  {
  }

  /** On every sample that holds a value, the corrected tick is the tick as
      written. */
  lemma StepAgreesOnValues(awayCount: int, threshold: int, lost: nat, v: int)
    ensures StepAsWritten(awayCount, threshold, lost, Some(v)) ==
              Some(Step(awayCount, threshold, lost, Some(v)))
  {
  }

  // ---------------------------------------------------------------------
  // Properties of the rule

  /** Running two stretches of samples one after the other. */
  lemma {:induction false} RunAppend(n: int, threshold: int, lost: nat, a: seq<Sample>, b: seq<Sample>)
    ensures var first := Run(n, threshold, lost, a);
      var second := Run(n, threshold, first.lost, b);
      Run(n, threshold, lost, a + b) == Outcome(second.lost, first.events + second.events)
    decreases |b|
  {
    if b == [] {
      assert a + b == a;
    } else {
      var ab := a + b;
      assert ab[..|ab| - 1] == a + b[..|b| - 1];
      assert ab[|ab| - 1] == b[|b| - 1];
      RunAppend(n, threshold, lost, a, b[..|b| - 1]);
      var first := Run(n, threshold, lost, a);
      var mid := Run(n, threshold, first.lost, b[..|b| - 1]);
      var e := Step(n, threshold, mid.lost, b[|b| - 1]).event;
      assert first.events + (mid.events + [e]) == (first.events + mid.events) + [e];
    }
  }

  /** Misses that keep the counter below away_count n only count. */
  lemma {:induction false} MissRunBelow(n: nat, threshold: int, lost: nat, samples: seq<Sample>)
    requires lost + |samples| < n
    requires forall i :: 0 <= i < |samples| ==> IsMiss(samples[i], threshold)
    ensures Run(n, threshold, lost, samples).lost == lost + |samples|
    ensures Occurrences(Run(n, threshold, lost, samples).events, Away) == 0
    ensures Occurrences(Run(n, threshold, lost, samples).events, Here) == 0
  {
    if samples != [] {
      var init := samples[..|samples| - 1];
      assert forall i :: 0 <= i < |init| ==> init[i] == samples[i];
      MissRunBelow(n, threshold, lost, init);
    }
  }

  /** The miss that brings the counter to away_count n fires `away` and
      resets the counter. */
  lemma MissRunReachesN(n: nat, threshold: int, lost: nat, samples: seq<Sample>)
    requires lost < n && lost + |samples| == n
    requires forall i :: 0 <= i < |samples| ==> IsMiss(samples[i], threshold)
    ensures Run(n, threshold, lost, samples).lost == 0
    ensures Occurrences(Run(n, threshold, lost, samples).events, Away) == 1
    ensures Occurrences(Run(n, threshold, lost, samples).events, Here) == 0
  {
    var init := samples[..|samples| - 1];
    assert forall i :: 0 <= i < |init| ==> init[i] == samples[i];
    MissRunBelow(n, threshold, lost, init);
  }

  /** With at least one full round to go, a run of misses splits into the
      misses up to the next `away` and a run of q - 1 rounds from 0. */
  lemma OneRoundLess(q: nat, n: nat, r: nat, lost: nat, k: nat)
    requires q > 0 && lost < n
    requires lost + k == q * n + r
    ensures n - lost <= k && k - (n - lost) == (q - 1) * n + r
  {
    assert q * n == (q - 1) * n + n;
  }

  /** A run of misses that completes the current round: one `away` for the
      round, then whatever the rest of the run fires from a reset counter. */
  lemma RoundThenRest(n: nat, threshold: int, lost: nat, samples: seq<Sample>, q: nat, r: nat)
    requires lost < n <= lost + |samples| && q > 0
    requires forall i :: 0 <= i < |samples| ==> IsMiss(samples[i], threshold)
    requires var rest := Run(n, threshold, 0, samples[n - lost..]);
      rest.lost == r && Occurrences(rest.events, Away) == q - 1 && Occurrences(rest.events, Here) == 0
    ensures Run(n, threshold, lost, samples).lost == r
    ensures Occurrences(Run(n, threshold, lost, samples).events, Away) == q
    ensures Occurrences(Run(n, threshold, lost, samples).events, Here) == 0
  {
    var j := n - lost;
    var a, b := samples[..j], samples[j..];
    assert samples == a + b;
    assert forall i :: 0 <= i < |a| ==> a[i] == samples[i];
    MissRunReachesN(n, threshold, lost, a);
    RunAppend(n, threshold, lost, a, b);
    OccurrencesAppend(Run(n, threshold, lost, a).events, Run(n, threshold, 0, b).events, Away);
    OccurrencesAppend(Run(n, threshold, lost, a).events, Run(n, threshold, 0, b).events, Here);
  }

  /** k consecutive misses, from a counter below away_count n, fire `away`
      once for every n misses counted and leave the rest on the counter: with
      lost + k == q * n + r and r < n, `away` fires q times and the counter
      ends at r; `here` never fires. */
  lemma {:induction false} MissRunFiresEveryN(n: nat, threshold: int, lost: nat, samples: seq<Sample>, q: nat, r: nat)
    requires lost < n && r < n
    requires lost + |samples| == q * n + r
    requires forall i :: 0 <= i < |samples| ==> IsMiss(samples[i], threshold)
    ensures Run(n, threshold, lost, samples).lost == r
    ensures Occurrences(Run(n, threshold, lost, samples).events, Away) == q
    ensures Occurrences(Run(n, threshold, lost, samples).events, Here) == 0
    decreases q
  {
    if q == 0 {
      MissRunBelow(n, threshold, lost, samples);
    } else {
      OneRoundLess(q, n, r, lost, |samples|);
      var b := samples[n - lost..];
      assert forall i :: 0 <= i < |b| ==> b[i] == samples[n - lost + i];
      MissRunFiresEveryN(n, threshold, 0, b, q - 1, r);
      RoundThenRest(n, threshold, lost, samples, q, r);
    }
  }

  /** The counter before a tick is the counter after the ticks before it. */
  lemma {:induction false} RunPrefix(n: int, threshold: int, lost: nat, samples: seq<Sample>, i: nat)
    requires i < |samples|
    ensures var before := Run(n, threshold, lost, samples[..i]);
      Run(n, threshold, lost, samples).events[i] == Step(n, threshold, before.lost, samples[i]).event &&
      Run(n, threshold, lost, samples[..i + 1]).lost == Step(n, threshold, before.lost, samples[i]).lost
  {
    RunAppend(n, threshold, lost, samples[..i + 1], samples[i + 1..]);
    assert samples[..i + 1] + samples[i + 1..] == samples;
    assert samples[..i + 1][..i] == samples[..i];
  }

  /** An in-range sample right after an `away` fires nothing: the counter was
      reset with the `away`. */
  lemma NoHereRightAfterAway(n: int, threshold: int, lost: nat, samples: seq<Sample>, i: nat)
    requires i + 1 < |samples|
    requires Run(n, threshold, lost, samples).events[i] == Some(Away)
    requires !IsMiss(samples[i + 1], threshold)
    ensures Run(n, threshold, lost, samples).events[i + 1] == None
  {
    RunPrefix(n, threshold, lost, samples, i);
    RunPrefix(n, threshold, lost, samples, i + 1);
  }

  /** Three misses below a threshold of -10 with away_count 3 fire `away` on
      the third, and the next in-range reading fires nothing. */
  lemma AwayThenSilence()
    ensures Run(3, -10, 0, [Some(-5), Some(-20), Some(-20), Some(-20), Some(-5)]).events
              == [None, None, None, Some(Away), None]
  {
    var p1: seq<Sample> := [Some(-5)];
    var p2 := p1 + [Some(-20)];
    var p3 := p2 + [Some(-20)];
    var p4 := p3 + [Some(-20)];
    var p5 := p4 + [Some(-5)];
    assert p1[..0] == [] && p2[..1] == p1 && p3[..2] == p2 && p4[..3] == p3 && p5[..4] == p4;
    assert Run(3, -10, 0, p1) == Outcome(0, [None]);
    assert Run(3, -10, 0, p2) == Outcome(1, [None, None]);
    assert Run(3, -10, 0, p3) == Outcome(2, [None, None, None]);
    assert Run(3, -10, 0, p4) == Outcome(0, [None, None, None, Some(Away)]);
    assert Run(3, -10, 0, p5) == Outcome(0, [None, None, None, Some(Away), None]);
    assert p5 == [Some(-5), Some(-20), Some(-20), Some(-20), Some(-5)];
  }
}
