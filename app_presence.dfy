/** The hysteresis rule of BlueDo.bluetooth_ping (bluedo/bluedoapp.py): one
    tick turns an RSSI sample into a new lost_pings counter and at most one
    here/away callback. Misses are counted only while the service is enabled,
    `away` fires when the counter reaches away_count exactly, and `here` fires
    on every reset of a positive counter. */
module AppPresence {
  import opened Presence

  /** What one attempt to read the RSSI gave: a value, None from get_rssi,
      or an exception from BluetoothRSSI. */
  datatype Sample = Reading(rssi: int) | NoReading | Raised

  /** The RSSI the loop uses when no value was read. */
  const UnknownRssi: int := -99

  /** Addresses shorter than this are not sampled at all. */
  const AddressLength: nat := 17

  /** The fields the ping loop reads on every tick. */
  datatype Settings = Settings(address: string, enabled: bool, threshold: int, awayCount: int)

  /** The tick samples the device only for an address of full length. */
  predicate Scanning(s: Settings) {
    |s.address| >= AddressLength
  }

  /** The rssi the comparison sees. */
  function Rssi(sample: Sample): int {
    match sample
    case Reading(v) => v
    case NoReading => UnknownRssi
    case Raised => UnknownRssi
  }

  /** A sample below the threshold is a miss; the threshold itself is in range. */
  predicate IsMiss(sample: Sample, threshold: int) {
    Rssi(sample) < threshold
  }

  /** One tick of the ping loop. */
  function Step(s: Settings, lost: nat, sample: Sample): (t: Tick)
    ensures t.event == Some(Here) <==> Scanning(s) && !IsMiss(sample, s.threshold) && lost > 0
    ensures t.event == Some(Away) <==>
              Scanning(s) && IsMiss(sample, s.threshold) && s.enabled && lost + 1 == s.awayCount
  {
    if !Scanning(s) then Tick(lost, None)
    else if IsMiss(sample, s.threshold) then
      if s.enabled then Tick(lost + 1, if lost + 1 == s.awayCount then Some(Away) else None)
      else Tick(lost, None)
    else if lost > 0 then Tick(0, Some(Here))
    else Tick(0, None)
  }

  /** The value the tick gives the signal level bar: 0 for a short address,
      10 + rssi for a reading (10 + UnknownRssi for None), and no change when
      reading raised. */
  function Level(s: Settings, level: int, sample: Sample): int {
    if !Scanning(s) then 0
    else
      match sample
      case Reading(v) => 10 + v
      case NoReading => 10 + UnknownRssi
      case Raised => level
  }

  /** The ticks of a sequence of samples, from a starting counter. */
  function Run(s: Settings, lost: nat, samples: seq<Sample>): (o: Outcome)
    ensures |o.events| == |samples|
  {
    if samples == [] then Outcome(lost, [])
    else
      var prev := Run(s, lost, samples[..|samples| - 1]);
      var t := Step(s, prev.lost, samples[|samples| - 1]);
      Outcome(t.lost, prev.events + [t.event])
  }

  /** The level bar after the ticks of a sequence of samples. */
  function LevelRun(s: Settings, level: int, samples: seq<Sample>): int {
    if samples == [] then level
    else Level(s, LevelRun(s, level, samples[..|samples| - 1]), samples[|samples| - 1])
  }

  // ---------------------------------------------------------------------
  // Properties of the rule

  /** A failed read counts as a miss exactly when the threshold is above
      UnknownRssi. */
  lemma FailureIsMissBelowThreshold(sample: Sample, threshold: int)
    requires !sample.Reading?
    ensures IsMiss(sample, threshold) <==> UnknownRssi < threshold
  {
  }

  /** Running two stretches of samples one after the other. */
  lemma {:induction false} RunAppend(s: Settings, lost: nat, a: seq<Sample>, b: seq<Sample>)
    ensures var first := Run(s, lost, a);
      var second := Run(s, first.lost, b);
      Run(s, lost, a + b) == Outcome(second.lost, first.events + second.events)
    decreases |b|
  {
    if b == [] {
      assert a + b == a;
    } else {
      var ab := a + b;
      assert ab[..|ab| - 1] == a + b[..|b| - 1];
      assert ab[|ab| - 1] == b[|b| - 1];
      RunAppend(s, lost, a, b[..|b| - 1]);
      var first := Run(s, lost, a);
      var mid := Run(s, first.lost, b[..|b| - 1]);
      assert first.events + (mid.events + [Step(s, mid.lost, b[|b| - 1]).event])
          == (first.events + mid.events) + [Step(s, mid.lost, b[|b| - 1]).event];
    }
  }

  /** With a short address nothing is sampled: the counter stays where it is
      and no callback fires, whatever the samples. */
  lemma {:induction false} ShortAddressIdles(s: Settings, lost: nat, samples: seq<Sample>)
    requires !Scanning(s)
    ensures Run(s, lost, samples).lost == lost
    ensures Occurrences(Run(s, lost, samples).events, Here) == 0
    ensures Occurrences(Run(s, lost, samples).events, Away) == 0
  {
    if samples != [] {
      ShortAddressIdles(s, lost, samples[..|samples| - 1]);
    }
  }

  /** While enabled, k consecutive misses raise the counter by k and fire
      `away` once if the counter passes away_count during the run and never
      otherwise; `here` never fires. */
  lemma {:induction false} MissRunFiresAwayOnce(s: Settings, lost: nat, samples: seq<Sample>)
    requires Scanning(s) && s.enabled
    requires forall i :: 0 <= i < |samples| ==> IsMiss(samples[i], s.threshold)
    ensures Run(s, lost, samples).lost == lost + |samples|
    ensures Occurrences(Run(s, lost, samples).events, Away) ==
              if lost < s.awayCount <= lost + |samples| then 1 else 0
    ensures Occurrences(Run(s, lost, samples).events, Here) == 0
  {
    if samples != [] {
      MissRunFiresAwayOnce(s, lost, samples[..|samples| - 1]);
    }
  }

  /** While disabled the counter never grows, a run of misses leaves it
      exactly where it was, and `away` never fires. */
  lemma {:induction false} DisabledNeverAway(s: Settings, lost: nat, samples: seq<Sample>)
    requires !s.enabled
    ensures Run(s, lost, samples).lost <= lost
    ensures (forall i :: 0 <= i < |samples| ==> IsMiss(samples[i], s.threshold)) ==>
              Run(s, lost, samples).lost == lost
    ensures Occurrences(Run(s, lost, samples).events, Away) == 0
  {
    if samples != [] {
      DisabledNeverAway(s, lost, samples[..|samples| - 1]);
    }
  }

  /** A run of in-range samples resets the counter and fires `here` exactly
      once when the counter started above 0, and never otherwise. */
  lemma {:induction false} InRangeRunGreetsOnce(s: Settings, lost: nat, samples: seq<Sample>)
    requires Scanning(s) && samples != []
    requires forall i :: 0 <= i < |samples| ==> !IsMiss(samples[i], s.threshold)
    ensures Run(s, lost, samples).lost == 0
    ensures Occurrences(Run(s, lost, samples).events, Here) == if lost > 0 then 1 else 0
    ensures Occurrences(Run(s, lost, samples).events, Away) == 0
  {
    if |samples| > 1 {
      InRangeRunGreetsOnce(s, lost, samples[..|samples| - 1]);
    } else {
      assert samples[..0] == [];
    }
  }

  /** A stretch of ticks in which `here` does not fire fires `away` at most
      once, from any starting counter; the counter never falls during it, and
      once it has reached away_count `away` cannot fire again. */
  lemma {:induction false} QuietStretchFiresAwayAtMostOnce(s: Settings, lost: nat, samples: seq<Sample>)
    requires Occurrences(Run(s, lost, samples).events, Here) == 0
    ensures Run(s, lost, samples).lost >= lost
    ensures Occurrences(Run(s, lost, samples).events, Away) <= 1
    ensures Occurrences(Run(s, lost, samples).events, Away) == 1 ==>
              Run(s, lost, samples).lost >= s.awayCount
    ensures lost >= s.awayCount ==> Occurrences(Run(s, lost, samples).events, Away) == 0
  {
    if samples != [] {
      var init := samples[..|samples| - 1];
      var prev := Run(s, lost, init);
      var t := Step(s, prev.lost, samples[|samples| - 1]);
      OccurrencesAppend(prev.events, [t.event], Here);
      QuietStretchFiresAwayAtMostOnce(s, lost, init);
      OccurrencesAppend(prev.events, [t.event], Away);
    }
  }

  /** Between two `away` callbacks there is always a `here`: after the first
      `away`, a stretch without `here` cannot fire another. */
  lemma NoSecondAwayWithoutHere(s: Settings, lost: nat, a: seq<Sample>, b: seq<Sample>)
    requires Occurrences(Run(s, lost, a).events, Away) > 0
    requires Occurrences(Run(s, Run(s, lost, a).lost, b).events, Here) == 0
    requires Occurrences(Run(s, lost, a).events, Here) == 0
    ensures Occurrences(Run(s, lost, a + b).events, Away) == 1
  {
    var first := Run(s, lost, a);
    var second := Run(s, first.lost, b);
    QuietStretchFiresAwayAtMostOnce(s, lost, a);
    QuietStretchFiresAwayAtMostOnce(s, first.lost, b);
    assert Occurrences(second.events, Away) == 0;
    RunAppend(s, lost, a, b);
    OccurrencesAppend(first.events, second.events, Away);
  }

  /** A short absence still greets: misses fewer than away_count followed by
      an in-range sample fire `here` once and `away` never. */
  lemma ShortAbsenceStillGreets(s: Settings, misses: seq<Sample>, back: Sample)
    requires Scanning(s) && s.enabled
    requires 0 < |misses| < s.awayCount
    requires forall i :: 0 <= i < |misses| ==> IsMiss(misses[i], s.threshold)
    requires !IsMiss(back, s.threshold)
    ensures Occurrences(Run(s, 0, misses + [back]).events, Here) == 1
    ensures Occurrences(Run(s, 0, misses + [back]).events, Away) == 0
  {
    MissRunFiresAwayOnce(s, 0, misses);
    var mid := Run(s, 0, misses).lost;
    InRangeRunGreetsOnce(s, mid, [back]);
    RunAppend(s, 0, misses, [back]);
    OccurrencesAppend(Run(s, 0, misses).events, Run(s, mid, [back]).events, Here);
    OccurrencesAppend(Run(s, 0, misses).events, Run(s, mid, [back]).events, Away);
  }

  /** Three misses below a threshold of -10 with away_count 3 fire `away` on
      the third, and the next in-range reading fires `here`. */
  lemma AwayThenHere(s: Settings)
    requires Scanning(s) && s.enabled && s.threshold == -10 && s.awayCount == 3
    ensures Run(s, 0, [Reading(-5), Reading(-20), Reading(-20), Reading(-20), Reading(-5)]).events
              == [None, None, None, Some(Away), Some(Here)]
  {
    var p1 := [Reading(-5)];
    var p2 := p1 + [Reading(-20)];
    var p3 := p2 + [Reading(-20)];
    var p4 := p3 + [Reading(-20)];
    var p5 := p4 + [Reading(-5)];
    assert p1[..0] == [] && p2[..1] == p1 && p3[..2] == p2 && p4[..3] == p3 && p5[..4] == p4;
    assert Run(s, 0, p1) == Outcome(0, [None]);
    assert Run(s, 0, p2) == Outcome(1, [None, None]);
    assert Run(s, 0, p3) == Outcome(2, [None, None, None]);
    assert Run(s, 0, p4) == Outcome(3, [None, None, None, Some(Away)]);
    assert Run(s, 0, p5) == Outcome(0, [None, None, None, Some(Away), Some(Here)]);
    assert p5 == [Reading(-5), Reading(-20), Reading(-20), Reading(-20), Reading(-5)];
  }
}
