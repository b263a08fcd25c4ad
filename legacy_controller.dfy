/** The Application object of bluedo.py, the older revision: the enable
    switch that starts at most one listening thread, the thread's loop with
    the address and threshold it was started with, the background device
    scan, and the combo handler. Widgets are reduced to the state they hold,
    callbacks to returned events, and the radio and `bluetoothctl` to the
    samples and output lines the methods are given. */
module LegacyController {
  import opened Presence
  import opened Text
  import opened Devices
  import opened LegacyPresence

  /** What start_thread passes to bluetooth_listen: the address and the
      threshold as they were when the thread was started. */
  datatype Listener = Listener(addr: string, threshold: int)

  class Application {
    var enabled: bool
    var threshold: int
    var awayCount: int
    var btAddress: string
    var btName: string
    /** Signals the listening thread to stop; set while none runs. */
    var pingStop: bool
    /** Signals the background scan to stop. */
    var scanStop: bool
    /** The arguments of the listening thread last started. */
    var pingThread: Option<Listener>
    /** The listening loop's miss counter. */
    var lostPings: nat
    /** The value of the signal level bar. */
    var level: int
    /** Sensitivity of the enable button. */
    var buttonSensitive: bool
    var nearbyDevices: seq<Device>
    var combo: Combo

    /** A thread has been started whenever ping_stop is clear. */
    predicate Valid()
      reads this
    {
      !pingStop ==> pingThread.Some?
    }

    /** The class defaults, before the configuration is loaded: no thread,
        ping_stop set. */
    constructor ()
      ensures Valid()
      ensures !enabled && threshold == 0 && awayCount == 5
      ensures btAddress == [] && btName == [] && pingStop && !scanStop && pingThread == None
      ensures lostPings == 0 && nearbyDevices == [] && combo == Combo([], -1)
    {
      enabled := false;
      threshold := 0;
      awayCount := 5;
      btAddress := [];
      btName := [];
      pingStop := true;
      scanStop := false;
      pingThread := None;
      lostPings := 0;
      level := 0;
      buttonSensitive := true;
      nearbyDevices := [];
      combo := Combo([], -1);
    }

    // -------------------------------------------------------------------
    // The enable switch

    /** The arguments of a new listening thread: the current address and
        threshold, copied. */
    method StartThread() returns (l: Listener)
      ensures l.addr == btAddress && l.threshold == threshold
    {
      l := Listener(btAddress, threshold);
    }

    /** The enable switch. Enabling without an address desensitises the
        button; enabling with one starts a thread only when ping_stop was set,
        and clears it; disabling sets ping_stop. */
    method OnEnableState(state: bool) returns (started: bool)
      requires Valid()
      modifies this`enabled, this`pingStop, this`pingThread, this`buttonSensitive
      ensures Valid()
      ensures enabled == state
      ensures started <==> state && btAddress != [] && old(pingStop)
      ensures started ==> pingThread == Some(Listener(btAddress, threshold))
      ensures !started ==> pingThread == old(pingThread)
      ensures !state ==> pingStop && buttonSensitive == old(buttonSensitive)
      ensures state && btAddress == [] ==> !buttonSensitive && pingStop == old(pingStop)
      ensures state && btAddress != [] ==> !pingStop && buttonSensitive == old(buttonSensitive)
    {
      enabled := state;
      started := false;
      if state {
        if |btAddress| == 0 {
          buttonSensitive := false;
        } else if pingStop {
          pingStop := false;
          var l := StartThread();
          pingThread := Some(l);
          started := true;
        }
      } else {
        pingStop := true;
      }
    }

    /** Switching the service on twice starts one thread: the second switch
        finds ping_stop clear. */
    method EnableTwice() returns (first: bool, second: bool)
      requires Valid() && btAddress != [] && pingStop
      modifies this`enabled, this`pingStop, this`pingThread, this`buttonSensitive
      ensures first && !second
      ensures pingThread == Some(Listener(btAddress, threshold)) && !pingStop
    {
      first := OnEnableState(true);
      second := OnEnableState(true);
    }

    /** Quitting stops the scan and switches the service off; no `here`
        fires. */
    method OnExitApplication()
      requires Valid()
      modifies this`scanStop, this`enabled, this`pingStop, this`pingThread, this`buttonSensitive
      ensures Valid()
      ensures scanStop && pingStop && !enabled
      ensures pingThread == old(pingThread) && buttonSensitive == old(buttonSensitive)
    {
      scanStop := true;
      var _ := OnEnableState(false);
    }

    // -------------------------------------------------------------------
    // bluetooth_listen

    /** One pass of the listening loop's body for the thread started with
        `l`: the threshold is the one copied at the start, away_count is read
        afresh. A None sample counts as a miss and leaves the level bar. */
    method ListenTick(l: Listener, sample: Sample) returns (event: Option<Event>)
      modifies this`lostPings, this`level
      ensures var t := Step(awayCount, l.threshold, old(lostPings), sample);
        lostPings == t.lost && event == t.event
      ensures level == if sample.Some? then 10 + sample.value else old(level)
    {
      if sample.Some? {
        level := 10 + sample.value;
      }
      event := None;
      if sample.None? || sample.value < l.threshold {
        lostPings := lostPings + 1;
        if lostPings >= awayCount {
          lostPings := 0;
          event := Some(Away);
        }
      } else if lostPings > 0 {
        lostPings := 0;
        event := Some(Here);
      }
    }

    /** The listening loop of the thread started with `l`, from a fresh
        counter, over the samples the radio delivers; nothing runs once
        ping_stop is set. */
    method BluetoothListen(l: Listener, samples: seq<Sample>) returns (events: seq<Option<Event>>)
      modifies this`lostPings, this`level
      ensures pingStop ==> events == [] && lostPings == 0 && level == old(level)
      ensures !pingStop ==> Outcome(lostPings, events) == Run(awayCount, l.threshold, 0, samples)
      ensures !pingStop ==> level == LevelRun(old(level), samples)
    {
      lostPings := 0;
      events := [];
      var i := 0;
      while i < |samples| && !pingStop
        invariant 0 <= i <= |samples|
        invariant pingStop ==> i == 0 && events == [] && lostPings == 0 && level == old(level)
        invariant !pingStop ==> Outcome(lostPings, events) == Run(awayCount, l.threshold, 0, samples[..i])
        invariant !pingStop ==> level == LevelRun(old(level), samples[..i])
      {
        var event := ListenTick(l, samples[i]);
        events := events + [event];
        assert samples[..i + 1][..i] == samples[..i];
        i := i + 1;
      }
      if !pingStop {
        assert samples[..i] == samples;
      }
    }

    // -------------------------------------------------------------------
    // scan_bluetooth and background_scan

    /** The devices of one `bluetoothctl devices` output, read until a blank
        line or the end of the output; a dry run reads nothing. */
    method ScanBluetooth(dryrun: bool, lines: seq<string>) returns (r: Listing)
      ensures dryrun ==> r == Listed([])
      ensures !dryrun ==> r == ParseListing(lines, false)
    {
      var devices: seq<Device> := [];
      if dryrun {
        return Listed(devices);
      }
      var i := 0;
      while i < |lines|
        invariant 0 <= i <= |lines|
        invariant ParseListing(lines, false) == Prepend(devices, ParseListing(lines[i..], false))
      {
        var line := lines[i];
        assert lines[i..][0] == line;
        if Strip(line) == [] {
          break;
        }
        var words := Split(line);
        if |words| < 2 {
          return Malformed(line);
        }
        var addr := words[1];
        var name := Join(words[2..]);
        assert lines[i..][1..] == lines[i + 1..];
        PrependPrepend(devices, [Device(name, addr)], ParseListing(lines[i + 1..], false));
        devices := devices + [Device(name, addr)];
        i := i + 1;
      }
      assert devices + [] == devices;
      return Listed(devices);
    }

    /** remove_all, append_text of the previously active text, set_active(0),
        then one append_text per device. */
    method RebuildCombo(found: seq<Device>)
      modifies this`combo
      ensures combo == Rebuild(old(combo), found)
    {
      var current := ActiveText(combo).GetOr("");
      combo := Combo([], -1);
      combo := combo.(entries := combo.entries + [current]);
      combo := combo.(active := 0);
      var k := 0;
      while k < |found|
        invariant 0 <= k <= |found|
        invariant combo.active == 0 && |combo.entries| == k + 1
        invariant combo.entries[0] == current
        invariant forall j :: 0 <= j < k ==> combo.entries[j + 1] == EntryText(found[j])
      {
        combo := combo.(entries := combo.entries + [EntryText(found[k])]);
        k := k + 1;
      }
      RebuiltEntries(current, found, combo.entries);
    }

    /** One pass of the background scan after the scan read `found`: the
        stored list and the combo follow the diff step. */
    method BackgroundScanTick(found: seq<Device>)
      modifies this`nearbyDevices, this`combo
      ensures Scan(nearbyDevices, combo) == DiffStep(old(Scan(nearbyDevices, combo)), found)
    {
      if found != nearbyDevices {
        nearbyDevices := found;
        RebuildCombo(found);
      }
    }

    /** The background scan over successive `bluetoothctl devices` outputs.
        It stops when the outputs run out, or with `crashed` set at the first
        output with a malformed line, whose IndexError ends the thread;
        nothing runs once scan_stop is set. */
    method BackgroundScan(outputs: seq<seq<string>>) returns (crashed: bool)
      modifies this`nearbyDevices, this`combo
      ensures scanStop ==> !crashed && nearbyDevices == old(nearbyDevices) && combo == old(combo)
      ensures !scanStop ==> crashed == !AllListed(Listings(outputs, false))
      ensures !scanStop ==>
                Scan(nearbyDevices, combo) == Enumerate(old(Scan(nearbyDevices, combo)), Listings(outputs, false))
    {
      crashed := false;
      if scanStop {
        return;
      }
      ghost var start := Scan(nearbyDevices, combo);
      ghost var ls := Listings(outputs, false);
      var i := 0;
      // scan_stop is read before every pass, and nothing in the loop sets it
      while i < |outputs|
        invariant 0 <= i <= |outputs|
        invariant AllListed(ls[..i])
        invariant Enumerate(start, ls) == Enumerate(Scan(nearbyDevices, combo), ls[i..])
      {
        var listing := ScanBluetooth(false, outputs[i]);
        if listing.Malformed? {
          EnumerateMalformedStep(Scan(nearbyDevices, combo), ls, i);
          crashed := true;
          return;
        }
        EnumerateListedStep(Scan(nearbyDevices, combo), ls, i);
        BackgroundScanTick(listing.devices);
        i := i + 1;
      }
      assert ls[..i] == ls;
    }

    // -------------------------------------------------------------------
    // on_device_changed

    /** The text the combo box answers for its active entry ('' for none). */
    function ActiveComboText(): string
      reads this
    {
      ActiveText(combo).GetOr("")
    }

    /** A change of the selected combo entry: a blank selection desensitises
        the button; otherwise the address and name read from the entry are
        taken over when the address differs from the current one. */
    method OnDeviceChanged()
      modifies this`btAddress, this`btName, this`buttonSensitive
      ensures ExtractAddress(ActiveComboText()).None? ==>
                !buttonSensitive && btAddress == old(btAddress) && btName == old(btName)
      ensures ExtractAddress(ActiveComboText()).Some? ==>
                var a := ExtractAddress(ActiveComboText()).value;
                if a != old(btAddress) then
                  btAddress == a && btName == ExtractName(ActiveComboText()) && buttonSensitive
                else unchanged(this)
    {
      var text := "";
      match ActiveText(combo) {
        case Some(t) => text := Strip(t);
        case None =>
      }
      assert text == Strip(ActiveComboText());
      if |text| == 0 {
        buttonSensitive := false;
      } else {
        BlankIffNoWords(ActiveComboText());
        SplitStrip(ActiveComboText());
        var words := Split(text);
        var newaddress := Remove(Remove(words[|words| - 1], '('), ')');
        var newname := Remove(Remove(Delete(text, newaddress), '('), ')');
        if newaddress != btAddress {
          btAddress := newaddress;
          btName := newname;
          buttonSensitive := true;
        }
      }
    }
  }
}
