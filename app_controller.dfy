/** The BlueDo application object of bluedo/bluedoapp.py: the fields its ping
    loop, its device enumeration loop and its widget handlers read and
    update. Widgets are reduced to the state they hold (sensitivity flags, the
    info label, the combo entries, the level bar), callbacks to returned
    events, and the radio and `bluetoothctl` to the samples and output lines
    the methods are given. */
module AppController {
  import opened Presence
  import opened Text
  import opened Devices
  import opened AppPresence

  /** The info label after disable_all and after enable_all. */
  const DisabledInfo: string := "Bluetooth disabled"
  const EnabledInfo: string := "Device should already be paired with computer."

  class BlueDo {
    var enabled: bool
    var threshold: int
    var awayCount: int
    var btAddress: string
    var btName: string
    /** Signals the ping loop to stop. */
    var pingStop: bool
    /** Signals the enumeration loop to stop. */
    var scanStop: bool
    /** The ping loop's miss counter. */
    var lostPings: nat
    /** The value of the signal level bar. */
    var level: int
    /** Sensitivity of the enable button and of the enable menu item. */
    var buttonSensitive: bool
    var menuSensitive: bool
    var labelInfo: string
    var nearbyDevices: seq<Device>
    var combo: Combo

    /** The button and the menu item are switched together. */
    predicate Valid()
      reads this
    {
      buttonSensitive == menuSensitive
    }

    /** The class defaults, before the configuration is loaded. */
    constructor ()
      ensures Valid()
      ensures !enabled && threshold == 0 && awayCount == 5
      ensures btAddress == [] && btName == [] && !pingStop && !scanStop
      ensures lostPings == 0 && nearbyDevices == [] && combo == Combo([], -1)
    {
      enabled := false;
      threshold := 0;
      awayCount := 5;
      btAddress := [];
      btName := [];
      pingStop := false;
      scanStop := false;
      lostPings := 0;
      level := 0;
      buttonSensitive := true;
      menuSensitive := true;
      labelInfo := [];
      nearbyDevices := [];
      combo := Combo([], -1);
    }

    /** The fields the ping loop reads on each tick. */
    function PingSettings(): Settings
      reads this
    {
      Settings(btAddress, enabled, threshold, awayCount)
    }

    // -------------------------------------------------------------------
    // bluetooth_ping

    /** One pass of the ping loop's body. */
    method PingTick(sample: Sample) returns (event: Option<Event>)
      modifies this`lostPings, this`level
      ensures var t := Step(PingSettings(), old(lostPings), sample);
        lostPings == t.lost && event == t.event
      ensures level == Level(PingSettings(), old(level), sample)
    {
      var rssi := UnknownRssi;
      var addr := btAddress;
      if |addr| < AddressLength {
        level := 0;
        return None;
      }
      match sample {
        case Reading(v) =>
          rssi := v;
          level := 10 + rssi;
        case NoReading =>
          rssi := UnknownRssi;
          level := 10 + rssi;
        case Raised =>
      }
      event := None;
      if rssi < threshold {
        if enabled {
          lostPings := lostPings + 1;
          if lostPings == awayCount {
            event := Some(Away);
          }
        }
      } else if lostPings > 0 {
        lostPings := 0;
        event := Some(Here);
      }
    }

    /** The ping loop over the samples the radio delivers, from a fresh
        counter, until the samples run out; nothing runs once ping_stop is set. */
    method BluetoothPing(samples: seq<Sample>) returns (events: seq<Option<Event>>)
      modifies this`lostPings, this`level
      ensures pingStop ==> events == [] && lostPings == 0 && level == old(level)
      ensures !pingStop ==> Outcome(lostPings, events) == Run(PingSettings(), 0, samples)
      ensures !pingStop ==> level == LevelRun(PingSettings(), old(level), samples)
    {
      lostPings := 0;
      events := [];
      var i := 0;
      while i < |samples| && !pingStop
        invariant 0 <= i <= |samples|
        invariant pingStop ==> i == 0 && events == [] && lostPings == 0 && level == old(level)
        invariant !pingStop ==> Outcome(lostPings, events) == Run(PingSettings(), 0, samples[..i])
        invariant !pingStop ==> level == LevelRun(PingSettings(), old(level), samples[..i])
      {
        var event := PingTick(samples[i]);
        events := events + [event];
        assert samples[..i + 1][..i] == samples[..i];
        i := i + 1;
      }
      if !pingStop {
        assert samples[..i] == samples;
      }
    }

    // -------------------------------------------------------------------
    // bluetooth_list, enable_all, disable_all, update_combodevices

    /** The devices of one `bluetoothctl devices` output, read until a blank
        line, the end of the output or the no-adapter line; a dry run reads
        nothing. */
    method BluetoothList(dryrun: bool, lines: seq<string>) returns (r: Listing)
      ensures dryrun ==> r == Listed([])
      ensures !dryrun ==> r == ParseListing(lines, true)
    {
      var devices: seq<Device> := [];
      if dryrun {
        return Listed(devices);
      }
      var i := 0;
      while i < |lines|
        invariant 0 <= i <= |lines|
        invariant ParseListing(lines, true) == Prepend(devices, ParseListing(lines[i..], true))
      {
        var line := lines[i];
        assert lines[i..][0] == line;
        if Strip(line) == [] {
          break;
        }
        if line == NoController {
          break;
        }
        var words := Split(line);
        if |words| < 2 {
          return Malformed(line);
        }
        var addr := words[1];
        var name := Join(words[2..]);
        assert lines[i..][1..] == lines[i + 1..];
        PrependPrepend(devices, [Device(name, addr)], ParseListing(lines[i + 1..], true));
        devices := devices + [Device(name, addr)];
        i := i + 1;
      }
      assert devices + [] == devices;
      return Listed(devices);
    }

    /** Desensitise the controls, if the button is sensitive. */
    method DisableAll()
      modifies this`buttonSensitive, this`menuSensitive, this`labelInfo
      ensures old(buttonSensitive) ==> !buttonSensitive && !menuSensitive && labelInfo == DisabledInfo
      ensures !old(buttonSensitive) ==> unchanged(this)
    {
      if buttonSensitive {
        buttonSensitive := false;
        menuSensitive := false;
        labelInfo := DisabledInfo;
      }
    }

    /** Sensitise the controls, if the button is not sensitive. */
    method EnableAll()
      modifies this`buttonSensitive, this`menuSensitive, this`labelInfo
      ensures !old(buttonSensitive) ==> buttonSensitive && menuSensitive && labelInfo == EnabledInfo
      ensures old(buttonSensitive) ==> unchanged(this)
    {
      if !buttonSensitive {
        buttonSensitive := true;
        menuSensitive := true;
        labelInfo := EnabledInfo;
      }
    }

    /** remove_all, append_text of the previously active text, set_active(0),
        then one append_text per device. */
    method RebuildCombo(found: seq<Device>)
      modifies this`combo
      ensures combo == Rebuild(old(combo), found)
    {
      var current := ActiveText(combo).GetOr("");
      combo := Combo([], -1);
      combo := combo.(entries := combo.entries + [current]);
      combo := combo.(active := 0);
      var k := 0;
      while k < |found|
        invariant 0 <= k <= |found|
        invariant combo.active == 0 && |combo.entries| == k + 1
        invariant combo.entries[0] == current
        invariant forall j :: 0 <= j < k ==> combo.entries[j + 1] == EntryText(found[j])
      {
        combo := combo.(entries := combo.entries + [EntryText(found[k])]);
        k := k + 1;
      }
      RebuiltEntries(current, found, combo.entries);
    }

    /** One pass of the enumeration loop after the listing read `found`: the
        controls follow whether any device was found, and the stored list and
        the combo follow the diff step. */
    method UpdateComboTick(found: seq<Device>)
      requires Valid()
      modifies this`buttonSensitive, this`menuSensitive, this`labelInfo, this`nearbyDevices, this`combo
      ensures Valid()
      ensures buttonSensitive <==> found != []
      ensures labelInfo == if old(buttonSensitive) <==> found != [] then old(labelInfo)
                           else if found == [] then DisabledInfo else EnabledInfo
      ensures Scan(nearbyDevices, combo) == DiffStep(old(Scan(nearbyDevices, combo)), found)
    {
      if |found| == 0 {
        DisableAll();
      } else {
        EnableAll();
      }
      if found != nearbyDevices {
        nearbyDevices := found;
        RebuildCombo(found);
      }
    }

    /** The enumeration loop over successive `bluetoothctl devices` outputs.
        It stops when the outputs run out, or with `crashed` set at the first
        output with a malformed line, whose IndexError ends the thread; nothing
        runs once scan_stop is set. */
    method UpdateCombodevices(outputs: seq<seq<string>>) returns (crashed: bool)
      requires Valid()
      modifies this`buttonSensitive, this`menuSensitive, this`labelInfo, this`nearbyDevices, this`combo
      ensures Valid()
      ensures scanStop ==> !crashed && nearbyDevices == old(nearbyDevices) && combo == old(combo)
      ensures scanStop ==> unchanged(this)
      ensures !scanStop ==> crashed == !AllListed(Listings(outputs, true))
      ensures !scanStop ==>
                Scan(nearbyDevices, combo) == Enumerate(old(Scan(nearbyDevices, combo)), Listings(outputs, true))
    {
      crashed := false;
      if scanStop {
        return;
      }
      ghost var start := Scan(nearbyDevices, combo);
      ghost var ls := Listings(outputs, true);
      var i := 0;
      // scan_stop is read before every pass, and nothing in the loop sets it
      while i < |outputs|
        invariant 0 <= i <= |outputs| && Valid()
        invariant AllListed(ls[..i])
        invariant Enumerate(start, ls) == Enumerate(Scan(nearbyDevices, combo), ls[i..])
      {
        var listing := BluetoothList(false, outputs[i]);
        if listing.Malformed? {
          EnumerateMalformedStep(Scan(nearbyDevices, combo), ls, i);
          crashed := true;
          return;
        }
        EnumerateListedStep(Scan(nearbyDevices, combo), ls, i);
        UpdateComboTick(listing.devices);
        i := i + 1;
      }
      assert ls[..i] == ls;
    }

    // -------------------------------------------------------------------
    // Handlers

    /** The text the combo box answers for its active entry ('' for none). */
    function ActiveComboText(): string
      reads this
    {
      ActiveText(combo).GetOr("")
    }

    /** A change of the selected combo entry: a blank selection desensitises
        the controls; otherwise the address and name read from the entry are
        taken over when the address differs from the current one. */
    method OnDeviceChanged()
      requires Valid()
      modifies this`btAddress, this`btName, this`buttonSensitive, this`menuSensitive
      ensures Valid()
      ensures ExtractAddress(ActiveComboText()).None? ==>
                !buttonSensitive && btAddress == old(btAddress) && btName == old(btName)
      ensures ExtractAddress(ActiveComboText()).Some? ==>
                var a := ExtractAddress(ActiveComboText()).value;
                if a != old(btAddress) then
                  btAddress == a && btName == ExtractName(ActiveComboText()) && buttonSensitive
                else unchanged(this)
    {
      var text := "";
      match ActiveText(combo) {
        case Some(t) => text := Strip(t);
        case None =>
      }
      assert text == Strip(ActiveComboText());
      if |text| == 0 {
        buttonSensitive := false;
        menuSensitive := false;
      } else {
        BlankIffNoWords(ActiveComboText());
        SplitStrip(ActiveComboText());
        var words := Split(text);
        var newaddress := Remove(Remove(words[|words| - 1], '('), ')');
        var newname := Remove(Remove(Delete(text, newaddress), '('), ')');
        if newaddress != btAddress {
          btAddress := newaddress;
          btName := newname;
          buttonSensitive := true;
          menuSensitive := true;
        }
      }
    }

    /** The enable switch: the ping loop counts misses only while enabled. */
    method OnEnableState(state: bool)
      modifies this`enabled
      ensures enabled == state
    {
      enabled := state;
    }

    /** Quitting stops both loops and fires `here` unconditionally. */
    method OnExitApplication() returns (event: Option<Event>)
      modifies this`scanStop, this`pingStop
      ensures scanStop && pingStop && event == Some(Here)
    {
      scanStop := true;
      pingStop := true;
      event := Some(Here);
    }
  }
}
