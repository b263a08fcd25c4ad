# BlueDo presence engine in Dafny

BlueDo watches a paired Bluetooth device, usually a phone. When the device
stops answering it runs an "away" command, such as locking the screen. When
the device answers again it runs a "here" command. This project models the
engine behind that, in two revisions:

- `bluedo/bluedoapp.py`, the current application;
- `bluedo.py`, the older one.

Each revision has two loops:

- a **ping loop** that samples the selected device's RSSI once per interval.
  It keeps a `lost_pings` counter and calls the here/away callbacks.
- a **device enumeration loop** that reads `bluetoothctl devices`. It
  republishes the device list to the device combo box only when the list
  changed.

The widget handlers that join the two are also modelled:

- the device combo handler;
- the enable switch;
- the exit handler.

The model is split into these modules:

- `Presence` (`presence.dfy`): values shared by both revisions.
  - `Option`;
  - the `Here`/`Away` events, which stand for calls of the callbacks;
  - a tick's counter and event, and a trace of ticks;
  - `Occurrences`, which counts the callbacks in a trace.
- `Text` (`text.dfy`): the Python string operations the engine applies to
  `bluetoothctl` output and combo texts: `str.isspace`, `split()`,
  `' '.join`, `strip()`, `replace(c, '')` and `replace(pat, '')`. Their
  lemmas state how these operations interact (`split` undoes `join`, `strip`
  keeps the words, and so on).
- `Devices` (`devices.dfy`): the device data. It covers:
  - parsing a listing line by line, with or without the no-adapter sentinel
    line;
  - the `"name (addr)"` combo entry, and reading the address and name back
    out of a combo text;
  - the diff step that rebuilds the combo only for a changed list;
  - the enumeration loop as a fold of that step over successive listings.
- `AppPresence` (`app_presence.dfy`): the ping rule of `bluetooth_ping` as
  a function of one sample, and the run of it over a sequence of samples.
- `AppController` (`app_controller.dfy`): the `BlueDo` object as a class.
  Its methods update its fields as the source does:
  - `bluetooth_ping`;
  - `bluetooth_list`;
  - `disable_all` and `enable_all`;
  - `update_combodevices`;
  - `on_device_changed`, `on_enable_state` and `on_exit_application`.

  Each loop is proved against the functions above.
- `LegacyPresence` (`legacy_presence.dfy`): the older ping rule of
  `bluetooth_listen`. Here `away` repeats every `away_count` misses and
  there is no enabled check.
- `LegacyController` (`legacy_controller.dfy`): the older `Application`
  object:
  - the enable switch, which starts at most one listening thread;
  - `start_thread`'s copied arguments;
  - `bluetooth_listen`;
  - `scan_bluetooth`;
  - `background_scan`;
  - `on_device_changed`;
  - exit.

The radio, `bluetoothctl` and the clock are replaced by their outputs:

- each ping loop is given the sequence of samples the radio delivers;
- each enumeration loop is given the sequence of `bluetoothctl devices`
  outputs, each a sequence of lines;
- each callback is returned as an event.

The stop flags are fields. A loop reads its stop flag before every pass.
Nothing inside a pass sets it.

Some behaviour of the code is easy to misread, and the model keeps it as
written:

- **Failed read.** In `bluedo/bluedoapp.py`, a read that returns None or
  raises leaves `rssi` at -99 (lines 511, 524-528). That value is then
  compared with the threshold like any other (line 530), so a failed read is
  a miss only when the threshold is above -99
  (`AppPresence.FailureIsMissBelowThreshold`).
- **When `away` fires.** In `bluedo/bluedoapp.py`, `away` fires on
  `lost_pings == away_count` (line 536), and misses are counted only while
  the service is enabled (line 534). The counter is not reset, so `away`
  fires once per absence.
- **The older rule.** `bluedo.py` tests `lost_pings >= away_count` and
  resets the counter (lines 352-353), so there `away` repeats every
  `away_count` misses.
- **Names read back from the combo.** A name read back from a combo entry
  keeps the space that stood before the parenthesis: `"Phone (addr)"` gives
  the name `"Phone "` (bluedo/bluedoapp.py:220, `Devices.NameRoundTrip`).

## Model

| member | source | states |
|---|---|---|
| AppPresence.Step | bluedo/bluedoapp.py:510-543 | `here` fires iff the address is long enough to sample, the sample is not a miss and the counter was positive. `away` fires iff the address is sampled, the sample is a miss, the service is enabled and the incremented counter equals away_count. |
| AppPresence.Level | bluedo/bluedoapp.py:514-528 | Computes the level bar after one tick: 0 for a short address, 10 + rssi for a reading, 10 - 99 for None, and the previous value when the read raised. |
| AppPresence.Run | bluedo/bluedoapp.py:505-545 | Computes the ping loop over a sequence of samples: `Step` applied tick by tick from a starting counter, giving the final counter and one event per sample. |
| AppPresence.LevelRun | bluedo/bluedoapp.py:510-528 | Computes the level bar after a sequence of samples, `Level` applied tick by tick. |
| AppPresence.FailureIsMissBelowThreshold | bluedo/bluedoapp.py:511-530 | A read that gave None or raised is a miss exactly when the threshold is above -99. |
| AppPresence.RunAppend | bluedo/bluedoapp.py:510-545 | Running the loop over `a + b` equals running it over `a`, then over `b` from the counter `a` left. |
| AppPresence.ShortAddressIdles | bluedo/bluedoapp.py:514-519 | With an address shorter than 17 characters, the counter never changes and neither callback fires, whatever the samples. |
| AppPresence.MissRunFiresAwayOnce | bluedo/bluedoapp.py:530-537 | While enabled, k misses raise the counter by exactly k. `away` fires once if away_count is crossed during the run, and never otherwise. `here` never fires. |
| AppPresence.DisabledNeverAway | bluedo/bluedoapp.py:530-537 | While disabled, the counter never grows, a run of misses leaves it exactly where it was, and `away` never fires. |
| AppPresence.InRangeRunGreetsOnce | bluedo/bluedoapp.py:530-540 | A non-empty run of in-range samples resets the counter. It fires `here` exactly once if the counter was positive, and never `away`. |
| AppPresence.QuietStretchFiresAwayAtMostOnce | bluedo/bluedoapp.py:530-540 | A stretch without `here` never lowers the counter and fires `away` at most once. A counter already at or past away_count fires no `away` at all. |
| AppPresence.NoSecondAwayWithoutHere | bluedo/bluedoapp.py:530-540 | After an `away`, no second `away` fires until a `here` has fired. |
| AppPresence.ShortAbsenceStillGreets | bluedo/bluedoapp.py:530-540 | Fewer than away_count misses followed by an in-range sample fire `here` once and `away` never. |
| AppPresence.AwayThenHere | bluedo/bluedoapp.py:530-540 | Threshold -10, away_count 3, samples -5, -20, -20, -20, -5: `away` fires at the fourth sample and `here` at the fifth. |
| AppController.BlueDo.constructor | bluedo/bluedoapp.py:27-42 | The class defaults: disabled, threshold 0, away_count 5, no address, both stop flags clear, no devices. |
| AppController.BlueDo.PingTick | bluedo/bluedoapp.py:510-545 | One pass of the ping loop sets the counter and the callback as `Step` does, and the level bar as `Level` does. |
| AppController.BlueDo.BluetoothPing | bluedo/bluedoapp.py:505-545 | The ping loop starts from a zero counter. Its final counter and its callbacks are the run of `Step` over the samples, and its level bar is the fold of `Level`. With ping_stop set, nothing happens. |
| AppController.BlueDo.BluetoothList | bluedo/bluedoapp.py:409-439 | A dry run returns no devices. Otherwise the result is the listing parsed up to a blank line, the end of output or the no-adapter line, or the first line with fewer than two words. |
| AppController.BlueDo.DisableAll | bluedo/bluedoapp.py:243-251 | A sensitive button and menu item become insensitive, and the label reads "Bluetooth disabled". Otherwise nothing changes. |
| AppController.BlueDo.EnableAll | bluedo/bluedoapp.py:253-261 | Insensitive controls become sensitive, and the label reads the pairing hint. Otherwise nothing changes. |
| AppController.BlueDo.RebuildCombo | bluedo/bluedoapp.py:465-471 | The combo holds the previously active text, active, followed by one `"name (addr)"` entry per device, in order. |
| AppController.BlueDo.UpdateComboTick | bluedo/bluedoapp.py:456-471 | After a pass, the button is sensitive iff devices were found, and the label changes only when the sensitivity flips. The stored list and the combo follow the diff step. |
| AppController.BlueDo.UpdateCombodevices | bluedo/bluedoapp.py:447-473 | The enumeration loop is the fold of diff steps over the parsed outputs. It crashes iff some output has a malformed line, and then stops at the first one. With scan_stop set, nothing changes. |
| AppController.BlueDo.OnDeviceChanged | bluedo/bluedoapp.py:207-227 | A blank or missing selection desensitises both controls and keeps the device. Otherwise the address and name read from the entry are taken over, and the controls sensitised, exactly when the address differs from the current one. |
| AppController.BlueDo.OnEnableState | bluedo/bluedoapp.py:192-205 | The enabled flag takes the switch's state. |
| AppController.BlueDo.OnExitApplication | bluedo/bluedoapp.py:181-186 | Both loops are told to stop, and `here` fires unconditionally. |
| LegacyPresence.Step | bluedo.py:350-357 | `here` fires iff the sample is in range and the counter was positive. `away` fires iff the sample is None or below the threshold and the incremented counter reaches away_count. The counter always stays below max(away_count, 1). |
| LegacyPresence.StepAsWritten | bluedo.py:343-357 | Computes one tick as the code is written: no tick at all (the TypeError at line 345) for a None sample, otherwise the `>=` rule with reset. |
| LegacyPresence.Run | bluedo.py:340-359 | Computes the listening loop over a sequence of samples: the corrected `Step` applied tick by tick from a starting counter. |
| LegacyPresence.LevelRun | bluedo.py:343-345 | Computes the level bar after a sequence of samples: 10 + rssi of the last sample that held a value. |
| LegacyPresence.NoneSampleCrashes | bluedo.py:343-351 | As written, a None sample ends the loop at `10 + rssi`, although the miss test right after it counts None as a miss. |
| LegacyPresence.StepAgreesOnValues | bluedo.py:343-357 | On every sample that holds a value, the corrected tick equals the tick as written. |
| LegacyPresence.RunAppend | bluedo.py:343-359 | Running over `a + b` equals running over `a`, then over `b` from the counter `a` left. |
| LegacyPresence.MissRunBelow | bluedo.py:350-354 | Misses that keep the counter below away_count only count, and fire nothing. |
| LegacyPresence.MissRunReachesN | bluedo.py:350-354 | The miss that brings the counter to away_count fires `away` once and resets the counter to 0. |
| LegacyPresence.MissRunFiresEveryN | bluedo.py:350-354 | Take k misses from a counter below n, with lost + k = q·n + r and r < n. `away` fires exactly q times, the counter ends at r, and `here` never fires. |
| LegacyPresence.RunPrefix | bluedo.py:343-359 | The i-th callback of a run is the tick of the i-th sample from the counter the first i samples left. |
| LegacyPresence.NoHereRightAfterAway | bluedo.py:350-357 | An in-range sample right after an `away` fires nothing, because the `away` reset the counter. |
| LegacyPresence.AwayThenSilence | bluedo.py:350-357 | Threshold -10, away_count 3, samples -5, -20, -20, -20, -5: `away` fires at the fourth sample and nothing at the fifth. |
| LegacyController.Application.constructor | bluedo.py:25-39 | The class defaults: disabled, threshold 0, away_count 5, no thread, ping_stop set. |
| LegacyController.Application.StartThread | bluedo.py:320-334 | The new thread gets the address and the threshold as they are now. |
| LegacyController.Application.OnEnableState | bluedo.py:117-135 | The enabled flag takes the state. Enabling without an address desensitises the button. Enabling with one starts a thread iff ping_stop was set, and clears it. Disabling sets ping_stop. A thread exists whenever ping_stop is clear. |
| LegacyController.Application.EnableTwice | bluedo.py:128-130 | Switching on twice starts exactly one thread. |
| LegacyController.Application.OnExitApplication | bluedo.py:137-140 | Exit stops the scan, sets ping_stop and clears enabled. No callback fires. |
| LegacyController.Application.ListenTick | bluedo.py:343-357 | One pass uses the threshold copied at thread start and the current away_count. The counter and callback are those of `LegacyPresence.Step`, and the level bar is 10 + rssi. |
| LegacyController.Application.BluetoothListen | bluedo.py:336-359 | The listening loop's final counter and its callbacks are the run of `Step` over the samples, from 0. The level bar shows the last value read. With ping_stop set, nothing happens. |
| LegacyController.Application.ScanBluetooth | bluedo.py:243-271 | A dry run returns no devices. Otherwise the result is the listing parsed up to a blank line or the end of output (no sentinel check), or the first line with fewer than two words. |
| LegacyController.Application.RebuildCombo | bluedo.py:289-295 | The combo holds the previously active text, active, followed by one `"name (addr)"` entry per device. |
| LegacyController.Application.BackgroundScanTick | bluedo.py:286-295 | The stored list and the combo follow the diff step. |
| LegacyController.Application.BackgroundScan | bluedo.py:277-298 | The background scan is the fold of diff steps over the parsed outputs. It crashes iff some output has a malformed line. With scan_stop set, nothing changes. |
| LegacyController.Application.OnDeviceChanged | bluedo.py:142-161 | A blank selection desensitises the button. Otherwise the address and name are taken over, and the button sensitised, exactly when the address differs. |
| Devices.ParseLine | bluedo/bluedoapp.py:434-436 | A line yields no device exactly when it has fewer than two words, where `split()[1]` raises. Otherwise the device's address is the line's second word, and its name is the remaining words joined by single spaces. |
| Devices.ParseListing | bluedo/bluedoapp.py:429-436 | Computes one listing: the devices of the lines read up to the first blank line, the end of output or (with the sentinel check) the no-adapter line, or the first line with fewer than two words. `ListingReadsUpToStop`, `ListedDevicesInOrder` and `MalformedNamesFirstBadLine` state its properties. |
| Devices.ParseLineWords | bluedo/bluedoapp.py:434-435 | A line fails to parse iff it has fewer than two words. Otherwise the address is its second word, and the name splits back into exactly the remaining words with no whitespace at either end. |
| Devices.StopIndex | bluedo/bluedoapp.py:429-433 | Gives the index of the first blank or sentinel line; no line before it stops the listing. |
| Devices.ListingReadsUpToStop | bluedo/bluedoapp.py:429-436 | A listing succeeds iff every line before the first stop line has at least two words. |
| Devices.ListedDevicesInOrder | bluedo/bluedoapp.py:429-436 | A successful listing holds exactly one device per line before the stop line, in order. |
| Devices.MalformedNamesFirstBadLine | bluedo/bluedoapp.py:429-436 | A failed listing names the first line before the stop line that has fewer than two words; every earlier line parsed. |
| Devices.ListingsAgreeWithoutNoController | bluedo.py:263-268 | On output without the no-adapter line, the two revisions' parsers give the same result. |
| Devices.FourWordListing | bluedo.py:263-268 | A four-word line, read without the sentinel check, yields one device: address word 2, name words 3 and 4. |
| Devices.NoControllerLine | bluedo/bluedoapp.py:432-433 | With the sentinel check, the no-adapter line ends the listing. Without it, as in bluedo.py, the line reads as a device "controller available" at address "default". |
| Devices.EntryText | bluedo/bluedoapp.py:470-471 | Computes the combo entry `"name (addr)"`. The `(name, addr)` tuples are unpacked as `address, name`, so the name comes first. `AddressRoundTrip` and `NameRoundTrip` read it back. |
| Devices.ExtractName | bluedo/bluedoapp.py:220 | The name read from a combo text is '' for a blank text and never contains a parenthesis. It is the stripped text with the address deleted and the parentheses removed. |
| Devices.ExtractAddress | bluedo/bluedoapp.py:209-219 | The address read from a combo text is absent iff the text is blank. It contains no parenthesis and no whitespace. |
| Devices.AddressRoundTrip | bluedo/bluedoapp.py:219 | For an address without whitespace or parentheses, the address read back from a device's combo entry is the device's address, whatever the name. |
| Devices.NameRoundTrip | bluedo/bluedoapp.py:220 | For a non-empty name that does not start with whitespace, has no parentheses and does not contain the address, the name read back from the entry is the name plus the space before the parenthesis. (An empty name reads back as '', see `NamelessRoundTrip`; leading whitespace is lost to `strip()` at line 211.) |
| Devices.NamelessRoundTrip | bluedo/bluedoapp.py:220 | A device without a name reads back with an empty name. |
| Devices.Rebuild | bluedo/bluedoapp.py:465-471 | A rebuilt combo has one entry per device plus one, and its active entry is the previously active text, or '' if there was none. |
| Devices.RebuildRoundTrip | bluedo/bluedoapp.py:465-471 | Every device entry of a rebuilt combo reads back as its device's address. |
| Devices.DiffStep | bluedo/bluedoapp.py:463-471 | After a step the stored list is the found list. An unchanged list leaves everything as it was. A changed list (order counts) leaves the combo with one entry per device plus one, and its active entry is the previously active text. |
| Devices.DiffStepIdempotent | bluedo/bluedoapp.py:463-471 | Applying the same list twice is the same as applying it once. |
| Devices.ReorderIsAChange | bluedo/bluedoapp.py:463 | The same two devices in the other order rebuild the combo. |
| Devices.RepeatedListingPublishesOnce | bluedo/bluedoapp.py:463-471 | The same phone listed twice rebuilds the combo the first time only. |
| Devices.Enumerate | bluedo/bluedoapp.py:451-473 | Computes the enumeration loop: one diff step per listing, in order, stopping at the first malformed listing, whose IndexError ends the thread. |
| Devices.EnumerateAppend | bluedo/bluedoapp.py:451-473 | Enumerating two batches of outputs one after the other is enumerating them together, unless the first batch crashes. |
| Devices.EnumerateStoresLastListing | bluedo/bluedoapp.py:451-473 | After listings that all succeed, the stored list is the last listing's devices. |
| Devices.EnumerateRepeatIsQuiet | bluedo/bluedoapp.py:451-473 | Reading the same output again right away changes nothing. |
| Text.StripBlank | bluedo/bluedoapp.py:430 | `strip()` gives '' iff the string is all whitespace. Otherwise the result starts and ends with a non-whitespace character. |
| Text.BlankIffNoWords | bluedo/bluedoapp.py:430-434 | A line is blank for `strip() == ''` iff `split()` gives no words. |
| Text.SplitTokens | bluedo/bluedoapp.py:434 | Every word `split()` returns is non-empty and free of whitespace. |
| Text.SplitJoin | bluedo/bluedoapp.py:435 | `split()` undoes `' '.join` of whitespace-free words. |
| Text.SplitStrip | bluedo/bluedoapp.py:211-219 | `strip()` never changes the words `split()` returns. |
| Text.RemoveKeepsOthers | bluedo/bluedoapp.py:219-220 | `replace(c, '')` keeps exactly the characters other than c. |
| Text.DeleteKeepsPrefix | bluedo/bluedoapp.py:220 | `replace(pat, '')` keeps a prefix in which no occurrence of pat starts. |

## Left out

- Threads: each loop is a sequential method over its inputs. Interleavings
  of the two loops and the GTK main loop are not modelled, and neither is a
  stop flag set from another thread in the middle of a pass.
- `time.sleep` and the `interval`/5-second pauses are left out; they only
  space the passes.
- `BluetoothRSSI` and `bt_rssi.py` become the samples a ping loop is given.
  The sampling session and its sockets are not modelled. bt_rssi.py is not
  part of this model.
- `subprocess.Popen` of `bluetoothctl`, `readline` and `communicate` become
  the lines of each output.
- `save_config`, `load_config`, `syslog`, `print` and the debug flag are left
  out; they write files or logs and change no modelled state.
- The here/away callback bodies, which run the configured commands, become
  the returned `Here`/`Away` events.
- AppController.BlueDo.OnEnableState: the menu item's handler-blocked
  `set_active` sync (bluedo/bluedoapp.py:195-201) is not modelled; only
  `enabled` is.
- AppController.BlueDo.UpdateCombodevices: when the loop runs, does not state
  the button, menu and label after the whole loop; `UpdateComboTick` states
  them for each pass. With scan_stop set, nothing changes.
- AppController.BlueDo.BluetoothList and LegacyController.Application.ScanBluetooth:
  the dry run's assignment of three sample devices to `self.devices`
  (bluedo/bluedoapp.py:416-420, bluedo.py:250-254) is left out. Nothing in
  the engine reads `self.devices`, and the dry run returns the empty list.
- LegacyController.Application.ListenTick and LegacyController.Application.BluetoothListen:
  model the corrected tick, in which a None sample counts as a miss and
  leaves the level bar. As written, a None sample ends the thread (see
  Findings).
- GTK's `changed` signal during a combo rebuild is not modelled. `remove_all()`
  and `set_active(0)` (bluedo/bluedoapp.py:466-468, bluedo.py:290-292) can
  re-enter `on_device_changed` in the middle of an enumeration pass, which
  would desensitise the controls when the active entry is cleared. The
  window definition that connects the signal is not part of this model, and
  the rebuild methods state the combo alone.
- The spinner in `background_scan` and the GTK widgets themselves are
  reduced to the state they hold (sensitivity, label text, combo entries,
  level value).
- Python integers are unbounded, as Dafny's are, so there is no wrap-around
  to model.
- `Text.IsSpace` covers the ASCII and Unicode separators Python's
  `str.isspace` accepts. Unicode case and normalisation play no part.
- bluelock.py, setup.py and bluedo/__init__.py are not part of this model.

## Findings

| source | as written | input that shows it | evidently intended | confidence | as-written member | corrected member |
|---|---|---|---|---|---|---|
| bluedo.py:344-350 | `levelSignal.set_value(10+rssi)` runs before the `rssi is None` test, so a None sample raises a TypeError and ends the listening thread (`LegacyPresence.StepAsWritten`) | `get_rssi()` returns None (no recent connection to the device) | a None sample counts as a miss, as the test at line 350 says | not executed | LegacyPresence.NoneSampleCrashes | LegacyPresence.Step |
