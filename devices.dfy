/** Paired devices as both revisions handle them: parsing the lines of
    `bluetoothctl devices`, the combo-box entry `"name (addr)"` built for each
    device, taking the address and name back out of a combo text, and the
    diff step that republishes the device list only when it changed. */
module Devices {
  import opened Presence
  import opened Text

  /** One paired device, in the (name, addr) order of the source's tuples. */
  datatype Device = Device(name: string, addr: string)

  /** The words of the line bluetoothctl prints without an adapter. */
  const NoControllerWords: seq<string> := ["No", "default", "controller", "available"]

  /** That line exactly: its words joined by single spaces, then the newline. */
  const NoController: string := Join(NoControllerWords) + "\n"

  /** How reading a listing ends: every device read, or the IndexError raised
      by a non-blank line with fewer than two words. */
  datatype Listing = Listed(devices: seq<Device>) | Malformed(line: string)

  /** The combo box: its entry texts and the active index (-1: none). */
  datatype Combo = Combo(entries: seq<string>, active: int)

  /** The device list last published, and the combo box it was published to. */
  datatype Scan = Scan(stored: seq<Device>, combo: Combo)

  // ---------------------------------------------------------------------
  // Parsing `bluetoothctl devices`

  /** One listing line: the second word is the address, the words after it,
      joined by single spaces, the name; fewer than two words raise. */
  function ParseLine(line: string): (r: Option<Device>)
    ensures r.None? <==> |Split(line)| < 2
    ensures r.Some? ==> r.value.addr == Split(line)[1]
  {
    var words := Split(line);
    if |words| < 2 then None else Some(Device(Join(words[2..]), words[1]))
  }

  /** What a parsed line holds: the address is the line's second word, the
      name splits back into exactly the words after it and has no whitespace
      at either end. */
  lemma ParseLineWords(line: string)
    ensures ParseLine(line).None? <==> |Split(line)| < 2
    ensures ParseLine(line).Some? ==>
              var d := ParseLine(line).value;
              IsToken(d.addr) && d.addr == Split(line)[1] &&
              Split(d.name) == Split(line)[2..] &&
              (d.name == [] || (!IsSpace(d.name[0]) && !IsSpace(d.name[|d.name| - 1])))
  {
    var words := Split(line);
    SplitTokens(line);
    if |words| >= 2 {
      SplitJoin(words[2..]);
      if |words| > 2 {
        JoinEdges(words[2..]);
      }
    }
  }

  /** A line that ends the listing: blank (which also covers the end of the
      output, where readline returns ''), or, when the revision checks for it,
      the no-adapter message. */
  predicate Stops(line: string, stopAtNoController: bool) {
    Strip(line) == [] || (stopAtNoController && line == NoController)
  }

  /** A listing with ds read in front of it. */
  function Prepend(ds: seq<Device>, r: Listing): Listing {
    match r
    case Listed(rest) => Listed(ds + rest)
    case Malformed(line) => Malformed(line)
  }

  /** The devices of a listing, read line by line until a stop line. */
  function ParseListing(lines: seq<string>, stopAtNoController: bool): Listing {
    if lines == [] || Stops(lines[0], stopAtNoController) then Listed([])
    else
      match ParseLine(lines[0])
      case None => Malformed(lines[0])
      case Some(d) => Prepend([d], ParseListing(lines[1..], stopAtNoController))
  }

  /** Index of the first stop line (|lines| when there is none). */
  function StopIndex(lines: seq<string>, stopAtNoController: bool): (k: nat)
    ensures k <= |lines|
    ensures forall j :: 0 <= j < k ==> !Stops(lines[j], stopAtNoController)
    ensures k < |lines| ==> Stops(lines[k], stopAtNoController)
  {
    if lines == [] || Stops(lines[0], stopAtNoController) then 0
    else 1 + StopIndex(lines[1..], stopAtNoController)
  }

  /** Reading one more line extends the devices read so far. */
  lemma PrependPrepend(a: seq<Device>, b: seq<Device>, r: Listing)
    ensures Prepend(a, Prepend(b, r)) == Prepend(a + b, r)
  {
    if r.Listed? {
      assert a + (b + r.devices) == (a + b) + r.devices;
    }
  }

  /** Past a line that does not stop it, a listing is that line's device in
      front of the listing of the rest, or the line itself when it does not
      parse. */
  lemma ParseListingCons(lines: seq<string>, stopAtNoController: bool)
    requires lines != [] && !Stops(lines[0], stopAtNoController)
    ensures StopIndex(lines, stopAtNoController) == 1 + StopIndex(lines[1..], stopAtNoController)
    ensures ParseListing(lines, stopAtNoController) ==
              match ParseLine(lines[0])
              case None => Malformed(lines[0])
              case Some(d) => Prepend([d], ParseListing(lines[1..], stopAtNoController))
  {
  }

  /** A listing succeeds exactly when every line before the first stop line
      parses. */
  lemma {:induction false} ListingReadsUpToStop(lines: seq<string>, stopAtNoController: bool)
    ensures ParseListing(lines, stopAtNoController).Listed? <==>
              forall j :: 0 <= j < StopIndex(lines, stopAtNoController) ==> ParseLine(lines[j]).Some?
  {
    if lines != [] && !Stops(lines[0], stopAtNoController) {
      var rest := lines[1..];
      ParseListingCons(lines, stopAtNoController);
      ListingReadsUpToStop(rest, stopAtNoController);
      var k := StopIndex(lines, stopAtNoController);
      assert forall j :: 1 <= j < k ==> rest[j - 1] == lines[j];
    }
  }

  /** A listing that succeeds holds the devices of the lines before the first
      stop line, in order. */
  lemma {:induction false} ListedDevicesInOrder(lines: seq<string>, stopAtNoController: bool)
    requires ParseListing(lines, stopAtNoController).Listed?
    ensures var r := ParseListing(lines, stopAtNoController);
      |r.devices| == StopIndex(lines, stopAtNoController) &&
      forall j :: 0 <= j < |r.devices| ==> ParseLine(lines[j]) == Some(r.devices[j])
  {
    if lines != [] && !Stops(lines[0], stopAtNoController) {
      var rest := lines[1..];
      ParseListingCons(lines, stopAtNoController);
      var d := ParseLine(lines[0]).value;
      var tail := ParseListing(rest, stopAtNoController);
      assert ParseListing(lines, stopAtNoController) == Listed([d] + tail.devices);
      ListedDevicesInOrder(rest, stopAtNoController);
      DevicesShift(lines, d, tail.devices);
    }
  }

  /** The devices read from the lines after the first, behind the first
      line's device, are read from the lines themselves. */
  lemma DevicesShift(lines: seq<string>, d: Device, ds: seq<Device>)
    requires lines != [] && ParseLine(lines[0]) == Some(d) && |ds| < |lines|
    requires forall j :: 0 <= j < |ds| ==> ParseLine(lines[1..][j]) == Some(ds[j])
    ensures forall j :: 0 <= j < |ds| + 1 ==> ParseLine(lines[j]) == Some(([d] + ds)[j])
  {
    forall j | 1 <= j < |ds| + 1 ensures ParseLine(lines[j]) == Some(([d] + ds)[j]) {
      assert lines[1..][j - 1] == lines[j];
    }
  }

  /** A failed listing names the first line before the stop that has fewer
      than two words. */
  lemma MalformedNamesFirstBadLine(lines: seq<string>, stopAtNoController: bool)
    requires ParseListing(lines, stopAtNoController).Malformed?
    ensures exists j :: (0 <= j < StopIndex(lines, stopAtNoController) &&
      ParseListing(lines, stopAtNoController).line == lines[j] &&
      ParseLine(lines[j]).None? &&
      forall m :: 0 <= m < j ==> ParseLine(lines[m]).Some?)
  {
    var j := FirstBadLine(lines, stopAtNoController);
  }

  /** The index of the line a failed listing names. */
  lemma {:induction false} FirstBadLine(lines: seq<string>, stopAtNoController: bool) returns (j: nat)
    requires ParseListing(lines, stopAtNoController).Malformed?
    ensures j < StopIndex(lines, stopAtNoController)
    ensures ParseListing(lines, stopAtNoController).line == lines[j] && ParseLine(lines[j]).None?
    ensures forall m :: 0 <= m < j ==> ParseLine(lines[m]).Some?
  {
    var rest := lines[1..];
    ParseListingCons(lines, stopAtNoController);
    if ParseLine(lines[0]).Some? {
      MalformedLater(lines, stopAtNoController);
      var i := FirstBadLine(rest, stopAtNoController);
      j := i + 1;
      assert lines[j] == rest[i];
      ParsesShift(lines, i);
    } else {
      j := 0;
    }
  }

  /** A failed listing whose first line parses fails on the rest. */
  lemma MalformedLater(lines: seq<string>, stopAtNoController: bool)
    requires ParseListing(lines, stopAtNoController).Malformed?
    requires ParseLine(lines[0]).Some?
    ensures StopIndex(lines, stopAtNoController) == 1 + StopIndex(lines[1..], stopAtNoController)
    ensures ParseListing(lines, stopAtNoController) == ParseListing(lines[1..], stopAtNoController)
  {
    ParseListingCons(lines, stopAtNoController);
  }

  /** Lines after the first that all parse, behind a first line that parses. */
  lemma ParsesShift(lines: seq<string>, n: nat)
    requires n < |lines| && ParseLine(lines[0]).Some?
    requires forall m :: 0 <= m < n ==> ParseLine(lines[1..][m]).Some?
    ensures forall m :: 0 <= m < n + 1 ==> ParseLine(lines[m]).Some?
  {
    forall m | 1 <= m < n + 1 ensures ParseLine(lines[m]).Some? {
      assert lines[1..][m - 1] == lines[m];
    }
  }

  /** On output without the no-adapter line, the two revisions' parsers agree. */
  lemma {:induction false} ListingsAgreeWithoutNoController(lines: seq<string>)
    requires forall j :: 0 <= j < |lines| ==> lines[j] != NoController
    ensures ParseListing(lines, true) == ParseListing(lines, false)
  {
    if lines != [] {
      ListingsAgreeWithoutNoController(lines[1..]);
    }
  }

  /** The no-adapter line splits into its words. */
  lemma NoControllerSplit()
    ensures Split(NoController) == NoControllerWords
  {
    var ws := NoControllerWords;
    assert forall i :: 0 <= i < |ws| ==> IsToken(ws[i]);
    SplitAtSpace(Join(ws), '\n', []);
    assert Join(ws) + "\n" == Join(ws) + ['\n'] + [];
    SplitJoin(ws);
  }

  /** A single line that does not stop the listing and parses reads as its
      device. */
  lemma SingleLine(line: string, stopAtNoController: bool, d: Device)
    requires !Stops(line, stopAtNoController) && ParseLine(line) == Some(d)
    ensures ParseListing([line], stopAtNoController) == Listed([d])
  {
    assert [line][1..] == [];
    assert ParseListing([line][1..], stopAtNoController) == Listed([]);
    assert [d] + [] == [d];
  }

  /** A line of four words: reading it without the sentinel check yields one
      device. */
  lemma FourWordListing(line: string, w0: string, w1: string, w2: string, w3: string)
    requires Split(line) == [w0, w1, w2, w3]
    ensures ParseListing([line], false) == Listed([Device(w2 + " " + w3, w1)])
  {
    BlankIffNoWords(line);
    assert !Stops(line, false);
    var words := Split(line);
    var tail := words[2..];
    assert tail == [w2, w3];
    assert tail[1..] == [w3];
    assert Join(tail) == w2 + " " + w3;
    SingleLine(line, false, Device(w2 + " " + w3, w1));
  }

  /** Without the sentinel check, the no-adapter line reads as a device named
      "controller available" at address "default"; with it, as the end. */
  lemma NoControllerLine()
    ensures ParseListing([NoController], true) == Listed([])
    ensures ParseListing([NoController], false) ==
              Listed([Device("controller available", "default")])
  {
    assert "controller" + " " + "available" == "controller available";
    var line := NoController;
    assert Stops(line, true);
    NoControllerSplit();
    FourWordListing(line, "No", "default", "controller", "available");
  }

  // ---------------------------------------------------------------------
  // Combo entries and what on_device_changed reads back from them

  /** An address that survives the round trip through a combo entry. */
  predicate WellFormedAddress(addr: string) {
    IsToken(addr) && '(' !in addr && ')' !in addr
  }

  /** The combo entry `"%s (%s)" % (name, addr)` for a device. */
  function EntryText(d: Device): string {
    d.name + " (" + d.addr + ")"
  }

  /** The text of the active entry; GTK answers None when none is active. */
  function ActiveText(c: Combo): Option<string> {
    if 0 <= c.active < |c.entries| then Some(c.entries[c.active]) else None
  }

  /** The address read from a combo text: the last word of the stripped text
      with '(' and ')' taken out; nothing for a blank text. */
  function ExtractAddress(raw: string): (a: Option<string>)
    ensures a.None? <==> IsBlank(raw)
    ensures a.Some? ==> '(' !in a.value && ')' !in a.value
    ensures a.Some? ==> forall i :: 0 <= i < |a.value| ==> !IsSpace(a.value[i])
  {
    var text := Strip(raw);
    StripBlank(raw);
    if text == [] then None
    else
      SplitStrip(raw);
      BlankIffNoWords(raw);
      var words := Split(text);
      SplitTokens(text);
      var last := words[|words| - 1];
      var a := Remove(Remove(last, '('), ')');
      RemoveKeepsOthers(last, '(');
      RemoveKeepsOthers(Remove(last, '('), ')');
      assert forall i :: 0 <= i < |a| ==> a[i] in last;
      Some(a)
  }

  /** The name read from a combo text: the stripped text with the address
      deleted and then '(' and ')' taken out. */
  function ExtractName(raw: string): (n: string)
    ensures IsBlank(raw) ==> n == []
    ensures '(' !in n && ')' !in n
  {
    match ExtractAddress(raw)
    case None => []
    case Some(a) =>
      var t := Delete(Strip(raw), a);
      RemoveKeepsOthers(t, '(');
      RemoveKeepsOthers(Remove(t, '('), ')');
      Remove(Remove(t, '('), ')')
  }

  /** Taking the parentheses out of `"(" + addr + ")"` leaves the address. */
  lemma Unwrap(addr: string)
    requires WellFormedAddress(addr)
    ensures Remove(Remove("(" + addr + ")", '('), ')') == addr
  {
    var open, close := "(", ")";
    var wrapped := "(" + addr + ")";
    assert wrapped == open + (addr + close);
    RemoveAppend(open, addr + close, '(');
    RemoveAppend(addr, close, '(');
    RemoveAbsent(addr, '(');
    assert Remove(open, '(') == [];
    assert Remove(close, '(') == close;
    assert Remove(wrapped, '(') == addr + close;
    RemoveAppend(addr, close, ')');
    RemoveAbsent(addr, ')');
    assert Remove(close, ')') == [];
    assert Remove(addr + close, ')') == addr;
  }

  /** The address of a device comes back out of its combo entry, whatever its
      name. */
  lemma AddressRoundTrip(d: Device)
    requires WellFormedAddress(d.addr)
    ensures ExtractAddress(EntryText(d)) == Some(d.addr)
  {
    var wrapped := "(" + d.addr + ")";
    assert IsToken(wrapped) by {
      forall i | 0 <= i < |wrapped| ensures !IsSpace(wrapped[i]) {
        if 0 < i < |wrapped| - 1 { assert wrapped[i] == d.addr[i - 1]; }
      }
    }
    var e := EntryText(d);
    assert e == d.name + [' '] + wrapped;
    SplitAtSpace(d.name, ' ', wrapped);
    SplitToken(wrapped);
    SplitStrip(e);
    assert !IsBlank(e) by {
      assert e[|e| - 1] == ')';
    }
    var words := Split(Strip(e));
    assert words[|words| - 1] == wrapped;
    Unwrap(d.addr);
  }

  /** No occurrence of the address starts inside `name + " ("`. */
  lemma AddressNotInPrefix(name: string, addr: string, i: nat)
    requires WellFormedAddress(addr)
    requires !Occurs(name, addr)
    requires i < |name| + 2
    ensures !StartsAt(name + " (" + addr + ")", addr, i)
  {
    var e := name + " (" + addr + ")";
    if i + |addr| <= |e| {
      if i + |addr| <= |name| {
        assert e[i..i + |addr|] == name[i..i + |addr|];
        assert !StartsAt(name, addr, i);
      } else if i <= |name| {
        assert e[|name|] == ' ';
        assert !IsSpace(addr[|name| - i]);
        assert e[i..i + |addr|][|name| - i] == e[|name|];
      } else {
        assert e[i] == '(';
        assert addr[0] in addr;
        assert e[i..i + |addr|][0] == e[i];
      }
    }
  }

  /** Deleting the address from `addr + ")"` leaves the parenthesis. */
  lemma DeleteAddressTail(addr: string)
    requires WellFormedAddress(addr)
    ensures Delete(addr + ")", addr) == ")"
  {
    assert !StartsAt(")", addr, 0) by {
      assert addr[0] in addr;
    }
    DeleteKeepsPrefix(")", [], addr);
    assert ")" + [] == ")";
    DeleteLeadingMatch(")", addr);
  }

  /** Taking the parentheses out of `name + " ()"` leaves `name + " "`. */
  lemma DropEmptyParens(name: string)
    requires '(' !in name && ')' !in name
    ensures Remove(Remove(name + " ()", '('), ')') == name + " "
  {
    var t := name + [' '];
    assert name + " ()" == (t + ['(']) + [')'];
    RemoveAbsent(name, '(');
    RemoveSnoc(name, ' ', '(');
    RemoveSnoc(t, '(', '(');
    RemoveSnoc(t + ['('], ')', '(');
    assert Remove(name + " ()", '(') == t + [')'];
    RemoveAbsent(name, ')');
    RemoveSnoc(name, ' ', ')');
    RemoveSnoc(t, ')', ')');
  }

  /** The combo text of a device without a name reads back as an empty name. */
  lemma NamelessRoundTrip(addr: string)
    requires WellFormedAddress(addr)
    ensures ExtractName(EntryText(Device([], addr))) == []
  {
    var d := Device([], addr);
    AddressRoundTrip(d);
    var e := EntryText(d);
    NamelessEntryStrips(addr);
    NamelessDelete(addr);
    assert Remove(Remove("()", '('), ')') == [];
    assert ExtractName(e) == Remove(Remove(Delete(Strip(e), addr), '('), ')');
  }

  /** Stripping a nameless entry drops its leading space. */
  lemma NamelessEntryStrips(addr: string)
    requires WellFormedAddress(addr)
    ensures Strip(EntryText(Device([], addr))) == "(" + addr + ")"
  {
    var e := EntryText(Device([], addr));
    var wrapped := "(" + addr + ")";
    assert e == [' '] + wrapped;
    assert StripLeft(e) == StripLeft(wrapped) == wrapped;
    StripTrimmed(wrapped);
  }

  /** Deleting the address from `"(" + addr + ")"` leaves the parentheses. */
  lemma NamelessDelete(addr: string)
    requires WellFormedAddress(addr)
    ensures Delete("(" + addr + ")", addr) == "()"
  {
    var tail := addr + ")";
    assert "(" + addr + ")" == "(" + tail;
    forall i: nat | i < |"("| ensures !StartsAt("(" + tail, addr, i) {
      assert addr[0] in addr;
      assert i + |addr| <= |"(" + tail| ==> ("(" + tail)[i..i + |addr|][0] == '(';
    }
    DeleteKeepsPrefix("(", tail, addr);
    DeleteAddressTail(addr);
  }

  /** The name read back from a device's combo entry is the device's name
      followed by one space (the space before the parenthesis), provided the
      name has no parentheses, does not contain the address and does not
      start with whitespace. */
  lemma NameRoundTrip(d: Device)
    requires WellFormedAddress(d.addr)
    requires '(' !in d.name && ')' !in d.name
    requires !Occurs(d.name, d.addr)
    requires d.name != [] && !IsSpace(d.name[0])
    ensures ExtractName(EntryText(d)) == d.name + " "
  {
    AddressRoundTrip(d);
    var e := EntryText(d);
    var prefix := d.name + " (";
    var tail := d.addr + ")";
    assert e == prefix + tail;
    assert e[|e| - 1] == ')';
    StripTrimmed(e);
    forall i: nat | i < |prefix| ensures !StartsAt(prefix + tail, d.addr, i) {
      AddressNotInPrefix(d.name, d.addr, i);
    }
    DeleteKeepsPrefix(prefix, tail, d.addr);
    DeleteAddressTail(d.addr);
    assert Delete(Strip(e), d.addr) == prefix + ")";
    assert prefix + ")" == d.name + " ()";
    DropEmptyParens(d.name);
  }

  // ---------------------------------------------------------------------
  // Rebuilding the combo and the diff step

  /** The combo entries for a device list, one per device, in order. */
  function Entries(ds: seq<Device>): (es: seq<string>)
    ensures |es| == |ds|
  {
    seq(|ds|, k requires 0 <= k < |ds| => EntryText(ds[k]))
  }

  /** The combo after remove_all, append_text(current) and set_active(0),
      followed by one entry per device. */
  function Rebuild(c: Combo, ds: seq<Device>): (r: Combo)
    ensures |r.entries| == |ds| + 1
    ensures ActiveText(r) == Some(ActiveText(c).GetOr(""))
  {
    Combo([ActiveText(c).GetOr("")] + Entries(ds), 0)
  }

  /** Entries appended one per device after `current` are the entries of
      the rebuilt combo. */
  lemma RebuiltEntries(current: string, ds: seq<Device>, entries: seq<string>)
    requires |entries| == |ds| + 1 && entries[0] == current
    requires forall j :: 0 <= j < |ds| ==> entries[j + 1] == EntryText(ds[j])
    ensures entries == [current] + Entries(ds)
  {
  }

  /** Every device entry of a rebuilt combo reads back as its device's address. */
  lemma RebuildRoundTrip(c: Combo, ds: seq<Device>, k: nat)
    requires k < |ds| && WellFormedAddress(ds[k].addr)
    ensures ExtractAddress(Rebuild(c, ds).entries[k + 1]) == Some(ds[k].addr)
  {
    AddressRoundTrip(ds[k]);
  }

  /** One enumeration tick: store the new list and rebuild the combo, only if
      the new list differs from the stored one (order and contents). */
  function DiffStep(s: Scan, found: seq<Device>): (r: Scan)
    ensures r.stored == found
    ensures found == s.stored ==> r == s
    ensures found != s.stored ==>
              ActiveText(r.combo) == Some(ActiveText(s.combo).GetOr("")) &&
              |r.combo.entries| == |found| + 1
  {
    if found == s.stored then s else Scan(found, Rebuild(s.combo, found))
  }

  /** Enumerating the same list twice publishes it once. */
  lemma DiffStepIdempotent(s: Scan, found: seq<Device>)
    ensures DiffStep(DiffStep(s, found), found) == DiffStep(s, found)
  {
  }

  /** The same devices in another order count as a change. */
  lemma ReorderIsAChange(s: Scan, a: Device, b: Device)
    requires a != b && s.stored == [a, b]
    ensures DiffStep(s, [b, a]).combo == Rebuild(s.combo, [b, a])
  {
    assert [b, a][0] != [a, b][0];
  }

  /** A repeated enumeration of one phone publishes nothing the second time. */
  lemma RepeatedListingPublishesOnce(c: Combo)
    ensures var phone := [Device("Phone", "AA:BB:CC:DD:EE:FF")];
      var first := DiffStep(Scan([], c), phone);
      first.combo == Rebuild(c, phone) && DiffStep(first, phone) == first
  {
  }

  // ---------------------------------------------------------------------
  // The enumeration loop

  /** The listings read from successive `bluetoothctl devices` outputs. */
  function Listings(outputs: seq<seq<string>>, stopAtNoController: bool): seq<Listing> {
    seq(|outputs|, j requires 0 <= j < |outputs| => ParseListing(outputs[j], stopAtNoController))
  }

  /** Every listing read without a malformed line. */
  predicate AllListed(ls: seq<Listing>) {
    forall j :: 0 <= j < |ls| ==> ls[j].Listed?
  }

  /** The enumeration loop over successive listings: a diff step per
      listing, until a malformed one raises and ends the loop. */
  function Enumerate(s: Scan, ls: seq<Listing>): Scan
    decreases |ls|
  {
    if ls == [] then s
    else
      match ls[0]
      case Malformed(_) => s
      case Listed(ds) => Enumerate(DiffStep(s, ds), ls[1..])
  }

  /** One listing of the enumeration loop that reads: a diff step, and the
      listings read so far still all read. */
  lemma EnumerateListedStep(s: Scan, ls: seq<Listing>, i: nat)
    requires i < |ls| && ls[i].Listed? && AllListed(ls[..i])
    ensures Enumerate(s, ls[i..]) == Enumerate(DiffStep(s, ls[i].devices), ls[i + 1..])
    ensures AllListed(ls[..i + 1])
  {
    assert ls[i..][0] == ls[i];
    assert ls[i..][1..] == ls[i + 1..];
    assert forall j :: 0 <= j < i ==> ls[..i + 1][j] == ls[..i][j];
  }

  /** A malformed listing ends the enumeration loop there. */
  lemma EnumerateMalformedStep(s: Scan, ls: seq<Listing>, i: nat)
    requires i < |ls| && ls[i].Malformed?
    ensures Enumerate(s, ls[i..]) == s
    ensures !AllListed(ls)
  {
    assert ls[i..][0] == ls[i];
  }

  /** Enumerating two batches of listings one after the other. */
  lemma {:induction false} EnumerateAppend(s: Scan, a: seq<Listing>, b: seq<Listing>)
    ensures Enumerate(s, a + b) ==
              if AllListed(a) then Enumerate(Enumerate(s, a), b) else Enumerate(s, a)
    decreases |a|
  {
    if a == [] {
      assert a + b == b;
    } else {
      assert (a + b)[0] == a[0];
      assert (a + b)[1..] == a[1..] + b;
      if a[0].Listed? {
        EnumerateAppend(DiffStep(s, a[0].devices), a[1..], b);
        assert forall j :: 1 <= j < |a| ==> a[1..][j - 1] == a[j];
      }
    }
  }

  /** After listings that all read, the stored list is the last listing's
      devices (or unchanged when there were none). */
  lemma {:induction false} EnumerateStoresLastListing(s: Scan, ls: seq<Listing>)
    requires AllListed(ls)
    ensures Enumerate(s, ls).stored == if ls == [] then s.stored else ls[|ls| - 1].devices
    decreases |ls|
  {
    if ls != [] {
      assert forall j :: 0 <= j < |ls[1..]| ==> ls[1..][j] == ls[j + 1];
      EnumerateStoresLastListing(DiffStep(s, ls[0].devices), ls[1..]);
    }
  }

  /** Reading the same listing again right away changes nothing: the combo
      is rebuilt only when the list differs. */
  lemma EnumerateRepeatIsQuiet(s: Scan, ls: seq<Listing>, l: Listing)
    ensures Enumerate(s, ls + [l, l]) == Enumerate(s, ls + [l])
  {
    EnumerateAppend(s, ls, [l, l]);
    EnumerateAppend(s, ls, [l]);
    assert [l, l][1..] == [l];
    assert [l][1..] == [];
    if l.Listed? {
      DiffStepIdempotent(Enumerate(s, ls), l.devices);
    }
  }
}
