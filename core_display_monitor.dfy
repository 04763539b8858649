/** `DisplayMonitor` of the shared library project: one entry per physical
    monitor, with the display's device name, the trimmed description and the
    handle stored as decimal text. */
module CoreDisplayMonitor {
  import opened Wrappers
  import opened Decimal
  import opened Enumeration
  import opened Vcp

  /** The constructor `DisplayMonitor(deviceName, deviceString, path)` stores its
      three arguments unchanged; a datatype constructor does exactly that. */
  datatype DisplayMonitor = DisplayMonitor(deviceName: string, deviceString: string, path: string)

  /** `$"{DeviceString} ({DeviceName})"`, the text the combo box shows. */
  function ToString(m: DisplayMonitor): (r: string)
    ensures |r| == |m.deviceString| + |m.deviceName| + 3
    ensures r[..|m.deviceString|] == m.deviceString
    ensures r[|m.deviceString|..|m.deviceString| + 2] == " ("
    ensures r[|m.deviceString| + 2..|r| - 1] == m.deviceName
    ensures r[|r| - 1] == ')'
  {
    m.deviceString + " (" + m.deviceName + ")"
  }

  /** `TrimEnd('\0')`: the buffer without its trailing NUL characters. */
  function TrimEndNul(buffer: seq<char>): (r: string)
    ensures |r| <= |buffer| && r == buffer[..|r|]
    ensures r == [] || r[|r| - 1] != '\0'
    ensures forall i :: |r| <= i < |buffer| ==> buffer[i] == '\0'
  {
    if buffer != [] && buffer[|buffer| - 1] == '\0' then TrimEndNul(buffer[..|buffer| - 1]) else buffer
  }

  /** A text that does not end in NUL, padded with NULs (the usual shape of a
      description buffer), trims back to the text. */
  lemma {:induction false} TrimPadded(text: string, pad: nat)
    requires text == [] || text[|text| - 1] != '\0'
    ensures TrimEndNul(text + seq(pad, _ => '\0')) == text
    decreases pad
  {
    if pad > 0 {
      var buffer := text + seq(pad, _ => '\0');
      assert buffer[|buffer| - 1] == '\0';
      assert buffer[..|buffer| - 1] == text + seq(pad - 1, _ => '\0');
      TrimPadded(text, pad - 1);
    } else {
      assert text + seq(pad, _ => '\0') == text;
    }
  }

  /** The marshaler's cut at the first NUL gives back the same text. */
  lemma {:induction false} UpToNulPadded(text: string, pad: nat)
    requires forall i :: 0 <= i < |text| ==> text[i] != '\0'
    ensures UpToNul(text + seq(pad, _ => '\0')) == text
    decreases |text|
  {
    var buffer := text + seq(pad, _ => '\0');
    if text != [] {
      assert buffer[0] == text[0];
      assert buffer[1..] == text[1..] + seq(pad, _ => '\0');
      UpToNulPadded(text[1..], pad);
    } else if pad > 0 {
      assert buffer[0] == '\0';
    }
  }

  /** For such a buffer, trimming the end (this class) and cutting at the first
      NUL (the marshaler, in the other monitor classes) give the same name. */
  lemma TrimAgreesWithMarshaler(text: string, pad: nat)
    requires forall i :: 0 <= i < |text| ==> text[i] != '\0'
    ensures TrimEndNul(text + seq(pad, _ => '\0')) == UpToNul(text + seq(pad, _ => '\0')) == text
  {
    TrimPadded(text, pad);
    UpToNulPadded(text, pad);
  }

  /** The characters the Core struct's 128-element `char` array holds when the
      native record carries the UTF-16 description `wide`. The struct sets no
      character set, so it is laid out as ANSI: one byte per array element,
      and the array covers the first 64 code units, low byte then high byte,
      each byte read as the character of that code (bytes below 80h read the
      same in every ANSI code page; characters of the Basic Multilingual Plane). */
  function AnsiView(wide: seq<char>): (r: seq<char>)
    ensures |r| == 2 * |wide|
    ensures forall k :: 0 <= k < |wide| ==> r[2 * k] == Low(wide[k]) && r[2 * k + 1] == High(wide[k])
  {
    if wide == [] then [] else [Low(wide[0]), High(wide[0])] + AnsiView(wide[1..])
  }

  function Low(c: char): char { (c as int % 256) as char }

  function High(c: char): char { (c as int / 256 % 256) as char }

  /** The description the Core class stores, as written: `TrimEnd('\0')` of
      the ANSI view of the first half of the native buffer. */
  function AsWrittenDescription(wide: seq<char>): (r: string)
    requires |wide| == DescriptionSize
    ensures |r| <= DescriptionSize
  {
    TrimEndNul(AnsiView(wide[..DescriptionSize / 2]))
  }

  lemma {:induction false} AnsiViewAppend(a: seq<char>, b: seq<char>)
    ensures AnsiView(a + b) == AnsiView(a) + AnsiView(b)
    decreases |a|
  {
    if a != [] {
      assert (a + b)[1..] == a[1..] + b;
      AnsiViewAppend(a[1..], b);
    } else {
      assert a + b == b;
    }
  }

  lemma {:induction false} AnsiViewNuls(n: nat)
    ensures AnsiView(seq(n, _ => '\0')) == seq(2 * n, _ => '\0')
    decreases n
  {
    if n > 0 {
      assert seq(n, _ => '\0')[1..] == seq(n - 1, _ => '\0');
      AnsiViewNuls(n - 1);
    }
  }

  /** The monitor description "AB", as the system reports it, is stored as
      "A", NUL, "B": every ASCII character is followed by the NUL high byte of
      its code unit. */
  lemma AsWrittenDescriptionSplitsText()
    ensures var wide := "AB" + seq(DescriptionSize - 2, _ => '\0');
            AsWrittenDescription(wide) == ['A', '\0', 'B'] && AsWrittenDescription(wide) != "AB"
  {
    var wide := "AB" + seq(DescriptionSize - 2, _ => '\0');
    var half := DescriptionSize / 2;
    assert wide[..half] == "AB" + seq(half - 2, _ => '\0');
    AnsiViewAppend("AB", seq(half - 2, _ => '\0'));
    AnsiViewNuls(half - 2);
    assert AnsiView("AB") == ['A', '\0', 'B', '\0'];
    assert AnsiView(wide[..half]) == ['A', '\0', 'B'] + seq(2 * half - 3, _ => '\0');
    TrimPadded(['A', '\0', 'B'], 2 * half - 3);
  }

  /** Read as UTF-16 (one array element per code unit, as the other monitor
      classes declare it), a NUL-free description padded to the buffer size is
      stored unchanged. */
  lemma EntryKeepsDescription(d: DisplayAnswer, handle: Int64, text: string)
    requires |text| <= DescriptionSize
    requires forall i :: 0 <= i < |text| ==> text[i] != '\0'
    ensures Entry(d, PhysicalMonitor(handle, text + seq(DescriptionSize - |text|, _ => '\0'))).deviceString == text
  {
    TrimPadded(text, DescriptionSize - |text|);
  }

  /** The entry the callback appends for one physical monitor. */
  function Entry(d: DisplayAnswer, p: PhysicalMonitor): (m: DisplayMonitor)
    ensures m.deviceName == d.deviceName
    ensures m.deviceString == TrimEndNul(p.description)
    ensures ParseInt64(m.path) == Success(p.handle)
  {
    ParseFormatRoundTrip(p.handle);
    DisplayMonitor(d.deviceName, TrimEndNul(p.description), FormatInt(p.handle))
  }

  /** `m` carries the display's device name and the monitor's handle. */
  predicate CameFrom(m: DisplayMonitor, d: DisplayAnswer, p: PhysicalMonitor)
  {
    m.deviceName == d.deviceName && ParseInt64(m.path) == Success(p.handle)
  }

  /** `m` carries the device name of a delivering display and the handle of one of its monitors. */
  ghost predicate FromDeliveringDisplay(ds: seq<DisplayAnswer>, m: DisplayMonitor)
  {
    exists i, j :: 0 <= i < |ds| && Delivers(ds[i]) && 0 <= j < |ds[i].physical|
                   && CameFrom(m, ds[i], ds[i].physical[j])
  }

  /** `DisplayMonitor.GetMonitors()`: no try/catch, so an exception inside the
      callback leaves `GetMonitors` and no list is returned. */
  method GetMonitors(ds: seq<DisplayAnswer>) returns (r: Result<seq<DisplayMonitor>, EnumerationFault>)
    ensures r == Enumerate(ds, Entry, false)
    ensures r.Failure? <==> exists i :: 0 <= i < |ds| && Raises(ds[i])
    ensures r.Success? ==> |r.value| == DeliveredCount(ds)
    ensures r.Success? ==> forall k :: 0 <= k < |r.value| ==> FromDeliveringDisplay(ds, r.value[k])
  {
    r := Collect(ds, Entry, false);
    if r.Success? {
      FoundLength(ds, Entry);
      forall k | 0 <= k < |r.value| ensures FromDeliveringDisplay(ds, r.value[k]) {
        FoundCameFrom(ds, k);
      }
    }
  }

  lemma FoundCameFrom(ds: seq<DisplayAnswer>, k: nat)
    requires k < |Found(ds, Entry)|
    ensures FromDeliveringDisplay(ds, Found(ds, Entry)[k])
  {
    var m := Found(ds, Entry)[k];
    FoundMembers(ds, Entry, m);
    var i, j :| 0 <= i < |ds| && Delivers(ds[i]) && 0 <= j < |ds[i].physical|
                && m == Entry(ds[i], ds[i].physical[j]);
    assert CameFrom(m, ds[i], ds[i].physical[j]);
  }

  /** `SetBrightnessAsync(brightness)`: the write of `Vcp.SetLuminance`, run on a
      worker task; it raises only `InvalidOperationException` or the parse error. */
  function SetBrightnessAsync(m: DisplayMonitor, brightness: int, accepted: bool): (r: Attempt)
    ensures r.sent.Some? ==> r.sent.value.code == VcpLuminance
    ensures r.thrown.Some? ==> r.thrown.value.InvalidOperation? || r.thrown.value.ParseFailure?
    ensures r.thrown.None? <==> accepted && ParseInt64(m.path).Success?
  {
    SetLuminance(m.path, brightness, accepted)
  }

  /** Every enumerated monitor can be written: the command goes to its own
      physical handle with VCP 10h and the unchanged level. */
  lemma EnumeratedMonitorWrite(ds: seq<DisplayAnswer>, m: DisplayMonitor, brightness: int, accepted: bool)
    requires m in Found(ds, Entry)
    requires 0 <= brightness <= 100
    ensures exists i, j :: 0 <= i < |ds| && Delivers(ds[i]) && 0 <= j < |ds[i].physical|
             && SetBrightnessAsync(m, brightness, accepted).sent
                == Some(VcpCommand(ds[i].physical[j].handle, VcpLuminance, brightness))
    ensures SetBrightnessAsync(m, brightness, accepted).thrown.None? <==> accepted
  {
    FoundMembers(ds, Entry, m);
    var i, j :| 0 <= i < |ds| && Delivers(ds[i]) && 0 <= j < |ds[i].physical|
                && m == Entry(ds[i], ds[i].physical[j]);
    WriteReachesHandle(ds[i].physical[j].handle, brightness, accepted);
  }
}
