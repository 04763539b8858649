/** `DisplayMonitor` of the application's Models folder: a name and a handle
    path; enumeration swallows exceptions per display, and every failure of a
    write leaves as an `IOException` naming the monitor. */
module ModelsDisplayMonitor {
  import opened Wrappers
  import opened Decimal
  import opened Enumeration
  import opened Vcp

  datatype DisplayMonitor = DisplayMonitor(name: string, path: string)

  /** `ToString() => Name`, the text the combo box shows. */
  function ToString(m: DisplayMonitor): string
  {
    m.name
  }

  /** The entry the callback appends: the marshalled description and the handle's text. */
  function Entry(d: DisplayAnswer, p: PhysicalMonitor): (m: DisplayMonitor)
    ensures m.name == UpToNul(p.description)
    ensures ParseInt64(m.path) == Success(p.handle)
  {
    ParseFormatRoundTrip(p.handle);
    DisplayMonitor(UpToNul(p.description), FormatInt(p.handle))
  }

  /** `DisplayMonitor.GetMonitors()`: the callback body sits in a try/catch, so a
      display that raises is skipped like one whose queries fail, and
      enumeration always returns a list. */
  method GetMonitors(ds: seq<DisplayAnswer>) returns (r: seq<DisplayMonitor>)
    ensures Enumerate(ds, Entry, true) == Success(r)
    ensures |r| == DeliveredCount(ds)
    ensures forall k :: 0 <= k < |r| ==> r[k] in Found(ds, Entry)
  {
    var found := Collect(ds, Entry, true);
    r := found.value;
    FoundLength(ds, Entry);
  }

  /** An exception raised while handling one display costs that display's
      monitors only: every other display's monitors are still listed, in order. */
  lemma RaisingDisplaySkipped(a: seq<DisplayAnswer>, d: DisplayAnswer, b: seq<DisplayAnswer>)
    requires Raises(d)
    ensures Enumerate(a + [d] + b, Entry, true) == Success(Found(a, Entry) + Found(b, Entry))
  {
    SkippedDisplay(a, d, b, Entry);
    FoundAppend(a, b, Entry);
  }

  /** `SetBrightness(brightness)`: parse the path, send VCP `VCP_LUMINANCE`; a
      reported failure raises an `IOException` naming the monitor, and any other
      exception (a path `long.Parse` refuses) is wrapped in one, with the original
      as its inner exception. An `IOException` is never wrapped again.
      `SetBrightnessAsync` runs this same call once on a worker task. */
  function SetBrightness(m: DisplayMonitor, brightness: int, accepted: bool): (r: Attempt)
    ensures r.sent.Some? <==> ParseInt64(m.path).Success?
    ensures r.sent.Some? ==> r.sent.value == VcpCommand(ParseInt64(m.path).value, VcpLuminance, ToUInt32(brightness))
    ensures r.thrown.None? <==> r.sent.Some? && accepted
    ensures r.thrown.Some? ==> r.thrown.value.IO? && r.thrown.value.monitorName == m.name
    ensures r.thrown.Some? && r.thrown.value.inner.Some? ==> !r.thrown.value.inner.value.IO?
    ensures r.sent.None? ==> r.thrown == Some(IO(m.name, Communication, Some(ParseFailure(ParseInt64(m.path).error))))
    ensures r.sent.Some? && !accepted ==> r.thrown == Some(IO(m.name, SetRejected, None))
  {
    match ParseInt64(m.path)
    case Failure(e) => Attempt(None, Some(IO(m.name, Communication, Some(ParseFailure(e)))))
    case Success(h) =>
      Attempt(Some(VcpCommand(h, VcpLuminance, ToUInt32(brightness))),
              if accepted then None else Some(IO(m.name, SetRejected, None)))
  }

  /** The text the combo box shows for an enumerated monitor is the marshaled
      description of one of the delivered records. */
  lemma ShownNameIsDescription(ds: seq<DisplayAnswer>, m: DisplayMonitor)
    requires m in Found(ds, Entry)
    ensures exists i, j :: 0 <= i < |ds| && Delivers(ds[i]) && 0 <= j < |ds[i].physical|
             && ToString(m) == UpToNul(ds[i].physical[j].description)
  {
    FoundMembers(ds, Entry, m);
    var i, j :| 0 <= i < |ds| && Delivers(ds[i]) && 0 <= j < |ds[i].physical|
                && m == Entry(ds[i], ds[i].physical[j]);
    assert ToString(m) == UpToNul(ds[i].physical[j].description);
  }

  /** Writing an enumerated monitor sends VCP 10h with the unchanged level to its own handle. */
  lemma EnumeratedMonitorWrite(ds: seq<DisplayAnswer>, m: DisplayMonitor, brightness: int, accepted: bool)
    requires m in Found(ds, Entry)
    requires 0 <= brightness <= 100
    ensures exists i, j :: 0 <= i < |ds| && Delivers(ds[i]) && 0 <= j < |ds[i].physical|
             && SetBrightness(m, brightness, accepted).sent
                == Some(VcpCommand(ds[i].physical[j].handle, VcpLuminance, brightness))
    ensures SetBrightness(m, brightness, accepted).thrown.None? <==> accepted
  {
    FoundMembers(ds, Entry, m);
    var i, j :| 0 <= i < |ds| && Delivers(ds[i]) && 0 <= j < |ds[i].physical|
                && m == Entry(ds[i], ds[i].physical[j]);
    WriteOfEntry(ds[i], ds[i].physical[j], brightness, accepted);
  }

  lemma WriteOfEntry(d: DisplayAnswer, p: PhysicalMonitor, brightness: int, accepted: bool)
    requires 0 <= brightness <= 100
    ensures SetBrightness(Entry(d, p), brightness, accepted).sent == Some(VcpCommand(p.handle, VcpLuminance, brightness))
    ensures SetBrightness(Entry(d, p), brightness, accepted).thrown.None? <==> accepted
  {
  }
}
