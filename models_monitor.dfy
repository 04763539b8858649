/** `Monitor` of the application's Models folder: a name and a handle path,
    enumeration without any exception handling, and the plain write. */
module ModelsMonitor {
  import opened Wrappers
  import opened Decimal
  import opened Enumeration
  import opened Vcp

  datatype Monitor = Monitor(name: string, path: string)

  /** `ToString() => Name`. */
  function ToString(m: Monitor): string
  {
    m.name
  }

  /** The entry the callback appends: `Name` is the description, `Path` the handle's text. */
  function Entry(d: DisplayAnswer, p: PhysicalMonitor): (m: Monitor)
    ensures m.name == UpToNul(p.description)
    ensures ParseInt64(m.path) == Success(p.handle)
  {
    ParseFormatRoundTrip(p.handle);
    Monitor(UpToNul(p.description), FormatInt(p.handle))
  }

  /** `Monitor.GetMonitors()`: the displays whose two queries succeed, in
      order; an exception inside the callback leaves `GetMonitors`. */
  method GetMonitors(ds: seq<DisplayAnswer>) returns (r: Result<seq<Monitor>, EnumerationFault>)
    ensures r == Enumerate(ds, Entry, false)
    ensures r.Failure? <==> exists i :: 0 <= i < |ds| && Raises(ds[i])
    ensures r.Success? ==> |r.value| == DeliveredCount(ds)
  {
    r := Collect(ds, Entry, false);
    if r.Success? {
      FoundLength(ds, Entry);
    }
  }

  /** `SetBrightness(brightness)`: parse `Path`, send VCP 10h; a reported failure
      raises `InvalidOperationException`, a success returns normally. */
  function SetBrightness(m: Monitor, brightness: int, accepted: bool): (r: Attempt)
    ensures r.sent.Some? ==> r.sent.value.code == VcpLuminance
    ensures r.thrown.Some? ==> r.thrown.value.InvalidOperation? || r.thrown.value.ParseFailure?
    ensures r.thrown.None? <==> accepted && ParseInt64(m.path).Success?
  {
    SetLuminance(m.path, brightness, accepted)
  }

  /** The combo box lists the descriptions of the delivering displays' monitors, in order. */
  lemma {:induction false} NamesAreDescriptions(ds: seq<DisplayAnswer>)
    ensures Names(Found(ds, Entry)) == Found(ds, DescriptionOf)
    decreases |ds|
  {
    if ds != [] {
      var init, d := ds[..|ds| - 1], ds[|ds| - 1];
      var added := if Delivers(d) then Entries(d, Entry) else [];
      NamesAreDescriptions(init);
      NamesAppend(Found(init, Entry), added);
      NamesOfEntries(d);
      assert Found(ds, Entry) == Found(init, Entry) + added;
      assert Found(ds, DescriptionOf) == Found(init, DescriptionOf) + (if Delivers(d) then Entries(d, DescriptionOf) else []);
    }
  }

  lemma NamesOfEntries(d: DisplayAnswer)
    ensures Names(if Delivers(d) then Entries(d, Entry) else []) == if Delivers(d) then Entries(d, DescriptionOf) else []
  {
  }

  function DescriptionOf(d: DisplayAnswer, p: PhysicalMonitor): string
  {
    UpToNul(p.description)
  }

  function Names(ms: seq<Monitor>): (r: seq<string>)
    ensures |r| == |ms|
    ensures forall k :: 0 <= k < |ms| ==> r[k] == ToString(ms[k])
  {
    seq(|ms|, k requires 0 <= k < |ms| => ToString(ms[k]))
  }

  lemma NamesAppend(a: seq<Monitor>, b: seq<Monitor>)
    ensures Names(a + b) == Names(a) + Names(b)
  {
  }
}
