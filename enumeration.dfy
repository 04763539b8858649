/** Monitor enumeration as the three monitor classes perform it.

    `EnumDisplayMonitors` calls back once per display, in the operating
    system's order. For each display the callback asks
    `GetNumberOfPhysicalMonitorsFromHMONITOR` for a count, allocates an array of
    that many `PHYSICAL_MONITOR` records, asks `GetPhysicalMonitorsFromHMONITOR`
    to fill it, and appends one entry per record to a list. The callback always
    returns true, so enumeration never stops early. The answers of the
    operating system are the input of this model: one `DisplayAnswer` per
    display. */
module Enumeration {
  import opened Wrappers
  import opened Decimal

  /** The description buffer of a `PHYSICAL_MONITOR` holds 128 characters. */
  const DescriptionSize: nat := 128

  /** One `PHYSICAL_MONITOR` record: the physical-monitor handle and its description buffer. */
  datatype PhysicalMonitor = PhysicalMonitor(handle: Int64, description: seq<char>)

  /** What the operating system answers for one display:
      - `deviceName`: the `szDevice` field that `GetMonitorInfo` leaves in its record;
      - `countOk`: the result of `GetNumberOfPhysicalMonitorsFromHMONITOR`;
      - `allocFails`: allocating the array for the reported count raises
        (an overflow or out-of-memory exception inside the callback);
      - `fetchOk`: the result of `GetPhysicalMonitorsFromHMONITOR`;
      - `physical`: the array that call filled, one record per reported monitor. */
  datatype DisplayAnswer = DisplayAnswer(
    deviceName: string,
    countOk: bool,
    allocFails: bool,
    fetchOk: bool,
    physical: seq<PhysicalMonitor>)

  /** The string the interop marshaler makes of a fixed-size `ByValTStr`
      description buffer: the characters before the first NUL. */
  function UpToNul(buffer: seq<char>): (r: string)
    ensures |r| <= |buffer| && r == buffer[..|r|]
    ensures forall i :: 0 <= i < |r| ==> r[i] != '\0'
    ensures |r| < |buffer| ==> buffer[|r|] == '\0'
  {
    if buffer == [] || buffer[0] == '\0' then [] else [buffer[0]] + UpToNul(buffer[1..])
  }

  /** Both queries succeed and the display's monitors are appended. */
  predicate Delivers(d: DisplayAnswer) { d.countOk && !d.allocFails && d.fetchOk }

  /** Handling the display raises an exception inside the callback. */
  predicate Raises(d: DisplayAnswer) { d.countOk && d.allocFails }

  /** An exception escaped the enumeration callback. */
  datatype EnumerationFault = AllocationFault

  /** The entries the `foreach` over one display's array appends, in array order. */
  function Entries<T>(d: DisplayAnswer, entry: (DisplayAnswer, PhysicalMonitor) -> T): (r: seq<T>)
    ensures |r| == |d.physical|
    ensures forall j :: 0 <= j < |r| ==> r[j] == entry(d, d.physical[j])
  {
    seq(|d.physical|, j requires 0 <= j < |d.physical| => entry(d, d.physical[j]))
  }

  /** The list after the callback has run on every display of `ds`, in order:
      a display whose queries fail (or that raises, when the exception is
      swallowed) contributes nothing. */
  function Found<T>(ds: seq<DisplayAnswer>, entry: (DisplayAnswer, PhysicalMonitor) -> T): seq<T>
  {
    if ds == [] then []
    else
      var d := ds[|ds| - 1];
      Found(ds[..|ds| - 1], entry) + (if Delivers(d) then Entries(d, entry) else [])
  }

  /** What `GetMonitors` returns: with `swallow` (a try/catch around the callback
      body) every raising display is skipped; without it the first exception
      escapes and no list is returned. */
  function Enumerate<T>(ds: seq<DisplayAnswer>, entry: (DisplayAnswer, PhysicalMonitor) -> T,
                        swallow: bool): Result<seq<T>, EnumerationFault>
  {
    if !swallow && exists i :: 0 <= i < |ds| && Raises(ds[i]) then Failure(AllocationFault)
    else Success(Found(ds, entry))
  }

  /** The enumeration loop: one pass over the displays, appending to a list. */
  method Collect<T>(ds: seq<DisplayAnswer>, entry: (DisplayAnswer, PhysicalMonitor) -> T, swallow: bool)
    returns (r: Result<seq<T>, EnumerationFault>)
    ensures r == Enumerate(ds, entry, swallow)
  {
    var monitors: seq<T> := [];
    var i := 0;
    while i < |ds|
      invariant 0 <= i <= |ds|
      invariant monitors == Found(ds[..i], entry)
      invariant swallow || forall k :: 0 <= k < i ==> !Raises(ds[k])
    {
      var d := ds[i];
      assert ds[..i + 1][..i] == ds[..i];
      if d.countOk {
        if d.allocFails {
          if !swallow {
            return Failure(AllocationFault);
          }
        } else if d.fetchOk {
          var j := 0;
          while j < |d.physical|
            invariant 0 <= j <= |d.physical|
            invariant monitors == Found(ds[..i], entry) + Entries(d, entry)[..j]
          {
            monitors := monitors + [entry(d, d.physical[j])];
            j := j + 1;
          }
          assert Entries(d, entry)[..j] == Entries(d, entry);
        }
      }
      i := i + 1;
    }
    assert ds[..i] == ds;
    return Success(monitors);
  }

  /** Enumerating two runs of displays one after the other gives the two lists
      one after the other: order is kept and later displays are still visited. */
  lemma {:induction false} FoundAppend<T>(a: seq<DisplayAnswer>, b: seq<DisplayAnswer>,
                                          entry: (DisplayAnswer, PhysicalMonitor) -> T)
    ensures Found(a + b, entry) == Found(a, entry) + Found(b, entry)
    decreases |b|
  {
    if b != [] {
      var b' := b[..|b| - 1];
      assert (a + b)[..|a + b| - 1] == a + b';
      FoundAppend(a, b', entry);
    } else {
      assert a + b == a;
    }
  }

  /** A display whose queries fail, or that raises under a try/catch, adds
      nothing and does not stop the displays after it. */
  lemma SkippedDisplay<T>(a: seq<DisplayAnswer>, d: DisplayAnswer, b: seq<DisplayAnswer>,
                          entry: (DisplayAnswer, PhysicalMonitor) -> T)
    requires !Delivers(d)
    ensures Found(a + [d] + b, entry) == Found(a + b, entry)
  {
    FoundAppend(a + [d], b, entry);
    FoundAppend(a, [d], entry);
    FoundAppend(a, b, entry);
    assert [d][..0] == [];
  }

  /** Every entry comes from a delivering display's physical monitor, and
      every physical monitor of a delivering display has its entry. */
  lemma {:induction false} FoundMembers<T>(ds: seq<DisplayAnswer>, entry: (DisplayAnswer, PhysicalMonitor) -> T, x: T)
    ensures x in Found(ds, entry) <==>
            exists i, j :: 0 <= i < |ds| && Delivers(ds[i]) && 0 <= j < |ds[i].physical|
                           && x == entry(ds[i], ds[i].physical[j])
    decreases |ds|
  {
    if ds != [] {
      var init, d := ds[..|ds| - 1], ds[|ds| - 1];
      FoundMembers(init, entry, x);
      var tail := if Delivers(d) then Entries(d, entry) else [];
      assert Found(ds, entry) == Found(init, entry) + tail;
      if x in Found(ds, entry) {
        if x in tail {
          var j :| 0 <= j < |tail| && tail[j] == x;
          assert Delivers(ds[|ds| - 1]) && x == entry(ds[|ds| - 1], ds[|ds| - 1].physical[j]);
        } else {
          var i, j :| 0 <= i < |init| && Delivers(init[i]) && 0 <= j < |init[i].physical|
                      && x == entry(init[i], init[i].physical[j]);
          assert ds[i] == init[i];
        }
      }
      if exists i, j :: 0 <= i < |ds| && Delivers(ds[i]) && 0 <= j < |ds[i].physical|
                        && x == entry(ds[i], ds[i].physical[j]) {
        var i, j :| 0 <= i < |ds| && Delivers(ds[i]) && 0 <= j < |ds[i].physical|
                    && x == entry(ds[i], ds[i].physical[j]);
        if i == |ds| - 1 {
          assert tail[j] == x;
        } else {
          assert init[i] == ds[i];
        }
      }
    }
  }

  /** The number of entries is the total of the delivering displays' counts. */
  function DeliveredCount(ds: seq<DisplayAnswer>): nat
  {
    if ds == [] then 0
    else DeliveredCount(ds[..|ds| - 1]) + (if Delivers(ds[|ds| - 1]) then |ds[|ds| - 1].physical| else 0)
  }

  lemma {:induction false} FoundLength<T>(ds: seq<DisplayAnswer>, entry: (DisplayAnswer, PhysicalMonitor) -> T)
    ensures |Found(ds, entry)| == DeliveredCount(ds)
    decreases |ds|
  {
    if ds != [] {
      FoundLength(ds[..|ds| - 1], entry);
    }
  }

  /** With no display delivering, the list is empty: the caller's "no monitor" case. */
  lemma {:induction false} NothingDelivered<T>(ds: seq<DisplayAnswer>, entry: (DisplayAnswer, PhysicalMonitor) -> T)
    requires forall i :: 0 <= i < |ds| ==> !Delivers(ds[i])
    ensures Found(ds, entry) == []
    decreases |ds|
  {
    if ds != [] {
      NothingDelivered(ds[..|ds| - 1], entry);
    }
  }
}
