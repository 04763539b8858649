/** The first generation (`Program.cs`): `MonitorInfo` with its enumeration
    and write, and a main form that writes on every scroll, without debounce,
    hotkeys or on-screen display. */
module ProgramForm {
  import opened Wrappers
  import opened Decimal
  import opened Brightness
  import opened Enumeration
  import opened Vcp
  import opened Controller

  datatype MonitorInfo = MonitorInfo(name: string, path: string)

  /** `ToString() => Name`: the combo box shows the description. */
  function ToString(m: MonitorInfo): (r: string)
    ensures r == m.name
  {
    m.name
  }

  /** The entry the callback appends: `Name` is the description up to its first
      NUL, `Path` the handle's decimal text. */
  function Entry(d: DisplayAnswer, p: PhysicalMonitor): (m: MonitorInfo)
    ensures m.name == UpToNul(p.description)
    ensures ParseInt64(m.path) == Success(p.handle)
  {
    ParseFormatRoundTrip(p.handle);
    MonitorInfo(UpToNul(p.description), FormatInt(p.handle))
  }

  /** The text the combo box shows for an enumerated monitor is the marshaled
      description of one of the delivered records. */
  lemma ShownNameIsDescription(ds: seq<DisplayAnswer>, m: MonitorInfo)
    requires m in Found(ds, Entry)
    ensures exists i, j :: 0 <= i < |ds| && Delivers(ds[i]) && 0 <= j < |ds[i].physical|
             && ToString(m) == UpToNul(ds[i].physical[j].description)
  {
    FoundMembers(ds, Entry, m);
    var i, j :| 0 <= i < |ds| && Delivers(ds[i]) && 0 <= j < |ds[i].physical|
                && m == Entry(ds[i], ds[i].physical[j]);
    assert ToString(m) == UpToNul(ds[i].physical[j].description);
  }

  /** `MonitorInfo.GetMonitors()`: the physical monitors of the displays whose
      two queries succeed, in order; an exception inside the callback leaves
      `GetMonitors`. */
  method GetMonitors(ds: seq<DisplayAnswer>) returns (r: Result<seq<MonitorInfo>, EnumerationFault>)
    ensures r == Enumerate(ds, Entry, false)
    ensures r.Failure? <==> exists i :: 0 <= i < |ds| && Raises(ds[i])
    ensures r.Success? ==> |r.value| == DeliveredCount(ds)
    ensures r.Success? ==> forall k :: 0 <= k < |r.value| ==> r.value[k] in Found(ds, Entry)
  {
    r := Collect(ds, Entry, false);
    if r.Success? {
      FoundLength(ds, Entry);
    }
  }

  /** `SetBrightness(brightness)`: parse `Path` back to the handle, send VCP
      10h with the brightness, raise `InvalidOperationException` when the set
      call reports failure. */
  function SetBrightness(m: MonitorInfo, brightness: int, accepted: bool): (r: Attempt)
    ensures r.sent.Some? ==> r.sent.value.code == VcpLuminance
    ensures r.sent.Some? && accepted ==> r.thrown.None?
    ensures r.sent.Some? && !accepted ==> r.thrown == Some(InvalidOperation(SetFailedMessage))
    ensures r.sent.None? ==> r.thrown.Some? && r.thrown.value.ParseFailure?
  {
    SetLuminance(m.path, brightness, accepted)
  }

  /** A listed monitor's write reaches its own physical handle with the level
      unchanged, and raises exactly when the set call reports failure. */
  lemma EntryWrite(d: DisplayAnswer, p: PhysicalMonitor, brightness: int, accepted: bool)
    requires InRange(brightness)
    ensures SetBrightness(Entry(d, p), brightness, accepted).sent == Some(VcpCommand(p.handle, VcpLuminance, brightness))
    ensures SetBrightness(Entry(d, p), brightness, accepted).thrown.None? <==> accepted
  {
    WriteReachesHandle(p.handle, brightness, accepted);
  }

  const NoMonitorsText: string := "No monitors detected"
  const InitialLabel: string := "Brightness: 0%"

  /** The events: a scroll to a level (with the set call's answer) and a
      refresh (with the displays' answers). */
  datatype Event = Scroll(level: int, accepted: bool) | Refresh(displays: seq<DisplayAnswer>)

  const Start: Slider<MonitorInfo> := Initial(InitialLabel)

  /** The list `GetMonitors` returns, or `None` when it raises. */
  function Enumerated(ds: seq<DisplayAnswer>): Option<seq<MonitorInfo>>
  {
    match Enumerate(ds, Entry, false)
    case Success(ms) => Some(ms)
    case Failure(_) => None
  }

  /** Whether the write of a scroll to `level` returns normally: no monitor
      selected, or its `SetBrightness` does not raise. */
  function WriteReturns(s: Slider<MonitorInfo>, level: int, accepted: bool): bool
  {
    Selected(s).None? || SetBrightness(Selected(s).value, level, accepted).thrown.None?
  }

  /** `UpdateBrightness` after the track bar moved to `level`: with a monitor
      selected, write the level; the label follows only when the write
      returns (`returned`), and otherwise the exception escapes the handler
      and is reported as unhandled. */
  function ScrollWrite(s: Slider<MonitorInfo>, level: int, returned: bool): Slider<MonitorInfo>
  {
    var moved := s.(value := level);
    match Selected(moved)
    case None => moved
    case Some(m) =>
      var written := moved.(writes := moved.writes + [Write(m, level)]);
      if returned then written.(labelText := LabelText(level))
      else written.(errorsShown := written.errorsShown + 1)
  }

  function Next(s: Slider<MonitorInfo>, e: Event): Slider<MonitorInfo>
  {
    match e
    case Scroll(v, accepted) => ScrollWrite(s, v, WriteReturns(s, v, accepted))
    case Refresh(ds) => Listed(s, Enumerated(ds), NoMonitorsText, false)
  }

  /** The form's invariant: the controller's, plus a slider that is never
      disabled and no timer. */
  ghost predicate ProgramValid(s: Slider<MonitorInfo>)
  {
    Controller.Valid(s) && s.enabled && !s.timerRunning
  }

  lemma ProgramNextValid(s: Slider<MonitorInfo>, e: Event)
    requires ProgramValid(s)
    requires e.Scroll? ==> InRange(e.level)
    ensures ProgramValid(Next(s, e))
  {
    if e.Scroll? {
      var r := Next(s, e);
      forall i | 0 <= i < |r.writes| ensures InRange(r.writes[i].level) {
        if i >= |s.writes| {
          assert r.writes[i] == Write(Selected(s).value, e.level);
        }
      }
    } else {
      ListedValid(s, Enumerated(e.displays), NoMonitorsText, false);
    }
  }

  /** A scroll with a monitor selected issues exactly one write, at once, of
      the new level to that monitor; the label shows the level exactly when
      the write succeeded and is otherwise left as it was. With no monitor
      selected, nothing but the track bar changes. */
  lemma ScrollWritesAtOnce(s: Slider<MonitorInfo>, level: int, accepted: bool)
    ensures var r := Next(s, Scroll(level, accepted));
            && r.value == level && r.items == s.items && r.selected == s.selected
            && (Selected(s).None? ==> r == s.(value := level))
            && (Selected(s).Some? ==>
                  && r.writes == s.writes + [Write(Selected(s).value, level)]
                  && var ok := SetBrightness(Selected(s).value, level, accepted).thrown.None?;
                     && (ok ==> r.labelText == LabelText(level) && r.errorsShown == s.errorsShown)
                     && (!ok ==> r.labelText == s.labelText && r.errorsShown == s.errorsShown + 1))
  {
  }

  /** A burst of scrolls: each moves the track bar to a level, and its write
      returns or not. */
  function Scrolls(s: Slider<MonitorInfo>, moves: seq<(int, bool)>): Slider<MonitorInfo>
    decreases |moves|
  {
    if moves == [] then s
    else
      var last := moves[|moves| - 1];
      ScrollWrite(Scrolls(s, moves[..|moves| - 1]), last.0, last.1)
  }

  /** The writes of a burst to monitor `m`: one per move, with its level. */
  function WritesOf(m: MonitorInfo, moves: seq<(int, bool)>): (r: seq<Write<MonitorInfo>>)
    ensures |r| == |moves| && forall k :: 0 <= k < |moves| ==> r[k] == Write(m, moves[k].0)
  {
    seq(|moves|, k requires 0 <= k < |moves| => Write(m, moves[k].0))
  }

  /** One scroll with a monitor selected appends its write and keeps the items. */
  lemma ScrollStep(p: Slider<MonitorInfo>, level: int, returned: bool)
    requires Selected(p).Some?
    ensures var r := ScrollWrite(p, level, returned);
            r.writes == p.writes + [Write(Selected(p).value, level)] && r.value == level
            && r.items == p.items && r.selected == p.selected
  {
  }

  lemma WritesOfLast(m: MonitorInfo, moves: seq<(int, bool)>)
    requires moves != []
    ensures WritesOf(m, moves) == WritesOf(m, moves[..|moves| - 1]) + [Write(m, moves[|moves| - 1].0)]
  {
  }

  /** There is no debounce: every scroll of a burst is written, in order,
      whether or not the earlier writes raised, and the track bar stays at
      the last level. */
  lemma {:induction false} EveryScrollWritten(s: Slider<MonitorInfo>, moves: seq<(int, bool)>)
    requires Selected(s).Some?
    ensures Scrolls(s, moves).writes == s.writes + WritesOf(Selected(s).value, moves)
    ensures Scrolls(s, moves).items == s.items && Scrolls(s, moves).selected == s.selected
    ensures moves != [] ==> Scrolls(s, moves).value == moves[|moves| - 1].0
    decreases |moves|
  {
    if moves != [] {
      var init, last := moves[..|moves| - 1], moves[|moves| - 1];
      EveryScrollWritten(s, init);
      var before := Scrolls(s, init);
      assert Selected(before) == Selected(s);
      assert Scrolls(s, moves) == ScrollWrite(before, last.0, last.1);
      ScrollStep(before, last.0, last.1);
      WritesOfLast(Selected(s).value, moves);
    }
  }

  /** A refresh never touches the slider's enabled state: with monitors it
      selects the first, without any it shows "No monitors detected". */
  lemma RefreshShape(s: Slider<MonitorInfo>, ds: seq<DisplayAnswer>)
    requires Enumerated(ds).Some?
    ensures var r := Next(s, Refresh(ds));
            && r.enabled == s.enabled && r.selected == 0
            && (|Enumerated(ds).value| > 0 ==> Selected(r) == Some(Enumerated(ds).value[0]))
            && (|Enumerated(ds).value| == 0 ==> r.items == [Placeholder(NoMonitorsText)] && Selected(r).None?)
  {
  }

  class ProgramForm {
    var value: int
    var enabled: bool
    var timerRunning: bool
    var items: seq<Item<MonitorInfo>>
    var selected: int
    var labelText: string
    var writes: seq<Write<MonitorInfo>>
    var errorsShown: nat

    function View(): Slider<MonitorInfo>
      reads this
    {
      Slider(value, enabled, timerRunning, items, selected, labelText, writes, errorsShown)
    }

    ghost predicate Valid()
      reads this
    {
      ProgramValid(View())
    }

    /** The constructor: controls created, then `RefreshMonitors()`. */
    constructor (ds: seq<DisplayAnswer>)
      ensures Valid() && View() == Next(Start, Refresh(ds))
    {
      value := 0;
      enabled := true;
      timerRunning := false;
      items := [];
      selected := -1;
      labelText := InitialLabel;
      writes := [];
      errorsShown := 0;
      new;
      RefreshMonitors(ds);
    }

    /** The track bar's `Scroll` event: the bar moves to `level`, then
        `UpdateBrightness()` runs. */
    method OnScroll(level: int, accepted: bool)
      requires Valid() && InRange(level)
      modifies this
      ensures Valid() && View() == Next(old(View()), Scroll(level, accepted))
    {
      ProgramNextValid(View(), Scroll(level, accepted));
      value := level;
      UpdateBrightness(accepted);
    }

    /** `UpdateBrightness()`: write the track bar's value to the selected
        monitor; the label follows only when the write returns. */
    method UpdateBrightness(accepted: bool)
      modifies this
      ensures View() == ScrollWrite(old(View()), old(value), WriteReturns(old(View()), old(value), accepted))
    {
      ghost var before := View();
      ghost var returned := WriteReturns(before, value, accepted);
      var chosen := Selected(View());
      if chosen.Some? {
        var brightness := value;
        var attempt := SetBrightness(chosen.value, brightness, accepted);
        assert attempt.thrown.None? == returned;
        writes := writes + [Write(chosen.value, brightness)];
        if attempt.thrown.None? {
          labelText := LabelText(brightness);
        } else {
          errorsShown := errorsShown + 1;
        }
      }
      assert View() == ScrollWrite(before, before.value, returned);
    }

    /** `RefreshMonitors()`: the items are cleared first, so an enumeration
        that raises leaves the combo box empty. */
    method RefreshMonitors(ds: seq<DisplayAnswer>)
      requires Valid()
      modifies this
      ensures Valid() && View() == Next(old(View()), Refresh(ds))
    {
      ProgramNextValid(View(), Refresh(ds));
      items := [];
      selected := -1;
      var found := GetMonitors(ds);
      if found.Success? {
        if |found.value| > 0 {
          items := MonitorItems(found.value);
          selected := 0;
        } else {
          items := [Placeholder(NoMonitorsText)];
          selected := 0;
        }
      } else {
        errorsShown := errorsShown + 1;
      }
    }
  }
}
