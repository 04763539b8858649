/** The earlier main form (`MainForm.cs` at the repository root): the same
    debounced controller over `Models/DisplayMonitor`, without an on-screen
    display, dispatching `WM_HOTKEY` itself and registering two fixed hotkeys. */
module RootMainForm {
  import opened Wrappers
  import opened Brightness
  import opened Enumeration
  import opened Vcp
  import opened Decimal
  import ModelsDisplayMonitor
  import opened Controller
  import HotkeyManager
  import AppSettings

  type Monitor = ModelsDisplayMonitor.DisplayMonitor

  /** The form's own constants: the first hotkey id (the second is one more),
      the hotkey message, and the two modifier bits. */
  const HotkeyId: int := 1
  const WmHotkey: int := 0x0312
  const ModControl: bv32 := 0x0002
  const ModShift: bv32 := 0x0004

  const NoMonitorsText: string := "No compatible monitors found"
  const UnknownLabel: string := "Brightness: --%"

  /** `RegisterHotKeys()`: Ctrl+Shift+Up as the first id, Ctrl+Shift+Down as the next. */
  function Registrations(): (r: seq<HotkeyManager.OsCall>)
    ensures |r| == 2 && r[0].Register? && r[1].Register?
  {
    [HotkeyManager.Register(HotkeyId, HotkeyManager.Binding(ModControl | ModShift, AppSettings.KeyUp)),
     HotkeyManager.Register(HotkeyId + 1, HotkeyManager.Binding(ModControl | ModShift, AppSettings.KeyDown))]
  }

  /** The fixed hotkeys are the ones the later hotkey manager registers for
      the default settings, under the same ids and message code. */
  lemma RegistrationsAreDefaults()
    ensures Registrations()[0] == HotkeyManager.Register(HotkeyManager.IncreaseId, HotkeyManager.IncreaseBinding(AppSettings.Default))
    ensures Registrations()[1] == HotkeyManager.Register(HotkeyManager.DecreaseId, HotkeyManager.DecreaseBinding(AppSettings.Default))
    ensures WmHotkey == HotkeyManager.WmHotkey
  {
  }

  /** The events: a scroll, a window message, a debounce tick (with the set
      call's answer), a refresh (with the displays' answers). */
  datatype Event =
    | Scroll(level: int)
    | WindowMessage(m: HotkeyManager.Message)
    | Tick(accepted: bool)
    | Refresh(displays: seq<DisplayAnswer>)

  const Start: Slider<Monitor> := Initial(UnknownLabel)

  /** Whether the tick's write raises. */
  function WriteFails(s: Slider<Monitor>, accepted: bool): bool
  {
    Selected(s).Some? && ModelsDisplayMonitor.SetBrightness(Selected(s).value, s.value, accepted).thrown.Some?
  }

  /** The hotkey id a message carries to `ChangeBrightnessStep`, if any: only
      `WM_HOTKEY` with a `WParam` that fits 32 bits. */
  function HotkeyOf(m: HotkeyManager.Message): (r: Option<int>)
    ensures r.Some? <==> m.msg == WmHotkey && HotkeyManager.Int32Min <= m.wParam <= HotkeyManager.Int32Max
    ensures r.Some? ==> r.value == m.wParam
  {
    match HotkeyManager.ProcessMessage(m)
    case Fired(id) => Some(id)
    case _ => None
  }

  function Next(s: Slider<Monitor>, e: Event): Slider<Monitor>
  {
    match e
    case Scroll(v) => Scrolled(s, v)
    case WindowMessage(m) => if HotkeyOf(m).Some? then OnHotkey(s, HotkeyOf(m).value) else s
    case Tick(accepted) => Controller.Tick(s, WriteFails(s, accepted))
    case Refresh(ds) => Listed(s, Some(Enumerate(ds, ModelsDisplayMonitor.Entry, true).value), NoMonitorsText, true)
  }

  predicate RootDeliverable(s: Slider<Monitor>, e: Event)
  {
    match e
    case Scroll(v) => s.enabled && InRange(v)
    case Tick(_) => s.timerRunning
    case _ => true
  }

  /** Every delivered event keeps the state valid. */
  lemma RootNextValid(s: Slider<Monitor>, e: Event)
    requires Controller.Valid(s) && RootDeliverable(s, e)
    ensures Controller.Valid(Next(s, e))
  {
    match e
    case Scroll(v) => Controller.NextValid(s, ScrollTo(v));
    case WindowMessage(m) => if HotkeyOf(m).Some? { Controller.NextValid(s, Key(HotkeyOf(m).value)); }
    case Tick(accepted) => Controller.NextValid(s, Timer(WriteFails(s, accepted)));
    case Refresh(ds) => ListedValid(s, Some(Enumerate(ds, ModelsDisplayMonitor.Entry, true).value), NoMonitorsText, true);
  }

  /** A `WM_HOTKEY` with id 1 steps up by 5 and with id 2 down by 5, clamped;
      any other message or id leaves the form as it is. */
  lemma MessageDispatch(s: Slider<Monitor>, m: HotkeyManager.Message)
    requires InRange(s.value)
    ensures m.msg != WmHotkey ==> Next(s, WindowMessage(m)) == s
    ensures m.msg == WmHotkey && m.wParam == HotkeyId ==>
              Next(s, WindowMessage(m)).value == Stepped(s.value, Step)
    ensures m.msg == WmHotkey && m.wParam == HotkeyId + 1 ==>
              Next(s, WindowMessage(m)).value == Stepped(s.value, -Step)
    ensures m.wParam != HotkeyId && m.wParam != HotkeyId + 1 ==> Next(s, WindowMessage(m)) == s
  {
  }

  /** Every failed write is reported, whether or not the window is shown. */
  lemma FailedWriteReported(s: Slider<Monitor>, accepted: bool)
    requires Selected(s).Some?
    ensures Next(s, Tick(accepted)).errorsShown == s.errorsShown + (if WriteFails(s, accepted) then 1 else 0)
    ensures WriteFails(s, accepted) <==> !accepted || ParseInt64(Selected(s).value.path).Failure?
  {
  }

  /** Enumeration swallows its own exceptions, so a refresh never shows the
      refresh error. */
  lemma RefreshNeverFails(s: Slider<Monitor>, ds: seq<DisplayAnswer>)
    ensures Next(s, Refresh(ds)).errorsShown == s.errorsShown
    ensures |Next(s, Refresh(ds)).items| >= 1 && Next(s, Refresh(ds)).selected == 0
  {
  }

  class RootMainForm {
    var value: int
    var enabled: bool
    var timerRunning: bool
    var items: seq<Item<Monitor>>
    var selected: int
    var labelText: string
    var writes: seq<Write<Monitor>>
    var errorsShown: nat

    function View(): Slider<Monitor>
      reads this
    {
      Slider(value, enabled, timerRunning, items, selected, labelText, writes, errorsShown)
    }

    ghost predicate Valid()
      reads this
    {
      Controller.Valid(View())
    }

    /** The constructor: controls created, `RefreshMonitors()`, then
        `RegisterHotKeys()` (whose calls `Registrations` lists). */
    constructor (ds: seq<DisplayAnswer>)
      ensures Valid() && View() == Next(Start, Refresh(ds))
    {
      value := 0;
      enabled := true;
      timerRunning := false;
      items := [];
      selected := -1;
      labelText := UnknownLabel;
      writes := [];
      errorsShown := 0;
      new;
      RefreshMonitors(ds);
    }

    method RequestBrightnessUpdate()
      modifies this
      ensures View() == Request(old(View()))
    {
      labelText := LabelText(value);
      timerRunning := false;
      timerRunning := true;
    }

    method OnScroll(level: int)
      requires Valid() && RootDeliverable(View(), Scroll(level))
      modifies this
      ensures Valid() && View() == Next(old(View()), Scroll(level))
    {
      RootNextValid(View(), Scroll(level));
      value := level;
      RequestBrightnessUpdate();
    }

    method ChangeBrightnessStep(delta: int)
      modifies this
      ensures View() == StepBy(old(View()), delta)
    {
      var newValue := Clamp(value + delta, MinLevel, MaxLevel);
      if newValue != value {
        value := newValue;
        RequestBrightnessUpdate();
      }
    }

    /** `WndProc(ref m)`: on `WM_HOTKEY`, step by +5 for the first id and by
        -5 for the second; every message then goes to the base procedure. */
    method WndProc(m: HotkeyManager.Message)
      requires Valid()
      modifies this
      ensures Valid() && View() == Next(old(View()), WindowMessage(m))
    {
      RootNextValid(View(), WindowMessage(m));
      if m.msg == WmHotkey && HotkeyManager.Int32Min <= m.wParam <= HotkeyManager.Int32Max {
        var id := m.wParam as int;
        if id == HotkeyId {
          ChangeBrightnessStep(Step);
        } else if id == HotkeyId + 1 {
          ChangeBrightnessStep(-Step);
        }
      }
    }

    method ApplyBrightnessChange(accepted: bool)
      requires Valid()
      modifies this
      ensures Valid() && View() == Next(old(View()), Tick(accepted))
    {
      ghost var before := View();
      ghost var reported := WriteFails(before, accepted);
      Controller.TickValid(before, reported);
      timerRunning := false;
      var chosen := Selected(View());
      assert chosen == Selected(before);
      if chosen.Some? {
        var brightness := value;
        var attempt := ModelsDisplayMonitor.SetBrightness(chosen.value, brightness, accepted);
        assert attempt.thrown.Some? == reported;
        writes := writes + [Write(chosen.value, brightness)];
        if attempt.thrown.Some? {
          errorsShown := errorsShown + 1;
        }
      }
      assert View() == Controller.Tick(before, reported);
    }

    method RefreshMonitors(ds: seq<DisplayAnswer>)
      requires Valid()
      modifies this
      ensures Valid() && View() == Next(old(View()), Refresh(ds))
    {
      ghost var before := View();
      RootNextValid(before, Refresh(ds));
      items := [];
      selected := -1;
      var found := ModelsDisplayMonitor.GetMonitors(ds);
      assert found == Enumerate(ds, ModelsDisplayMonitor.Entry, true).value;
      if |found| > 0 {
        items := MonitorItems(found);
        selected := 0;
        enabled := true;
      } else {
        items := [Placeholder(NoMonitorsText)];
        selected := 0;
        enabled := false;
      }
    }
  }
}
