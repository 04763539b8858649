/** The tray application's main form (the newest generation): the debounced
    controller over the library's `DisplayMonitor`, with an on-screen display
    shown on every hotkey step that moves the level. */
module TrayMainForm {
  import opened Wrappers
  import opened Brightness
  import opened Enumeration
  import opened Vcp
  import CoreDisplayMonitor
  import opened OsdForm
  import opened Controller
  import HotkeyManager

  type Monitor = CoreDisplayMonitor.DisplayMonitor

  const NoMonitorsText: string := "No compatible monitors found"
  const UnknownLabel: string := "Brightness: --%"

  datatype TrayState = TrayState(slider: Slider<Monitor>, osd: Option<OsdView>)

  /** The events the form reacts to: a scroll of the track bar, a hotkey id
      raised by the hotkey manager, a debounce-timer tick (with the answer of
      the set call and whether the form is visible), and a refresh (with the
      displays' answers). */
  datatype Event =
    | Scroll(level: int)
    | Hotkey(id: int)
    | Tick(accepted: bool, visible: bool)
    | Refresh(displays: seq<DisplayAnswer>)

  /** The form's state after its constructor, before the first refresh. */
  const Start: TrayState := TrayState(Initial(UnknownLabel), None)

  /** `ShowOSD(level)`: the existing OSD, or a new one when there is none or it
      was disposed, showing `level`. */
  function ShowOsd(osd: Option<OsdView>, level: int): OsdView
  {
    Shown(if osd.None? || osd.value.disposed then Fresh else osd.value, level)
  }

  /** `ChangeBrightnessStep(delta)`: the controller's step, and the OSD when the
      level moved. */
  function TrayStep(t: TrayState, delta: int): TrayState
  {
    var s := StepBy(t.slider, delta);
    if s.value != t.slider.value then TrayState(s, Some(ShowOsd(t.osd, s.value))) else t
  }

  /** Whether the write of the tick fails: the selected monitor's
      `SetBrightnessAsync` raises. */
  function WriteFails(s: Slider<Monitor>, accepted: bool): bool
  {
    Selected(s).Some? && CoreDisplayMonitor.SetBrightnessAsync(Selected(s).value, s.value, accepted).thrown.Some?
  }

  /** The list `GetMonitors` returns, or `None` when it raises. */
  function Enumerated(ds: seq<DisplayAnswer>): Option<seq<Monitor>>
  {
    match Enumerate(ds, CoreDisplayMonitor.Entry, false)
    case Success(ms) => Some(ms)
    case Failure(_) => None
  }

  function Next(t: TrayState, e: Event): TrayState
  {
    match e
    case Scroll(v) => t.(slider := Scrolled(t.slider, v))
    case Hotkey(id) => if HotkeyDelta(id) == 0 then t else TrayStep(t, HotkeyDelta(id))
    case Tick(accepted, visible) => t.(slider := Controller.Tick(t.slider, WriteFails(t.slider, accepted) && visible))
    case Refresh(ds) => t.(slider := Listed(t.slider, Enumerated(ds), NoMonitorsText, true))
  }

  /** The slider event an event is, for the controller's lemmas; a refresh is none. */
  function AsSliderEvent(t: TrayState, e: Event): Option<SliderEvent>
  {
    match e
    case Scroll(v) => Some(ScrollTo(v))
    case Hotkey(id) => Some(Key(id))
    case Tick(accepted, visible) => Some(Timer(WriteFails(t.slider, accepted) && visible))
    case Refresh(_) => None
  }

  /** Apart from the OSD, the form is the shared debounced controller: every
      event other than a refresh moves the slider state exactly as the
      controller's event does, so the controller's lemmas hold for this form. */
  lemma SliderProjection(t: TrayState, e: Event)
    requires !e.Refresh?
    ensures Next(t, e).slider == SliderNext(t.slider, AsSliderEvent(t, e).value)
  {
    if e.Hotkey? && HotkeyDelta(e.id) != 0 {
      StepSpec(t.slider, HotkeyDelta(e.id));
    }
  }

  /** The OSD holds a level and shows it in its label. */
  ghost predicate OsdValid(t: TrayState)
  {
    t.osd.Some? ==> InRange(t.osd.value.progress) && t.osd.value.labelText == LabelText(t.osd.value.progress)
  }

  ghost predicate TrayValid(t: TrayState)
  {
    Controller.Valid(t.slider) && OsdValid(t)
  }

  predicate TrayDeliverable(t: TrayState, e: Event)
  {
    match e
    case Scroll(v) => t.slider.enabled && InRange(v)
    case Tick(_, _) => t.slider.timerRunning
    case _ => true
  }

  /** Every delivered event keeps the form valid. */
  lemma TrayNextValid(t: TrayState, e: Event)
    requires TrayValid(t) && TrayDeliverable(t, e)
    ensures TrayValid(Next(t, e))
  {
    if e.Refresh? {
      ListedValid(t.slider, Enumerated(e.displays), NoMonitorsText, true);
    } else {
      SliderProjection(t, e);
      Controller.NextValid(t.slider, AsSliderEvent(t, e).value);
    }
  }

  /** A hotkey shows the OSD exactly when it moves the level; the OSD then
      shows the new level, in its progress bar and in the same words as the
      main label, and its hide timer runs. Otherwise nothing changes. */
  lemma HotkeyShowsOsd(t: TrayState, id: int)
    requires TrayValid(t)
    ensures var r := Next(t, Hotkey(id));
            && (r.slider.value != t.slider.value <==> r != t)
            && (r != t ==> r.osd.Some? && r.osd.value.visible && r.osd.value.hideTimerRunning
                           && r.osd.value.progress == r.slider.value
                           && r.osd.value.labelText == r.slider.labelText)
  {
    if HotkeyDelta(id) != 0 {
      StepSpec(t.slider, HotkeyDelta(id));
    }
  }

  /** A tick of a hidden form never shows an error, whatever the write does. */
  lemma HiddenFormShowsNoError(t: TrayState, accepted: bool)
    ensures Next(t, Tick(accepted, false)).slider.errorsShown == t.slider.errorsShown
  {
  }

  /** After a refresh that finds monitors, a tick writes the slider's level to
      the first monitor found, and that write sends VCP 10h with the level to
      the first physical monitor's own handle. */
  lemma RefreshThenTick(t: TrayState, ds: seq<DisplayAnswer>, accepted: bool, visible: bool)
    requires Controller.Valid(t.slider)
    requires Enumerated(ds).Some? && |Enumerated(ds).value| > 0
    ensures var m := Enumerated(ds).value[0];
            && Next(Next(t, Refresh(ds)), Tick(accepted, visible)).slider.writes
               == t.slider.writes + [Write(m, t.slider.value)]
            && (exists i, j :: 0 <= i < |ds| && Delivers(ds[i]) && 0 <= j < |ds[i].physical|
                 && CoreDisplayMonitor.SetBrightnessAsync(m, t.slider.value, accepted).sent
                    == Some(VcpCommand(ds[i].physical[j].handle, VcpLuminance, t.slider.value)))
  {
    var m := Enumerated(ds).value[0];
    assert m in Found(ds, CoreDisplayMonitor.Entry);
    CoreDisplayMonitor.EnumeratedMonitorWrite(ds, m, t.slider.value, accepted);
  }

  class TrayMainForm {
    var value: int
    var enabled: bool
    var timerRunning: bool
    var items: seq<Item<Monitor>>
    var selected: int
    var labelText: string
    var writes: seq<Write<Monitor>>
    var errorsShown: nat
    /** Created on the first hotkey step, and again whenever it was disposed. */
    var osdForm: OsdForm?

    function SliderView(): Slider<Monitor>
      reads this
    {
      Slider(value, enabled, timerRunning, items, selected, labelText, writes, errorsShown)
    }

    function View(): TrayState
      reads this, osdForm
    {
      TrayState(SliderView(), if osdForm == null then None else Some(osdForm.View()))
    }

    ghost predicate Valid()
      reads this, osdForm
    {
      TrayValid(View()) && (osdForm != null ==> osdForm.Valid())
    }

    /** The constructor: controls created, then `RefreshMonitors()`. */
    constructor (ds: seq<DisplayAnswer>)
      ensures Valid() && View() == Next(Start, Refresh(ds))
    {
      value := 0;
      enabled := true;
      timerRunning := false;
      items := [];
      selected := -1;
      labelText := UnknownLabel;
      writes := [];
      errorsShown := 0;
      osdForm := null;
      new;
      RefreshMonitors(ds);
    }

    /** `RequestBrightnessUpdate`. */
    method RequestBrightnessUpdate()
      modifies this
      ensures SliderView() == Request(old(SliderView())) && osdForm == old(osdForm)
    {
      labelText := LabelText(value);
      timerRunning := false;
      timerRunning := true;
    }

    /** The track bar's `Scroll` event, with the new position. */
    method OnScroll(level: int)
      requires Valid() && TrayDeliverable(View(), Scroll(level))
      modifies this
      ensures Valid() && View() == Next(old(View()), Scroll(level))
    {
      TrayNextValid(View(), Scroll(level));
      value := level;
      RequestBrightnessUpdate();
    }

    /** `ShowOSD(level)`. */
    method ShowOSD(level: int)
      requires Valid()
      modifies this, osdForm
      ensures Valid() && osdForm != null
      ensures View() == TrayState(old(SliderView()), Some(ShowOsd(old(View()).osd, level)))
    {
      ghost var before := View();
      if osdForm == null || osdForm.disposed {
        osdForm := new OsdForm();
      }
      assert osdForm.View() == if before.osd.None? || before.osd.value.disposed then Fresh else before.osd.value;
      osdForm.ShowBrightness(level);
      assert SliderView() == before.slider;
    }

    /** `ChangeBrightnessStep(delta)`. */
    method ChangeBrightnessStep(delta: int)
      requires Valid()
      modifies this, osdForm
      ensures Valid() && View() == TrayStep(old(View()), delta)
    {
      var newValue := Clamp(value + delta, MinLevel, MaxLevel);
      if newValue != value {
        value := newValue;
        RequestBrightnessUpdate();
        ShowOSD(newValue);
      }
    }

    /** `OnHotkeyPressed(id)`. */
    method OnHotkeyPressed(id: int)
      requires Valid()
      modifies this, osdForm
      ensures Valid() && View() == Next(old(View()), Hotkey(id))
    {
      if id == HotkeyManager.IncreaseId {
        ChangeBrightnessStep(Step);
      } else if id == HotkeyManager.DecreaseId {
        ChangeBrightnessStep(-Step);
      }
    }

    /** `WndProc(ref m)`: the hotkey manager handles `WM_HOTKEY`; everything
        else goes to the base window procedure. Returns whether the message
        was handled. */
    method WndProc(m: HotkeyManager.Message) returns (handled: bool)
      requires Valid()
      modifies this, osdForm
      ensures Valid()
      ensures handled <==> m.msg == HotkeyManager.WmHotkey
      ensures HotkeyManager.ProcessMessage(m).Fired? ==> View() == Next(old(View()), Hotkey(m.wParam as int))
      ensures !HotkeyManager.ProcessMessage(m).Fired? ==> View() == old(View())
    {
      var d := HotkeyManager.ProcessMessage(m);
      if d.Fired? {
        OnHotkeyPressed(d.id);
      }
      handled := d != HotkeyManager.Passed;
    }

    /** `ApplyBrightnessChange` on a tick: `accepted` is the set call's answer,
        `visible` whether the form is shown. */
    method ApplyBrightnessChange(accepted: bool, visible: bool)
      requires Valid()
      modifies this
      ensures Valid() && View() == Next(old(View()), Tick(accepted, visible))
    {
      Controller.TickValid(SliderView(), WriteFails(SliderView(), accepted) && visible);
      WriteSelected(accepted, visible);
    }

    /** The body of `ApplyBrightnessChange`: stop the timer, write the value to
        the selected monitor, report a failure when the form is visible. */
    method WriteSelected(accepted: bool, visible: bool)
      modifies this
      ensures SliderView() == Controller.Tick(old(SliderView()), WriteFails(old(SliderView()), accepted) && visible)
      ensures osdForm == old(osdForm)
    {
      ghost var before := SliderView();
      ghost var fails := WriteFails(before, accepted);
      timerRunning := false;
      var chosen := Selected(SliderView());
      assert chosen == Selected(before);
      if chosen.Some? {
        var brightness := value;
        var attempt := CoreDisplayMonitor.SetBrightnessAsync(chosen.value, brightness, accepted);
        assert attempt.thrown.Some? == fails;
        writes := writes + [Write(chosen.value, brightness)];
        if attempt.thrown.Some? && visible {
          errorsShown := errorsShown + 1;
        }
        assert SliderView() == before.(timerRunning := false, writes := before.writes + [Write(chosen.value, before.value)],
                                       errorsShown := before.errorsShown + if fails && visible then 1 else 0);
      } else {
        assert SliderView() == before.(timerRunning := false);
      }
    }

    /** `RefreshMonitors()`, with the displays' answers. */
    method RefreshMonitors(ds: seq<DisplayAnswer>)
      requires Controller.Valid(SliderView()) && OsdValid(View())
      modifies this
      ensures Valid() && View() == Next(old(View()), Refresh(ds))
    {
      ghost var before := View();
      ListedValid(before.slider, Enumerated(ds), NoMonitorsText, true);
      items := [];
      selected := -1;
      var found := CoreDisplayMonitor.GetMonitors(ds);
      assert found.Success? <==> Enumerated(ds).Some?;
      assert found.Success? ==> found.value == Enumerated(ds).value;
      if found.Success? {
        if |found.value| > 0 {
          items := MonitorItems(found.value);
          selected := 0;
          enabled := true;
        } else {
          items := [Placeholder(NoMonitorsText)];
          selected := 0;
          enabled := false;
        }
      } else {
        errorsShown := errorsShown + 1;
      }
      assert SliderView() == Listed(before.slider, Enumerated(ds), NoMonitorsText, true);
      assert View() == Next(before, Refresh(ds));
    }
  }
}
