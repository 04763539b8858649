/** The brightness controller shared by the three main forms: a track bar
    (value 0..100, enabled or not), a label, a debounce timer (running or
    stopped), a combo box of items with a selected index, and the log of the
    brightness writes issued. The forms differ only in how they enumerate and
    write monitors, so the monitor type `M` is a parameter here. */
module Controller {
  import opened Wrappers
  import opened Brightness
  import HotkeyManager

  /** An entry of the combo box: a monitor, or the placeholder text shown when
      there is none. */
  datatype Item<M> = MonitorItem(monitor: M) | Placeholder(text: string)

  /** One brightness write issued: the monitor and the level sent to it. */
  datatype Write<M> = Write(monitor: M, level: int)

  datatype Slider<M> = Slider(
    value: int,            // brightnessTrackBar.Value
    enabled: bool,         // brightnessTrackBar.Enabled
    timerRunning: bool,    // debounceTimer running
    items: seq<Item<M>>,   // monitorComboBox.Items
    selected: int,         // monitorComboBox.SelectedIndex, -1 for none
    labelText: string,         // brightnessLabel.Text
    writes: seq<Write<M>>, // the writes issued, oldest first
    errorsShown: nat)      // the error message boxes shown

  /** The form's state right after its controls are created: value 0, slider
      enabled, timer stopped, no items, the given label text. */
  function Initial<M>(labelText: string): (s: Slider<M>)
    ensures s.value == MinLevel && s.enabled && !s.timerRunning
    ensures s.items == [] && s.selected == -1 && s.labelText == labelText
    ensures s.writes == [] && s.errorsShown == 0
  {
    Slider(0, true, false, [], -1, labelText, [], 0)
  }

  /** What the controls guarantee in every reachable state: the track bar holds
      a level, the selected index is -1 or names an item, and every write sent
      a level. */
  ghost predicate Valid<M>(s: Slider<M>)
  {
    && InRange(s.value)
    && -1 <= s.selected < |s.items|
    && forall i :: 0 <= i < |s.writes| ==> InRange(s.writes[i].level)
  }

  /** `SelectedItem is <monitor type> m`: the selected item, when it is a monitor. */
  function Selected<M>(s: Slider<M>): (r: Option<M>)
    ensures r.Some? <==> 0 <= s.selected < |s.items| && s.items[s.selected].MonitorItem?
    ensures r.Some? ==> r.value == s.items[s.selected].monitor
  {
    if 0 <= s.selected < |s.items| && s.items[s.selected].MonitorItem? then Some(s.items[s.selected].monitor)
    else None
  }

  /** `RequestBrightnessUpdate`: show the value in the label, restart the timer. */
  function Request<M>(s: Slider<M>): (r: Slider<M>)
    ensures r.timerRunning && r.labelText == LabelText(s.value)
    ensures r == s.(timerRunning := r.timerRunning, labelText := r.labelText)
  {
    s.(labelText := LabelText(s.value), timerRunning := true)
  }

  /** A scroll of the track bar to `level`, followed by the request. */
  function Scrolled<M>(s: Slider<M>, level: int): (r: Slider<M>)
    ensures r.value == level && r.timerRunning && r.labelText == LabelText(level)
    ensures r == s.(value := level, timerRunning := r.timerRunning, labelText := r.labelText)
  {
    Request(s.(value := level))
  }

  /** The level `ChangeBrightnessStep(delta)` moves to. */
  function Stepped(value: int, delta: int): (r: int)
    ensures InRange(r)
    ensures InRange(value + delta) ==> r == value + delta
  {
    ClampLevel(value + delta)
  }

  /** `ChangeBrightnessStep(delta)` without the on-screen display: move to the
      clamped level and request an update, unless the level stays the same. */
  function StepBy<M>(s: Slider<M>, delta: int): Slider<M>
  {
    var v := Stepped(s.value, delta);
    if v != s.value then Request(s.(value := v)) else s
  }

  /** A step that does not move the level changes nothing at all; one that does
      sets the value and the label and restarts the timer, and touches nothing
      else. */
  lemma StepSpec<M>(s: Slider<M>, delta: int)
    ensures var r := StepBy(s, delta);
            && r.value == Stepped(s.value, delta)
            && (Stepped(s.value, delta) == s.value <==> r == s)
            && (r != s ==> r.timerRunning && r.labelText == LabelText(r.value))
            && r.items == s.items && r.selected == s.selected && r.enabled == s.enabled
            && r.writes == s.writes && r.errorsShown == s.errorsShown
  {
  }

  /** The step `OnHotkeyPressed(id)` takes: +5 for the increase id, -5 for the
      decrease id, none for any other id. */
  function HotkeyDelta(id: int): (d: int)
    ensures id == HotkeyManager.IncreaseId ==> d == Step
    ensures id == HotkeyManager.DecreaseId ==> d == -Step
    ensures id != HotkeyManager.IncreaseId && id != HotkeyManager.DecreaseId ==> d == 0
  {
    if id == HotkeyManager.IncreaseId then Step
    else if id == HotkeyManager.DecreaseId then -Step
    else 0
  }

  /** `OnHotkeyPressed(id)` without the on-screen display. */
  function OnHotkey<M>(s: Slider<M>, id: int): (r: Slider<M>)
    ensures id != HotkeyManager.IncreaseId && id != HotkeyManager.DecreaseId ==> r == s
    ensures id == HotkeyManager.IncreaseId && InRange(s.value) ==>
              r.value == if s.value + Step <= MaxLevel then s.value + Step else MaxLevel
    ensures id == HotkeyManager.DecreaseId && InRange(s.value) ==>
              r.value == if s.value - Step >= MinLevel then s.value - Step else MinLevel
    ensures r.items == s.items && r.selected == s.selected && r.writes == s.writes
  {
    var d := HotkeyDelta(id);
    if d == 0 then s else StepBy(s, d)
  }

  /** `ApplyBrightnessChange` on a timer tick: stop the timer; if a monitor is
      selected, write the current value to it, and count an error box when
      `reported` (the write failed and the form shows the failure). */
  function Tick<M>(s: Slider<M>, reported: bool): (r: Slider<M>)
    ensures !r.timerRunning
    ensures r.value == s.value && r.items == s.items && r.selected == s.selected && r.labelText == s.labelText
    ensures Selected(s).None? ==> r == s.(timerRunning := false)
    ensures Selected(s).Some? ==> r.writes == s.writes + [Write(Selected(s).value, s.value)]
    ensures r.errorsShown == s.errorsShown + (if Selected(s).Some? && reported then 1 else 0)
  {
    var stopped := s.(timerRunning := false);
    match Selected(stopped)
    case None => stopped
    case Some(m) =>
      stopped.(writes := stopped.writes + [Write(m, stopped.value)],
               errorsShown := stopped.errorsShown + if reported then 1 else 0)
  }

  function MonitorItems<M>(ms: seq<M>): (r: seq<Item<M>>)
    ensures |r| == |ms| && forall i :: 0 <= i < |ms| ==> r[i] == MonitorItem(ms[i])
  {
    seq(|ms|, i requires 0 <= i < |ms| => MonitorItem(ms[i]))
  }

  /** `RefreshMonitors` once enumeration has answered: `found` is the list, or
      `None` when enumeration raised (the items stay cleared and an error box is
      shown). A non-empty list is shown with its first monitor selected; an
      empty one as the single `placeholder` item, selected. When
      `togglesSlider`, the slider is enabled exactly when there are monitors;
      otherwise it is left alone. */
  function Listed<M>(s: Slider<M>, found: Option<seq<M>>, placeholder: string, togglesSlider: bool): (r: Slider<M>)
    ensures r.value == s.value && r.timerRunning == s.timerRunning && r.labelText == s.labelText && r.writes == s.writes
    ensures found.None? ==> r.items == [] && r.selected == -1 && r.enabled == s.enabled
                            && r.errorsShown == s.errorsShown + 1
    ensures found.Some? ==> r.errorsShown == s.errorsShown && r.selected == 0
    ensures found.Some? && |found.value| > 0 ==>
              r.items == MonitorItems(found.value) && Selected(r) == Some(found.value[0])
              && r.enabled == (togglesSlider || s.enabled)
    ensures found.Some? && |found.value| == 0 ==>
              r.items == [Placeholder(placeholder)] && Selected(r).None?
              && r.enabled == (!togglesSlider && s.enabled)
  {
    match found
    case None => s.(items := [], selected := -1, errorsShown := s.errorsShown + 1)
    case Some(ms) =>
      if |ms| > 0 then
        s.(items := MonitorItems(ms), selected := 0, enabled := if togglesSlider then true else s.enabled)
      else
        s.(items := [Placeholder(placeholder)], selected := 0, enabled := if togglesSlider then false else s.enabled)
  }

  /** The events that reach the debounced controller between two refreshes. */
  datatype SliderEvent = ScrollTo(level: int) | Key(id: int) | Timer(reported: bool)

  predicate IsRequest(e: SliderEvent) { e.ScrollTo? || e.Key? }

  /** Scrolls reach the form only while the slider is enabled, and only with a
      level of its range; timer ticks only while the timer runs. */
  predicate Deliverable<M>(s: Slider<M>, e: SliderEvent)
  {
    match e
    case ScrollTo(v) => s.enabled && InRange(v)
    case Key(_) => true
    case Timer(_) => s.timerRunning
  }

  function SliderNext<M>(s: Slider<M>, e: SliderEvent): Slider<M>
  {
    match e
    case ScrollTo(v) => Scrolled(s, v)
    case Key(id) => OnHotkey(s, id)
    case Timer(reported) => Tick(s, reported)
  }

  /** The state after a sequence of events. */
  function Run<M>(s: Slider<M>, es: seq<SliderEvent>): Slider<M>
    decreases |es|
  {
    if es == [] then s else SliderNext(Run(s, es[..|es| - 1]), es[|es| - 1])
  }

  lemma RunSnoc<M>(s: Slider<M>, es: seq<SliderEvent>, e: SliderEvent)
    ensures Run(s, es + [e]) == SliderNext(Run(s, es), e)
  {
    assert (es + [e])[..|es|] == es;
  }

  /** Every delivered event keeps the state valid. */
  lemma NextValid<M>(s: Slider<M>, e: SliderEvent)
    requires Valid(s) && Deliverable(s, e)
    ensures Valid(SliderNext(s, e))
  {
    if e.Timer? {
      TickValid(s, e.reported);
    }
  }

  /** A tick keeps the state valid, whether or not the timer was running. */
  lemma TickValid<M>(s: Slider<M>, reported: bool)
    requires Valid(s)
    ensures Valid(Tick(s, reported))
  {
    var r := Tick(s, reported);
    forall i | 0 <= i < |r.writes| ensures InRange(r.writes[i].level) {
      if i == |s.writes| {
        assert Selected(s).Some?;
      }
    }
  }

  /** A refresh keeps the state valid. */
  lemma ListedValid<M>(s: Slider<M>, found: Option<seq<M>>, placeholder: string, togglesSlider: bool)
    requires Valid(s)
    ensures Valid(Listed(s, found, placeholder, togglesSlider))
  {
  }

  /** A burst of requests writes nothing and leaves the items and the log
      alone; the tick that follows issues exactly one write to the selected
      monitor, carrying the value the slider has at that tick. */
  lemma {:induction false} BurstThenTick<M>(s: Slider<M>, es: seq<SliderEvent>, reported: bool)
    requires forall k :: 0 <= k < |es| ==> IsRequest(es[k])
    ensures var b := Run(s, es);
            && b.items == s.items && b.selected == s.selected && b.writes == s.writes
            && b.errorsShown == s.errorsShown
            && Tick(b, reported).writes
               == s.writes + (if Selected(s).Some? then [Write(Selected(s).value, b.value)] else [])
    decreases |es|
  {
    if es != [] {
      BurstThenTick(s, es[..|es| - 1], reported);
    }
  }

  /** The last scroll of a burst decides the level written at the next tick,
      and the timer runs until that tick. */
  lemma LastScrollWins<M>(s: Slider<M>, es: seq<SliderEvent>, v: int, reported: bool)
    requires forall k :: 0 <= k < |es| ==> IsRequest(es[k])
    requires Selected(s).Some?
    ensures var b := Run(s, es + [ScrollTo(v)]);
            && b.timerRunning && b.value == v && b.labelText == LabelText(v)
            && Run(s, es + [ScrollTo(v), Timer(reported)]).writes == s.writes + [Write(Selected(s).value, v)]
            && !Run(s, es + [ScrollTo(v), Timer(reported)]).timerRunning
  {
    var es1 := es + [ScrollTo(v)];
    RunSnoc(s, es, ScrollTo(v));
    assert es + [ScrollTo(v), Timer(reported)] == es1 + [Timer(reported)];
    RunSnoc(s, es1, Timer(reported));
    BurstThenTick(s, es1, reported);
  }

  /** A tick leaves the timer stopped, so a second tick cannot follow until a
      new request starts it again. */
  lemma NoTickWithoutRequest<M>(s: Slider<M>, reported: bool)
    ensures !Deliverable(Tick(s, reported), Timer(reported))
  {
  }

  /** While no monitor is selected (the placeholder, or nothing), no sequence
      of scrolls, hotkeys and ticks issues a write. */
  lemma {:induction false} PlaceholderNeverWrites<M>(s: Slider<M>, es: seq<SliderEvent>)
    requires Selected(s).None?
    ensures Run(s, es).writes == s.writes
    ensures Run(s, es).items == s.items && Run(s, es).selected == s.selected
    decreases |es|
  {
    if es != [] {
      PlaceholderNeverWrites(s, es[..|es| - 1]);
    }
  }

  function Repeat(e: SliderEvent, n: nat): (r: seq<SliderEvent>)
    ensures |r| == n && forall k :: 0 <= k < n ==> r[k] == e
  {
    if n == 0 then [] else Repeat(e, n - 1) + [e]
  }

  /** The level after `n` increase steps from `v`: up by 5 each, up to 100. */
  function Raised(v: int, n: nat): int
  {
    if v + n * Step <= MaxLevel then v + n * Step else MaxLevel
  }

  /** The level after `n` decrease steps from `v`: down by 5 each, down to 0. */
  function Lowered(v: int, n: nat): int
  {
    if v - n * Step >= MinLevel then v - n * Step else MinLevel
  }

  lemma RaisedOnce(v: int, n: nat)
    requires InRange(v) && n > 0
    ensures InRange(Raised(v, n - 1)) && Raised(v, n) == Stepped(Raised(v, n - 1), Step)
  {
    assert n * Step == (n - 1) * Step + Step;
  }

  lemma LoweredOnce(v: int, n: nat)
    requires InRange(v) && n > 0
    ensures InRange(Lowered(v, n - 1)) && Lowered(v, n) == Stepped(Lowered(v, n - 1), -Step)
  {
    assert n * Step == (n - 1) * Step + Step;
  }

  lemma KeyMoves<M>(t: Slider<M>, id: int)
    requires HotkeyDelta(id) != 0
    ensures SliderNext(t, Key(id)).value == Stepped(t.value, HotkeyDelta(id))
  {
    StepSpec(t, HotkeyDelta(id));
  }

  /** `n` presses of the increase hotkey raise the level by 5 each, up to 100. */
  lemma {:induction false} IncreaseRepeated<M>(s: Slider<M>, n: nat)
    requires InRange(s.value)
    ensures Run(s, Repeat(Key(HotkeyManager.IncreaseId), n)).value == Raised(s.value, n)
  {
    if n > 0 {
      var before := Repeat(Key(HotkeyManager.IncreaseId), n - 1);
      IncreaseRepeated(s, n - 1);
      RunSnoc(s, before, Key(HotkeyManager.IncreaseId));
      KeyMoves(Run(s, before), HotkeyManager.IncreaseId);
      RaisedOnce(s.value, n);
    }
  }

  /** `n` presses of the decrease hotkey lower the level by 5 each, down to 0. */
  lemma {:induction false} DecreaseRepeated<M>(s: Slider<M>, n: nat)
    requires InRange(s.value)
    ensures Run(s, Repeat(Key(HotkeyManager.DecreaseId), n)).value == Lowered(s.value, n)
  {
    if n > 0 {
      var before := Repeat(Key(HotkeyManager.DecreaseId), n - 1);
      DecreaseRepeated(s, n - 1);
      RunSnoc(s, before, Key(HotkeyManager.DecreaseId));
      KeyMoves(Run(s, before), HotkeyManager.DecreaseId);
      LoweredOnce(s.value, n);
    }
  }
}
