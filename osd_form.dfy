/** The on-screen display: a borderless window with a label and a 0..100
    progress bar, shown on every hotkey step and hidden by its own timer. */
module OsdForm {
  import opened Wrappers
  import opened Brightness

  /** What the OSD shows and whether its hide timer runs. */
  datatype OsdView = OsdView(labelText: string, progress: int, hideTimerRunning: bool,
                             visible: bool, disposed: bool)

  /** The freshly constructed form: "Brightness: 50%", progress 50, hidden, timer stopped. */
  const Fresh: OsdView := OsdView(LabelText(50), 50, false, false, false)

  /** `ShowBrightness(value)` on a view. */
  function Shown(o: OsdView, value: int): (r: OsdView)
    ensures InRange(r.progress) && r.labelText == LabelText(r.progress)
    ensures InRange(value) ==> r.progress == value
    ensures r.visible && r.hideTimerRunning && r.disposed == o.disposed
  {
    var v := ClampLevel(value);
    o.(labelText := LabelText(v), progress := v, hideTimerRunning := true, visible := true)
  }

  /** `HideOSD()` on a view. */
  function Hidden(o: OsdView): (r: OsdView)
    ensures !r.visible && !r.hideTimerRunning
    ensures r.labelText == o.labelText && r.progress == o.progress && r.disposed == o.disposed
  {
    o.(hideTimerRunning := false, visible := false)
  }

  /** Showing the same level twice leaves the same view as showing it once. */
  lemma ShowIdempotent(o: OsdView, value: int)
    ensures Shown(Shown(o, value), value) == Shown(o, value)
  {
  }

  /** The label always reads back as the level on the progress bar. */
  lemma ShownLabelReadsBack(o: OsdView, value: int)
    ensures LabelLevel(Shown(o, value).labelText) == Some(Shown(o, value).progress)
  {
    LabelRoundTrip(Shown(o, value).progress);
  }

  class OsdForm {
    var labelText: string
    var progress: int
    var hideTimerRunning: bool
    var visible: bool
    var disposed: bool

    function View(): OsdView
      reads this
    {
      OsdView(labelText, progress, hideTimerRunning, visible, disposed)
    }

    /** The progress bar's value stays within its 0..100 range. */
    ghost predicate Valid()
      reads this
    {
      InRange(progress)
    }

    constructor ()
      ensures Valid() && View() == Fresh
    {
      labelText := LabelText(50);
      progress := 50;
      hideTimerRunning := false;
      visible := false;
      disposed := false;
    }

    /** Clamp to 0..100, set label and progress bar, restart the hide timer, show. */
    method ShowBrightness(value: int)
      requires Valid() && !disposed
      modifies this
      ensures Valid() && View() == Shown(old(View()), value)
      ensures progress == ClampLevel(value) && labelText == LabelText(progress)
      ensures visible && hideTimerRunning && !disposed
    {
      var v := ClampLevel(value);
      labelText := LabelText(v);
      progress := v;
      hideTimerRunning := false;
      hideTimerRunning := true;
      visible := true;
    }

    /** The hide timer's tick: `HideOSD()` stops the timer and hides the form. */
    method HideTick()
      requires Valid() && hideTimerRunning
      modifies this
      ensures Valid() && View() == Hidden(old(View()))
    {
      hideTimerRunning := false;
      visible := false;
    }

    /** `Close()` on the shown, non-modal form: hidden and disposed. */
    method Close()
      requires Valid()
      modifies this
      ensures Valid() && disposed && !visible
      ensures labelText == old(labelText) && progress == old(progress) && hideTimerRunning == old(hideTimerRunning)
    {
      visible := false;
      disposed := true;
    }
  }
}
