/** The persisted settings record and its defaults. */
module AppSettings {

  /** Hotkey modifier bits as `RegisterHotKey` reads them. */
  const ModAlt: bv32 := 1
  const ModControl: bv32 := 2
  const ModShift: bv32 := 4
  const ModWin: bv32 := 8

  /** Virtual-key codes of the default hotkeys. */
  const KeyUp: int := 38
  const KeyDown: int := 40

  datatype AppSettings = AppSettings(
    isFirstRun: bool,
    increaseModifiers: bv32,
    increaseKey: int,
    decreaseModifiers: bv32,
    decreaseKey: int)

  /** `new AppSettings()`: first run, Ctrl+Shift+Up to increase, Ctrl+Shift+Down to decrease. */
  const Default: AppSettings := AppSettings(true, ModControl | ModShift, KeyUp, ModControl | ModShift, KeyDown)

  /** The default bindings use Ctrl and Shift only, and differ in their key alone. */
  lemma DefaultBindings()
    ensures Default.isFirstRun
    ensures Default.increaseModifiers == Default.decreaseModifiers == 6
    ensures Default.increaseModifiers & (ModAlt | ModWin) == 0
    ensures Default.increaseKey != Default.decreaseKey
  {
  }
}
