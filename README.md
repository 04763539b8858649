# Monitor Brightness Control — a Dafny model

Monitor Brightness Control is a small Windows desktop application that sets the
brightness of external monitors over DDC/CI. It enumerates the physical monitors
behind every display (`EnumDisplayMonitors`, `GetNumberOfPhysicalMonitorsFromHMONITOR`,
`GetPhysicalMonitorsFromHMONITOR`), remembers each monitor's handle as decimal text,
and writes the VESA MCCS "Luminance" control (VCP code 10h) with `SetVCPFeature`.
The user moves a 0..100 track bar or presses global hotkeys. The hotkeys step the
level by 5, clamped to 0..100.

The repository holds three generations of the main window:

- `Program.cs`: writes on every scroll.
- `MainForm.cs`: adds a 150 ms debounce timer and a fixed Ctrl+Shift+Up/Down hotkey pair.
- `BrightnessControl/MainForm.cs`: the tray application. It adds configurable hotkeys
  (`HotkeyManager`, `SettingsForm`, `AppSettings`) and an on-screen display (`OSDForm`).

There are also three monitor classes with their own enumeration and write code.

This project models all of these in Dafny:

| file | models |
|---|---|
| `wrappers.dfy` | `Option` and `Result` |
| `decimal.dfy` | `long.ToString()` and `long.Parse` on the handle text |
| `brightness.dfy` | the 0..100 range, `Math.Clamp`, the 5-step and the `"Brightness: N%"` label |
| `enumeration.dfy` | the enumeration callback, as one loop over the operating system's answers |
| `vcp.dfy` | the `SetVCPFeature` write, the `(uint)` cast and the exceptions |
| `core_display_monitor.dfy` | `BrightnessControl.Core/Models/DisplayMonitor.cs` |
| `models_display_monitor.dfy` | `Models/DisplayMonitor.cs` |
| `models_monitor.dfy` | `Models/Monitor.cs` |
| `controller.dfy` | the track bar / label / debounce timer / monitor list logic that the main windows share |
| `program.dfy` | `Program.cs`: `MainForm` and `MonitorInfo` |
| `root_main_form.dfy` | `MainForm.cs` |
| `tray_main_form.dfy` | `BrightnessControl/MainForm.cs` |
| `hotkey_manager.dfy` | `BrightnessControl/HotkeyManager.cs` |
| `settings_form.dfy` | `BrightnessControl/SettingsForm.cs` |
| `osd_form.dfy` | `BrightnessControl/OSDForm.cs` |
| `app_settings.dfy` | `BrightnessControl.Core/Settings/AppSettings.cs` |

Each window is a Dafny `class` whose fields are the controls' state:

- the track bar value, whether it is enabled, the label text, the timer;
- the combo box items and selected index;
- the log of writes issued and the count of error boxes shown.

Each event handler is a method whose postcondition ties the new state to a pure
transition function, `View() == Next(old(View()), e)`. The properties of the
application are proved as lemmas about those transition functions. These include:

- the debounce writes once, with the last level;
- hotkey steps clamp;
- a placeholder item never writes;
- every event keeps the state valid.

The operating system is an input:

- The answers of the enumeration calls are a sequence of `DisplayAnswer` values, one per display.
- The result of `SetVCPFeature` is a boolean `accepted`.
- Whether `RegisterHotKey` can take a combination is `increaseFree` / `decreaseFree`.
- Whether the tray window is visible is `visible`.

## Model

| member | source | states |
|---|---|---|
| Brightness.Clamp | BrightnessControl/MainForm.cs:217 | `Math.Clamp(v, lo, hi)` lies in `[lo, hi]`, is `v` inside the range, `lo` below it and `hi` above it |
| Brightness.ClampLevel | BrightnessControl/OSDForm.cs:61 | clamping to 0..100 gives a level in range, and leaves a level already in range unchanged |
| Brightness.LabelText | MainForm.cs:70 | the label text `$"Brightness: {n}%"`, also built at BrightnessControl/MainForm.cs:160, BrightnessControl/OSDForm.cs:62 and Program.cs:43. It has no contract of its own: its properties are `LabelRoundTrip` and `LabelTextInjective` |
| Brightness.LabelRoundTrip | BrightnessControl/MainForm.cs:160 | the label text `"Brightness: N%"` reads back as exactly `N` |
| Brightness.LabelTextInjective | MainForm.cs:70 | two levels with the same label text are the same level |
| Decimal.ParseInt64 | Program.cs:112 | `long.Parse` with `NumberStyles.Integer`: white space, an optional sign, digits, white space; overflow outside 64 bits. The function has no contract of its own: its properties are `ParseFormatRoundTrip`, `TrimStartIsSuffix`, `TrimEndIsPrefix`, `TrimmedUnchanged` and `ParseDigits` |
| Decimal.FormatInt | Models/DisplayMonitor.cs:33 | the handle's decimal text is non-empty, starts with no white space, ends in a digit, is all digits for a non-negative value and `-` then digits for a negative one |
| Decimal.ParseFormatRoundTrip | Models/DisplayMonitor.cs:60 | `long.Parse` of the text `ToString()` made of a 64-bit handle gives back that handle |
| Decimal.TrimStartIsSuffix | Program.cs:112 | the leading-white-space strip that `long.Parse` performs keeps a suffix of the text and removes only white space |
| Decimal.TrimEndIsPrefix | Program.cs:112 | the trailing-white-space strip keeps a prefix of the text and removes only white space |
| Decimal.TrimmedUnchanged | Program.cs:112 | text that neither starts nor ends with white space is parsed as it stands |
| Decimal.ParseDigits | Program.cs:112 | a sign and the decimal digits of a value within the 64-bit range parse to that value |
| Enumeration.UpToNul | Models/DisplayMonitor.cs:94-95 | the marshaled `ByValTStr` description is the prefix of the buffer before the first NUL, holds no NUL, and is followed by a NUL when shorter than the buffer |
| Enumeration.Entries | Models/DisplayMonitor.cs:28-35 | the `foreach` appends one entry per physical-monitor record of the display, in array order |
| Enumeration.Collect | Models/DisplayMonitor.cs:16-48 | the enumeration loop returns exactly the specified result: entries of every delivering display in display order, or the fault when an exception escapes and is not swallowed |
| Enumeration.Found | Models/DisplayMonitor.cs:16-48 | the list after the callback has run on every display in order. It has no contract of its own: `Collect` is proved against it, and `FoundAppend`, `SkippedDisplay`, `FoundMembers` and `FoundLength` state its properties |
| Enumeration.Enumerate | BrightnessControl.Core/Models/DisplayMonitor.cs:37-69 | what `GetMonitors` returns: with the callback's try/catch every raising display is skipped; without it an exception escapes and there is no list. Its properties are the `GetMonitors` contracts of the four monitor classes |
| Enumeration.FoundAppend | Models/DisplayMonitor.cs:46 | the entries of two runs of displays are the entries of the first followed by those of the second |
| Enumeration.SkippedDisplay | Models/DisplayMonitor.cs:23-26 | a display whose count query, allocation or fetch fails contributes nothing and does not disturb the others |
| Enumeration.FoundMembers | Models/DisplayMonitor.cs:28-35 | an entry is found if and only if it is made from some record of some delivering display |
| Enumeration.FoundLength | Models/DisplayMonitor.cs:28-35 | the number of entries is the total of the delivering displays' record counts |
| Enumeration.NothingDelivered | Models/Monitor.cs:18-33 | when no display delivers, the list is empty |
| Vcp.ToUInt32 | Models/Monitor.cs:45 | the unchecked `(uint)` cast lies in 0..2^32-1, keeps values in range and wraps negative values by 2^32 |
| Vcp.SetLuminance | Models/Monitor.cs:42-49 | the command is sent if and only if the path parses; it carries the parsed handle, VCP code 10h and the cast level; no exception if and only if sent and accepted; a `FormatException` or `OverflowException` for a bad path, `InvalidOperationException("Failed to set monitor brightness.")` for a rejected call |
| Vcp.WriteReachesHandle | Models/Monitor.cs:44-45 | for a path written as a handle's decimal text and a level 0..100, the command goes to that very handle with that level, and raises exactly when rejected |
| CoreDisplayMonitor.ToString | BrightnessControl.Core/Models/DisplayMonitor.cs:20-23 | the display text is the description, `" ("`, the device name and `")"`, in that order |
| CoreDisplayMonitor.TrimEndNul | BrightnessControl.Core/Models/DisplayMonitor.cs:57 | `TrimEnd('\0')` keeps a prefix of the buffer that does not end in NUL, and removes only NULs |
| CoreDisplayMonitor.TrimPadded | BrightnessControl.Core/Models/DisplayMonitor.cs:57 | a text that does not end in NUL, padded with NULs, trims back to itself |
| CoreDisplayMonitor.UpToNulPadded | Models/DisplayMonitor.cs:94-95 | a NUL-free description padded with NULs marshals back to itself |
| CoreDisplayMonitor.TrimAgreesWithMarshaler | BrightnessControl.Core/Models/DisplayMonitor.cs:57 | on a NUL-free description padded with NULs and read one character per UTF-16 code unit, the library's `TrimEnd('\0')` and the other classes' marshaled string agree. The Core struct as written does not read the buffer that way (see Findings) |
| CoreDisplayMonitor.AnsiView | BrightnessControl.Core/Models/DisplayMonitor.cs:80-86 | the Core struct's ANSI `char[128]` view of the native UTF-16 description: two characters per code unit, its low byte then its high byte |
| CoreDisplayMonitor.AsWrittenDescription | BrightnessControl.Core/Models/DisplayMonitor.cs:57 | the description the Core class stores as written is at most 128 characters: `TrimEnd('\0')` of the ANSI view of the first 64 code units |
| CoreDisplayMonitor.AsWrittenDescriptionSplitsText | BrightnessControl.Core/Models/DisplayMonitor.cs:80-86 | as written, the description "AB" is stored as "A", NUL, "B", which is not "AB" |
| CoreDisplayMonitor.EntryKeepsDescription | BrightnessControl.Core/Models/DisplayMonitor.cs:55-59 | read as UTF-16, a NUL-free description padded to the 128-character buffer is stored unchanged |
| CoreDisplayMonitor.Entry | BrightnessControl.Core/Models/DisplayMonitor.cs:55-59 | an entry carries the display's device name, the trimmed description, and a path that parses back to the record's handle |
| CoreDisplayMonitor.GetMonitors | BrightnessControl.Core/Models/DisplayMonitor.cs:37-69 | the result is the specified enumeration; it fails if and only if some display raises in the callback; otherwise it holds one entry per delivered record, each made from a delivering display's record |
| CoreDisplayMonitor.FoundCameFrom | BrightnessControl.Core/Models/DisplayMonitor.cs:41-66 | every listed monitor was made from a record of a delivering display |
| CoreDisplayMonitor.SetBrightnessAsync | BrightnessControl.Core/Models/DisplayMonitor.cs:25-35 | the task writes VCP 10h; it faults only with `InvalidOperationException` or a parse exception; it completes without fault if and only if the path parses and the call is accepted |
| CoreDisplayMonitor.EnumeratedMonitorWrite | BrightnessControl.Core/Models/DisplayMonitor.cs:25-35 | a write of 0..100 to a monitor from `GetMonitors` sends VCP 10h with that level to the handle of an enumerated record, and faults exactly when rejected |
| ModelsDisplayMonitor.ToString | Models/DisplayMonitor.cs:12 | the combo box text of a monitor is its name. Its property is `ShownNameIsDescription` |
| ModelsDisplayMonitor.ShownNameIsDescription | Models/DisplayMonitor.cs:12-34 | the text shown for an enumerated monitor is the marshaled description of one of the delivered records |
| ModelsDisplayMonitor.Entry | Models/DisplayMonitor.cs:30-34 | the name is the marshaled description; the path parses back to the record's handle |
| ModelsDisplayMonitor.GetMonitors | Models/DisplayMonitor.cs:14-49 | never fails (callback exceptions are swallowed); one monitor per delivered record, each found among the specified entries |
| ModelsDisplayMonitor.RaisingDisplaySkipped | Models/DisplayMonitor.cs:39-42 | a display whose callback raises is skipped, and enumeration goes on with the next display |
| ModelsDisplayMonitor.SetBrightness | Models/DisplayMonitor.cs:56-72 | the same send condition and command as the other writes; every exception that leaves is an `IOException` naming the monitor; a rejected call gives the "Failed to set" `IOException` without an inner exception; a parse exception is wrapped in the "Error communicating" `IOException`, and an `IOException` never wraps another |
| ModelsDisplayMonitor.EnumeratedMonitorWrite | Models/DisplayMonitor.cs:60-61 | a write of 0..100 to an enumerated monitor reaches the handle of an enumerated record and raises exactly when rejected |
| ModelsDisplayMonitor.WriteOfEntry | Models/DisplayMonitor.cs:60-61 | a write to the entry made from a record reaches that record's handle |
| ModelsMonitor.Entry | Models/Monitor.cs:26-30 | the name is the marshaled description; the path parses back to the record's handle |
| ModelsMonitor.GetMonitors | Models/Monitor.cs:12-40 | the result is the specified enumeration; it fails if and only if some display raises; otherwise one entry per delivered record |
| ModelsMonitor.SetBrightness | Models/Monitor.cs:42-49 | writes VCP 10h; raises only `InvalidOperationException` or a parse exception; returns normally if and only if accepted and the path parses |
| ModelsMonitor.ToString | Models/Monitor.cs:10 | the combo box text of a monitor is its name. Its properties are `Names` and `NamesAreDescriptions` |
| ModelsMonitor.Names | Models/Monitor.cs:10 | the combo box texts are the monitors' `ToString()`, one per monitor, in order |
| ModelsMonitor.NamesAreDescriptions | Models/Monitor.cs:10-30 | the names the combo box shows are exactly the marshaled descriptions of the delivered records, in enumeration order |
| ProgramForm.ToString | Program.cs:78 | a monitor is shown by its name. Its property is `ShownNameIsDescription` |
| ProgramForm.ShownNameIsDescription | Program.cs:78-98 | the text shown for an enumerated monitor is the marshaled description of one of the delivered records |
| ProgramForm.Entry | Program.cs:94-98 | the name is the marshaled description; the path parses back to the record's handle |
| ProgramForm.GetMonitors | Program.cs:80-108 | the specified enumeration; it fails if and only if some display raises; one entry per delivered record, each among the specified entries |
| ProgramForm.SetBrightness | Program.cs:110-117 | writes VCP 10h; returns when the command is sent and accepted; raises `InvalidOperationException("Failed to set monitor brightness.")` when rejected and a parse exception when the path does not parse |
| ProgramForm.EntryWrite | Program.cs:110-117 | a write of 0..100 to an enumerated entry reaches its record's handle and returns exactly when accepted |
| ProgramForm.ScrollWrite | Program.cs:37-45 | the scroll handler's transition. It has no contract of its own: `ScrollWritesAtOnce` and `EveryScrollWritten` state its properties |
| ProgramForm.Next | Program.cs:27-62 | the window's transition for a scroll or a refresh. Its properties are `ProgramNextValid`, `ScrollWritesAtOnce` and `RefreshShape` |
| ProgramForm.ProgramNextValid | Program.cs:27-62 | scrolls within 0..100 and refreshes keep the window valid: the level stays in range, the slider stays enabled and no timer runs |
| ProgramForm.ScrollWritesAtOnce | Program.cs:37-45 | a scroll writes the new level at once to the selected monitor; the label changes only when the write returns; a raising write leaves the label and is reported; with no monitor selected only the level changes |
| ProgramForm.EveryScrollWritten | Program.cs:37-45 | with a monitor selected, a run of scrolls writes every level scrolled to, in order, and the slider ends on the last one |
| ProgramForm.RefreshShape | Program.cs:47-62 | a refresh selects index 0: the first monitor when any was found, otherwise the "No monitors detected" placeholder, which selects no monitor; the slider's enabled state is untouched |
| ProgramForm.ProgramForm.constructor | Program.cs:14-35 | the new window is the start state after one refresh |
| ProgramForm.ProgramForm.OnScroll | Program.cs:27 | the scroll handler performs exactly the specified scroll transition and keeps the window valid |
| ProgramForm.ProgramForm.UpdateBrightness | Program.cs:37-45 | the handler's new state is the specified write of the current level, with the outcome of that write |
| ProgramForm.ProgramForm.RefreshMonitors | Program.cs:47-62 | the handler performs exactly the specified refresh and keeps the window valid; a failed enumeration is counted as one error shown (see Left out) |
| Controller.Initial | MainForm.cs:47-51 | a new window's slider is at 0 and enabled, the timer is stopped, the list is empty, nothing is selected, nothing has been written |
| Controller.Selected | MainForm.cs:80 | a monitor is selected exactly when the selected index is valid and its item is a monitor, not a placeholder string |
| Controller.Request | MainForm.cs:68-74 | `RequestBrightnessUpdate` sets the label to the level's text, (re)starts the timer, and changes nothing else |
| Controller.Scrolled | MainForm.cs:52 | a scroll sets the level, its label and the timer, and nothing else |
| Controller.Stepped | MainForm.cs:149 | the stepped level is in 0..100, and is the plain sum when that is in range |
| Controller.StepBy | MainForm.cs:147-155 | the clamped step shared by the windows. It has no contract of its own: `StepSpec`, `KeyMoves`, `IncreaseRepeated` and `DecreaseRepeated` state its properties |
| Controller.StepSpec | MainForm.cs:147-155 | a step that leaves the clamped level unchanged changes nothing; otherwise it sets level, label and timer and leaves the list, the selection and the writes alone |
| Controller.HotkeyDelta | BrightnessControl/MainForm.cs:108-112 | the increase id steps +5, the decrease id -5, any other id does nothing |
| Controller.OnHotkey | BrightnessControl/MainForm.cs:108-112 | an unknown id leaves the state unchanged; increase and decrease move the level by 5, clamped to 100 and 0 |
| Controller.Tick | MainForm.cs:76-94 | a tick stops the timer; with a monitor selected it logs one write of the current level to it and counts an error box when the write is reported as failed; with none it only stops the timer |
| Controller.MonitorItems | MainForm.cs:104 | the combo box items are the monitors, one per monitor, in order |
| Controller.Listed | MainForm.cs:96-119 | a successful refresh selects index 0; the first monitor when any was found, with the slider enabled (in the forms that toggle it); otherwise the placeholder, which selects no monitor, with the slider disabled; a failed refresh empties the list and shows one error box |
| Controller.NextValid | MainForm.cs:68-94 | every delivered event keeps the level in 0..100, the selection within the list and every logged write within 0..100 |
| Controller.TickValid | MainForm.cs:76-94 | a tick keeps the state valid whether or not the timer was running |
| Controller.ListedValid | MainForm.cs:96-119 | a refresh keeps the state valid |
| Controller.BurstThenTick | MainForm.cs:68-94 | a burst of scrolls and hotkeys writes nothing; the tick that follows writes exactly once, the level the slider then has, to the monitor selected before the burst |
| Controller.LastScrollWins | MainForm.cs:68-94 | after any burst ending in a scroll to `v`, the timer runs and the label shows `v`; the tick then writes exactly `v` once and stops the timer |
| Controller.NoTickWithoutRequest | MainForm.cs:76-78 | after a tick the timer is stopped, so no further tick comes without a new request |
| Controller.PlaceholderNeverWrites | MainForm.cs:80 | while the placeholder (or nothing) is selected, no sequence of events writes to any monitor, and the list and selection stay |
| Controller.IncreaseRepeated | BrightnessControl/MainForm.cs:215-224 | `n` presses of the increase hotkey raise the level by `5n`, capped at 100 |
| Controller.DecreaseRepeated | BrightnessControl/MainForm.cs:215-224 | `n` presses of the decrease hotkey lower the level by `5n`, floored at 0 |
| RootMainForm.Registrations | MainForm.cs:121-132 | the window registers two hotkeys |
| RootMainForm.RegistrationsAreDefaults | MainForm.cs:125-126 | they are id 1 = Ctrl+Shift+Up and id 2 = Ctrl+Shift+Down, the same bindings as the settings' defaults, and `WM_HOTKEY` is 0x0312 |
| RootMainForm.HotkeyOf | MainForm.cs:136-138 | a message carries a hotkey id exactly when it is `WM_HOTKEY` and its `WParam` fits 32 bits; the id is the `WParam` |
| RootMainForm.Next | MainForm.cs:52-155 | the window's transition for a scroll, a message, a tick or a refresh. Its properties are `RootNextValid`, `MessageDispatch`, `FailedWriteReported` and `RefreshNeverFails` |
| RootMainForm.RootNextValid | MainForm.cs:68-155 | every delivered event keeps the window valid |
| RootMainForm.MessageDispatch | MainForm.cs:134-145 | a non-hotkey message changes nothing; `WM_HOTKEY` id 1 steps the level +5 and id 2 steps it -5, clamped; any other id changes nothing |
| RootMainForm.FailedWriteReported | MainForm.cs:76-94 | with a monitor selected, the tick shows one error box exactly when the write fails, that is when the call is rejected or the path does not parse |
| RootMainForm.RefreshNeverFails | MainForm.cs:96-119 | since this enumeration swallows callback exceptions, a refresh never shows an error box, and always leaves at least one item selected at index 0 |
| RootMainForm.RootMainForm.constructor | MainForm.cs:64-65 | the new window is the start state ("Brightness: --%") after one refresh |
| RootMainForm.RootMainForm.RequestBrightnessUpdate | MainForm.cs:68-74 | the handler performs exactly the specified request |
| RootMainForm.RootMainForm.OnScroll | MainForm.cs:52 | the scroll handler performs exactly the specified scroll and keeps the window valid |
| RootMainForm.RootMainForm.ChangeBrightnessStep | MainForm.cs:147-155 | the handler performs exactly the specified clamped step |
| RootMainForm.RootMainForm.WndProc | MainForm.cs:134-145 | the handler performs exactly the specified message dispatch and keeps the window valid |
| RootMainForm.RootMainForm.ApplyBrightnessChange | MainForm.cs:76-94 | the tick handler performs exactly the specified tick, with the write's real outcome, and keeps the window valid |
| RootMainForm.RootMainForm.RefreshMonitors | MainForm.cs:96-119 | the handler performs exactly the specified refresh and keeps the window valid |
| TrayMainForm.ShowOsd | BrightnessControl/MainForm.cs:226-233 | the OSD after `ShowOSD(level)`: the existing one, or a fresh one when there is none or it was disposed, showing the level. Its properties are `HotkeyShowsOsd` and the OSD's `Shown` |
| TrayMainForm.TrayStep | BrightnessControl/MainForm.cs:215-224 | the controller's step, plus the OSD when the level moved. Its properties are `SliderProjection`, `HotkeyShowsOsd` and `TrayNextValid` |
| TrayMainForm.Next | BrightnessControl/MainForm.cs:97-233 | the tray window's transition. Its properties are `SliderProjection`, `TrayNextValid`, `HotkeyShowsOsd`, `HiddenFormShowsNoError` and `RefreshThenTick` |
| TrayMainForm.SliderProjection | BrightnessControl/MainForm.cs:158-224 | every event other than a refresh moves the tray window's slider exactly as the shared controller does |
| TrayMainForm.TrayNextValid | BrightnessControl/MainForm.cs:158-233 | every delivered event keeps the slider valid and the OSD's progress in range with its label matching |
| TrayMainForm.HotkeyShowsOsd | BrightnessControl/MainForm.cs:215-233 | a hotkey changes the window exactly when it moves the level; it then shows the OSD with its hide timer running, the new level on its progress bar, and the same label text as the main window |
| TrayMainForm.HiddenFormShowsNoError | BrightnessControl/MainForm.cs:175-179 | while the window is hidden in the tray, a failed write shows no error box |
| TrayMainForm.RefreshThenTick | BrightnessControl/MainForm.cs:165-205 | after a refresh that finds monitors, the next tick writes the current level once, to the first monitor, and the command reaches the handle of an enumerated record |
| TrayMainForm.TrayMainForm.constructor | BrightnessControl/MainForm.cs:104-105 | the new window is the start state after one refresh |
| TrayMainForm.TrayMainForm.RequestBrightnessUpdate | BrightnessControl/MainForm.cs:158-163 | the handler performs exactly the specified request and leaves the OSD alone |
| TrayMainForm.TrayMainForm.OnScroll | BrightnessControl/MainForm.cs:97 | the scroll handler performs exactly the specified scroll and keeps the window valid |
| TrayMainForm.TrayMainForm.ShowOSD | BrightnessControl/MainForm.cs:226-233 | the OSD exists afterwards and shows the level: a fresh one when there was none or it was disposed, otherwise the same one |
| TrayMainForm.TrayMainForm.ChangeBrightnessStep | BrightnessControl/MainForm.cs:215-224 | the handler performs exactly the specified clamped step, with the OSD, and keeps the window valid |
| TrayMainForm.TrayMainForm.OnHotkeyPressed | BrightnessControl/MainForm.cs:108-112 | the handler performs exactly the specified hotkey transition and keeps the window valid |
| TrayMainForm.TrayMainForm.WndProc | BrightnessControl/MainForm.cs:207-213 | the message is handled exactly when it is `WM_HOTKEY`; a hotkey with a 32-bit id performs the hotkey transition; anything else changes nothing |
| TrayMainForm.TrayMainForm.ApplyBrightnessChange | BrightnessControl/MainForm.cs:165-180 | the tick handler performs exactly the specified tick and keeps the window valid |
| TrayMainForm.TrayMainForm.WriteSelected | BrightnessControl/MainForm.cs:167-179 | stop the timer, write to the selected monitor, and count an error box when the write fails and the window is visible |
| TrayMainForm.TrayMainForm.RefreshMonitors | BrightnessControl/MainForm.cs:182-205 | the handler performs exactly the specified refresh and keeps the window valid |
| HotkeyManager.ProcessMessage | BrightnessControl/HotkeyManager.cs:41-51 | a message is handled if and only if it is `WM_HOTKEY`; the event fires exactly when the `WParam` fits 32 bits (otherwise `ToInt32` raises), with that id |
| HotkeyManager.OsRegister | BrightnessControl/HotkeyManager.cs:26-27 | `RegisterHotKey` is refused, leaving the table unchanged, when the combination is taken by another application or by a hotkey this window holds; otherwise the new hotkey is added beside any the window already holds under the same id |
| HotkeyManager.OsUnregister | BrightnessControl/HotkeyManager.cs:37-38 | after `UnregisterHotKey(id)` the window holds no hotkey under that id, and every other hotkey is kept |
| HotkeyManager.Cleared | BrightnessControl/HotkeyManager.cs:35-39 | after `UnregisterHotkeys()` the window holds exactly its hotkeys under ids other than 1 and 2 |
| HotkeyManager.Registered | BrightnessControl/HotkeyManager.cs:20-33 | the table after `RegisterHotkeys`: hotkeys under other ids are untouched whatever interrupts it, and an exception at the first call leaves neither id bound |
| HotkeyManager.RegisterReplacesBindings | BrightnessControl/HotkeyManager.cs:20-33 | after registering, id 1 holds exactly the increase binding when it was free and nothing otherwise; id 2 holds exactly the decrease binding when it was free and not just taken by id 1, and nothing otherwise; no older binding survives; other ids are untouched |
| HotkeyManager.RegisterTwice | BrightnessControl/HotkeyManager.cs:20-33 | registering the same settings twice leaves the same table as registering once |
| HotkeyManager.RegisterWithoutUnregisterStacks | BrightnessControl/HotkeyManager.cs:22-26 | without the preceding unregister, re-registering id 1 with a new free binding would keep the old hotkey active beside the new one |
| HotkeyManager.HotkeyManager.constructor | BrightnessControl/HotkeyManager.cs:15-18 | a new manager has issued no calls |
| HotkeyManager.HotkeyManager.UnregisterHotkeys | BrightnessControl/HotkeyManager.cs:35-39 | every hotkey under ids 1 and 2 is removed and the rest kept, by two unregister calls in order |
| HotkeyManager.HotkeyManager.RegisterHotkeys | BrightnessControl/HotkeyManager.cs:20-33 | the new table is the specified registration, and the calls are the two unregisters then the registrations up to the point an exception interrupts them |
| HotkeyManager.HotkeyManager.Dispose | BrightnessControl/HotkeyManager.cs:53-56 | disposing unregisters both ids and nothing else |
| AppSettings.DefaultBindings | BrightnessControl.Core/Settings/AppSettings.cs:5-12 | the defaults are a first run, Ctrl+Shift for both hotkeys with neither Alt nor Win, and two different keys |
| SettingsForm.EncodeModifiers | BrightnessControl/SettingsForm.cs:85-88 | the Alt, Control and Shift bits are set exactly when the key event has those modifiers, and no other bit is set |
| SettingsForm.Capture | BrightnessControl/SettingsForm.cs:81-92 | a bare modifier key is ignored; any other key is captured with its key code and the encoded modifiers |
| SettingsForm.Parts | BrightnessControl/SettingsForm.cs:99-103 | the displayed parts end with the key's name; every part before it is "Ctrl", "Shift" or "Alt", in strictly increasing order Ctrl, Shift, Alt; and each of those names is present exactly when its modifier bit is set |
| SettingsForm.PartsReadBack | BrightnessControl/SettingsForm.cs:99-103 | the modifier names shown before the key name read back as exactly the binding's Ctrl, Shift and Alt bits |
| SettingsForm.Join | BrightnessControl/SettingsForm.cs:105 | joining a single part gives that part |
| SettingsForm.JoinSnoc | BrightnessControl/SettingsForm.cs:105 | joining one more part appends `" + "` and that part |
| SettingsForm.HotkeyText | BrightnessControl/SettingsForm.cs:97-106 | the text box's text: the parts joined by `" + "`. Its properties are `HotkeyTextShape`, `Parts`, `PartsReadBack` and `JoinSnoc` |
| SettingsForm.HotkeyTextShape | BrightnessControl/SettingsForm.cs:97-106 | with no modifier the text is the key name; with any, the text ends in `" + "` and the key name |
| SettingsForm.Commit | BrightnessControl/SettingsForm.cs:110-113 | saving sets both bindings to the captured ones and keeps the first-run flag |
| SettingsForm.CommitUnchanged | BrightnessControl/SettingsForm.cs:110-113 | saving the bindings a form started with leaves the settings as they were |
| SettingsForm.SaveAfterCapture | BrightnessControl/SettingsForm.cs:77-118 | capturing a non-modifier key for increase and saving stores that key with its modifiers, never the Win bit, and keeps the decrease binding and the first-run flag |
| SettingsForm.SettingsForm.constructor | BrightnessControl/SettingsForm.cs:20-60 | the temporary bindings start as the current settings and the text boxes show them |
| SettingsForm.SettingsForm.CaptureIncrease | BrightnessControl/SettingsForm.cs:77-95 | the increase binding becomes the captured one and its text box shows it; a bare modifier changes nothing; nothing else changes |
| SettingsForm.SettingsForm.CaptureDecrease | BrightnessControl/SettingsForm.cs:77-95 | the same for the decrease binding |
| SettingsForm.SettingsForm.Save | BrightnessControl/SettingsForm.cs:108-118 | the settings get the temporary bindings, are saved once, and the dialog closes with OK |
| SettingsForm.SettingsForm.CancelClose | BrightnessControl/SettingsForm.cs:65-66 | cancelling closes the dialog and changes and saves nothing |
| OsdForm.Shown | BrightnessControl/OSDForm.cs:59-75 | showing clamps the level to 0..100, puts it on the progress bar and in the label, restarts the hide timer and makes the OSD visible |
| OsdForm.Hidden | BrightnessControl/OSDForm.cs:77-81 | hiding stops the timer and hides the OSD, keeping what it shows |
| OsdForm.ShowIdempotent | BrightnessControl/OSDForm.cs:59-75 | showing the same level twice is the same as showing it once |
| OsdForm.ShownLabelReadsBack | BrightnessControl/OSDForm.cs:61-63 | the OSD label always reads back as the level on its progress bar |
| OsdForm.OsdForm.constructor | BrightnessControl/OSDForm.cs:34-49 | a new OSD shows "Brightness: 50%" at progress 50, hidden, with its timer stopped |
| OsdForm.OsdForm.ShowBrightness | BrightnessControl/OSDForm.cs:59-75 | the form shows the clamped level exactly as specified |
| OsdForm.OsdForm.HideTick | BrightnessControl/OSDForm.cs:77-81 | the hide tick hides the form exactly as specified |
| OsdForm.OsdForm.Close | BrightnessControl/MainForm.cs:137 | closing disposes and hides the form and keeps what it showed |

## Left out

- Native calls are inputs, not code. This covers `EnumDisplayMonitors`, the physical-monitor queries, `GetMonitorInfo`, `SetVCPFeature`, `RegisterHotKey`, `UnregisterHotKey` and the message loop.
- Nothing models the timing of the timers (150 ms debounce, 1.5 s OSD hide). A tick is an event that may arrive at any time.
- `async`/`await` and `Task.Run` are left out. A write is atomic and takes effect at the tick that starts it, so two writes in flight cannot overlap in this model.
- Layout is left out: sizes, docking, fonts, opacity, `CenterToScreen`, `SetWindowPos`/`ShowWindow`, tray icon, menus, balloon tips, minimise-to-tray and closing-to-tray.
- Message boxes are counted (`errorsShown`). Their texts are not modelled.
- The exception messages of `Models/DisplayMonitor.cs` are represented by a reason tag and the monitor name. They are not formatted text.
- `TrayMainForm`'s `OpenSettings`, `ShowWindow` and `ExitApplication` are not modelled as methods. The settings dialog and the hotkey manager they drive are modelled on their own (`SettingsForm`, `HotkeyManager.HotkeyManager.Dispose`, `OsdForm.OsdForm.Close`).
- `SettingsManager` (JSON load and save of the settings) is not part of this model. Saving is a log of the saved settings.
- The settings object that the tray window and the settings dialog share by reference is copied by value. The dialog's saved value is what the tray window would read.
- `SettingsForm.HotkeyText`: the name `Keys.ToString()` gives a key code is a parameter (`keyName`). The .NET `Keys` enumeration's names are not modelled.
- `Decimal.ParseInt64`: models `long.Parse` with the invariant culture's ASCII signs and the white space `NumberStyles.Integer` allows. Culture-specific signs are not modelled.
- `IntPtr` is modelled as 64 bits wide. A 32-bit process, where `new IntPtr(long)` overflows for large values, is not modelled.
- `DestroyPhysicalMonitors` is never called by the source, so the handles' lifetime is not modelled.
- `RootMainForm.RootMainForm.WndProc`: a `WM_HOTKEY` whose `WParam` does not fit 32 bits makes `ToInt32` raise out of the handler. The model leaves the window unchanged in that case.
- `TrayMainForm.TrayMainForm.WndProc`: when `ToInt32` raises inside `ProcessMessage`, the exception leaves the window procedure. The model reports the message as handled and leaves the window unchanged.
- `HotkeyManager.HotkeyManager.RegisterHotkeys`: `RegisterHotKey` reports failure by its result, which the source ignores. The `fault` parameter covers the source's `try`/`catch`, for an exception that would interrupt the two calls.
- `ProgramForm.ProgramForm.UpdateBrightness`: an exception from `SetBrightness` leaves the scroll handler unhandled. The model counts it as one error shown and leaves the label unchanged. The application's unhandled-exception dialog is not modelled further.
- `ProgramForm.ProgramForm.constructor` and `TrayMainForm.TrayMainForm.constructor`: the refresh during construction uses the same failure path as a later refresh. An exception escaping the `Program.cs` constructor is modelled as an empty list with one error shown.
- `ProgramForm.ProgramForm.RefreshMonitors`: `Program.cs` has no `try`/`catch` around `GetMonitors`, so an exception escapes the Refresh button's click handler (`Program.cs:31`) unhandled. The model counts it as one error shown and leaves an empty list. The application's unhandled-exception dialog is not modelled further.
- `CoreDisplayMonitor.Entry` and `CoreDisplayMonitor.TrimAgreesWithMarshaler` assume the description arrives as the native UTF-16 text, one character per code unit. That is what the other monitor classes' struct declares. The Core struct as written reads it as ANSI bytes; that reading is modelled on its own (`CoreDisplayMonitor.AsWrittenDescription`, see Findings).
- `CoreDisplayMonitor.AnsiView`: reads every byte as the character with that code. The code page's conversion of bytes from 80h up is not modelled. Neither is the size mismatch of the records: the ANSI record is 136 bytes and the native one 264, so the array the marshaler passes holds `count * 136` bytes while the system writes `count * 264`. The native call overruns that array even for a display with a single monitor, and every record after the first is misplaced.
- `HotkeyManager.OsUnregister`: the Win32 documentation does not say what `UnregisterHotKey` does when several hotkeys are stacked under one id. The model removes all of them.
- `SetBrightnessAsync` in `Models/DisplayMonitor.cs:51-54` runs `SetBrightness` once on a worker task. It is modelled by `ModelsDisplayMonitor.SetBrightness`, called once from `RootMainForm.RootMainForm.ApplyBrightnessChange`. `RootMainForm.FailedWriteReported` and `Controller.BurstThenTick` prove that each tick makes exactly one write.
- `RootMainForm.Registrations`: the message box shown when `RegisterHotKey` raises in `MainForm.cs` is not modelled, because the native call does not raise.
- Per-monitor pending or in-flight bookkeeping is not modelled. The windows keep one timer and write only to the selected monitor, and the model follows that code.

## Findings

| source | as written | input that shows it | evidently intended | confidence | as-written member | corrected member |
|---|---|---|---|---|---|---|
| BrightnessControl.Core/Models/DisplayMonitor.cs:80-86 | `PHYSICAL_MONITOR` is `[StructLayout(LayoutKind.Sequential)]` with no `CharSet`, so it is laid out as ANSI. The `char[128]` description is then 128 one-byte elements, which cover the first 64 UTF-16 code units of the native buffer, byte by byte. The record is 136 bytes instead of the native 264, so the native call writes past the marshaled array even for one monitor | a monitor whose description is "AB": the stored `DeviceString` is "A", NUL, "B" | one element per UTF-16 code unit (`CharSet = CharSet.Unicode`, as the other `PHYSICAL_MONITOR` declarations have through `CharSet.Auto`), so the stored description is "AB" | not executed; medium (follows from the marshaler's documented ANSI default) | CoreDisplayMonitor.AsWrittenDescriptionSplitsText | CoreDisplayMonitor.EntryKeepsDescription |
