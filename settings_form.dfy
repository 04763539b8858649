/** The settings dialog: captures a key combination for each hotkey, shows it
    as text, and commits both to the settings on Save. */
module SettingsForm {
  import opened Wrappers
  import opened AppSettings
  import opened HotkeyManager

  /** A key-down event: the key code and the state of the three modifiers
      WinForms reports. */
  datatype KeyEvent = KeyEvent(keyCode: int, alt: bool, control: bool, shift: bool)

  /** Key codes of modifier keys pressed on their own
      (`ShiftKey`, `ControlKey`, `Menu`, `LWin`, `RWin`). */
  const ShiftKey: int := 16
  const ControlKey: int := 17
  const Menu: int := 18
  const LWin: int := 91
  const RWin: int := 92

  predicate IsBareModifier(keyCode: int)
  {
    keyCode == ControlKey || keyCode == ShiftKey || keyCode == Menu || keyCode == LWin || keyCode == RWin
  }

  /** The modifier bits for the pressed modifiers; the Windows key is never
      included. */
  function EncodeModifiers(e: KeyEvent): (r: bv32)
    ensures (r & ModAlt != 0) <==> e.alt
    ensures (r & ModControl != 0) <==> e.control
    ensures (r & ModShift != 0) <==> e.shift
    ensures r & !(ModAlt | ModControl | ModShift) == 0
  {
    (if e.alt then ModAlt else 0) | (if e.control then ModControl else 0) | (if e.shift then ModShift else 0)
  }

  /** `CaptureHotkey`: a bare modifier press captures nothing; any other key
      captures its code together with the pressed modifiers. */
  function Capture(e: KeyEvent): (r: Option<Binding>)
    ensures r.None? <==> IsBareModifier(e.keyCode)
    ensures r.Some? ==> r.value.key == e.keyCode && r.value.modifiers == EncodeModifiers(e)
  {
    if IsBareModifier(e.keyCode) then None else Some(Binding(EncodeModifiers(e), e.keyCode))
  }

  /** The binding held after a key-down event. */
  function CaptureInto(b: Binding, e: KeyEvent): Binding
  {
    match Capture(e)
    case None => b
    case Some(nb) => nb
  }

  const Separator: string := " + "

  /** The place of a modifier name in the text: Ctrl, then Shift, then Alt. */
  function Rank(name: string): nat
  {
    if name == "Ctrl" then 0 else if name == "Shift" then 1 else if name == "Alt" then 2 else 3
  }

  /** The pieces of the text box: "Ctrl", "Shift", "Alt" for the bits that are
      set, in that order, then the key's name. */
  function Parts(mods: bv32, keyName: string): (r: seq<string>)
    ensures |r| >= 1 && r[|r| - 1] == keyName
    ensures forall i :: 0 <= i < |r| - 1 ==> Rank(r[i]) < 3
    ensures forall i, j :: 0 <= i < j < |r| - 1 ==> Rank(r[i]) < Rank(r[j])
    ensures ("Ctrl" in r[..|r| - 1]) <==> mods & ModControl != 0
    ensures ("Shift" in r[..|r| - 1]) <==> mods & ModShift != 0
    ensures ("Alt" in r[..|r| - 1]) <==> mods & ModAlt != 0
  {
    (if mods & ModControl != 0 then ["Ctrl"] else [])
    + (if mods & ModShift != 0 then ["Shift"] else [])
    + (if mods & ModAlt != 0 then ["Alt"] else [])
    + [keyName]
  }

  /** Reads modifier bits back from modifier names. */
  function ModifiersOf(names: seq<string>): (r: bv32)
    ensures r & !(ModAlt | ModControl | ModShift) == 0
    decreases |names|
  {
    if names == [] then 0
    else
      var bit: bv32 := if names[0] == "Ctrl" then ModControl
                       else if names[0] == "Shift" then ModShift
                       else if names[0] == "Alt" then ModAlt
                       else 0;
      bit | ModifiersOf(names[1..])
  }

  lemma {:induction false} ModifiersOfAppend(a: seq<string>, b: seq<string>)
    ensures ModifiersOf(a + b) == ModifiersOf(a) | ModifiersOf(b)
    decreases |a|
  {
    if a != [] {
      assert (a + b)[1..] == a[1..] + b;
      ModifiersOfAppend(a[1..], b);
    } else {
      assert a + b == b;
    }
  }

  /** The text names every one of Ctrl, Shift and Alt that is set and no
      other modifier: reading the names back gives the bits, except the
      Windows bit, which the text never shows. */
  lemma PartsReadBack(mods: bv32, keyName: string)
    ensures var p := Parts(mods, keyName);
            ModifiersOf(p[..|p| - 1]) == mods & (ModAlt | ModControl | ModShift)
  {
    var c: seq<string> := if mods & ModControl != 0 then ["Ctrl"] else [];
    var s: seq<string> := if mods & ModShift != 0 then ["Shift"] else [];
    var a: seq<string> := if mods & ModAlt != 0 then ["Alt"] else [];
    var p := Parts(mods, keyName);
    assert p[..|p| - 1] == c + s + a;
    ModifiersOfAppend(c + s, a);
    ModifiersOfAppend(c, s);
  }

  /** `string.Join(" + ", parts)`. */
  function Join(parts: seq<string>): (r: string)
    ensures |parts| == 1 ==> r == parts[0]
    decreases |parts|
  {
    if parts == [] then ""
    else if |parts| == 1 then parts[0]
    else parts[0] + Separator + Join(parts[1..])
  }

  /** Appending a part appends the separator and the part. */
  lemma {:induction false} JoinSnoc(parts: seq<string>, x: string)
    requires parts != []
    ensures Join(parts + [x]) == Join(parts) + Separator + x
    decreases |parts|
  {
    if |parts| == 1 {
      assert (parts + [x])[1..] == [x];
    } else {
      assert (parts + [x])[1..] == parts[1..] + [x];
      JoinSnoc(parts[1..], x);
    }
  }

  /** `UpdateTextBox`: the text shown for a binding; `keyName` is
      `((Keys)key).ToString()`. */
  function HotkeyText(b: Binding, keyName: int -> string): string
  {
    Join(Parts(b.modifiers, keyName(b.key)))
  }

  /** Without modifiers the text is the key name alone; otherwise it ends in
      the separator and the key name. */
  lemma HotkeyTextShape(b: Binding, keyName: int -> string)
    ensures b.modifiers & (ModAlt | ModControl | ModShift) == 0 ==> HotkeyText(b, keyName) == keyName(b.key)
    ensures b.modifiers & (ModAlt | ModControl | ModShift) != 0 ==>
              exists prefix :: HotkeyText(b, keyName) == prefix + Separator + keyName(b.key)
  {
    var p := Parts(b.modifiers, keyName(b.key));
    if b.modifiers & (ModAlt | ModControl | ModShift) != 0 {
      assert p == p[..|p| - 1] + [keyName(b.key)];
      assert p[..|p| - 1] != [];
      JoinSnoc(p[..|p| - 1], keyName(b.key));
    } else {
      assert p == [keyName(b.key)];
    }
  }

  /** What Save writes: the two captured bindings; the first-run flag is kept. */
  function Commit(s: AppSettings, increase: Binding, decrease: Binding): (r: AppSettings)
    ensures r.isFirstRun == s.isFirstRun
    ensures IncreaseBinding(r) == increase && DecreaseBinding(r) == decrease
  {
    s.(increaseModifiers := increase.modifiers, increaseKey := increase.key,
       decreaseModifiers := decrease.modifiers, decreaseKey := decrease.key)
  }

  /** Opening the dialog and saving at once changes nothing. */
  lemma CommitUnchanged(s: AppSettings)
    ensures Commit(s, IncreaseBinding(s), DecreaseBinding(s)) == s
  {
  }

  datatype DialogResult = NoResult | OK | Cancel

  class SettingsForm {
    /** The settings object the dialog edits (held by value here). */
    var settings: AppSettings
    var tempIncrease: Binding
    var tempDecrease: Binding
    var increaseText: string
    var decreaseText: string
    var closed: bool
    var dialogResult: DialogResult
    /** The records handed to `SettingsManager.Save`. */
    var saved: seq<AppSettings>
    const keyName: int -> string

    constructor (current: AppSettings, keyName: int -> string)
      ensures settings == current && this.keyName == keyName
      ensures tempIncrease == IncreaseBinding(current) && tempDecrease == DecreaseBinding(current)
      ensures increaseText == HotkeyText(tempIncrease, keyName) && decreaseText == HotkeyText(tempDecrease, keyName)
      ensures !closed && dialogResult == NoResult && saved == []
    {
      settings := current;
      this.keyName := keyName;
      tempIncrease := IncreaseBinding(current);
      tempDecrease := DecreaseBinding(current);
      increaseText := HotkeyText(IncreaseBinding(current), keyName);
      decreaseText := HotkeyText(DecreaseBinding(current), keyName);
      closed := false;
      dialogResult := NoResult;
      saved := [];
    }

    /** A key-down in the increase box. */
    method CaptureIncrease(e: KeyEvent)
      modifies this
      ensures tempIncrease == CaptureInto(old(tempIncrease), e)
      ensures IsBareModifier(e.keyCode) ==> increaseText == old(increaseText)
      ensures !IsBareModifier(e.keyCode) ==> increaseText == HotkeyText(tempIncrease, keyName)
      ensures settings == old(settings) && tempDecrease == old(tempDecrease) && decreaseText == old(decreaseText)
      ensures closed == old(closed) && dialogResult == old(dialogResult) && saved == old(saved)
    {
      var c := Capture(e);
      if c.Some? {
        tempIncrease := c.value;
        increaseText := HotkeyText(tempIncrease, keyName);
      }
    }

    /** A key-down in the decrease box. */
    method CaptureDecrease(e: KeyEvent)
      modifies this
      ensures tempDecrease == CaptureInto(old(tempDecrease), e)
      ensures IsBareModifier(e.keyCode) ==> decreaseText == old(decreaseText)
      ensures !IsBareModifier(e.keyCode) ==> decreaseText == HotkeyText(tempDecrease, keyName)
      ensures settings == old(settings) && tempIncrease == old(tempIncrease) && increaseText == old(increaseText)
      ensures closed == old(closed) && dialogResult == old(dialogResult) && saved == old(saved)
    {
      var c := Capture(e);
      if c.Some? {
        tempDecrease := c.value;
        decreaseText := HotkeyText(tempDecrease, keyName);
      }
    }

    /** `SaveAndClose`: commit, persist, result OK, close. */
    method Save()
      modifies this
      ensures settings == Commit(old(settings), tempIncrease, tempDecrease)
      ensures saved == old(saved) + [settings]
      ensures dialogResult == OK && closed
      ensures tempIncrease == old(tempIncrease) && tempDecrease == old(tempDecrease)
      ensures increaseText == old(increaseText) && decreaseText == old(decreaseText)
    {
      settings := Commit(settings, tempIncrease, tempDecrease);
      saved := saved + [settings];
      dialogResult := OK;
      closed := true;
    }

    /** The Cancel button closes the dialog; `ShowDialog` then reports Cancel
        and the settings are untouched. */
    method CancelClose()
      modifies this
      ensures closed && dialogResult == Cancel
      ensures settings == old(settings) && saved == old(saved)
      ensures tempIncrease == old(tempIncrease) && tempDecrease == old(tempDecrease)
      ensures increaseText == old(increaseText) && decreaseText == old(decreaseText)
    {
      dialogResult := Cancel;
      closed := true;
    }
  }

  /** A session of key presses followed by Save stores the last real key
      captured in each box; the other box's binding is kept. */
  lemma SaveAfterCapture(s: AppSettings, e: KeyEvent)
    requires !IsBareModifier(e.keyCode)
    ensures var r := Commit(s, CaptureInto(IncreaseBinding(s), e), DecreaseBinding(s));
            && r.increaseKey == e.keyCode && r.increaseModifiers == EncodeModifiers(e)
            && r.increaseModifiers & ModWin == 0
            && DecreaseBinding(r) == DecreaseBinding(s) && r.isFirstRun == s.isFirstRun
  {
  }
}
