/** Global hotkeys: registration of the two brightness hotkeys with the
    operating system, and the recognition of `WM_HOTKEY` messages. */
module HotkeyManager {
  import opened Wrappers
  import opened Decimal
  import opened AppSettings

  const IncreaseId: int := 1
  const DecreaseId: int := 2

  /** The window message the system posts when a registered hotkey is pressed. */
  const WmHotkey: int := 0x0312

  const Int32Min: int := -0x8000_0000
  const Int32Max: int := 0x7FFF_FFFF

  /** A window message: its code and its `WParam` (pointer-sized). */
  datatype Message = Message(msg: int, wParam: Int64)

  /** What `ProcessMessage` does with a message: leaves it to the window
      (`Passed`), raises `HotkeyPressed` with an id (`Fired`), or raises the
      `OverflowException` of `WParam.ToInt32()` (`Raised`). */
  datatype Dispatch = Passed | Fired(id: int) | Raised

  /** `ProcessMessage(ref m)`: returns false for `Passed`, true for `Fired`;
      on `Raised` the exception leaves it. */
  function ProcessMessage(m: Message): (d: Dispatch)
    ensures d != Passed <==> m.msg == WmHotkey
    ensures d.Fired? <==> m.msg == WmHotkey && Int32Min <= m.wParam <= Int32Max
    ensures d.Fired? ==> d.id == m.wParam
  {
    if m.msg != WmHotkey then Passed
    else if Int32Min <= m.wParam <= Int32Max then Fired(m.wParam as int)
    else Raised
  }

  /** One hotkey binding: modifier bits and virtual-key code. */
  datatype Binding = Binding(modifiers: bv32, key: int)

  function IncreaseBinding(s: AppSettings): Binding { Binding(s.increaseModifiers, s.increaseKey) }
  function DecreaseBinding(s: AppSettings): Binding { Binding(s.decreaseModifiers, s.decreaseKey) }

  /** A call into the operating system's hotkey table for this window. */
  datatype OsCall = Register(id: int, binding: Binding) | Unregister(id: int)

  /** One hotkey the system holds for this window: its id and its combination. */
  datatype Hotkey = Hotkey(id: int, binding: Binding)

  /** Some hotkey of the window is on the combination `b`. */
  predicate Holds(table: set<Hotkey>, b: Binding)
  {
    exists h :: h in table && h.binding == b
  }

  /** The combinations the window holds under `id`. */
  function BindingsOf(table: set<Hotkey>, id: int): set<Binding>
  {
    set h | h in table && h.id == id :: h.binding
  }

  /** `RegisterHotKey(hWnd, id, ...)`: refused when the combination is taken,
      by another application (`available` is false) or by a hotkey the window
      already holds; otherwise the new hotkey is added. A hotkey the window
      already holds under the same id is kept beside the new one. */
  function OsRegister(table: set<Hotkey>, id: int, b: Binding, available: bool): (r: set<Hotkey>)
    ensures !available || Holds(table, b) ==> r == table
    ensures available && !Holds(table, b) ==> r == table + {Hotkey(id, b)}
  {
    if available && !Holds(table, b) then table + {Hotkey(id, b)} else table
  }

  /** `UnregisterHotKey(hWnd, id)`: the window no longer holds any hotkey under `id`. */
  function OsUnregister(table: set<Hotkey>, id: int): (r: set<Hotkey>)
    ensures forall h :: h in r <==> h in table && h.id != id
  {
    set h | h in table && h.id != id
  }

  /** The table after `UnregisterHotkeys()`. */
  function Cleared(table: set<Hotkey>): (r: set<Hotkey>)
    ensures forall h :: h in r <==> h in table && h.id != IncreaseId && h.id != DecreaseId
  {
    OsUnregister(OsUnregister(table, IncreaseId), DecreaseId)
  }

  /** Where an exception interrupts `RegisterHotkeys`: not at all, at the first
      `RegisterHotKey` call, or at the second. */
  datatype Interruption = NoException | AtIncrease | AtDecrease

  /** The table after `RegisterHotkeys(settings)`. */
  function Registered(table: set<Hotkey>, s: AppSettings,
                      increaseFree: bool, decreaseFree: bool, fault: Interruption): (r: set<Hotkey>)
    ensures forall h: Hotkey :: h.id != IncreaseId && h.id != DecreaseId ==> (h in r <==> h in table)
    ensures fault == AtIncrease ==> BindingsOf(r, IncreaseId) == {} && BindingsOf(r, DecreaseId) == {}
  {
    var cleared := Cleared(table);
    if fault == AtIncrease then cleared
    else
      var t1 := OsRegister(cleared, IncreaseId, IncreaseBinding(s), increaseFree);
      if fault == AtDecrease then t1 else OsRegister(t1, DecreaseId, DecreaseBinding(s), decreaseFree)
  }

  /** Because both ids are unregistered first, each id ends up holding exactly
      the combination in the settings, when the system grants it, and nothing
      older: the increase hotkey when its combination is free, the decrease
      hotkey when its combination is free and not the one the increase hotkey
      has just taken. Hotkeys under other ids are left alone. */
  lemma RegisterReplacesBindings(table: set<Hotkey>, s: AppSettings, increaseFree: bool, decreaseFree: bool)
    ensures var rest := Cleared(table);
            var r := Registered(table, s, increaseFree, decreaseFree, NoException);
            var inc := IncreaseBinding(s);
            var dec := DecreaseBinding(s);
            var incOn := increaseFree && !Holds(rest, inc);
            && BindingsOf(r, IncreaseId) == (if incOn then {inc} else {})
            && BindingsOf(r, DecreaseId) == (if decreaseFree && !Holds(rest, dec) && !(incOn && dec == inc) then {dec} else {})
            && forall h: Hotkey :: h.id != IncreaseId && h.id != DecreaseId ==> (h in r <==> h in table)
  {
    var rest := Cleared(table);
    var inc := IncreaseBinding(s);
    var dec := DecreaseBinding(s);
    var t1 := OsRegister(rest, IncreaseId, inc, increaseFree);
    var r := OsRegister(t1, DecreaseId, dec, decreaseFree);
    var incOn := increaseFree && !Holds(rest, inc);
    assert BindingsOf(rest, IncreaseId) == {} && BindingsOf(rest, DecreaseId) == {};
    assert Holds(t1, dec) <==> Holds(rest, dec) || (incOn && dec == inc) by {
      if incOn && dec == inc {
        assert Hotkey(IncreaseId, inc) in t1;
      }
    }
    assert BindingsOf(t1, IncreaseId) == (if incOn then {inc} else {});
    assert BindingsOf(t1, DecreaseId) == {};
  }

  /** Registering twice with the same settings gives the same table as once. */
  lemma RegisterTwice(table: set<Hotkey>, s: AppSettings, increaseFree: bool, decreaseFree: bool)
    ensures var once := Registered(table, s, increaseFree, decreaseFree, NoException);
            Registered(once, s, increaseFree, decreaseFree, NoException) == once
  {
    var once := Registered(table, s, increaseFree, decreaseFree, NoException);
    assert Cleared(once) == Cleared(table);
  }

  /** Without the unregistering, registering an id the window already holds
      would stack: the old hotkey and the new one would both stay active. */
  lemma RegisterWithoutUnregisterStacks(table: set<Hotkey>, prior: Binding, b: Binding)
    requires Hotkey(IncreaseId, prior) in table && !Holds(table, b)
    ensures var r := OsRegister(table, IncreaseId, b, true);
            && BindingsOf(r, IncreaseId) == BindingsOf(table, IncreaseId) + {b}
            && prior in BindingsOf(r, IncreaseId) && prior != b
  {
    var r := OsRegister(table, IncreaseId, b, true);
    assert prior in BindingsOf(table, IncreaseId);
  }

  class HotkeyManager {
    /** The hotkeys the system holds for this window. */
    var table: set<Hotkey>
    /** The register and unregister calls made, in order. */
    var calls: seq<OsCall>

    constructor (existing: set<Hotkey>)
      ensures table == existing && calls == []
    {
      table := existing;
      calls := [];
    }

    method UnregisterHotkeys()
      modifies this
      ensures table == Cleared(old(table))
      ensures calls == old(calls) + [Unregister(IncreaseId), Unregister(DecreaseId)]
    {
      table := OsUnregister(table, IncreaseId);
      table := OsUnregister(table, DecreaseId);
      calls := calls + [Unregister(IncreaseId), Unregister(DecreaseId)];
    }

    /** Unregister both ids, then register id 1 with the increase binding and
        id 2 with the decrease binding; an exception stops the registering and
        is swallowed. */
    method RegisterHotkeys(s: AppSettings, increaseFree: bool, decreaseFree: bool, fault: Interruption)
      modifies this
      ensures table == Registered(old(table), s, increaseFree, decreaseFree, fault)
      ensures calls == old(calls) + [Unregister(IncreaseId), Unregister(DecreaseId)]
                      + (if fault == AtIncrease then [] else [Register(IncreaseId, IncreaseBinding(s))])
                      + (if fault == NoException then [Register(DecreaseId, DecreaseBinding(s))] else [])
    {
      UnregisterHotkeys();
      if fault != AtIncrease {
        table := OsRegister(table, IncreaseId, IncreaseBinding(s), increaseFree);
        calls := calls + [Register(IncreaseId, IncreaseBinding(s))];
        if fault != AtDecrease {
          table := OsRegister(table, DecreaseId, DecreaseBinding(s), decreaseFree);
          calls := calls + [Register(DecreaseId, DecreaseBinding(s))];
        }
      }
    }

    /** `Dispose()` unregisters both ids. */
    method Dispose()
      modifies this
      ensures BindingsOf(table, IncreaseId) == {} && BindingsOf(table, DecreaseId) == {}
      ensures table == Cleared(old(table))
      ensures calls == old(calls) + [Unregister(IncreaseId), Unregister(DecreaseId)]
    {
      UnregisterHotkeys();
    }
  }
}
