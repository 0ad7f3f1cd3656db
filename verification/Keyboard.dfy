/** The keyboard's scancode machine: prefixes, key states and the status bits kept beside them. */
module Keyboard {

  const UP: nat := 0
  const DOWN: nat := 1
  const HELD: nat := 2

  const CAPS_LOCK: nat := 68
  const LSHIFT: nat := 69
  const LCTRL: nat := 70
  const LALT: nat := 72
  const RSHIFT: nat := 73
  const RCTRL: nat := 74
  const RALT: nat := 76
  const SCROLL_LOCK: nat := 92
  const PAUSE: nat := 93
  const NUM_LOCK: nat := 104

  // The bits of the state byte.
  datatype Prefix = Prefix(brk: bool, ext0: bool, ext1: bool, pause: bool)

  const NO_PREFIX: Prefix := Prefix(false, false, false, false)

  // The bits of the status byte.
  datatype Status = Status(scroll: bool, num: bool, caps: bool, shift: bool, ctrl: bool, alt: bool, altgr: bool)

  type KeyStates = k: seq<nat> | |k| == 125 witness seq(125, _ => 0)

  datatype Board = Board(keys: KeyStates, prefix: Prefix, status: Status, lastCaps: nat)

  function Reset(): Board {
    Board(seq(125, _ => UP), NO_PREFIX, Status(false, false, false, false, false, false, false), UP)
  }

  // The translation tables: plain codes, and codes behind an E0 prefix from 0x11 on.
  datatype Tables = Tables(plain: seq<nat>, extended: seq<nat>)

  // The tables cover this code in this state, with a key the state array has room for.
  predicate InTable(t: Tables, prefix: Prefix, code: nat) {
    if prefix.ext0 then 0x11 <= code < 0x11 + |t.extended| && t.extended[code - 0x11] < 125
    else code < |t.plain| && t.plain[code] < 125
  }

  function Translate(t: Tables, prefix: Prefix, code: nat): nat
    requires InTable(t, prefix, code)
  {
    if prefix.ext0 then t.extended[code - 0x11] else t.plain[code]
  }

  predicate Regular(prefix: Prefix, code: nat) {
    && code != 0xE0 && code != 0xE1 && code != 0xF0
    && !prefix.ext1 && !prefix.pause
  }

  // A make or break code at a key in this state.
  function KeyAfter(state: nat, brk: bool): nat {
    if state == DOWN then (if brk then UP else HELD) else DOWN
  }

  function StatusOf(keys: KeyStates, caps: bool): Status {
    Status(keys[SCROLL_LOCK] != UP, keys[NUM_LOCK] != UP, caps,
           keys[LSHIFT] != UP || keys[RSHIFT] != UP, keys[LCTRL] != UP || keys[RCTRL] != UP,
           keys[LALT] != UP, keys[RALT] != UP)
  }

  // The end of a regular key: its state, and the status check.
  function KeyStep(b: Board, key: nat): Board
    requires key < 125
  {
    var keys := b.keys[key := KeyAfter(b.keys[key], b.prefix.brk)];
    var toggles := keys[CAPS_LOCK] == DOWN && b.lastCaps % 4 == UP;
    Board(keys, NO_PREFIX, StatusOf(keys, b.status.caps != toggles), b.lastCaps / 4 % 2 * 4 + keys[CAPS_LOCK] % 4)
  }

  // One interrupt with one byte from the keyboard.
  function Step(b: Board, t: Tables, code: nat): Board
    requires Regular(b.prefix, code) ==> InTable(t, b.prefix, code)
  {
    var p := b.prefix;
    if code == 0xE0 then b.(prefix := if p.ext0 then NO_PREFIX else p.(ext0 := true))
    else if code == 0xE1 then b.(prefix := if p.ext1 then p.(pause := true) else p.(ext1 := true))
    else if code == 0xF0 then
      b.(prefix := if !p.brk then p.(brk := true) else if p.ext1 || p.pause then p else NO_PREFIX)
    else if (p.ext1 || p.brk) && p.pause then
      if code == 0x77 then b.(keys := b.keys[PAUSE := DOWN], prefix := NO_PREFIX) else b
    else if p.ext1 || p.pause then b
    else KeyStep(b, Translate(t, p, code))
  }

  // ------------------------------------------------------------ what holds between interrupts

  // The status bits but caps say exactly what the key states say, and lastCaps follows the caps key.
  ghost predicate Agrees(b: Board) {
    && (forall k: nat | k < 125 :: b.keys[k] <= HELD)
    && b.status == StatusOf(b.keys, b.status.caps)
    && b.lastCaps == b.keys[CAPS_LOCK]
  }

  ghost predicate CapsPressed(before: Board, now: Board) {
    before.keys[CAPS_LOCK] == UP && now.keys[CAPS_LOCK] == DOWN
  }

  // What one step keeps: agreement, and the caps bit flipped exactly on a press.
  ghost predicate Keeps(b: Board, now: Board) {
    Agrees(now) && now.status.caps == (b.status.caps != CapsPressed(b, now))
  }

  lemma {:induction false} KeyStepKeeps(b: Board, key: nat)
    requires Agrees(b) && key < 125
    ensures Keeps(b, KeyStep(b, key))
  {
    var now := KeyStep(b, key);
    assert now.keys == b.keys[key := KeyAfter(b.keys[key], b.prefix.brk)];
    assert now.keys[CAPS_LOCK] <= HELD && b.lastCaps <= HELD;
  }

  lemma {:induction false} StepAgrees(b: Board, t: Tables, code: nat)
    requires Agrees(b) && (Regular(b.prefix, code) ==> InTable(t, b.prefix, code))
    ensures Keeps(b, Step(b, t, code))
  {
    if Regular(b.prefix, code) { KeyStepKeeps(b, Translate(t, b.prefix, code)); }
  }

  ghost predicate Covered(b: Board, t: Tables, codes: seq<nat>)
    decreases |codes|
  {
    codes == [] ||
    ((Regular(b.prefix, codes[0]) ==> InTable(t, b.prefix, codes[0])) && Covered(Step(b, t, codes[0]), t, codes[1..]))
  }

  ghost function After(b: Board, t: Tables, codes: seq<nat>): Board
    requires Covered(b, t, codes)
    decreases |codes|
  {
    if codes == [] then b else After(Step(b, t, codes[0]), t, codes[1..])
  }

  // How often the caps key went from UP to DOWN.
  ghost function CapsPresses(b: Board, t: Tables, codes: seq<nat>): nat
    requires Covered(b, t, codes)
    decreases |codes|
  {
    if codes == [] then 0
    else
      var now := Step(b, t, codes[0]);
      (if CapsPressed(b, now) then 1 else 0) + CapsPresses(now, t, codes[1..])
  }

  // Over every run of covered codes, prefixes and Pause sequences included, the status bits agree with
  // the key states and the caps bit has flipped once for every press of the caps key.
  lemma {:induction false} RunAgrees(b: Board, t: Tables, codes: seq<nat>)
    requires Agrees(b) && Covered(b, t, codes)
    ensures Agrees(After(b, t, codes))
    ensures After(b, t, codes).status.caps == (b.status.caps != (CapsPresses(b, t, codes) % 2 == 1))
    decreases |codes|
  {
    if codes != [] {
      var now := Step(b, t, codes[0]);
      StepAgrees(b, t, codes[0]);
      RunAgrees(now, t, codes[1..]);
      OneMorePress(b, t, codes);
    }
  }

  lemma {:induction false} OneMorePress(b: Board, t: Tables, codes: seq<nat>)
    requires Covered(b, t, codes) && codes != []
    ensures var now := Step(b, t, codes[0]);
            CapsPresses(b, t, codes) % 2 == 1 <==> CapsPressed(b, now) != (CapsPresses(now, t, codes[1..]) % 2 == 1)
  {
  }

  lemma {:induction false} RunFromReset(t: Tables, codes: seq<nat>)
    requires Covered(Reset(), t, codes)
    ensures var b := After(Reset(), t, codes);
            Agrees(b) && b.status.caps == (CapsPresses(Reset(), t, codes) % 2 == 1)
  {
    RunAgrees(Reset(), t, codes);
  }

  // A release leaves the key UP exactly when it had not repeated: from HELD it goes back to DOWN.
  lemma {:induction false} ReleaseExactly(b: Board, t: Tables, code: nat)
    requires Agrees(b) && Regular(b.prefix, code) && InTable(t, b.prefix, code) && b.prefix.brk
    ensures var key := Translate(t, b.prefix, code);
            Step(b, t, code).keys[key] == UP <==> b.keys[key] == DOWN
  {
  }

  // E1 14 77 E1 F0 14 F0 77: the Pause sequence ends with every prefix cleared and only its key changed.
  lemma {:induction false} PauseSequence(b: Board, t: Tables)
    requires b.prefix == NO_PREFIX
    ensures var codes := [0xE1, 0x14, 0x77, 0xE1, 0xF0, 0x14, 0xF0, 0x77];
            Covered(b, t, codes) && After(b, t, codes) == b.(keys := b.keys[PAUSE := DOWN])
  {
    var b1 := Step(b, t, 0xE1);
    var b2 := Step(b1, t, 0xE1);
    var b3 := Step(b2, t, 0xF0);
    assert Step(b1, t, 0x14) == b1 && Step(b1, t, 0x77) == b1;
    assert Step(b3, t, 0x14) == b3 && Step(b3, t, 0xF0) == b3;
    assert Covered(b3, t, []) && Step(b3, t, 0x77) == b.(keys := b.keys[PAUSE := DOWN]);
    GoesOn(b3, t, 0x77, []);
    GoesOn(b3, t, 0xF0, [0x77]);
    GoesOn(b3, t, 0x14, [0xF0, 0x77]);
    GoesOn(b2, t, 0xF0, [0x14, 0xF0, 0x77]);
    GoesOn(b1, t, 0xE1, [0xF0, 0x14, 0xF0, 0x77]);
    GoesOn(b1, t, 0x77, [0xE1, 0xF0, 0x14, 0xF0, 0x77]);
    GoesOn(b1, t, 0x14, [0x77, 0xE1, 0xF0, 0x14, 0xF0, 0x77]);
    GoesOn(b, t, 0xE1, [0x14, 0x77, 0xE1, 0xF0, 0x14, 0xF0, 0x77]);
  }

  lemma {:induction false} GoesOn(b: Board, t: Tables, code: nat, rest: seq<nat>)
    requires !Regular(b.prefix, code) && (rest == [] || Covered(Step(b, t, code), t, rest))
    ensures Covered(b, t, [code] + rest) && Covered(Step(b, t, code), t, rest)
    ensures After(b, t, [code] + rest) == After(Step(b, t, code), t, rest)
  {
    assert ([code] + rest)[1..] == rest;
  }

  // ------------------------------------------------------------ the driver

  class Driver {
    const keyStates: array<nat>
    const tables: Tables
    var state: Prefix
    var status: Status
    var lastCapsState: nat

    ghost predicate Valid()
      reads this, keyStates
    {
      keyStates.Length == 125 && Agrees(Value())
    }

    ghost function Value(): Board
      requires keyStates.Length == 125
      reads this, keyStates
    {
      Board(keyStates[..], state, status, lastCapsState)
    }

    constructor (tables: Tables)
      ensures Valid() && Value() == Reset() && this.tables == tables && fresh(keyStates)
    {
      this.tables := tables;
      keyStates := new nat[125](_ => UP);
      state, status, lastCapsState := NO_PREFIX, Status(false, false, false, false, false, false, false), UP;
    }

    method ResetState()
      requires keyStates.Length == 125
      modifies this, keyStates
      ensures Valid() && Value() == Reset()
    {
      forall k | 0 <= k < 125 { keyStates[k] := UP; }
      state, status, lastCapsState := NO_PREFIX, Status(false, false, false, false, false, false, false), UP;
      assert keyStates[..] == Reset().keys;
    }

    // keyboard_getKeyState. The test compares a state with a key number, so its other branch, which was to
    // release Pause, is never taken.
    method GetKeyState(key: nat) returns (s: nat)
      requires keyStates.Length == 125 && key < 125 && keyStates[key] <= HELD
      ensures s == keyStates[key]
    {
      if keyStates[key] != PAUSE {
        s := keyStates[key];
      } else {
        assert false;
      }
    }

    method UpdateKey(trans: nat)
      requires keyStates.Length == 125 && trans < 125 && keyStates[trans] <= HELD
      modifies keyStates
      ensures keyStates[..] == old(keyStates[..])[trans := KeyAfter(old(keyStates[trans]), state.brk)]
    {
      var s := GetKeyState(trans);
      if s == DOWN {
        keyStates[trans] := if state.brk then UP else HELD;
      } else {
        keyStates[trans] := DOWN;
      }
    }

    method IsDown(key: nat) returns (down: bool)
      requires keyStates.Length == 125 && key < 125 && keyStates[key] <= HELD
      ensures down <==> keyStates[key] != UP
    {
      var s := GetKeyState(key);
      down := s != UP;
    }

    method EitherDown(left: nat, right: nat) returns (down: bool)
      requires keyStates.Length == 125 && left < 125 && right < 125
      requires keyStates[left] <= HELD && keyStates[right] <= HELD
      ensures down <==> keyStates[left] != UP || keyStates[right] != UP
    {
      down := IsDown(left);
      if !down { down := IsDown(right); }
    }

    // The lock bits: scroll and num follow their keys, caps flips on a fresh press.
    method UpdateLocks(before: Status) returns (s: Status)
      requires keyStates.Length == 125 && forall k: nat | k < 125 :: keyStates[k] <= HELD
      modifies this`lastCapsState
      ensures var toggles := keyStates[CAPS_LOCK] == DOWN && old(lastCapsState) % 4 == UP;
              s == before.(scroll := keyStates[SCROLL_LOCK] != UP, num := keyStates[NUM_LOCK] != UP,
                         caps := before.caps != toggles)
      ensures lastCapsState == old(lastCapsState) / 4 % 2 * 4 + keyStates[CAPS_LOCK] % 4
    {
      var down := IsDown(SCROLL_LOCK);
      s := before.(scroll := down);
      down := IsDown(NUM_LOCK);
      s := s.(num := down);
      var caps := GetKeyState(CAPS_LOCK);
      if caps == DOWN && lastCapsState % 4 == UP {
        s := s.(caps := !s.caps);
      }
      lastCapsState := lastCapsState / 4 % 2 * 4;
      lastCapsState := lastCapsState + caps % 4;
    }

    // The modifier bits: shift and ctrl have two keys each.
    method UpdateModifiers(before: Status) returns (s: Status)
      requires keyStates.Length == 125 && forall k: nat | k < 125 :: keyStates[k] <= HELD
      ensures s == before.(shift := keyStates[LSHIFT] != UP || keyStates[RSHIFT] != UP,
                         ctrl := keyStates[LCTRL] != UP || keyStates[RCTRL] != UP,
                         alt := keyStates[LALT] != UP, altgr := keyStates[RALT] != UP)
    {
      var shift := EitherDown(LSHIFT, RSHIFT);
      var ctrl := EitherDown(LCTRL, RCTRL);
      var alt := IsDown(LALT);
      var altgr := IsDown(RALT);
      s := before.(shift := shift, ctrl := ctrl, alt := alt, altgr := altgr);
    }

    // The status check at the end of a regular key.
    method UpdateStatus()
      requires keyStates.Length == 125 && forall k: nat | k < 125 :: keyStates[k] <= HELD
      modifies this`status, this`lastCapsState
      ensures var toggles := keyStates[CAPS_LOCK] == DOWN && old(lastCapsState) % 4 == UP;
              && status == StatusOf(keyStates[..], old(status.caps) != toggles)
              && lastCapsState == old(lastCapsState) / 4 % 2 * 4 + keyStates[CAPS_LOCK] % 4
    {
      var newStatus := UpdateLocks(status);
      newStatus := UpdateModifiers(newStatus);
      status := newStatus;
    }

    // keyboard_isr on one byte.
    method Isr(keycode: nat)
      requires Valid() && (Regular(state, keycode) ==> InTable(tables, state, keycode))
      modifies this, keyStates
      ensures Valid() && Value() == Step(old(Value()), tables, keycode)
    {
      StepAgrees(Value(), tables, keycode);
      ghost var b := Value();
      assert forall k: nat | k < 125 :: keyStates[k] == b.keys[k];
      if keycode == 0xE0 {
        state := if state.ext0 then NO_PREFIX else state.(ext0 := true);
      } else if keycode == 0xE1 {
        state := if state.ext1 then state.(pause := true) else state.(ext1 := true);
      } else if keycode == 0xF0 {
        if state.brk {
          if !(state.ext1 || state.pause) { state := NO_PREFIX; }
        } else {
          state := state.(brk := true);
        }
      } else if (state.ext1 || state.brk) && state.pause {
        if keycode == 0x77 {
          keyStates[PAUSE] := DOWN;
          state := NO_PREFIX;
          assert keyStates[..] == b.keys[PAUSE := DOWN];
        }
      } else if !state.ext1 && !state.pause {
        RegularKey(keycode);
      }
    }

    // The end of a regular key.
    method RegularKey(keycode: nat)
      requires Valid() && Regular(state, keycode) && InTable(tables, state, keycode)
      modifies this, keyStates
      ensures Valid() && Value() == KeyStep(old(Value()), Translate(tables, old(state), keycode))
    {
      ghost var b := Value();
      var trans := if state.ext0 then tables.extended[keycode - 0x11] else tables.plain[keycode];
      KeyStepKeeps(b, trans);
      assert forall k: nat | k < 125 :: keyStates[k] == b.keys[k];
      UpdateKey(trans);
      state := NO_PREFIX;
      UpdateStatus();
    }
  }
}
