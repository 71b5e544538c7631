// What a scan code means to keyboard_handler in student-distrib/keyboard.c.
module Keyboard {
  import opened Words
  import opened Console

  const KEYS := 58
  const LALT := 0x38
  const LCTRL := 0x1D
  const LSHIFT := 0x2A
  const RSHIFT := 0x36
  const RELEASED := 0x80
  const CAPS := 0x3A
  const BACKSPACE := 0x0E
  const ENTER := 0x1C
  const F1 := 0x3B

  const PLAIN: string :=
    "\0\01234567890-=\0\0" + "qwertyuiop[]\n\0as" + "dfghjkl;'`\0\\zxcv" + "bnm,./\0\0\0 "
  const SHIFTED: string :=
    "\0\0!@#$%^&*()_+\0\0" + "QWERTYUIOP{}\n\0AS" + "DFGHJKL:\"~\0|ZXCV" + "BNM<>?\0\0\0 "

  // Which modifiers are down. Caps lock is only ever set.
  datatype Mods = Mods(alt: bool, ctrl: bool, shift: bool, caps: bool)

  datatype Press =
    | Modify(mods: Mods)
    | Rubout
    | Character(key: byte)
    | Function(terminal: nat)
    | Ignored

  lemma TableSize()
    ensures |PLAIN| == KEYS && |SHIFTED| == KEYS
  {
  }

  function Code(c: char): byte {
    if c as int < 256 then c as int else 0
  }

  lemma PlainIsAscii(i: nat)
    requires i < KEYS
    ensures PLAIN[i] <= '~'
  {
  }

  lemma ShiftedIsAscii(i: nat)
    requires i < KEYS
    ensures SHIFTED[i] <= '~'
  {
  }

  function KeyAt(mods: Mods, input: byte): (key: byte)
    requires input < KEYS
    ensures key < ASCII
  {
    TableSize();
    PlainIsAscii(input);
    ShiftedIsAscii(input);
    Code(if mods.shift || mods.caps then SHIFTED[input] else PLAIN[input])
  }

  function Meaning(mods: Mods, input: byte): (p: Press)
    ensures p.Character? ==> p.key < ASCII
    ensures p.Function? ==> p.terminal < 3
  {
    if input == LALT then Modify(mods.(alt := true))
    else if input == LALT + RELEASED then Modify(mods.(alt := false))
    else if input == LCTRL then Modify(mods.(ctrl := true))
    else if input == LCTRL + RELEASED then Modify(mods.(ctrl := false))
    else if input == LSHIFT || input == RSHIFT then Modify(mods.(shift := true))
    else if input == LSHIFT + RELEASED || input == RSHIFT + RELEASED then Modify(mods.(shift := false))
    else if input == CAPS then Modify(mods.(caps := true))
    else if input == BACKSPACE then Rubout
    else if input < KEYS then Character(KeyAt(mods, input))
    else if F1 <= input < F1 + 3 && mods.alt then Function(input - F1)
    else Ignored
  }

  lemma NoBreakBefore(i: nat)
    requires i < ENTER
    ensures PLAIN[i] != '\n' && SHIFTED[i] != '\n'
  {
  }

  lemma NoBreakAfter(i: nat)
    requires ENTER < i < KEYS
    ensures PLAIN[i] != '\n' && SHIFTED[i] != '\n'
  {
  }

  lemma NoReturnPlain(i: nat)
    requires i < KEYS
    ensures PLAIN[i] != '\r'
  {
  }

  lemma NoReturnShifted(i: nat)
    requires i < KEYS
    ensures SHIFTED[i] != '\r'
  {
  }

  // The table has one line break: every character key but Enter edits a line.
  lemma OnlyEnterBreaks(mods: Mods, input: byte)
    requires input < KEYS
    ensures IsBreak(KeyAt(mods, input)) <==> input == ENTER
    ensures KeyAt(mods, input) != RETURN
  {
    NoReturnPlain(input);
    NoReturnShifted(input);
    if input < ENTER {
      NoBreakBefore(input);
    } else if input > ENTER {
      NoBreakAfter(input);
    }
    CodeIsExact(if mods.shift || mods.caps then SHIFTED[input] else PLAIN[input]);
  }

  lemma CodeIsExact(c: char)
    ensures Code(c) == NEWLINE <==> c == '\n'
    ensures Code(c) == RETURN <==> c == '\r'
  {
  }

  lemma TopRowPairs(i: nat)
    requires 16 <= i <= 25
    ensures SHIFTED[i] as int == PLAIN[i] as int - 32
  {
  }

  lemma HomeRowPairs(i: nat)
    requires 30 <= i <= 38
    ensures SHIFTED[i] as int == PLAIN[i] as int - 32
  {
  }

  lemma BottomRowPairs(i: nat)
    requires 44 <= i <= 50
    ensures SHIFTED[i] as int == PLAIN[i] as int - 32
  {
  }

  lemma LettersAreInRows(i: nat)
    requires i < KEYS && 'a' <= PLAIN[i] <= 'z'
    ensures 16 <= i <= 25 || 30 <= i <= 38 || 44 <= i <= 50
  {
  }

  // A letter key gives its letter, and with Shift or Caps Lock, or both, its capital.
  lemma LetterKeys(mods: Mods, input: byte)
    requires input < KEYS && 'a' <= PLAIN[input] <= 'z'
    ensures var letter := PLAIN[input] as int;
      KeyAt(mods, input) == if mods.shift || mods.caps then letter - 32 else letter
  {
    LettersAreInRows(input);
    if input <= 25 {
      TopRowPairs(input);
    } else if input <= 38 {
      HomeRowPairs(input);
    } else {
      BottomRowPairs(input);
    }
  }

  // ----- Which modifiers are down -----

  function ModsAfter(mods: Mods, inputs: seq<byte>): Mods {
    if inputs == [] then mods
    else
      var before := ModsAfter(mods, inputs[..|inputs| - 1]);
      var p := Meaning(before, inputs[|inputs| - 1]);
      if p.Modify? then p.mods else before
  }

  lemma OneCode(mods: Mods, c: byte)
    ensures var p := Meaning(mods, c);
      var r := if p.Modify? then p.mods else mods;
      && r.alt == (c == 0x38 || (c != 0xB8 && mods.alt))
      && r.ctrl == (c == 0x1D || (c != 0x9D && mods.ctrl))
      && r.shift == (c in {0x2A, 0x36} || (c !in {0xAA, 0xB6} && mods.shift))
      && r.caps == (c == 0x3A || mods.caps)
  {
    hide KeyAt;
  }

  // Was the last of these codes one of the presses?
  function LastPressed(inputs: seq<byte>, presses: set<byte>, releases: set<byte>, start: bool): bool {
    if inputs == [] then start
    else
      var c := inputs[|inputs| - 1];
      if c in presses then true
      else if c in releases then false
      else LastPressed(inputs[..|inputs| - 1], presses, releases, start)
  }

  // After any scan codes Alt and Ctrl are down if their last code was the press. The two
  // Shift keys are one: releasing either ends it. Caps Lock stays on once it was pressed.
  lemma {:induction false} ModifiersFollowKeys(mods: Mods, inputs: seq<byte>)
    ensures var r := ModsAfter(mods, inputs);
      && r.alt == LastPressed(inputs, {0x38}, {0xB8}, mods.alt)
      && r.ctrl == LastPressed(inputs, {0x1D}, {0x9D}, mods.ctrl)
      && r.shift == LastPressed(inputs, {0x2A, 0x36}, {0xAA, 0xB6}, mods.shift)
      && r.caps == (mods.caps || 0x3A in inputs)
  {
    hide Meaning;
    if inputs != [] {
      var init, c := inputs[..|inputs| - 1], inputs[|inputs| - 1];
      ModifiersFollowKeys(mods, init);
      OneCode(ModsAfter(mods, init), c);
      assert inputs == init + [c];
    }
  }

  lemma {:induction false} ModsFirst(mods: Mods, c: byte, rest: seq<byte>)
    ensures ModsAfter(mods, [c] + rest) == ModsAfter(ModsAfter(mods, [c]), rest)
    decreases |rest|
  {
    hide Meaning;
    var all := [c] + rest;
    if rest == [] {
      assert all == [c];
    } else {
      assert all[..|all| - 1] == [c] + rest[..|rest| - 1];
      ModsFirst(mods, c, rest[..|rest| - 1]);
    }
  }
}
