// One terminal as a value: its screen and its line buffer. The functions follow
// keyboard_handler and terminal_read for the terminal they are applied to.
module LineDiscipline {
  import opened Words
  import opened Console

  const KEY_BUFFER := 128

  // key_buf, keyboard_buffer_size, keyboard_buffer_enable and overflow of a
  // terminal_t, beside what its screen shows.
  datatype Tty = Tty(screen: Screen, keys: seq<byte>, size: nat, enabled: bool, overflow: nat)

  predicate TtyOk(t: Tty) {
    CursorOk(t.screen.x, t.screen.y) && |t.keys| == KEY_BUFFER && t.size <= KEY_BUFFER
  }

  predicate IsWipe(key: byte, ctrl: bool) {
    (key == 'l' as int || key == 'L' as int) && ctrl
  }

  // A key that has a character: echo it, then act on the buffer.
  function Typed(t: Tty, key: byte, ctrl: bool): (r: Tty)
    requires TtyOk(t) && key < ASCII
    ensures TtyOk(r)
  {
    var e := t.(screen := Putc(t.screen, key));
    if IsWipe(key, ctrl) then e.(screen := Clear(e.screen), size := 0) else Buffered(e, key)
  }

  // A line break ends the wait for a line; on a full buffer it takes the last place.
  function Buffered(t: Tty, key: byte): (r: Tty)
    requires TtyOk(t) && key < ASCII
    ensures TtyOk(r)
  {
    if t.size >= KEY_BUFFER && t.enabled && key == NEWLINE then
      t.(keys := t.keys[KEY_BUFFER - 1 := NEWLINE], enabled := false, overflow := t.overflow + 1)
    else if key == NEWLINE && t.enabled then
      t.(keys := t.keys[t.size := NEWLINE], size := t.size + 1, enabled := false)
    else if t.enabled then Appended(t, key)
    else t
  }

  // An ordinary key is stored without a bound check. One place past the end of key_buf
  // is the low byte of keyboard_buffer_size, which is then incremented.
  function Appended(t: Tty, key: byte): (r: Tty)
    requires TtyOk(t) && key < ASCII
    ensures TtyOk(r)
  {
    if t.size < KEY_BUFFER then t.(keys := t.keys[t.size := key], size := t.size + 1) else t.(size := key + 1)
  }

  function Erased(t: Tty): (r: Tty)
    requires TtyOk(t)
    ensures TtyOk(r)
  {
    if t.overflow > 0 then t.(overflow := t.overflow - 1)
    else if t.size > 0 then t.(size := t.size - 1, screen := Back(t.screen))
    else t
  }

  // What terminal_read copies out of the buffer once the wait is over.
  function Delivered(keys: seq<byte>, size: nat, n: nat): seq<byte>
    requires size <= |keys| && 0 < size && 0 < n
  {
    var m := if n > size then size else n;
    var k := FirstBreak(keys[..m]);
    if k < m then keys[..k + 1] else keys[..m - 1] + [NEWLINE]
  }

  function FirstBreak(s: seq<byte>): (k: nat)
    ensures k <= |s| && (k < |s| ==> s[k] == NEWLINE)
    ensures forall i :: 0 <= i < k ==> s[i] != NEWLINE
  {
    if s == [] then 0 else if s[0] == NEWLINE then 0 else 1 + FirstBreak(s[1..])
  }

  lemma BreakIsFirst(s: seq<byte>, k: nat)
    requires k <= |s| && (forall i :: 0 <= i < k ==> s[i] != NEWLINE) && (k < |s| ==> s[k] == NEWLINE)
    ensures FirstBreak(s) == k
  {
  }

  lemma DeliveredBreak(keys: seq<byte>, size: nat, n: nat, k: nat)
    requires 0 < size <= |keys| && k < n && k < size
    requires keys[k] == NEWLINE && forall i :: 0 <= i < k ==> keys[i] != NEWLINE
    ensures Delivered(keys, size, n) == keys[..k + 1]
  {
    BreakIsFirst(keys[..if n > size then size else n], k);
  }

  lemma DeliveredCut(keys: seq<byte>, size: nat, n: nat)
    requires 0 < size <= |keys| && 0 < n
    requires forall i :: 0 <= i < size && i < n ==> keys[i] != NEWLINE
    ensures var m := if n > size then size else n;
      Delivered(keys, size, n) == keys[..m - 1] + [NEWLINE]
  {
    var m := if n > size then size else n;
    BreakIsFirst(keys[..m], m);
  }

  // ----- Editing a line -----

  // What a user does to a line before ending it. Wipe is Ctrl-L, which arrives as
  // an 'l' or an 'L' while Ctrl is held.
  datatype Edit = Key(c: byte, ctrl: bool) | Rub | Wipe(shifted: bool)

  predicate EditOk(e: Edit) {
    e.Key? ==> e.c < ASCII && !IsBreak(e.c) && !IsWipe(e.c, e.ctrl)
  }

  // The line a user means by a sequence of edits.
  function EditedLine(line: seq<byte>, edits: seq<Edit>): seq<byte> {
    if edits == [] then line
    else
      var before := EditedLine(line, edits[..|edits| - 1]);
      match edits[|edits| - 1]
      case Key(c, _) => before + [c]
      case Rub => if before == [] then [] else before[..|before| - 1]
      case Wipe(_) => []
  }

  // The line stays below the buffer's size at every moment.
  ghost predicate Fits(line: seq<byte>, edits: seq<Edit>) {
    forall i :: 0 <= i <= |edits| ==> |EditedLine(line, edits[..i])| < KEY_BUFFER
  }

  function Applied(t: Tty, e: Edit): (r: Tty)
    requires TtyOk(t) && EditOk(e)
    ensures TtyOk(r)
  {
    match e
    case Key(c, ctrl) => Typed(t, c, ctrl)
    case Rub => Erased(t)
    case Wipe(shifted) => Typed(t, if shifted then 'L' as int else 'l' as int, true)
  }

  function AppliedAll(t: Tty, edits: seq<Edit>): (r: Tty)
    requires TtyOk(t) && Waiting(t) && Fits(Line(t), edits)
    requires forall e :: e in edits ==> EditOk(e)
    ensures Waiting(r) && Line(r) == EditedLine(Line(t), edits)
  {
    if edits == [] then t
    else
      var init := edits[..|edits| - 1];
      FitsPrefix(Line(t), edits);
      var before := AppliedAll(t, init);
      AppliedOne(before, edits[|edits| - 1]);
      Applied(before, edits[|edits| - 1])
  }

  function Line(t: Tty): seq<byte>
    requires TtyOk(t)
  {
    t.keys[..t.size]
  }

  function Cell(p: Page, i: nat): byte
    requires i < CELLS
  {
    p[2 * i]
  }

  // A read is waiting, and the cells just before the cursor are the line so far.
  ghost predicate Waiting(t: Tty) {
    && TtyOk(t) && t.enabled && t.overflow == 0 && t.size < KEY_BUFFER
    && var at := COLS * t.screen.y + t.screen.x;
    && t.size <= at
    && forall i :: at - t.size <= i < at ==> Cell(t.screen.page, i) == t.keys[i - (at - t.size)]
  }

  lemma FitsPrefix(line: seq<byte>, edits: seq<Edit>)
    requires edits != [] && Fits(line, edits)
    ensures Fits(line, edits[..|edits| - 1])
    ensures |EditedLine(line, edits)| < KEY_BUFFER
  {
    var init := edits[..|edits| - 1];
    forall i | 0 <= i <= |init|
      ensures |EditedLine(line, init[..i])| < KEY_BUFFER
    {
      assert init[..i] == edits[..i];
    }
    assert edits[..|edits|] == edits;
  }

  // Echoing a character puts it just before the cursor and keeps the `size` cells
  // that were there, wherever a scroll moves them.
  lemma EchoKeepsCells(s: Screen, c: byte, size: nat, back: nat)
    requires CursorOk(s.x, s.y) && !IsBreak(c)
    requires back <= size < KEY_BUFFER && size <= COLS * s.y + s.x
    ensures var at, r := COLS * s.y + s.x, Putc(s, c);
      var at' := COLS * r.y + r.x;
      && size + 1 <= at' <= CELLS
      && Cell(r.page, at' - 1 - back) == if back == 0 then c else Cell(s.page, at - back)
  {
  }

  lemma KeyKeepsWaiting(t: Tty, c: byte, ctrl: bool)
    requires Waiting(t) && c < ASCII && !IsBreak(c) && !IsWipe(c, ctrl) && t.size + 1 < KEY_BUFFER
    ensures Waiting(Typed(t, c, ctrl))
    ensures Line(Typed(t, c, ctrl)) == Line(t) + [c]
  {
    var r := Typed(t, c, ctrl);
    var at := COLS * t.screen.y + t.screen.x;
    var at' := COLS * r.screen.y + r.screen.x;
    EchoKeepsCells(t.screen, c, t.size, 0);
    forall i | at' - r.size <= i < at'
      ensures Cell(r.screen.page, i) == r.keys[i - (at' - r.size)]
    {
      EchoKeepsCells(t.screen, c, t.size, at' - 1 - i);
    }
  }

  // A key joins the line exactly when fewer than 128 are buffered; otherwise its own
  // code says how much of the line is left.
  lemma KeyJoinsLineExactlyWhen(t: Tty, c: byte, ctrl: bool)
    requires TtyOk(t) && t.enabled && c < ASCII && !IsBreak(c) && !IsWipe(c, ctrl)
    ensures Line(Typed(t, c, ctrl)) == Line(t) + [c] <==> t.size < KEY_BUFFER
    ensures t.size == KEY_BUFFER ==> Line(Typed(t, c, ctrl)) == Line(t)[..c + 1]
  {
    var r := Typed(t, c, ctrl);
    if t.size == KEY_BUFFER {
      assert |Line(r)| == c + 1 != |Line(t) + [c]|;
    }
  }

  lemma RubKeepsWaiting(t: Tty)
    requires Waiting(t)
    ensures Waiting(Erased(t))
    ensures Line(Erased(t)) == if t.size == 0 then [] else t.keys[..t.size - 1]
  {
    if t.size > 0 {
      var r := Erased(t);
      var at := COLS * t.screen.y + t.screen.x;
      forall i | at - t.size <= i < at - 1
        ensures Cell(r.screen.page, i) == r.keys[i - (at - t.size)]
      {
        assert Cell(t.screen.page, i) == t.keys[i - (at - t.size)];
      }
    }
  }

  lemma AppliedOne(t: Tty, e: Edit)
    requires Waiting(t) && EditOk(e) && (e.Key? ==> t.size + 1 < KEY_BUFFER)
    ensures Waiting(Applied(t, e))
    ensures Line(Applied(t, e)) == EditedLine(Line(t), [e])
  {
    if e.Key? {
      KeyKeepsWaiting(t, e.c, e.ctrl);
    } else if e.Rub? {
      RubKeepsWaiting(t);
    }
  }

  // Ending the line: whatever was typed, rubbed out and wiped, terminal_read
  // returns the line the user meant, cut to n bytes and ended by a newline.
  lemma EnterDelivers(t: Tty, edits: seq<Edit>, n: nat)
    requires Waiting(t) && t.size == 0 && Fits([], edits) && 0 < n
    requires forall e :: e in edits ==> EditOk(e)
    ensures var line := EditedLine([], edits);
      var done := Typed(AppliedAll(t, edits), NEWLINE, false);
      && !done.enabled && done.overflow == 0
      && done.size == |line| + 1 && Line(done) == line + [NEWLINE]
      && Delivered(done.keys, done.size, n) == line[..if |line| < n then |line| else n - 1] + [NEWLINE]
  {
    assert Line(t) == [];
    var before := AppliedAll(t, edits);
    var done := Typed(before, NEWLINE, false);
    LineHasNoBreak([], edits);
    assert done.keys[..done.size] == EditedLine([], edits) + [NEWLINE];
  }

  lemma {:induction false} LineHasNoBreak(line: seq<byte>, edits: seq<Edit>)
    requires NEWLINE !in line && forall e :: e in edits ==> EditOk(e)
    ensures NEWLINE !in EditedLine(line, edits)
  {
    if edits != [] {
      LineHasNoBreak(line, edits[..|edits| - 1]);
      assert EditOk(edits[|edits| - 1]);
    }
  }

  // While no read waits a key is echoed and not kept.
  lemma IdleKeyOnlyEchoes(t: Tty, key: byte, ctrl: bool)
    requires TtyOk(t) && !t.enabled && key < ASCII && !IsWipe(key, ctrl)
    ensures Typed(t, key, ctrl) == t.(screen := Putc(t.screen, key))
  {
  }

  // Enter on a full buffer takes the place of the last character, and the Backspace after
  // it is spent on that.
  lemma FullLineDelivers(t: Tty, ctrl: bool, n: nat)
    requires TtyOk(t) && t.enabled && t.overflow == 0 && t.size == 128 && NEWLINE !in Line(t) && 0 < n
    ensures var done := Typed(t, NEWLINE, ctrl);
      && !done.enabled && done.size == 128
      && Delivered(done.keys, done.size, n) == Line(t)[..if n <= 127 then n - 1 else 127] + [NEWLINE]
      && Erased(done) == done.(overflow := 0)
  {
    var done := Typed(t, NEWLINE, ctrl);
    forall i | 0 <= i < 127
      ensures done.keys[i] == t.keys[i] != NEWLINE
    {
      assert Line(t)[i] in Line(t);
    }
    if n <= 127 {
      DeliveredCut(done.keys, done.size, n);
    } else {
      DeliveredBreak(done.keys, done.size, n, 127);
    }
  }
}
