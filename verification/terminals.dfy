// The three virtual terminals of student-distrib/lib.c and keyboard.c: one display,
// three backing pages, and the page table that decides where a write lands.
module Terminals {
  import opened Words
  import opened Console
  import opened LineDiscipline
  import opened Paging
  import opened Keyboard

  const TERMINALS := 3
  const LAST_ROW := 3840      // byte offset of the 25th row

  // Memory without the display and the three backing pages behind it.
  ghost function Beyond(mem: seq<byte>): (r: seq<byte>)
    requires |mem| >= MEMORY
  {
    mem[..SCREEN_FRAME * PAGE] + mem[(SCREEN_FRAME + 4) * PAGE..]
  }

  lemma BeyondKept(mem: seq<byte>, mem': seq<byte>, frame: nat)
    requires |mem| >= MEMORY && SCREEN_FRAME <= frame <= SCREEN_FRAME + 3 && SamePagesBut(mem, mem', frame)
    ensures Beyond(mem') == Beyond(mem)
  {
    assert mem'[..SCREEN_FRAME * PAGE] == mem[..SCREEN_FRAME * PAGE];
    assert mem'[(SCREEN_FRAME + 4) * PAGE..] == mem[(SCREEN_FRAME + 4) * PAGE..];
  }

  // The fields of a terminal_t that belong to the screen and the keyboard.
  datatype Record = Record(x: nat, y: nat, keys: seq<byte>, size: nat, enabled: bool, overflow: nat)

  predicate RecordOk(d: Record) {
    CursorOk(d.x, d.y) && |d.keys| == KEY_BUFFER && d.size <= KEY_BUFFER
  }

  // Terminal t is on the display if it is the current one, else on its own page.
  function FrameIn(current: nat, t: nat): nat {
    if t == current then SCREEN_FRAME else SCREEN_FRAME + 1 + t
  }

  ghost function TtyIn(mem: seq<byte>, d: Record, frame: nat): (r: Tty)
    requires |mem| >= MEMORY && RecordOk(d) && SCREEN_FRAME <= frame <= SCREEN_FRAME + 3
    ensures TtyOk(r)
  {
    Tty(Screen(PageIn(mem, frame), d.x, d.y), d.keys, d.size, d.enabled, d.overflow)
  }

  // The three terminals that memory and the terminal records stand for.
  ghost function TtysIn(mem: seq<byte>, terms: seq<Record>, current: nat): (r: seq<Tty>)
    requires |mem| >= MEMORY && |terms| == TERMINALS
    requires forall t :: 0 <= t < TERMINALS ==> RecordOk(terms[t])
    ensures |r| == TERMINALS && forall t :: 0 <= t < TERMINALS ==> TtyOk(r[t])
  {
    seq(TERMINALS, t requires 0 <= t < TERMINALS => TtyIn(mem, terms[t], FrameIn(current, t)))
  }

  // A change to terminal t's page and record is a change to terminal t alone.
  lemma OnlyTerminal(mem: seq<byte>, mem': seq<byte>, terms: seq<Record>, terms': seq<Record>, current: nat, t: nat)
    requires |mem| == |mem'| >= MEMORY && |terms| == |terms'| == TERMINALS && t < TERMINALS
    requires forall u :: 0 <= u < TERMINALS ==> RecordOk(terms[u]) && RecordOk(terms'[u])
    requires forall u :: 0 <= u < TERMINALS && u != t ==> terms'[u] == terms[u]
    requires SamePagesBut(mem, mem', FrameIn(current, t))
    ensures TtysIn(mem', terms', current)
      == TtysIn(mem, terms, current)[t := TtyIn(mem', terms'[t], FrameIn(current, t))]
    ensures Beyond(mem') == Beyond(mem)
  {
    BeyondKept(mem, mem', FrameIn(current, t));
    forall u | 0 <= u < TERMINALS && u != t
      ensures PageIn(mem', FrameIn(current, u)) == PageIn(mem, FrameIn(current, u))
    {
      PageKept(mem, mem', FrameIn(current, u), FrameIn(current, t));
    }
  }

  // Saving the display to one backing page and filling it from another leaves every
  // terminal showing what it showed.
  lemma SwitchKeepsTtys(mem: seq<byte>, mid: seq<byte>, mem': seq<byte>, terms: seq<Record>, current: nat, t: nat)
    requires |mem| >= MEMORY && |terms| == TERMINALS && t < TERMINALS && current < TERMINALS && t != current
    requires forall u :: 0 <= u < TERMINALS ==> RecordOk(terms[u])
    requires SamePagesBut(mem, mid, SCREEN_FRAME + 1 + current)
    requires PageIn(mid, SCREEN_FRAME + 1 + current) == PageIn(mem, SCREEN_FRAME)
    requires SamePagesBut(mid, mem', SCREEN_FRAME)
    requires PageIn(mem', SCREEN_FRAME) == PageIn(mid, SCREEN_FRAME + 1 + t)
    ensures TtysIn(mem', terms, t) == TtysIn(mem, terms, current)
    ensures Beyond(mem') == Beyond(mem)
  {
    BeyondKept(mem, mid, SCREEN_FRAME + 1 + current);
    BeyondKept(mid, mem', SCREEN_FRAME);
    forall u | 0 <= u < TERMINALS
      ensures PageIn(mem', FrameIn(t, u)) == PageIn(mem, FrameIn(current, u))
    {
      PageKept(mid, mem', SCREEN_FRAME + 1 + u, SCREEN_FRAME);
      if u != current {
        PageKept(mem, mid, SCREEN_FRAME + 1 + u, SCREEN_FRAME + 1 + current);
      }
    }
  }

  // What a scan code does to the three terminals: at most the current one changes.
  function AfterScan(ttys: seq<Tty>, current: nat, mods: Mods, input: byte): (r: seq<Tty>)
    requires |ttys| == TERMINALS && current < TERMINALS
    requires TtyOk(ttys[current])
    ensures |r| == TERMINALS && TtyOk(r[current])
  {
    match Meaning(mods, input)
    case Rubout => ttys[current := Erased(ttys[current])]
    case Character(key) => ttys[current := Typed(ttys[current], key, mods.ctrl)]
    case _ => ttys
  }

  // The first 24 rows of a page are the last 24 of what it was.
  ghost predicate Shifted(mem: seq<byte>, mem': seq<byte>, f: nat) {
    && |mem'| == |mem| >= MEMORY && SCREEN_FRAME <= f <= SCREEN_FRAME + 3
    && (forall a :: f * PAGE <= a < f * PAGE + LAST_ROW ==> mem'[a] == mem[a + 2 * COLS])
    && (forall a :: 0 <= a < |mem| && !(f * PAGE <= a < f * PAGE + LAST_ROW) ==> mem'[a] == mem[a])
  }

  lemma ShiftedPage(mem: seq<byte>, mem': seq<byte>, f: nat)
    requires Shifted(mem, mem', f)
    ensures PageIn(mem', f) == PageIn(mem, f)[2 * COLS..SCREEN_BYTES] + PageIn(mem, f)[LAST_ROW..]
    ensures SamePagesBut(mem, mem', f)
  {
    assert forall i :: 0 <= i < LAST_ROW ==> PageIn(mem', f)[i] == PageIn(mem, f)[i + 2 * COLS];
  }

  class Video {
    const m: Machine
    var terms: seq<Record>
    var active: nat
    var current: nat
    var mods: Mods       // alt_pressed, ctrl_pressed, shift_pressed, caps_lock
    var cursor: nat      // the display controller's cursor register

    ghost function Frame(t: nat): nat
      reads this
    {
      FrameIn(current, t)
    }

    ghost predicate Shaped() reads this {
      && m.Shaped()
      && |terms| == TERMINALS && active < TERMINALS && current < TERMINALS
      && forall t :: 0 <= t < TERMINALS ==> RecordOk(terms[t])
    }

    // The meaning of the state: three independent terminals.
    ghost function Ttys(): (r: seq<Tty>)
      requires Shaped()
      reads this, m.mem
      ensures |r| == TERMINALS && forall t :: 0 <= t < TERMINALS ==> TtyOk(r[t])
    {
      TtysIn(m.mem[..], terms, current)
    }

    ghost predicate CursorShown()
      requires Shaped()
      reads this
    {
      cursor == CursorCell(terms[current].x, terms[current].y)
    }

    // Virtual page 0xB8 is the active terminal's screen, wherever that is kept.
    ghost predicate Mapped() reads this, m.pageDir, m.pageTab, m.vidmapTab {
      Shaped() && m.Tables() && m.pageTab[0xB8].address == Frame(active)
    }

    ghost predicate Valid() reads this, m.pageDir, m.pageTab, m.vidmapTab {
      Mapped() && CursorShown()
    }

    // keyboard_init, on the tables page_initialize left
    constructor (machine: Machine)
      requires machine.Shaped() && machine.Tables() && machine.pageTab[0xB8].address == SCREEN_FRAME
      ensures m == machine && Valid() && active == 0 && current == 0 && mods == Mods(false, false, false, false)
      ensures forall t :: 0 <= t < TERMINALS ==>
        terms[t].x == 0 && terms[t].y == 0 && terms[t].size == 0 && !terms[t].enabled && terms[t].overflow == 0
    {
      m := machine;
      var blank := Record(0, 0, seq(KEY_BUFFER, _ => 0), 0, false, 0);
      terms := [blank, blank, blank];
      active, current, cursor := 0, 0, 0;
      mods := Mods(false, false, false, false);
    }

    // ----- The loops over video memory -----

    method ShiftRows(base: nat, ghost f: nat)
      requires m.Shaped() && SCREEN_FRAME <= f <= SCREEN_FRAME + 3 && m.Maps(base, f)
      modifies m.mem
      ensures m.PageAt(f) == old(m.PageAt(f))[2 * COLS..SCREEN_BYTES] + old(m.PageAt(f))[LAST_ROW..]
      ensures SamePagesBut(old(m.mem[..]), m.mem[..], f)
    {
      ShiftCells(base, f);
      ShiftedPage(old(m.mem[..]), m.mem[..], f);
    }

    method ShiftCells(base: nat, ghost f: nat)
      requires m.Shaped() && SCREEN_FRAME <= f <= SCREEN_FRAME + 3 && m.Maps(base, f)
      modifies m.mem
      ensures Shifted(old(m.mem[..]), m.mem[..], f)
    {
      ghost var lo := f * PAGE;
      for index := 0 to (ROWS - 1) * COLS
        invariant forall a :: lo <= a < lo + 2 * index ==> m.mem[a] == old(m.mem[a + 2 * COLS])
        invariant forall a :: 0 <= a < m.mem.Length && !(lo <= a < lo + 2 * index) ==> m.mem[a] == old(m.mem[a])
      {
        ShiftCell(base, f, index);
      }
    }

    // One cell takes the one a row below.
    method ShiftCell(base: nat, ghost f: nat, index: nat)
      requires m.Shaped() && SCREEN_FRAME <= f <= SCREEN_FRAME + 3 && m.Maps(base, f) && index < (ROWS - 1) * COLS
      modifies m.mem
      ensures var a := f * PAGE + 2 * index;
        && m.mem[a] == old(m.mem[a + 2 * COLS]) && m.mem[a + 1] == old(m.mem[a + 1 + 2 * COLS])
        && forall b :: 0 <= b < m.mem.Length && b != a && b != a + 1 ==> m.mem[b] == old(m.mem[b])
    {
      var c := m.Get(base, 2 * (index + COLS), f);
      m.Put(base, 2 * index, c, f);
      var attribute := m.Get(base, 2 * (index + COLS) + 1, f);
      m.Put(base, 2 * index + 1, attribute, f);
    }

    method BlankCells(base: nat, ghost f: nat, first: nat)
      requires m.Shaped() && SCREEN_FRAME <= f <= SCREEN_FRAME + 3 && m.Maps(base, f) && first <= CELLS
      modifies m.mem
      ensures m.PageAt(f) == old(m.PageAt(f))[..2 * first] + Blanks(CELLS - first) + old(m.PageAt(f))[SCREEN_BYTES..]
      ensures SamePagesBut(old(m.mem[..]), m.mem[..], f)
    {
      ghost var lo := f * PAGE;
      for index := first to ROWS * COLS
        invariant forall a :: lo + 2 * first <= a < lo + 2 * index ==> m.mem[a] == if a % 2 == 0 then SPACE else ATTRIB
        invariant forall a :: 0 <= a < m.mem.Length && !(lo + 2 * first <= a < lo + 2 * index) ==> m.mem[a] == old(m.mem[a])
      {
        m.Put(base, 2 * index, SPACE, f);
        m.Put(base, 2 * index + 1, ATTRIB, f);
      }
    }

    method ScrollUp(base: nat, ghost f: nat)
      requires m.Shaped() && SCREEN_FRAME <= f <= SCREEN_FRAME + 3 && m.Maps(base, f)
      modifies m.mem
      ensures m.PageAt(f) == Scrolled(old(m.PageAt(f)))
      ensures SamePagesBut(old(m.mem[..]), m.mem[..], f)
    {
      ShiftRows(base, f);
      BlankCells(base, f, (ROWS - 1) * COLS);
    }

    method Wipe(base: nat, ghost f: nat)
      requires m.Shaped() && SCREEN_FRAME <= f <= SCREEN_FRAME + 3 && m.Maps(base, f)
      modifies m.mem
      ensures m.PageAt(f) == Cleared(old(m.PageAt(f)))
      ensures SamePagesBut(old(m.mem[..]), m.mem[..], f)
    {
      BlankCells(base, f, 0);
    }

    method Poke(base: nat, ghost f: nat, pos: nat, c: byte)
      requires m.Shaped() && SCREEN_FRAME <= f <= SCREEN_FRAME + 3 && m.Maps(base, f) && pos < CELLS
      modifies m.mem
      ensures m.PageAt(f) == WithCell(old(m.PageAt(f)), pos, c)
      ensures SamePagesBut(old(m.mem[..]), m.mem[..], f)
    {
      m.Put(base, 2 * pos, c, f);
      m.Put(base, 2 * pos + 1, ATTRIB, f);
    }

    // ----- One terminal's console -----

    ghost function ScreenOf(f: nat, t: nat): Screen
      requires Shaped() && t < TERMINALS && SCREEN_FRAME <= f <= SCREEN_FRAME + 3
      reads this, m.mem
    {
      Screen(m.PageAt(f), terms[t].x, terms[t].y)
    }

    method Settle(base: nat, ghost f: nat, t: nat)
      requires Shaped() && t < TERMINALS && SCREEN_FRAME <= f <= SCREEN_FRAME + 3 && m.Maps(base, f)
      modifies this`terms, m.mem
      ensures Shaped() && ScreenOf(f, t) == Settled(old(ScreenOf(f, t)))
      ensures terms == old(terms)[t := old(terms)[t].(x := terms[t].x, y := terms[t].y)]
      ensures SamePagesBut(old(m.mem[..]), m.mem[..], f)
    {
      if COLS * terms[t].y + terms[t].x >= ROWS * COLS {
        ScrollUp(base, f);
        terms := terms[t := terms[t].(x := 0, y := ROWS - 1)];
      }
    }

    method BreakLine(base: nat, ghost f: nat, t: nat)
      requires Shaped() && t < TERMINALS && SCREEN_FRAME <= f <= SCREEN_FRAME + 3 && m.Maps(base, f) && terms[t].y < ROWS
      modifies this`terms, m.mem
      ensures Shaped() && ScreenOf(f, t) == BrokenLine(old(ScreenOf(f, t)))
      ensures terms == old(terms)[t := old(terms)[t].(x := terms[t].x, y := terms[t].y)]
      ensures SamePagesBut(old(m.mem[..]), m.mem[..], f)
    {
      var y := terms[t].y + 1;
      if y >= ROWS {
        ScrollUp(base, f);
        y := ROWS - 1;
      }
      terms := terms[t := terms[t].(x := 0, y := y)];
    }

    method WriteChar(base: nat, ghost f: nat, t: nat, c: byte)
      requires Shaped() && t < TERMINALS && SCREEN_FRAME <= f <= SCREEN_FRAME + 3 && m.Maps(base, f) && terms[t].y < ROWS
      modifies this`terms, m.mem
      ensures Shaped() && ScreenOf(f, t) == Written(old(ScreenOf(f, t)), c)
      ensures terms == old(terms)[t := old(terms)[t].(x := terms[t].x, y := terms[t].y)]
      ensures SamePagesBut(old(m.mem[..]), m.mem[..], f)
    {
      Poke(base, f, COLS * terms[t].y + terms[t].x, c);
      var x, y := terms[t].x + 1, terms[t].y;
      if x >= COLS {
        x, y := 0, y + 1;
      }
      terms := terms[t := terms[t].(x := x, y := y)];
    }

    // putc and current_terminal_putc: the same steps through different windows
    method PutcThrough(base: nat, ghost f: nat, t: nat, c: byte)
      requires Shaped() && t < TERMINALS && SCREEN_FRAME <= f <= SCREEN_FRAME + 3 && m.Maps(base, f)
      modifies this`terms, m.mem
      ensures Shaped() && ScreenOf(f, t) == Console.Putc(old(ScreenOf(f, t)), c)
      ensures terms == old(terms)[t := old(terms)[t].(x := terms[t].x, y := terms[t].y)]
      ensures SamePagesBut(old(m.mem[..]), m.mem[..], f)
    {
      Settle(base, f, t);
      if c == NEWLINE || c == RETURN {
        BreakLine(base, f, t);
      } else {
        WriteChar(base, f, t, c);
      }
    }

    method BackThrough(base: nat, ghost f: nat, t: nat)
      requires Shaped() && t < TERMINALS && SCREEN_FRAME <= f <= SCREEN_FRAME + 3 && m.Maps(base, f)
      requires terms[t].x != 0 || terms[t].y != 0
      modifies this`terms, m.mem
      ensures Shaped() && ScreenOf(f, t) == Back(old(ScreenOf(f, t)))
      ensures terms == old(terms)[t := old(terms)[t].(x := terms[t].x, y := terms[t].y)]
      ensures SamePagesBut(old(m.mem[..]), m.mem[..], f)
    {
      var x, y := terms[t].x, terms[t].y;
      if x == 0 {
        x, y := COLS - 1, y - 1;
      } else {
        x := x - 1;
      }
      terms := terms[t := terms[t].(x := x, y := y)];
      Poke(base, f, COLS * y + x, SPACE);
    }

    method SetCursor(x: nat, y: nat)
      modifies this`cursor
      ensures cursor == CursorCell(x, y)
    {
      cursor := (y * COLS + x) % (ROWS * COLS);
    }

    // putc, on the terminal whose process is running
    method Putc(c: byte)
      requires Valid()
      modifies this`terms, this`cursor, m.mem
      ensures Valid()
      ensures Ttys() == old(Ttys())[active := old(Ttys())[active].(screen := Console.Putc(old(Ttys())[active].screen, c))]
      ensures Beyond(m.mem[..]) == old(Beyond(m.mem[..]))
    {
      m.VideoMaps();
      ghost var was := m.mem[..];
      PutcThrough(VIDEO, Frame(active), active, c);
      SetCursor(terms[current].x, terms[current].y);
      OnlyTerminal(was, m.mem[..], old(terms), terms, current, active);
    }

    // clear
    method Clear()
      requires Valid()
      modifies this`terms, this`cursor, m.mem
      ensures Valid()
      ensures Ttys() == old(Ttys())[active := old(Ttys())[active].(screen := Console.Clear(old(Ttys())[active].screen))]
      ensures Beyond(m.mem[..]) == old(Beyond(m.mem[..]))
    {
      m.VideoMaps();
      ghost var was := m.mem[..];
      Wipe(VIDEO, Frame(active));
      terms := terms[active := terms[active].(x := 0, y := 0)];
      SetCursor(terms[current].x, terms[current].y);
      OnlyTerminal(was, m.mem[..], old(terms), terms, current, active);
    }

    // current_terminal_putc, on the terminal being looked at
    method Echo(c: byte)
      requires Valid()
      modifies this`terms, this`cursor, m.mem
      ensures Valid()
      ensures Ttys() == old(Ttys())[current := old(Ttys())[current].(screen := Console.Putc(old(Ttys())[current].screen, c))]
      ensures Beyond(m.mem[..]) == old(Beyond(m.mem[..]))
      ensures !IsBreak(c) ==> m.mem[0xB8000 + 2 * ((cursor + 1999) % 2000)] == c
    {
      m.VideoMaps();
      ghost var was := m.mem[..];
      PutcThrough(VIDEO_DIRECT, SCREEN_FRAME, current, c);
      CursorFollows(c, old(ScreenOf(SCREEN_FRAME, current)));
      SetCursor(terms[current].x, terms[current].y);
      OnlyTerminal(was, m.mem[..], old(terms), terms, current, current);
    }

    lemma CursorFollows(c: byte, s: Screen)
      requires Shaped() && CursorOk(s.x, s.y) && ScreenOf(SCREEN_FRAME, current) == Console.Putc(s, c)
      ensures !IsBreak(c) ==>
        m.mem[0xB8000 + 2 * ((CursorCell(terms[current].x, terms[current].y) + 1999) % 2000)] == c
    {
      if !IsBreak(c) {
        CursorFollowsCharacter(s, c);
      }
    }

    // current_terminal_back_putc
    method EchoBack()
      requires Valid()
      modifies this`terms, this`cursor, m.mem
      ensures Valid()
      ensures Ttys() == old(Ttys())[current := old(Ttys())[current].(screen := Back(old(Ttys())[current].screen))]
      ensures Beyond(m.mem[..]) == old(Beyond(m.mem[..]))
    {
      if terms[current].x == 0 && terms[current].y == 0 {
        SetCursor(terms[current].x, terms[current].y);
        return;
      }
      m.VideoMaps();
      ghost var was := m.mem[..];
      BackThrough(VIDEO_DIRECT, SCREEN_FRAME, current);
      SetCursor(terms[current].x, terms[current].y);
      OnlyTerminal(was, m.mem[..], old(terms), terms, current, current);
    }

    // current_terminal_clear
    method EchoClear()
      requires Valid()
      modifies this`terms, this`cursor, m.mem
      ensures Valid()
      ensures Ttys() == old(Ttys())[current := old(Ttys())[current].(screen := Console.Clear(old(Ttys())[current].screen))]
      ensures Beyond(m.mem[..]) == old(Beyond(m.mem[..]))
    {
      m.VideoMaps();
      ghost var was := m.mem[..];
      Wipe(VIDEO_DIRECT, SCREEN_FRAME);
      terms := terms[current := terms[current].(x := 0, y := 0)];
      SetCursor(terms[current].x, terms[current].y);
      OnlyTerminal(was, m.mem[..], old(terms), terms, current, current);
    }

    // paging_video_memory, given the vidmap flag of the process it looks at
    method Remap(flag: bool)
      requires Shaped() && m.Tables() && (flag ==> m.pageDir[VIDMAP_PDE].present)
      modifies m.pageTab, m.vidmapTab
      ensures Mapped()
      ensures m.vidmapTab[0] == old(m.vidmapTab[0]).(address := Frame(active), present := flag)
    {
      var address := if active == current then VIDEO / PAGE else VIDEO / PAGE + active + 1;
      m.pageTab[VIDEO / PAGE] := m.pageTab[VIDEO / PAGE].(address := address);
      m.vidmapTab[0] := m.vidmapTab[0].(address := address);
      m.vidmapTab[0] := m.vidmapTab[0].(present := flag);
    }

    // memcpy of one video page
    method CopyPage(dest: nat, src: nat, ghost fd: nat, ghost fs: nat)
      requires m.Shaped() && m.Maps(dest, fd) && m.Maps(src, fs) && fd != fs
      requires SCREEN_FRAME <= fd <= SCREEN_FRAME + 3 && SCREEN_FRAME <= fs <= SCREEN_FRAME + 3
      modifies m.mem
      ensures m.PageAt(fd) == old(m.PageAt(fs))
      ensures SamePagesBut(old(m.mem[..]), m.mem[..], fd)
    {
      for i := 0 to PAGE
        invariant forall a :: fd * PAGE <= a < fd * PAGE + i ==> m.mem[a] == old(m.mem[a + (fs - fd) * PAGE])
        invariant forall a :: 0 <= a < m.mem.Length && !(fd * PAGE <= a < fd * PAGE + i) ==> m.mem[a] == old(m.mem[a])
      {
        var b := m.Get(src, i, fs);
        m.Put(dest, i, b, fd);
      }
      forall i | 0 <= i < PAGE
        ensures m.PageAt(fd)[i] == old(m.PageAt(fs))[i]
      {
        var a := fd * PAGE + i;
        assert m.mem[a] == old(m.mem[a + (fs - fd) * PAGE]);
      }
    }

    // switch_to_terminal_1, _2 and _3
    method SwitchTo(t: nat, flag: bool)
      requires Valid() && t < TERMINALS && (flag ==> m.pageDir[VIDMAP_PDE].present)
      modifies this`current, this`cursor, m.mem, m.pageTab, m.vidmapTab
      ensures Valid() && current == t
      ensures Ttys() == old(Ttys())
      ensures Beyond(m.mem[..]) == old(Beyond(m.mem[..]))
      ensures m.vidmapTab[0] == if old(current) == t then old(m.vidmapTab[0])
                                else old(m.vidmapTab[0]).(address := Frame(active), present := flag)
    {
      hide TtysIn, Beyond, Machine.Tables, Machine.Shaped;
      if current == t {
        return;
      }
      ExchangeDisplay(t, flag);
      SetCursor(terms[current].x, terms[current].y);
    }

    method ExchangeDisplay(t: nat, flag: bool)
      requires Shaped() && m.Tables() && t < TERMINALS && t != current && (flag ==> m.pageDir[VIDMAP_PDE].present)
      modifies this`current, m.mem, m.pageTab, m.vidmapTab
      ensures Mapped() && current == t
      ensures Ttys() == old(Ttys())
      ensures Beyond(m.mem[..]) == old(Beyond(m.mem[..]))
      ensures m.vidmapTab[0] == old(m.vidmapTab[0]).(address := Frame(active), present := flag)
    {
      hide TtysIn, Beyond, Machine.Tables, SamePagesBut, PageIn;
      ghost var from := current;
      SaveDisplay();
      ghost var mid := m.mem[..];
      current := t;
      ShowCurrent(flag);
      SwitchKeepsTtys(old(m.mem[..]), mid, m.mem[..], terms, from, t);
    }

    // The second terminal remaps after the last copy, the other two before it.
    method ShowCurrent(flag: bool)
      requires Shaped() && m.Tables() && (flag ==> m.pageDir[VIDMAP_PDE].present)
      modifies m.mem, m.pageTab, m.vidmapTab
      ensures Mapped()
      ensures m.PageAt(SCREEN_FRAME) == old(m.PageAt(SCREEN_FRAME + 1 + current))
      ensures SamePagesBut(old(m.mem[..]), m.mem[..], SCREEN_FRAME)
      ensures m.vidmapTab[0] == old(m.vidmapTab[0]).(address := Frame(active), present := flag)
    {
      if current == 1 {
        LoadDisplay();
        Remap(flag);
      } else {
        Remap(flag);
        LoadDisplay();
      }
    }

    method SaveDisplay()
      requires Shaped() && m.Tables()
      modifies m.mem
      ensures m.PageAt(SCREEN_FRAME + 1 + current) == old(m.PageAt(SCREEN_FRAME))
      ensures SamePagesBut(old(m.mem[..]), m.mem[..], SCREEN_FRAME + 1 + current)
    {
      m.VideoMaps();
      m.BackingMaps(current);
      CopyPage(VIDEO + PAGE * (1 + current), VIDEO_DIRECT, SCREEN_FRAME + 1 + current, SCREEN_FRAME);
    }

    method LoadDisplay()
      requires Shaped() && m.Tables()
      modifies m.mem
      ensures m.PageAt(SCREEN_FRAME) == old(m.PageAt(SCREEN_FRAME + 1 + current))
      ensures SamePagesBut(old(m.mem[..]), m.mem[..], SCREEN_FRAME)
    {
      m.VideoMaps();
      m.BackingMaps(current);
      CopyPage(VIDEO_DIRECT, VIDEO + PAGE * (1 + current), SCREEN_FRAME, SCREEN_FRAME + 1 + current);
    }

    // ----- The keyboard -----

    method SetKeys(keys: seq<byte>, size: nat, enabled: bool, overflow: nat)
      requires Valid() && |keys| == KEY_BUFFER && size <= KEY_BUFFER
      modifies this`terms
      ensures Valid()
      ensures Ttys() == old(Ttys())[current := old(Ttys())[current].(keys := keys, size := size, enabled := enabled, overflow := overflow)]
    {
      terms := terms[current := terms[current].(keys := keys, size := size, enabled := enabled, overflow := overflow)];
    }

    method Rub()
      requires Valid()
      modifies this`terms, this`cursor, m.mem
      ensures Valid()
      ensures Ttys() == old(Ttys())[current := Erased(old(Ttys())[current])]
      ensures Beyond(m.mem[..]) == old(Beyond(m.mem[..]))
    {
      var d := terms[current];
      ghost var tty := Ttys()[current];
      assert d.overflow == tty.overflow && d.size == tty.size && d.keys == tty.keys && d.enabled == tty.enabled;
      hide TtysIn, Beyond, Machine.Tables, Machine.Shaped;
      if d.overflow > 0 {
        SetKeys(d.keys, d.size, d.enabled, d.overflow - 1);
      } else if d.size > 0 {
        SetKeys(d.keys, d.size - 1, d.enabled, d.overflow);
        EchoBack();
      }
    }

    // The buffer's side of a character key that does not clear the screen.
    method Buffer(key: byte)
      requires Valid() && key < ASCII
      modifies this`terms
      ensures Valid()
      ensures Ttys() == old(Ttys())[current := Buffered(old(Ttys())[current], key)]
    {
      var d := terms[current];
      if d.size >= KEY_BUFFER && d.enabled && key == NEWLINE {
        SetKeys(d.keys[KEY_BUFFER - 1 := NEWLINE], d.size, false, d.overflow + 1);
      } else if key == NEWLINE && d.enabled {
        SetKeys(d.keys[d.size := NEWLINE], d.size + 1, false, d.overflow);
      } else if d.enabled && d.size < KEY_BUFFER {
        SetKeys(d.keys[d.size := key], d.size + 1, true, d.overflow);
      } else if d.enabled {
        SetKeys(d.keys, key + 1, true, d.overflow);
      }
    }

    method WipeLine()
      requires Valid()
      modifies this`terms, this`cursor, m.mem
      ensures Valid()
      ensures Ttys() == old(Ttys())[current := old(Ttys())[current].(screen := Console.Clear(old(Ttys())[current].screen), size := 0)]
      ensures Beyond(m.mem[..]) == old(Beyond(m.mem[..]))
    {
      EchoClear();
      var d := terms[current];
      SetKeys(d.keys, 0, d.enabled, d.overflow);
    }

    method Type(key: byte)
      requires Valid() && key < ASCII
      modifies this`terms, this`cursor, m.mem
      ensures Valid()
      ensures Ttys() == old(Ttys())[current := Typed(old(Ttys())[current], key, mods.ctrl)]
      ensures Beyond(m.mem[..]) == old(Beyond(m.mem[..]))
    {
      hide TtysIn, Beyond, Machine.Tables, Machine.Shaped;
      Echo(key);
      if (key == 'l' as int || key == 'L' as int) && mods.ctrl {
        WipeLine();
      } else {
        Buffer(key);
      }
    }

    method Modifier(input: byte) returns (taken: bool)
      modifies this`mods
      ensures taken == Meaning(old(mods), input).Modify?
      ensures mods == if taken then Meaning(old(mods), input).mods else old(mods)
    {
      taken := true;
      if input == LALT {
        mods := mods.(alt := true);
      } else if input == LALT + RELEASED {
        mods := mods.(alt := false);
      } else if input == LCTRL {
        mods := mods.(ctrl := true);
      } else if input == LCTRL + RELEASED {
        mods := mods.(ctrl := false);
      } else if input == LSHIFT || input == RSHIFT {
        mods := mods.(shift := true);
      } else if input == LSHIFT + RELEASED || input == RSHIFT + RELEASED {
        mods := mods.(shift := false);
      } else if input == CAPS {
        mods := mods.(caps := true);
      } else {
        taken := false;
      }
    }

    // keyboard_handler, given the scan code read from the port
    method KeyboardHandler(input: byte, flag: bool)
      requires Valid() && (flag ==> m.pageDir[VIDMAP_PDE].present)
      modifies this`terms, this`current, this`cursor, this`mods, m.mem, m.pageTab, m.vidmapTab
      ensures Valid()
      ensures Ttys() == AfterScan(old(Ttys()), old(current), old(mods), input)
      ensures mods == if Meaning(old(mods), input).Modify? then Meaning(old(mods), input).mods else old(mods)
      ensures current == if Meaning(old(mods), input).Function? then Meaning(old(mods), input).terminal else old(current)
      ensures Beyond(m.mem[..]) == old(Beyond(m.mem[..]))
      ensures m.vidmapTab[0] == if current == old(current) then old(m.vidmapTab[0])
                                else old(m.vidmapTab[0]).(address := Frame(active), present := flag)
    {
      hide TtysIn, Beyond, Machine.Tables, Machine.Shaped;
      var modifier := Modifier(input);
      if modifier {
        return;
      }
      if input == BACKSPACE {
        Rub();
      } else if input < KEYS {
        Type(KeyAt(mods, input));
      } else if F1 <= input < F1 + 3 && mods.alt {
        SwitchTo(input - F1, flag);
      }
    }

    // ----- Output and input of the running process -----

    // terminal_write, and printf of a fixed message
    method Write(text: seq<byte>)
      requires Valid()
      modifies this`terms, this`cursor, m.mem
      ensures Valid()
      ensures Ttys() == old(Ttys())[active := old(Ttys())[active].(screen := Puts(old(Ttys())[active].screen, text))]
      ensures Beyond(m.mem[..]) == old(Beyond(m.mem[..]))
    {
      for index := 0 to |text|
        invariant Valid()
        invariant Ttys() == old(Ttys())[active := old(Ttys())[active].(screen := Puts(old(Ttys())[active].screen, text[..index]))]
        invariant Beyond(m.mem[..]) == old(Beyond(m.mem[..]))
      {
        assert text[..index + 1][..index] == text[..index];
        Putc(text[index]);
      }
      assert text[..|text|] == text;
    }

    // The start of terminal_read: from here on the keyboard fills the buffer.
    method BeginRead()
      requires Valid()
      modifies this`terms
      ensures Valid()
      ensures Ttys() == old(Ttys())[active := old(Ttys())[active].(enabled := true)]
    {
      terms := terms[active := terms[active].(enabled := true)];
    }

    // The end of terminal_read.
    method EndRead()
      requires Valid()
      modifies this`terms
      ensures Valid()
      ensures Ttys() == old(Ttys())[active := old(Ttys())[active].(size := 0)]
    {
      terms := terms[active := terms[active].(size := 0)];
    }
  }
}
