// Over whole runs, terminals and processes do not disturb one another: what a
// terminal shows depends on its own events, and a process's memory on its own steps.
module Independence {
  import opened Words
  import opened Console
  import opened LineDiscipline
  import opened Keyboard
  import opened Paging
  import opened Terminals
  import opened KernelModel
  import opened KernelRuns

  // What can happen to one terminal.
  datatype Event =
    | Print(text: seq<byte>)
    | Cleared
    | Press(key: byte, ctrl: bool)
    | Rubbed
    | Await
    | Taken
    | Poke(off: nat, b: byte)

  ghost function Play(t: Tty, e: Event): (r: Tty)
    requires TtyOk(t)
    ensures TtyOk(r)
  {
    match e
    case Print(text) => t.(screen := Puts(t.screen, text))
    case Cleared => t.(screen := Clear(t.screen))
    case Press(key, ctrl) => if key < ASCII then Typed(t, key, ctrl) else t
    case Rubbed => Erased(t)
    case Await => t.(enabled := true)
    case Taken => t.(size := 0)
    case Poke(off, b) => if off < PAGE then WithByte(t, off, b) else t
  }

  ghost function PlayAll(t: Tty, events: seq<Event>): (r: Tty)
    requires TtyOk(t)
    ensures TtyOk(r)
    decreases |events|
  {
    if events == [] then t else PlayAll(Play(t, events[0]), events[1..])
  }

  // What a step does to terminal t: output goes to the active terminal, keys to the
  // current one, and stores through the vidmap page to the one that page shows.
  ghost function EventOf(k: K, op: Op, t: nat): seq<Event>
    requires WF(k) && Allowed(k, op) && t < TERMINALS
  {
    match op
    case Write(text) => if t == k.active then [Print(text)] else []
    case ClearScreen => if t == k.active then [Cleared] else []
    case Execute(command, _) =>
      if t != k.active then []
      else if Full(k.stacks) then [Print(Text(TOO_MANY))]
      else if command.TooLong? then [Print(Text(TOO_LONG))]
      else []
    case Halt => if t == k.active && |k.stacks[t]| == 1 then [Print(Text(RootMessage(t)))] else []
    case Scan(input) => if t == k.current then EventOfScan(Meaning(k.mods, input), k.mods.ctrl) else []
    case BeginRead => if t == k.active then [Await] else []
    case FinishRead(va, n) =>
      var tty := k.ttys[k.active];
      Pokes(k.vid, k.current, ReadStart(tty, va), ReadBytes(tty, n), t) + if t == k.active then [Taken] else []
    case CopyOut(va, data) => Pokes(k.vid, k.current, va, data, t)
    case Store(va, b) => PokeAt(k.vid, k.current, va, b, t)
    case EnableVidmap(va) =>
      if VidmapPointerOk(va) then Pokes(VidMap(true, SCREEN_FRAME), k.current, va, VIDMAP_BYTES, t) else []
    case _ => []
  }

  function PokeAt(vid: VidMap, current: nat, va: int, b: byte, t: nat): (r: seq<Event>)
    ensures |r| <= 1
  {
    if VIDMAP_START <= va < VIDMAP_START + PAGE && vid.present && FrameIn(current, t) == vid.frame then
      [Poke(va - VIDMAP_START, b)]
    else []
  }

  // The part of a copy that lands on the screen of terminal t.
  function Pokes(vid: VidMap, current: nat, va: int, data: seq<byte>, t: nat): seq<Event> {
    if data == [] then []
    else
      var n := |data| - 1;
      Pokes(vid, current, va, data[..n], t) + PokeAt(vid, current, va + n, data[n], t)
  }

  function EventOfScan(press: Press, ctrl: bool): (r: seq<Event>)
    ensures |r| <= 1
  {
    match press
    case Rubout => [Rubbed]
    case Character(key) => [Press(key, ctrl)]
    case _ => []
  }

  ghost function EventsOf(k: K, ops: seq<Op>, t: nat): seq<Event>
    requires WF(k) && AllowedRun(k, ops) && t < TERMINALS
    decreases |ops|
  {
    if ops == [] then [] else EventOf(k, ops[0], t) + EventsOf(Step(k, ops[0]), ops[1..], t)
  }

  lemma StepPlaysEvents(k: K, op: Op, t: nat)
    requires WF(k) && Allowed(k, op) && t < TERMINALS
    ensures Step(k, op).ttys[t] == PlayAll(k.ttys[t], EventOf(k, op, t))
  {
    match op
    case Scan(input) =>
      ScanIsOneEvent(k.ttys, k.current, k.mods, input, t);
      hide *;
      NoneOrOne(k.ttys[t], EventOf(k, op, t));
    case FinishRead(va, n) => ReadPlaysEvents(k, va, n, t);
    case CopyOut(va, data) => StoresArePokes(k, va, data, t);
    case Store(va, b) => StoreIsPoke(k, va, b, t);
    case EnableVidmap(va) =>
      if VidmapPointerOk(va) {
        StoresArePokes(VidmapOn(k), va, VIDMAP_BYTES, t);
      }
    case _ => OtherIsOneEvent(k, op, t);
  }

  lemma OtherIsOneEvent(k: K, op: Op, t: nat)
    requires WF(k) && Allowed(k, op) && t < TERMINALS
    requires !op.Scan? && !op.FinishRead? && !op.CopyOut? && !op.Store? && !op.EnableVidmap?
    ensures Step(k, op).ttys[t] == PlayAll(k.ttys[t], EventOf(k, op, t))
  {
    hide Forest, Puts, Loaded, Text, PlayAll, FreePid, Full;
    NoneOrOne(k.ttys[t], EventOf(k, op, t));
  }

  lemma ReadPlaysEvents(k: K, va: nat, n: nat, t: nat)
    requires WF(k) && Allowed(k, FinishRead(va, n)) && t < TERMINALS
    ensures ReadDone(k, va, n).ttys[t] == PlayAll(k.ttys[t], EventOf(k, FinishRead(va, n), t))
  {
    var tty := k.ttys[k.active];
    var start, bytes := ReadStart(tty, va), ReadBytes(tty, n);
    hide Forest, StoredAll, Pokes, PlayAll, Delivered, ReachesAll;
    StoresArePokes(k, start, bytes, t);
    var pokes := Pokes(k.vid, k.current, start, bytes, t);
    var taken := if t == k.active then [Taken] else [];
    PlayConcat(k.ttys[t], pokes, taken);
    NoneOrOne(PlayAll(k.ttys[t], pokes), taken);
  }

  lemma StoreIsPoke(k: K, va: int, b: byte, t: nat)
    requires WF(k) && Running(k) && t < TERMINALS
    ensures Stored(k, va, b).ttys[t] == PlayAll(k.ttys[t], PokeAt(k.vid, k.current, va, b, t))
  {
    hide Forest, PlayAll, WithByte, VidStored;
    NoneOrOne(k.ttys[t], PokeAt(k.vid, k.current, va, b, t));
    if VIDMAP_START <= va < VIDMAP_START + PAGE && k.vid.present {
      VidStoreIsOneEvent(k, va - VIDMAP_START, b, t);
    }
  }

  lemma {:induction false} StoresArePokes(k: K, va: int, data: seq<byte>, t: nat)
    requires WF(k) && Running(k) && t < TERMINALS
    ensures StoredAll(k, va, data).ttys[t] == PlayAll(k.ttys[t], Pokes(k.vid, k.current, va, data, t))
    decreases |data|
  {
    hide Forest, Stored, PokeAt;
    if data != [] {
      var n := |data| - 1;
      var before := StoredAll(k, va, data[..n]);
      StoresArePokes(k, va, data[..n], t);
      StoreIsPoke(before, va + n, data[n], t);
      PlayConcat(k.ttys[t], Pokes(k.vid, k.current, va, data[..n], t), PokeAt(k.vid, k.current, va + n, data[n], t));
    }
  }

  lemma ScanIsOneEvent(ttys: seq<Tty>, current: nat, mods: Mods, input: byte, t: nat)
    requires |ttys| == TERMINALS && current < TERMINALS && t < TERMINALS
    requires TtyOk(ttys[t]) && TtyOk(ttys[current])
    ensures var e := if t == current then EventOfScan(Meaning(mods, input), mods.ctrl) else [];
      AfterScan(ttys, current, mods, input)[t] == if e == [] then ttys[t] else Play(ttys[t], e[0])
  {
    hide Typed, Erased, Meaning;
  }

  lemma NoneOrOne(t: Tty, events: seq<Event>)
    requires TtyOk(t) && |events| <= 1
    ensures PlayAll(t, events) == if events == [] then t else Play(t, events[0])
  {
    hide Play;
  }

  lemma VidStoreIsOneEvent(k: K, off: nat, b: byte, t: nat)
    requires WF(k) && k.vid.present && off < PAGE && t < TERMINALS
    ensures VidStored(k, off, b).ttys[t] == if FrameIn(k.current, t) == k.vid.frame then WithByte(k.ttys[t], off, b) else k.ttys[t]
  {
    hide Forest, WithByte;
  }

  lemma {:induction false} PlayConcat(t: Tty, a: seq<Event>, b: seq<Event>)
    requires TtyOk(t)
    ensures PlayAll(t, a + b) == PlayAll(PlayAll(t, a), b)
    decreases |a|
  {
    hide Play;
    if a == [] {
      assert a + b == b;
    } else {
      assert (a + b)[0] == a[0] && (a + b)[1..] == a[1..] + b;
      PlayConcat(Play(t, a[0]), a[1..], b);
    }
  }

  // Whatever the other two terminals do, whichever is shown and whichever runs,
  // a terminal ends a run as if its own events had been played to it alone.
  lemma {:induction false} TerminalsAreIndependent(k: K, ops: seq<Op>, t: nat)
    requires WF(k) && AllowedRun(k, ops) && t < TERMINALS
    ensures Run(k, ops).ttys[t] == PlayAll(k.ttys[t], EventsOf(k, ops, t))
    decreases |ops|
  {
    hide Step, Allowed, EventOf, Play, Forest;
    if ops != [] {
      StepPlaysEvents(k, ops[0], t);
      TerminalsAreIndependent(Step(k, ops[0]), ops[1..], t);
      PlayConcat(k.ttys[t], EventOf(k, ops[0], t), EventsOf(Step(k, ops[0]), ops[1..], t));
    }
  }

  // ----- A text written while everything else runs -----

  function Joined(texts: seq<seq<byte>>): seq<byte> {
    if texts == [] then [] else Joined(texts[..|texts| - 1]) + texts[|texts| - 1]
  }

  function Prints(texts: seq<seq<byte>>): (r: seq<Event>)
    ensures |r| == |texts|
  {
    seq(|texts|, i requires 0 <= i < |texts| => Print(texts[i]))
  }

  lemma {:induction false} PlayingPrints(t: Tty, texts: seq<seq<byte>>)
    requires TtyOk(t)
    ensures PlayAll(t, Prints(texts)) == t.(screen := Puts(t.screen, Joined(texts)))
  {
    if texts != [] {
      var init, last := texts[..|texts| - 1], texts[|texts| - 1];
      PlayingPrints(t, init);
      assert Prints(texts) == Prints(init) + [Print(last)];
      PlayConcat(t, Prints(init), [Print(last)]);
      PlayOne(PlayAll(t, Prints(init)), Print(last));
      PutsJoins(t.screen, Joined(init), last);
    }
  }

  // If a terminal's own events in a run are prints, its screen goes on from the text
  // it showed: a window onto the layout of that and of what was printed there.
  lemma TextSurvivesRun(k: K, ops: seq<Op>, t: nat, before: seq<byte>, texts: seq<seq<byte>>)
    requires WF(k) && AllowedRun(k, ops) && t < TERMINALS
    requires Shows(k.ttys[t].screen, Layout(before)) && EventsOf(k, ops, t) == Prints(texts)
    ensures Shows(Run(k, ops).ttys[t].screen, Layout(before + Joined(texts)))
  {
    TerminalsAreIndependent(k, ops, t);
    PlayingPrints(k.ttys[t], texts);
    PutsShows(k.ttys[t].screen, before, Joined(texts));
  }

  // ----- What a terminal shows after any run -----

  // What is known of a screen: nothing, or the text that was put on it since a clear.
  datatype Known = Unknown | Is(text: seq<byte>)

  ghost predicate Matches(s: Screen, known: Known) {
    known.Is? ==> Windowed(s, Layout(known.text))
  }

  function With(known: Known, more: seq<byte>): Known {
    if known.Is? then Is(known.text + more) else Unknown
  }

  // Prints and echoed keys add to the text, a clear or Ctrl-L starts it again, and
  // Backspace takes from it. Only a store to the screen makes it unknown.
  function Follow(t: Tty, known: Known, e: Event): Known
    requires TtyOk(t)
  {
    match e
    case Print(text) => With(known, text)
    case Cleared => Is([])
    case Press(key, ctrl) => if key >= ASCII then known else if IsWipe(key, ctrl) then Is([]) else With(known, [key])
    case Rubbed =>
      if known.Unknown? || t.overflow > 0 || t.size == 0 || (t.screen.x == 0 && t.screen.y == 0) then known
      else Is(RubbedText(known.text))
    case Poke(off, _) => if off < SCREEN_BYTES then Unknown else known
    case Await => known
    case Taken => known
  }

  ghost function FollowAll(t: Tty, known: Known, events: seq<Event>): Known
    requires TtyOk(t)
    decreases |events|
  {
    if events == [] then known else FollowAll(Play(t, events[0]), Follow(t, known, events[0]), events[1..])
  }

  lemma PlayFollows(t: Tty, known: Known, e: Event)
    requires TtyOk(t) && Matches(t.screen, known)
    ensures Matches(Play(t, e).screen, Follow(t, known, e))
  {
    hide Windowed, Shows, Layout;
    match e
    case Print(text) =>
      if known.Is? {
        PutsShows(t.screen, known.text, text);
      }
    case Cleared => ClearShows(t.screen);
    case Press(key, ctrl) =>
      if key < ASCII {
        PressFollows(t, known, key, ctrl);
      }
    case Rubbed =>
      if known.Is? && (t.screen.x != 0 || t.screen.y != 0) {
        BackShows(t.screen, known.text);
      }
    case Poke(off, b) =>
      if known.Is? && SCREEN_BYTES <= off < PAGE {
        PokeBeyond(t, known.text, off, b);
      }
    case _ =>
  }

  lemma PressFollows(t: Tty, known: Known, key: byte, ctrl: bool)
    requires TtyOk(t) && Matches(t.screen, known) && key < ASCII
    ensures Matches(Typed(t, key, ctrl).screen, if IsWipe(key, ctrl) then Is([]) else With(known, [key]))
  {
    hide Windowed, Shows, Layout;
    ClearShows(Putc(t.screen, key));
    if known.Is? {
      PutcShows(t.screen, known.text, key);
    }
    assert Shows(Clear(Putc(t.screen, key)), Layout([])) ==> Windowed(Clear(Putc(t.screen, key)), Layout([])) by {
      ShowsIsWindowed(Clear(Putc(t.screen, key)), Layout([]));
    }
  }

  lemma ShowsIsWindowed(s: Screen, rows: Rows)
    ensures Shows(s, rows) ==> Windowed(s, rows)
  {
  }

  lemma PokeBeyond(t: Tty, text: seq<byte>, off: nat, b: byte)
    requires TtyOk(t) && Windowed(t.screen, Layout(text)) && SCREEN_BYTES <= off < PAGE
    ensures Windowed(WithByte(t, off, b).screen, Layout(text))
  {
    hide Layout;
    var s, r := t.screen, WithByte(t, off, b).screen;
    forall i, k | 0 <= i < ROWS && 0 <= k < COLS
      ensures Char(r.page, i, k) == Char(s.page, i, k) && Attr(r.page, i, k) == Attr(s.page, i, k)
    {
    }
  }

  lemma {:induction false} PlayingFollows(t: Tty, known: Known, events: seq<Event>)
    requires TtyOk(t) && Matches(t.screen, known)
    ensures Matches(PlayAll(t, events).screen, FollowAll(t, known, events))
    decreases |events|
  {
    hide Matches, Play, Follow;
    if events != [] {
      PlayFollows(t, known, events[0]);
      PlayingFollows(Play(t, events[0]), Follow(t, known, events[0]), events[1..]);
    }
  }

  // After every run each screen is the window onto the text that its own events make,
  // through scrolls, switches, key presses, backspaces and the other terminals' output.
  lemma ScreenFollowsText(k: K, ops: seq<Op>, t: nat, known: Known)
    requires WF(k) && AllowedRun(k, ops) && t < TERMINALS && Matches(k.ttys[t].screen, known)
    ensures Matches(Run(k, ops).ttys[t].screen, FollowAll(k.ttys[t], known, EventsOf(k, ops, t)))
  {
    TerminalsAreIndependent(k, ops, t);
    PlayingFollows(k.ttys[t], known, EventsOf(k, ops, t));
  }

  // ----- A line typed while everything else runs -----

  function EventOfEdit(e: Edit): Event {
    match e
    case Key(c, ctrl) => Press(c, ctrl)
    case Rub => Rubbed
    case Wipe(shifted) => Press(if shifted then 'L' as int else 'l' as int, true)
  }

  // Every character key but Enter, and Backspace, is an edit.
  lemma KeysAreEdits(mods: Mods, input: byte)
    requires input != ENTER && (Meaning(mods, input).Character? || Meaning(mods, input).Rubout?)
    ensures exists e: Edit :: EditOk(e) && [EventOfEdit(e)] == EventOfScan(Meaning(mods, input), mods.ctrl)
  {
    if Meaning(mods, input).Rubout? {
      assert EditOk(Rub) && [EventOfEdit(Rub)] == [Rubbed];
    } else {
      OnlyEnterBreaks(mods, input);
      var key := KeyAt(mods, input);
      var e := if IsWipe(key, mods.ctrl) then Wipe(key == 'L' as int) else Key(key, mods.ctrl);
      assert EditOk(e) && EventOfEdit(e) == Press(key, mods.ctrl);
    }
  }

  function EventsOfEdits(edits: seq<Edit>): (r: seq<Event>)
    ensures |r| == |edits|
  {
    seq(|edits|, i requires 0 <= i < |edits| => EventOfEdit(edits[i]))
  }

  lemma {:induction false} PlayingEdits(t: Tty, edits: seq<Edit>)
    requires Waiting(t) && Fits(Line(t), edits) && forall e :: e in edits ==> EditOk(e)
    ensures PlayAll(t, EventsOfEdits(edits)) == AppliedAll(t, edits)
  {
    hide Play, Applied, EventOfEdit, Typed, Erased;
    if edits != [] {
      var init, last := edits[..|edits| - 1], edits[|edits| - 1];
      FitsPrefix(Line(t), edits);
      PlayingEdits(t, init);
      assert EventsOfEdits(edits) == EventsOfEdits(init) + [EventOfEdit(last)];
      PlayConcat(t, EventsOfEdits(init), [EventOfEdit(last)]);
      PlayOne(AppliedAll(t, init), EventOfEdit(last));
      PlayingEdit(AppliedAll(t, init), last);
    }
  }

  lemma PlayingEdit(t: Tty, e: Edit)
    requires TtyOk(t) && EditOk(e)
    ensures Play(t, EventOfEdit(e)) == Applied(t, e)
  {
  }

  lemma PlayOne(t: Tty, e: Event)
    requires TtyOk(t)
    ensures PlayAll(t, [e]) == Play(t, e)
  {
    assert PlayAll(Play(t, e), [][..]) == Play(t, e);
  }

  // If a terminal's own events in a run are one user's edits of a line, the line in
  // its buffer and the characters before its cursor are that edited line, however
  // many switches, ticks and other terminals' output came in between.
  lemma LineSurvivesRun(k: K, ops: seq<Op>, t: nat, edits: seq<Edit>)
    requires WF(k) && AllowedRun(k, ops) && t < TERMINALS
    requires Waiting(k.ttys[t]) && k.ttys[t].size == 0
    requires EventsOf(k, ops, t) == EventsOfEdits(edits)
    requires Fits([], edits) && forall e :: e in edits ==> EditOk(e)
    ensures Waiting(Run(k, ops).ttys[t]) && Line(Run(k, ops).ttys[t]) == EditedLine([], edits)
  {
    assert Line(k.ttys[t]) == [];
    TerminalsAreIndependent(k, ops, t);
    PlayingEdits(k.ttys[t], edits);
  }

  lemma {:induction false} StoresFillFrame(k: K, va: int, data: seq<byte>)
    requires WF(k) && Running(k) && USER_START <= va && va + |data| <= USER_START + LARGE
    ensures var off, frame := va - USER_START, k.user[Pid(k)];
      && StoredAll(k, va, data).ttys == k.ttys
      && StoredAll(k, va, data).user == k.user[Pid(k) := frame[..off] + data + frame[off + |data|..]]
    decreases |data|
  {
    hide Forest;
    var off, frame := va - USER_START, k.user[Pid(k)];
    if data == [] {
      assert frame[..off] + data + frame[off..] == frame;
    } else {
      var n := |data| - 1;
      StoresFillFrame(k, va, data[..n]);
      var was := frame[..off] + data[..n] + frame[off + n..];
      assert was[off + n := data[n]] == frame[..off] + data + frame[off + n + 1..];
    }
  }

  // ----- Which terminal is shown -----

  // The scan codes of a run.
  function Codes(ops: seq<Op>): seq<byte> {
    if ops == [] then [] else (if ops[0].Scan? then [ops[0].input] else []) + Codes(ops[1..])
  }

  lemma {:induction false} ModsAfterRun(k: K, ops: seq<Op>)
    requires WF(k) && AllowedRun(k, ops)
    ensures Run(k, ops).mods == ModsAfter(k.mods, Codes(ops))
    decreases |ops|
  {
    assert ModsAfter(k.mods, []) == k.mods;
    hide Allowed, Forest, Meaning, ModsAfter;
    if ops != [] {
      StepMods(k, ops[0]);
      hide Step;
      ModsAfterRun(Step(k, ops[0]), ops[1..]);
      if ops[0].Scan? {
        ModsFirst(k.mods, ops[0].input, Codes(ops[1..]));
      } else {
        assert [] + Codes(ops[1..]) == Codes(ops[1..]);
      }
    }
  }

  lemma StepMods(k: K, op: Op)
    requires WF(k) && Allowed(k, op)
    ensures Step(k, op).mods == if op.Scan? then ModsAfter(k.mods, [op.input]) else k.mods
  {
    hide Forest, Meaning, AfterScan, StoredAll, Puts, Loaded;
    if op.Scan? {
      assert ModsAfter(k.mods, [op.input][..0]) == k.mods;
    }
  }

  // After any run, the function key n puts terminal n on the display exactly when Alt is
  // held, that is, was pressed since it was last released; and neither way changes what
  // any terminal shows.
  lemma AltFunctionShows(k: K, ops: seq<Op>, n: nat)
    requires WF(k) && AllowedRun(k, ops) && Running(Run(k, ops)) && n < 3
    ensures Allowed(Run(k, ops), Scan(0x3B + n))
    ensures var r := Step(Run(k, ops), Scan(0x3B + n));
      && r.current == (if LastPressed(Codes(ops), {0x38}, {0xB8}, k.mods.alt) then n else Run(k, ops).current)
      && r.ttys == Run(k, ops).ttys
  {
    hide *;
    ModsAfterRun(k, ops);
    ModifiersFollowKeys(k.mods, Codes(ops));
    FunctionKey(Run(k, ops), n);
  }

  lemma FunctionKey(k: K, n: nat)
    requires WF(k) && Running(k) && n < 3
    ensures Allowed(k, Scan(0x3B + n))
    ensures var r := Step(k, Scan(0x3B + n));
      r.current == (if k.mods.alt then n else k.current) && r.ttys == k.ttys
  {
    hide Forest;
  }

  // ----- Memory -----

  // A step changes the frame of the running process, by that process's own store or
  // by what a system call stores for it, or the frame of the process it creates. Any
  // other frame stays as it was.
  lemma StepIsolates(k: K, op: Op, p: nat)
    requires WF(k) && Allowed(k, op) && p < PROCESSES
    requires Step(k, op).user[p] != k.user[p]
    ensures ((op.Store? || op.FinishRead? || op.CopyOut? || op.EnableVidmap?) && p == Pid(k)) ||
      (op.Execute? && op.command.Program? && !Full(k.stacks) && p == FreePid(k.stacks) && !Live(k.stacks, p))
  {
    hide Forest, Puts, Meaning, StoredAll, Delivered, ReachesAll;
    match op
    case FinishRead(va, n) =>
      StoresStayInFrame(k, ReadStart(k.ttys[k.active], va), ReadBytes(k.ttys[k.active], n), p);
    case CopyOut(va, data) => StoresStayInFrame(k, va, data, p);
    case EnableVidmap(va) => StoresStayInFrame(VidmapOn(k), va, VIDMAP_BYTES, p);
    case _ =>
  }

  lemma {:induction false} StoresStayInFrame(k: K, va: int, data: seq<byte>, p: nat)
    requires WF(k) && Running(k) && p < PROCESSES
    ensures p != Pid(k) ==> StoredAll(k, va, data).user[p] == k.user[p]
    decreases |data|
  {
    hide Forest;
    if data != [] {
      StoresStayInFrame(k, va, data[..|data| - 1], p);
    }
  }

  // Process p is alive throughout the run and never the one running.
  ghost predicate Sleeps(k: K, ops: seq<Op>, p: nat)
    requires WF(k) && AllowedRun(k, ops)
    decreases |ops|
  {
    && Live(k.stacks, p) && (Running(k) ==> Pid(k) != p)
    && (ops != [] ==> Sleeps(Step(k, ops[0]), ops[1..], p))
  }

  lemma {:induction false} SleepersKeepTheirMemory(k: K, ops: seq<Op>, p: nat)
    requires WF(k) && AllowedRun(k, ops) && p < PROCESSES && Sleeps(k, ops, p)
    ensures Run(k, ops).user[p] == k.user[p]
    decreases |ops|
  {
    hide Step, Allowed, Forest;
    if ops != [] {
      if Step(k, ops[0]).user[p] != k.user[p] {
        StepIsolates(k, ops[0], p);
        RunningUnlessFirst(k, ops[0]);
        assert false;
      }
      SleepersKeepTheirMemory(Step(k, ops[0]), ops[1..], p);
    }
  }

  lemma RunningUnlessFirst(k: K, op: Op)
    requires WF(k) && Allowed(k, op)
    ensures Running(k) || op.Tick? || op.Scan?
  {
  }
}
