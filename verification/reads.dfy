// A terminal_read call within a run of the whole kernel: from the moment it starts to
// wait, through the user's typing and whatever runs meanwhile, to what it stores.
module TerminalReads {
  import opened Words
  import opened Console
  import opened LineDiscipline
  import opened Keyboard
  import opened Paging
  import opened Terminals
  import opened KernelModel
  import opened KernelRuns
  import opened Independence

  // ----- The process that waits -----

  // While it waits, terminal t's process makes no step: ticks and keys go on, and the
  // other terminals' processes run.
  ghost predicate Waits(k: K, ops: seq<Op>, t: nat)
    requires WF(k) && AllowedRun(k, ops)
    decreases |ops|
  {
    ops == [] ||
    ((k.active == t ==> ops[0].Tick? || ops[0].Scan?) && Waits(Step(k, ops[0]), ops[1..], t))
  }

  lemma StepKeepsWaiter(k: K, op: Op, t: nat)
    requires WF(k) && Allowed(k, op) && t < TERMINALS && k.stacks[t] != []
    requires k.active == t ==> op.Tick? || op.Scan?
    ensures Step(k, op).stacks[t] == k.stacks[t]
    ensures Top(k.stacks[t]) < PROCESSES && Step(k, op).user[Top(k.stacks[t])] == k.user[Top(k.stacks[t])]
  {
    var p := Top(k.stacks[t]);
    assert StackOk(k.stacks[t], t);
    TopIsLive(k.stacks, t);
    if Step(k, op).user[p] != k.user[p] {
      StepIsolates(k, op, p);
      if k.active != t {
        TopsDiffer(k.stacks, k.active, t);
      }
      assert false;
    }
    hide Disjoint, Puts, AfterScan, StoredAll, Loaded, Text, ReadBytes, ReachesAll;
  }

  lemma {:induction false} WaiterIsKept(k: K, ops: seq<Op>, t: nat)
    requires WF(k) && AllowedRun(k, ops) && t < TERMINALS && k.stacks[t] != [] && Waits(k, ops, t)
    ensures Run(k, ops).stacks[t] == k.stacks[t]
    ensures Top(k.stacks[t]) < PROCESSES && Run(k, ops).user[Top(k.stacks[t])] == k.user[Top(k.stacks[t])]
    decreases |ops|
  {
    if ops == [] {
      assert StackOk(k.stacks[t], t);
    } else {
      hide Step, Allowed, Forest;
      StepKeepsWaiter(k, ops[0], t);
      WaiterIsKept(Step(k, ops[0]), ops[1..], t);
    }
  }

  // ----- The line it gets -----

  function Rubs(n: nat): seq<Event> {
    seq(n, _ => Rubbed)
  }

  // Where and what a read stores when the user typed a line, Enter, and then so many
  // backspaces: the line less those, cut to n bytes and ended by a break; or a break in
  // front of the buffer when not even a break is left.
  function Start(va: nat, line: seq<byte>, rubs: nat): int {
    if rubs <= |line| then va else va - 1
  }

  function Returned(line: seq<byte>, rubs: nat, n: nat): (r: seq<byte>)
    requires 0 < n
    ensures |r| <= n
  {
    if rubs > |line| then [NEWLINE]
    else
      var left := |line| + 1 - rubs;
      line[..(if n > left then left else n) - 1] + [NEWLINE]
  }

  lemma {:induction false} RubsAfterEnter(t: Tty, rubs: nat)
    requires TtyOk(t) && !t.enabled && t.overflow == 0
    ensures var r := PlayAll(t, Rubs(rubs));
      r.keys == t.keys && !r.enabled && r.overflow == 0 && r.size == if rubs > t.size then 0 else t.size - rubs
    decreases rubs
  {
    if rubs > 0 {
      assert Rubs(rubs) == Rubs(rubs - 1) + [Rubbed];
      PlayConcat(t, Rubs(rubs - 1), [Rubbed]);
      RubsAfterEnter(t, rubs - 1);
      PlayOne(PlayAll(t, Rubs(rubs - 1)), Rubbed);
    }
  }

  lemma LineReturned(tty: Tty, line: seq<byte>, rubs: nat, va: nat, n: nat)
    requires TtyOk(tty) && 0 < n && |line| < KEY_BUFFER && NEWLINE !in line
    requires tty.keys[..|line| + 1] == line + [NEWLINE]
    requires tty.size == if rubs > |line| + 1 then 0 else |line| + 1 - rubs
    ensures ReadStart(tty, va) == Start(va, line, rubs) && ReadBytes(tty, n) == Returned(line, rubs, n)
    ensures ReadCount(tty.keys, tty.size, n) == if rubs <= |line| then |Returned(line, rubs, n)| else 0
  {
    if rubs <= |line| {
      forall i | 0 <= i <= |line|
        ensures tty.keys[i] == (line + [NEWLINE])[i]
      {
        assert tty.keys[..|line| + 1][i] == (line + [NEWLINE])[i];
      }
      if rubs == 0 && n > |line| {
        DeliveredBreak(tty.keys, tty.size, n, |line|);
      } else {
        DeliveredCut(tty.keys, tty.size, n);
        assert tty.keys[..|line|] == line;
      }
    }
  }

  // What the terminal's own events make of it.
  lemma TypedLine(tty: Tty, edits: seq<Edit>, ctrl: bool, rubs: nat, va: nat, n: nat)
    requires TtyOk(tty) && tty.enabled && tty.size == 0 && tty.overflow == 0 && 0 < n
    requires Fits([], edits) && forall e :: e in edits ==> EditOk(e)
    ensures var r := PlayAll(tty, EventsOfEdits(edits) + [Press(NEWLINE, ctrl)] + Rubs(rubs));
      var line := EditedLine([], edits);
      && !r.enabled && r.overflow == 0
      && ReadStart(r, va) == Start(va, line, rubs) && ReadBytes(r, n) == Returned(line, rubs, n)
      && ReadCount(r.keys, r.size, n) == if rubs <= |line| then |Returned(line, rubs, n)| else 0
  {
    assert Line(tty) == [] && Waiting(tty);
    var line, typed := EditedLine([], edits), AppliedAll(tty, edits);
    var done := Typed(typed, NEWLINE, ctrl);
    EnterDelivers(tty, edits, n);
    LineHasNoBreak([], edits);
    assert done.keys[..|line| + 1] == line + [NEWLINE] && !done.enabled && done.overflow == 0 && done.size == |line| + 1;
    PlayingEdits(tty, edits);
    PlayConcat(tty, EventsOfEdits(edits) + [Press(NEWLINE, ctrl)], Rubs(rubs));
    PlayConcat(tty, EventsOfEdits(edits), [Press(NEWLINE, ctrl)]);
    PlayOne(typed, Press(NEWLINE, ctrl));
    assert |line| < KEY_BUFFER;
    hide PlayAll, AppliedAll, EditedLine, Waiting, Fits, Typed, Delivered;
    RubsAfterEnter(done, rubs);
    LineReturned(PlayAll(done, Rubs(rubs)), line, rubs, va, n);
  }

  // ----- The whole call -----

  // A read begins in state k; until it ends its process waits, while these events
  // happen on its terminal.
  ghost predicate WaitsFor(k: K, ops: seq<Op>, events: seq<Event>) {
    && WF(k) && Running(k)
    && var begun := Step(k, BeginRead);
    && AllowedRun(begun, ops) && Waits(begun, ops, k.active) && Run(begun, ops).active == k.active
    && EventsOf(begun, ops, k.active) == events
  }

  // The events are a line that fits, Enter, and perhaps some backspaces, and no line was
  // left from before.
  ghost predicate Read(k: K, ops: seq<Op>, edits: seq<Edit>, ctrl: bool, rubs: nat) {
    && WaitsFor(k, ops, EventsOfEdits(edits) + [Press(NEWLINE, ctrl)] + Rubs(rubs))
    && k.ttys[k.active].size == 0 && k.ttys[k.active].overflow == 0
    && Fits([], edits) && (forall e :: e in edits ==> EditOk(e))
  }

  ghost function ReadEnd(k: K, ops: seq<Op>, edits: seq<Edit>, ctrl: bool, rubs: nat): (r: K)
    requires Read(k, ops, edits, ctrl, rubs)
    ensures WF(r) && Running(r)
  {
    Run(Step(k, BeginRead), ops)
  }

  lemma BeginKeeps(k: K)
    requires WF(k) && Running(k)
    ensures Allowed(k, BeginRead)
    ensures var r := Step(k, BeginRead);
      && r.active == k.active && r.stacks == k.stacks && r.user == k.user
      && r.ttys[k.active] == k.ttys[k.active].(enabled := true)
  {
    hide Forest;
  }

  // The process that reads is the one that began to, and its memory is as it left it.
  lemma ReaderReturns(k: K, ops: seq<Op>, edits: seq<Edit>, ctrl: bool, rubs: nat)
    requires Read(k, ops, edits, ctrl, rubs)
    ensures var r := ReadEnd(k, ops, edits, ctrl, rubs);
      Pid(r) == Pid(k) && r.user[Pid(k)] == k.user[Pid(k)]
  {
    hide EventsOf, Fits, Step, Allowed, Forest;
    BeginKeeps(k);
    WaiterIsKept(Step(k, BeginRead), ops, k.active);
  }

  lemma ReaderSees(k: K, ops: seq<Op>, edits: seq<Edit>, ctrl: bool, rubs: nat, va: nat, n: nat)
    requires Read(k, ops, edits, ctrl, rubs) && 0 < n
    ensures var r, line := ReadEnd(k, ops, edits, ctrl, rubs), EditedLine([], edits);
      var tty := r.ttys[r.active];
      && !tty.enabled && tty.overflow == 0
      && ReadStart(tty, va) == Start(va, line, rubs) && ReadBytes(tty, n) == Returned(line, rubs, n)
      && ReadCount(tty.keys, tty.size, n) == if rubs <= |line| then |Returned(line, rubs, n)| else 0
  {
    hide Fits, Step, Allowed, Forest, PlayAll, EventsOf, Run, ReadBytes;
    BeginKeeps(k);
    TerminalsAreIndependent(Step(k, BeginRead), ops, k.active);
    TypedLine(Step(k, BeginRead).ttys[k.active], edits, ctrl, rubs, va, n);
  }

  function Replaced(frame: seq<byte>, off: nat, data: seq<byte>): seq<byte>
    requires off + |data| <= |frame|
  {
    frame[..off] + data + frame[off + |data|..]
  }

  // Whatever ran meanwhile: when the read is over, the memory of the process that made
  // it is what it was when it began, but for the line the user meant, cut to n bytes and
  // ended by a break; and no other process's memory changes.
  lemma ReadReturnsLine(k: K, ops: seq<Op>, edits: seq<Edit>, ctrl: bool, rubs: nat, va: nat, n: nat)
    requires Read(k, ops, edits, ctrl, rubs) && 0 < n && USER_START < va && va + n <= USER_START + LARGE
    ensures var r, line := ReadEnd(k, ops, edits, ctrl, rubs), EditedLine([], edits);
      && Allowed(r, FinishRead(va, n))
      && Step(r, FinishRead(va, n)).user ==
         r.user[Pid(k) := Replaced(k.user[Pid(k)], Start(va, line, rubs) - USER_START, Returned(line, rubs, n))]
  {
    hide *;
    ReaderReturns(k, ops, edits, ctrl, rubs);
    ReaderSees(k, ops, edits, ctrl, rubs, va, n);
    StartInReach(EditedLine([], edits), rubs, va, n);
    ReadFillsFrame(ReadEnd(k, ops, edits, ctrl, rubs), va, n);
  }

  lemma StartInReach(line: seq<byte>, rubs: nat, va: nat, n: nat)
    requires 0 < n && USER_START < va && va + n <= USER_START + LARGE
    ensures USER_START <= Start(va, line, rubs) && Start(va, line, rubs) + |Returned(line, rubs, n)| <= USER_START + LARGE
  {
  }

  lemma ReadFillsFrame(r: K, va: nat, n: nat)
    requires WF(r) && Running(r) && !r.ttys[r.active].enabled && 0 < n
    requires var tty := r.ttys[r.active];
      USER_START <= ReadStart(tty, va) && ReadStart(tty, va) + |ReadBytes(tty, n)| <= USER_START + LARGE
    ensures Allowed(r, FinishRead(va, n)) && |r.user[Pid(r)]| == LARGE
    ensures var tty, frame := r.ttys[r.active], r.user[Pid(r)];
      Step(r, FinishRead(va, n)).user
        == r.user[Pid(r) := Replaced(frame, ReadStart(tty, va) - USER_START, ReadBytes(tty, n))]
  {
    var tty := r.ttys[r.active];
    hide Forest, ReadBytes, ReadStart, StoredAll;
    StoresFillFrame(r, ReadStart(tty, va), ReadBytes(tty, n));
  }

  // The read keeps to its buffer exactly when no more characters were rubbed out after
  // Enter than the line had.
  lemma ReadKeepsToItsBufferExactlyWhen(k: K, ops: seq<Op>, edits: seq<Edit>, ctrl: bool, rubs: nat, va: nat, n: nat)
    requires Read(k, ops, edits, ctrl, rubs) && 0 < n
    ensures var r := ReadEnd(k, ops, edits, ctrl, rubs);
      var tty := r.ttys[r.active];
      (va <= ReadStart(tty, va) && ReadStart(tty, va) + |ReadBytes(tty, n)| <= va + n) <==> rubs <= |EditedLine([], edits)|
  {
    hide Read, ReadEnd, ReadStart, ReadBytes, EditedLine;
    ReaderSees(k, ops, edits, ctrl, rubs, va, n);
  }

  // What the read returns is the length of what it stored, or 0 when that fell before
  // its buffer; and the terminal is then as it was before any line, so that the next
  // read gets nothing of this one.
  lemma ReadLeavesIdle(k: K, ops: seq<Op>, edits: seq<Edit>, ctrl: bool, rubs: nat, va: nat, n: nat)
    requires Read(k, ops, edits, ctrl, rubs) && 0 < n && USER_START < va && va + n <= USER_START + LARGE
    ensures var r, line := ReadEnd(k, ops, edits, ctrl, rubs), EditedLine([], edits);
      && Allowed(r, FinishRead(va, n))
      && Idle(Step(r, FinishRead(va, n)).ttys[r.active])
      && ReadCount(r.ttys[r.active].keys, r.ttys[r.active].size, n) == if rubs <= |line| then |Returned(line, rubs, n)| else 0
  {
    ReadReturnsLine(k, ops, edits, ctrl, rubs, va, n);
    ReaderSees(k, ops, edits, ctrl, rubs, va, n);
    hide Read, ReadEnd, EditedLine, ReadBytes, ReadCount, Returned, ReachesAll;
    FinishedIsIdle(ReadEnd(k, ops, edits, ctrl, rubs), va, n);
  }

  lemma FinishedIsIdle(r: K, va: nat, n: nat)
    requires WF(r) && Running(r) && Allowed(r, FinishRead(va, n)) && r.ttys[r.active].overflow == 0
    requires USER_START <= ReadStart(r.ttys[r.active], va)
    requires ReadStart(r.ttys[r.active], va) + |ReadBytes(r.ttys[r.active], n)| <= USER_START + LARGE
    ensures Idle(Step(r, FinishRead(va, n)).ttys[r.active])
  {
    var tty := r.ttys[r.active];
    hide Forest, ReadBytes, ReadStart, StoredAll;
    StoresFillFrame(r, ReadStart(tty, va), ReadBytes(tty, n));
  }

  // ----- Keys that come too early -----

  // No read waits, and no line is left over.
  predicate Idle(t: Tty) {
    !t.enabled && t.size == 0 && t.overflow == 0
  }

  lemma {:induction false} IdleStays(t: Tty, events: seq<Event>)
    requires TtyOk(t) && Idle(t) && Await !in events
    ensures Idle(PlayAll(t, events))
    decreases |events|
  {
    if events != [] {
      var e := events[0];
      if e.Press? && e.key < ASCII && !IsWipe(e.key, e.ctrl) {
        IdleKeyOnlyEchoes(t, e.key, e.ctrl);
      }
      assert e in events;
      IdleStays(Play(t, e), events[1..]);
    }
  }

  // Whatever is typed on a terminal before its program asks for input is lost: the read
  // returns only the line edited after it began.
  lemma ReadIgnoresEarlierKeys(k: K, before: seq<Op>, ops: seq<Op>, edits: seq<Edit>, ctrl: bool, rubs: nat, va: nat, n: nat)
    requires WF(k) && AllowedRun(k, before) && 0 < n && USER_START < va && va + n <= USER_START + LARGE
    requires var t := Run(k, before).active; Idle(k.ttys[t]) && Await !in EventsOf(k, before, t)
    requires WaitsFor(Run(k, before), ops, EventsOfEdits(edits) + [Press(NEWLINE, ctrl)] + Rubs(rubs))
    requires Fits([], edits) && forall e :: e in edits ==> EditOk(e)
    ensures var asks, line := Run(k, before), EditedLine([], edits);
      && Read(asks, ops, edits, ctrl, rubs)
      && var r := ReadEnd(asks, ops, edits, ctrl, rubs);
      && Allowed(r, FinishRead(va, n))
      && Step(r, FinishRead(va, n)).user ==
         r.user[Pid(asks) := Replaced(asks.user[Pid(asks)], Start(va, line, rubs) - USER_START, Returned(line, rubs, n))]
  {
    var t := Run(k, before).active;
    TerminalsAreIndependent(k, before, t);
    IdleStays(k.ttys[t], EventsOf(k, before, t));
    assert Read(Run(k, before), ops, edits, ctrl, rubs);
    hide *;
    ReadReturnsLine(Run(k, before), ops, edits, ctrl, rubs, va, n);
  }

  // ----- A line that fills the buffer -----

  // 127 characters, one more and Enter: the read returns the first 127 and a break, and
  // the next Backspace changes nothing but the overflow count.
  lemma FullReadReturns(k: K, ops: seq<Op>, edits: seq<Edit>, c: byte, cctrl: bool, ctrl: bool, va: nat, n: nat)
    requires WaitsFor(k, ops, EventsOfEdits(edits) + [Press(c, cctrl)] + [Press(NEWLINE, ctrl)]) && 0 < n
    requires k.ttys[k.active].size == 0 && k.ttys[k.active].overflow == 0
    requires Fits([], edits) && (forall e :: e in edits ==> EditOk(e)) && EditOk(Key(c, cctrl))
    requires |EditedLine([], edits)| == 127
    ensures var tty, line := Run(Step(k, BeginRead), ops).ttys[k.active], EditedLine([], edits);
      && TtyOk(tty) && !tty.enabled
      && ReadStart(tty, va) == va && ReadBytes(tty, n) == line[..if n <= 127 then n - 1 else 127] + [NEWLINE]
      && Erased(tty) == tty.(overflow := 0)
  {
    hide Fits, Step, Allowed, Forest, PlayAll, EventsOf, Run, ReadBytes;
    BeginKeeps(k);
    TerminalsAreIndependent(Step(k, BeginRead), ops, k.active);
    FullLinePlayed(Step(k, BeginRead).ttys[k.active], edits, c, cctrl, ctrl, va, n);
  }

  lemma FullLinePlayed(tty: Tty, edits: seq<Edit>, c: byte, cctrl: bool, ctrl: bool, va: nat, n: nat)
    requires TtyOk(tty) && tty.enabled && tty.size == 0 && tty.overflow == 0 && 0 < n
    requires Fits([], edits) && (forall e :: e in edits ==> EditOk(e)) && EditOk(Key(c, cctrl))
    requires |EditedLine([], edits)| == 127
    ensures var r, line := PlayAll(tty, EventsOfEdits(edits) + [Press(c, cctrl)] + [Press(NEWLINE, ctrl)]), EditedLine([], edits);
      && !r.enabled
      && ReadStart(r, va) == va && ReadBytes(r, n) == line[..if n <= 127 then n - 1 else 127] + [NEWLINE]
      && Erased(r) == r.(overflow := 0)
  {
    assert Line(tty) == [] && Waiting(tty);
    var line, typed := EditedLine([], edits), AppliedAll(tty, edits);
    assert Line(typed) == line && typed.enabled && typed.overflow == 0;
    LineHasNoBreak([], edits);
    PlayingEdits(tty, edits);
    hide PlayAll, AppliedAll, EditedLine, Waiting, Fits, Delivered;
    KeyJoinsLineExactlyWhen(typed, c, cctrl);
    var full := Typed(typed, c, cctrl);
    assert Line(full) == line + [c] && full.enabled && full.overflow == 0 && full.size == 128;
    PlayConcat(tty, EventsOfEdits(edits) + [Press(c, cctrl)], [Press(NEWLINE, ctrl)]);
    PlayConcat(tty, EventsOfEdits(edits), [Press(c, cctrl)]);
    PlayOne(typed, Press(c, cctrl));
    PlayOne(full, Press(NEWLINE, ctrl));
    FullLineDelivers(full, ctrl, n);
    assert (line + [c])[..127] == line;
    assert forall m :: 0 <= m <= 127 ==> (line + [c])[..m] == line[..m];
  }

  // ----- Two runs from power-on -----

  const A_KEY: byte := 0x1E
  const A: byte := 'a' as int

  function ThreeTicks(c: Context): seq<Op> {
    [Tick(c)] + ([Tick(c)] + ([Tick(c)] + []))
  }

  // The first terminal is on display and its shell runs; nothing has been typed.
  ghost predicate Ready(k: K) {
    && WF(k) && Running(k) && k.active == k.current == 0 && Pid(k) == 1
    && k.mods == Mods(false, false, false, false) && k.ttys[0].size == 0 && k.ttys[0].overflow == 0
  }

  lemma TickBoots(k: K, c: Context)
    requires WF(k) && k.stacks[Next(k.active)] == []
    ensures Allowed(k, Tick(c))
    ensures var n, r := Next(k.active), Step(k, Tick(c));
      r.active == n && r.stacks == k.stacks[n := [n + 1]] && r.ttys == k.ttys && r.current == k.current && r.mods == k.mods
  {
    hide Disjoint;
  }

  lemma ThreeTicksMakeReady(k: K, c: Context)
    requires PoweredOn(k)
    ensures AllowedRun(k, ThreeTicks(c)) && Ready(Run(k, ThreeTicks(c)))
  {
    var op := Tick(c);
    var k1 := Step(k, op);
    TickBoots(k, c);
    var k2 := Step(k1, op);
    TickBoots(k1, c);
    var k3 := Step(k2, op);
    TickBoots(k2, c);
    assert k3.stacks[0] == [1];
    assert Ready(k3) && ThreeTicks(c) == [op] + ([op] + ([op] + []));
    hide *;
    NothingFollows(k3);
    RunFirst(k2, op, []);
    RunFirst(k1, op, [op] + []);
    RunFirst(k, op, [op] + ([op] + []));
  }

  const ENTER_THEN_RUB: seq<Op> := [Scan(ENTER)] + ([Scan(BACKSPACE)] + [])

  lemma EventsFirst(k: K, op: Op, ops: seq<Op>, t: nat)
    requires WF(k) && Allowed(k, op) && AllowedRun(Step(k, op), ops) && t < TERMINALS
    ensures AllowedRun(k, [op] + ops)
    ensures EventsOf(k, [op] + ops, t) == EventOf(k, op, t) + EventsOf(Step(k, op), ops, t)
  {
    hide Step, Allowed, WF, EventOf;
    assert ([op] + ops)[0] == op && ([op] + ops)[1..] == ops;
  }

  // A key at a ready terminal, which stays ready apart from its buffer and screen.
  lemma KeyEvent(k: K, input: byte)
    requires WF(k) && Running(k) && k.active == k.current && k.mods == Mods(false, false, false, false)
    requires Meaning(k.mods, input).Character? || Meaning(k.mods, input).Rubout?
    ensures Allowed(k, Scan(input))
    ensures var r := Step(k, Scan(input));
      r.active == r.current == k.active && r.mods == k.mods && EventOf(k, Scan(input), k.active) == EventOfScan(Meaning(k.mods, input), false)
  {
    hide Forest, AfterScan, Meaning;
  }

  lemma KeyMeanings()
    ensures var none := Mods(false, false, false, false);
      && Meaning(none, ENTER) == Character(NEWLINE) && Meaning(none, BACKSPACE) == Rubout
      && Meaning(none, A_KEY) == Character(A)
  {
    OnlyEnterBreaks(Mods(false, false, false, false), ENTER);
    assert PLAIN[A_KEY] == 'a';
  }

  // Enter on an empty line, and Backspace before the shell runs again: the read stores a
  // break in the byte before its buffer.
  lemma EmptiedReadFromPowerOn(k: K, c: Context, va: nat, n: nat)
    requires PoweredOn(k) && 0 < n && USER_START < va && va + n <= USER_START + LARGE
    ensures AllowedRun(k, ThreeTicks(c))
    ensures var shell := Run(k, ThreeTicks(c));
      && Read(shell, ENTER_THEN_RUB, [], false, 1)
      && var r := ReadEnd(shell, ENTER_THEN_RUB, [], false, 1);
      && Allowed(r, FinishRead(va, n))
      && Step(r, FinishRead(va, n)).user == r.user[1 := Replaced(shell.user[1], va - 1 - USER_START, [NEWLINE])]
  {
    assert WF(k);
    hide *;
    ThreeTicksMakeReady(k, c);
    EmptiedRead(Run(k, ThreeTicks(c)), va, n);
  }

  lemma EmptiedRead(shell: K, va: nat, n: nat)
    requires Ready(shell) && 0 < n && USER_START < va && va + n <= USER_START + LARGE
    ensures Read(shell, ENTER_THEN_RUB, [], false, 1) && |shell.user| > 1 && |shell.user[1]| == LARGE
    ensures var r := ReadEnd(shell, ENTER_THEN_RUB, [], false, 1);
      && Allowed(r, FinishRead(va, n)) && |r.user| > 1
      && Step(r, FinishRead(va, n)).user == r.user[1 := Replaced(shell.user[1], va - 1 - USER_START, [NEWLINE])]
  {
    assert WF(shell) && Running(shell) && Pid(shell) == 1 && |shell.user| > 1 && |shell.user[1]| == LARGE;
    hide *;
    EnterThenRubIsRead(shell);
    ReturnedNothing(va, n);
    ReadReturnsLine(shell, ENTER_THEN_RUB, [], false, 1, va, n);
    FramesSized(ReadEnd(shell, ENTER_THEN_RUB, [], false, 1));
  }

  lemma ReturnedNothing(va: nat, n: nat)
    requires 0 < n
    ensures EditedLine([], []) == [] && Start(va, [], 1) == va - 1 && Returned([], 1, n) == [NEWLINE]
  {
  }

  lemma FramesSized(k: K)
    requires WF(k)
    ensures |k.user| == PROCESSES > 1
  {
  }

  lemma EnterThenRubIsRead(k: K)
    requires Ready(k)
    ensures Read(k, ENTER_THEN_RUB, [], false, 1)
  {
    BeginKeeps(k);
    KeyMeanings();
    var k1 := Step(k, BeginRead);
    assert k1.current == 0 && k1.mods == k.mods && Running(k1);
    KeyEvent(k1, ENTER);
    var k2 := Step(k1, Scan(ENTER));
    KeyEvent(k2, BACKSPACE);
    var k3 := Step(k2, Scan(BACKSPACE));
    hide Step, Allowed, WF, EventOf, Meaning, EventsOf, AllowedRun, Run;
    NothingFollows(k3);
    NoEvents(k3, 0);
    RunFirst(k2, Scan(BACKSPACE), []);
    RunFirst(k1, Scan(ENTER), [Scan(BACKSPACE)] + []);
    EventsFirst(k2, Scan(BACKSPACE), [], 0);
    EventsFirst(k1, Scan(ENTER), [Scan(BACKSPACE)] + [], 0);
    KeysOnlyWait(k1, ENTER_THEN_RUB, 0);
    assert EventsOfEdits([]) == [] && Rubs(1) == [Rubbed];
    assert EventsOf(k1, ENTER_THEN_RUB, 0) == EventsOfEdits([]) + [Press(NEWLINE, false)] + Rubs(1);
  }

  lemma NoEvents(k: K, t: nat)
    requires WF(k) && AllowedRun(k, []) && t < TERMINALS
    ensures EventsOf(k, [], t) == []
  {
  }

  lemma {:induction false} KeysOnlyWait(k: K, ops: seq<Op>, t: nat)
    requires WF(k) && AllowedRun(k, ops) && forall op :: op in ops ==> op.Scan?
    ensures Waits(k, ops, t)
    decreases |ops|
  {
    hide Step, Allowed, WF;
    if ops != [] {
      assert ops[0] in ops;
      KeysOnlyWait(Step(k, ops[0]), ops[1..], t);
    }
  }

  // ----- A line longer than the buffer -----

  function Typing(n: nat): seq<Op> {
    if n == 0 then [] else [Scan(A_KEY)] + Typing(n - 1)
  }

  function Presses(n: nat): seq<Event> {
    if n == 0 then [] else [Press(A, false)] + Presses(n - 1)
  }

  lemma {:induction false} TypingIsPresses(k: K, n: nat)
    requires WF(k) && Running(k) && k.active == k.current && k.mods == Mods(false, false, false, false)
    ensures AllowedRun(k, Typing(n)) && EventsOf(k, Typing(n), k.active) == Presses(n)
    decreases n
  {
    hide Step, Allowed, EventOf, Meaning;
    if n > 0 {
      KeyMeanings();
      KeyEvent(k, A_KEY);
      TypingIsPresses(Step(k, Scan(A_KEY)), n - 1);
      EventsFirst(k, Scan(A_KEY), Typing(n - 1), k.active);
    }
  }

  function As(n: nat): (s: seq<byte>)
    ensures |s| == n
  {
    seq(n, _ => A)
  }

  // Key after key joins the line until 128 are buffered.
  lemma {:induction false} PressesFill(t: Tty, n: nat)
    requires TtyOk(t) && t.enabled && t.size + n <= KEY_BUFFER && Line(t) == As(t.size)
    ensures var r := PlayAll(t, Presses(n)); r.enabled && r.size == t.size + n && Line(r) == As(r.size)
    decreases n
  {
    if n > 0 {
      var next := Typed(t, A, false);
      assert Line(next) == Line(t) + [A] by {
        KeyJoinsLineExactlyWhen(t, A, false);
      }
      assert As(t.size) + [A] == As(t.size + 1);
      PressesFill(next, n - 1);
      assert Presses(n)[0] == Press(A, false) && Presses(n)[1..] == Presses(n - 1);
    }
  }

  lemma {:induction false} PressesJoin(n: nat, m: nat)
    ensures Presses(n + m) == Presses(n) + Presses(m)
    decreases n
  {
    if n == 0 {
      assert Presses(n) + Presses(m) == Presses(m);
    } else {
      PressesJoin(n - 1, m);
      assert [Press(A, false)] + (Presses(n - 1) + Presses(m)) == [Press(A, false)] + Presses(n - 1) + Presses(m);
    }
  }

  // From power-on, a shell reads and the user holds down the a key: after 128 the next
  // one cuts the line to 98 characters, the code of 'a' and one.
  lemma LongLineFromPowerOn(k: K, c: Context)
    requires PoweredOn(k)
    ensures AllowedRun(k, ThreeTicks(c)) && Ready(Run(k, ThreeTicks(c)))
    ensures var shell := Run(k, ThreeTicks(c));
      var begun := Step(shell, BeginRead);
      && AllowedRun(begun, Typing(KEY_BUFFER)) && AllowedRun(begun, Typing(KEY_BUFFER + 1))
      && Line(Run(begun, Typing(KEY_BUFFER)).ttys[0]) == As(KEY_BUFFER)
      && Line(Run(begun, Typing(KEY_BUFFER + 1)).ttys[0]) == As(98)
  {
    assert WF(k);
    hide *;
    ThreeTicksMakeReady(k, c);
    LongLine(Run(k, ThreeTicks(c)));
  }

  lemma LongLine(shell: K)
    requires Ready(shell)
    ensures Allowed(shell, BeginRead)
    ensures var begun := Step(shell, BeginRead);
      && AllowedRun(begun, Typing(KEY_BUFFER)) && AllowedRun(begun, Typing(KEY_BUFFER + 1))
      && |Run(begun, Typing(KEY_BUFFER)).ttys| == |Run(begun, Typing(KEY_BUFFER + 1)).ttys| == TERMINALS
      && TtyOk(Run(begun, Typing(KEY_BUFFER)).ttys[0]) && TtyOk(Run(begun, Typing(KEY_BUFFER + 1)).ttys[0])
      && Line(Run(begun, Typing(KEY_BUFFER)).ttys[0]) == As(KEY_BUFFER)
      && Line(Run(begun, Typing(KEY_BUFFER + 1)).ttys[0]) == As(98)
  {
    BeginKeeps(shell);
    var begun := Step(shell, BeginRead);
    assert begun.current == 0 && begun.mods == shell.mods && Running(begun);
    var tty := begun.ttys[0];
    assert Line(tty) == As(0);
    hide Step, Allowed, AllowedRun, Run, EventsOf, PlayAll, Typing, Presses, As, Line, Forest;
    TypingIsPresses(begun, KEY_BUFFER);
    TypingIsPresses(begun, KEY_BUFFER + 1);
    TerminalsAreIndependent(begun, Typing(KEY_BUFFER), 0);
    TerminalsAreIndependent(begun, Typing(KEY_BUFFER + 1), 0);
    PressesFill(tty, KEY_BUFFER);
    LastPress(tty);
  }

  lemma LastPress(tty: Tty)
    requires TtyOk(tty) && tty.enabled && tty.size == 0 && Line(tty) == As(0)
    ensures Line(PlayAll(tty, Presses(KEY_BUFFER + 1))) == As(98)
  {
    hide PlayAll, Presses, Typed;
    PressesFill(tty, KEY_BUFFER);
    var full := PlayAll(tty, Presses(KEY_BUFFER));
    PressesJoin(KEY_BUFFER, 1);
    OnePress();
    PlayConcat(tty, Presses(KEY_BUFFER), [Press(A, false)]);
    PlayOne(full, Press(A, false));
    KeyJoinsLineExactlyWhen(full, A, false);
    assert As(KEY_BUFFER)[..98] == As(98);
  }

  lemma OnePress()
    ensures Presses(1) == [Press(A, false)]
  {
    assert Presses(0) == [];
  }
}
