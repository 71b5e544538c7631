// The vidmap page table entry over whole runs: when a program that asked for the page
// has it, when one that did not ask has it too, and which screen it shows.
module Vidmap {
  import opened Words
  import opened Console
  import opened Paging
  import opened Terminals
  import opened KernelModel
  import opened KernelRuns

  // The entry is what it is meant to be: present if and only if the running process
  // asked for it, and pointing at the screen of its terminal.
  ghost predicate VidRight(k: K) requires WF(k) && Running(k) {
    k.vid == VidMap(k.flags[Pid(k)], FrameIn(k.current, k.active))
  }

  // Its page half alone.
  ghost predicate VidOnOwnScreen(k: K) {
    k.vid.frame == FrameIn(k.current, k.active)
  }

  // The steps that write the entry.
  ghost predicate Touches(k: K, op: Op) requires WF(k) {
    match op
    case Tick(_) => true
    case Halt => true
    case Execute(command, _) => command.Program? && !Full(k.stacks)
    case Scan(input) => Switches(k, input)
    case EnableVidmap(va) => VidmapPointerOk(va)
    case _ => false
  }

  // Those that leave it right. An execute maps for the parent, so the parent must not
  // have the page; turning the page on maps the display, so the terminal must be on it.
  ghost predicate Rightly(k: K, op: Op) requires WF(k) && Allowed(k, op) {
    match op
    case Execute(_, _) => !k.flags[Pid(k)]
    case EnableVidmap(_) => k.active == k.current
    case _ => true
  }

  lemma TouchSetsEntry(k: K, op: Op)
    requires WF(k) && Allowed(k, op) && Touches(k, op)
    ensures Running(Step(k, op))
    ensures VidRight(Step(k, op)) <==> Rightly(k, op)
    ensures VidOnOwnScreen(Step(k, op)) <==> op.EnableVidmap? ==> k.active == k.current
  {
    hide Disjoint, Puts, Loaded, AfterScan, StoredAll, Text;
    if op.Execute? {
      ChildRuns(k, op.command.image, op.now);
    }
  }

  lemma ChildRuns(k: K, image: seq<byte>, now: Context)
    requires WF(k) && Allowed(k, Execute(Program(image), now)) && !Full(k.stacks)
    ensures var r := Step(k, Execute(Program(image), now));
      Pid(r) == FreePid(k.stacks) && !r.flags[Pid(r)] && r.vid == Mapping(k, k.active, Pid(k))
  {
    hide Disjoint, Loaded;
    var child := FreePid(k.stacks);
    assert Top(k.stacks[k.active] + [child]) == child;
  }

  // Any other step leaves the entry, and everything it should agree with, alone.
  lemma OtherKeepsEntry(k: K, op: Op)
    requires WF(k) && Allowed(k, op) && !Touches(k, op)
    ensures Running(Step(k, op)) <==> Running(k)
    ensures Running(k) ==> (VidRight(Step(k, op)) <==> VidRight(k))
    ensures VidOnOwnScreen(Step(k, op)) <==> VidOnOwnScreen(k)
  {
    hide Forest, Puts, AfterScan, StoredAll, Text, ReadBytes, ReachesAll;
  }

  // The last step of a run that writes the entry, and the state it was taken in.
  datatype Touch = Never | Last(at: K, op: Op)

  ghost function LastTouch(k: K, ops: seq<Op>): (r: Touch)
    requires WF(k) && AllowedRun(k, ops)
    ensures r.Last? ==> WF(r.at) && Allowed(r.at, r.op) && Touches(r.at, r.op)
    decreases |ops|
  {
    if ops == [] then Never
    else
      var later := LastTouch(Step(k, ops[0]), ops[1..]);
      if later.Last? then later
      else if Touches(k, ops[0]) then Last(k, ops[0])
      else Never
  }

  // After any run the entry is right if and only if the last step that wrote it was a
  // tick, a halt, a switch, an execute by a process without the page, or a request for
  // the page from the terminal on display.
  lemma {:induction false} VidRightAfterRun(k: K, ops: seq<Op>)
    requires WF(k) && AllowedRun(k, ops) && Running(Run(k, ops))
    ensures LastTouch(k, ops).Never? ==> Running(k)
    ensures VidRight(Run(k, ops)) <==>
      match LastTouch(k, ops)
      case Last(at, op) => Rightly(at, op)
      case Never => VidRight(k)
    ensures VidOnOwnScreen(Run(k, ops)) <==>
      match LastTouch(k, ops)
      case Last(at, op) => (op.EnableVidmap? ==> at.active == at.current)
      case Never => VidOnOwnScreen(k)
    decreases |ops|
  {
    hide Step, Allowed, WF, VidRight, VidOnOwnScreen, Touches, Rightly;
    if ops != [] {
      VidRightAfterRun(Step(k, ops[0]), ops[1..]);
      if Touches(k, ops[0]) {
        TouchSetsEntry(k, ops[0]);
      } else {
        OtherKeepsEntry(k, ops[0]);
      }
    }
  }

  // From power-on the first step that matters is a tick, so the condition is never
  // about the start.
  lemma {:induction false} SomeTouchFromPowerOn(k: K, ops: seq<Op>)
    requires WF(k) && !Running(k) && AllowedRun(k, ops) && Running(Run(k, ops))
    ensures LastTouch(k, ops).Last?
  {
    VidRightAfterRun(k, ops);
  }

  // A store through the vidmap page reaches the program's own screen exactly when the
  // page half is right.
  lemma VidStoreIsOwn(k: K, va: nat, b: byte)
    requires WF(k) && Running(k) && k.vid.present && VIDMAP_START <= va < VIDMAP_START + PAGE
    ensures VidOnOwnScreen(k) ==>
      Stored(k, va, b).ttys == k.ttys[k.active := WithByte(k.ttys[k.active], va - VIDMAP_START, b)]
    ensures !VidOnOwnScreen(k) ==> Stored(k, va, b).ttys[k.active] == k.ttys[k.active]
  {
    hide Forest;
  }

  // ----- Two runs from power-on that leave it wrong -----

  // The first shell to run belongs to the second terminal, which is not on display.
  lemma FirstVidmapIsWrong(k: K, now: Context, va: nat)
    requires PoweredOn(k) && VidmapPointerOk(va)
    ensures var ops := [Tick(now)] + ([EnableVidmap(va)] + []);
      && AllowedRun(k, ops) && Running(Run(k, ops))
      && !VidRight(Run(k, ops)) && !VidOnOwnScreen(Run(k, ops)) && Run(k, ops).vid.present
  {
    var k1 := Step(k, Tick(now));
    assert Running(k1) && k1.active == 1 && k1.current == 0;
    TouchSetsEntry(k1, EnableVidmap(va));
    assert Step(k1, EnableVidmap(va)).vid.present by {
      hide StoredAll;
    }
    hide *;
    NothingFollows(Step(k1, EnableVidmap(va)));
    RunFirst(k1, EnableVidmap(va), []);
    RunFirst(k, Tick(now), [EnableVidmap(va)] + []);
  }

  // A child of a process with the page has it without asking.
  lemma ChildHasPageUnasked(k: K, image: seq<byte>, now: Context)
    requires WF(k) && Allowed(k, Execute(Program(image), now)) && !Full(k.stacks) && k.flags[Pid(k)]
    ensures var r := Step(k, Execute(Program(image), now));
      r.vid.present && !r.flags[Pid(r)] && VidOnOwnScreen(r) && !VidRight(r)
  {
    ChildRuns(k, image, now);
    hide Forest, Loaded;
  }

  // So it does in a run from power-on, as soon as a shell asks for the page and
  // executes a program.
  lemma FirstChildHasPageUnasked(k: K, image: seq<byte>, now: Context, later: Context, va: nat)
    requires PoweredOn(k) && VidmapPointerOk(va) && |image| <= MAX_FILE_SIZE
    ensures var ops := [Tick(now)] + ([EnableVidmap(va)] + ([Execute(Program(image), later)] + []));
      && AllowedRun(k, ops) && Running(Run(k, ops))
      && Run(k, ops).vid.present && !Run(k, ops).flags[Pid(Run(k, ops))]
  {
    var a, b, c := Tick(now), EnableVidmap(va), Execute(Program(image), later);
    var k1 := Step(k, a);
    assert k1.stacks == k.stacks[1 := [2]];
    assert forall t :: 0 <= t < TERMINALS ==> 4 !in k1.stacks[t];
    var k2 := Step(k1, b);
    assert k2.stacks == k1.stacks && k2.active == 1 && k2.flags[2] by {
      hide StoredAll;
    }
    assert !Full(k2.stacks) && Pid(k2) == 2 && Allowed(k2, c);
    ChildHasPageUnasked(k2, image, later);
    hide *;
    NothingFollows(Step(k2, c));
    RunFirst(k2, c, []);
    RunFirst(k1, b, [c] + []);
    RunFirst(k, a, [b] + ([c] + []));
  }
}
