// Which kernel stack a process enters the kernel on. Each pid owns the 8 KB that end
// at its predecessor's: its PCB at the bottom, its kernel stack above it.
module KernelStacks {
  import opened Words
  import opened Console
  import opened Paging
  import opened Terminals
  import opened KernelModel
  import opened KernelRuns
  import opened SavedContexts

  const FRAME := 20        // ss, esp, eflags, cs and eip, pushed on entry from user mode

  // Where a process enters the kernel: at the top of its own region or, from the
  // execute that made it until the next tick or halt, at the bottom of it.
  function Entrance(pid: nat, newborn: bool): int {
    if newborn then SlotBottom(pid) else StackTop(pid)
  }

  ghost predicate Executes(k: K, op: Op) requires WF(k) {
    op.Execute? && op.command.Program? && !Full(k.stacks)
  }

  // ----- What a run leaves on the kernel stacks -----

  // Is the running process newborn? And of each process: the esp0 with which it entered
  // the kernel when it was last suspended or began to read, whether it was newborn
  // then, and whether it is inside that read still.
  datatype Trace = Trace(newborn: bool, entered: seq<int>, early: seq<bool>, inside: seq<bool>)

  const START := Trace(false, seq(PROCESSES, _ => 0), seq(PROCESSES, _ => false), seq(PROCESSES, _ => false))

  predicate TraceOk(tr: Trace) {
    |tr.entered| == PROCESSES && |tr.early| == PROCESSES && |tr.inside| == PROCESSES
  }

  // A process inside a read waits on the stack it entered with; any other enters now.
  function Entering(tr: Trace, pid: nat, esp0: int): (r: Trace)
    requires TraceOk(tr) && pid < PROCESSES
    ensures TraceOk(r)
  {
    if tr.inside[pid] then tr
    else tr.(entered := tr.entered[pid := esp0], early := tr.early[pid := tr.newborn])
  }

  ghost function Traced(k: K, op: Op, tr: Trace): (r: Trace)
    requires WF(k) && Allowed(k, op) && TraceOk(tr)
    ensures TraceOk(r)
  {
    match op
    case Tick(_) => (if Running(k) then Entering(tr, Pid(k), k.esp0) else tr).(newborn := false)
    case Execute(_, _) =>
      if Executes(k, op) then
        var e := Entering(tr, Pid(k), k.esp0);
        e.(newborn := true, inside := e.inside[FreePid(k.stacks) := false])
      else tr
    case Halt => tr.(newborn := false, inside := tr.inside[Pid(k) := false])
    case BeginRead =>
      var e := Entering(tr, Pid(k), k.esp0);
      e.(inside := e.inside[Pid(k) := true])
    case FinishRead(_, _) => tr.(inside := tr.inside[Pid(k) := false])
    case _ => tr
  }

  ghost function TracedAll(k: K, ops: seq<Op>, tr: Trace): (r: Trace)
    requires WF(k) && AllowedRun(k, ops) && TraceOk(tr)
    ensures TraceOk(r)
    decreases |ops|
  {
    if ops == [] then tr else TracedAll(Step(k, ops[0]), ops[1..], Traced(k, ops[0], tr))
  }

  // esp0 is the running process's entrance, and every process that is suspended or
  // reading entered through its own, as newborn or not.
  ghost predicate Placed(k: K, tr: Trace) {
    && WF(k) && TraceOk(tr)
    && (Running(k) ==> k.esp0 == Entrance(Pid(k), tr.newborn))
    && (forall p :: 0 <= p < PROCESSES && tr.inside[p] ==> Live(k.stacks, p))
    && forall p :: 0 <= p < PROCESSES && Live(k.stacks, p) && (tr.inside[p] || !(Running(k) && p == Pid(k))) ==>
        tr.entered[p] == Entrance(p, tr.early[p])
  }

  lemma TickPlaces(k: K, now: Context, tr: Trace)
    requires Placed(k, tr)
    ensures Placed(Ticked(k, now), Traced(k, Tick(now), tr))
  {
    hide Disjoint;
    var r, next := Ticked(k, now), Next(k.active);
    forall p | 0 <= p < PROCESSES
      ensures Live(r.stacks, p) <==> Live(k.stacks, p) || p == Top(r.stacks[next])
    {
      TopIsLive(r.stacks, next);
      if Live(k.stacks, p) {
        var t :| 0 <= t < |k.stacks| && p in k.stacks[t];
        assert p in r.stacks[t];
      }
    }
    if Running(k) {
      TopIsLive(k.stacks, k.active);
    }
    hide Live, Forest, Sized, Entrance;
  }

  lemma ExecutePlaces(k: K, image: seq<byte>, now: Context, tr: Trace)
    requires Placed(k, tr) && Allowed(k, Execute(Program(image), now)) && !Full(k.stacks)
    ensures Placed(Executed(k, Program(image), now), Traced(k, Execute(Program(image), now), tr))
  {
    hide Disjoint, Loaded;
    var r, child := Executed(k, Program(image), now), FreePid(k.stacks);
    assert r.stacks[k.active] == k.stacks[k.active] + [child];
    forall p | 0 <= p < PROCESSES
      ensures Live(r.stacks, p) <==> Live(k.stacks, p) || p == child
    {
      assert child in r.stacks[k.active];
      if Live(k.stacks, p) {
        var t :| 0 <= t < |k.stacks| && p in k.stacks[t];
        assert p in r.stacks[t];
      }
    }
    TopIsLive(k.stacks, k.active);
    hide Live, Forest, Sized, Entrance;
  }

  lemma HaltPlaces(k: K, tr: Trace)
    requires Placed(k, tr) && Allowed(k, Halt)
    ensures Placed(Halted(k), Traced(k, Halt, tr))
  {
    hide Disjoint, Puts, Text;
    var r := Halted(k);
    if |k.stacks[k.active]| > 1 {
      PopKeepsForest(k.stacks, k.active);
      TopIsLive(r.stacks, k.active);
      TopIsLive(k.stacks, k.active);
      forall p | 0 <= p < PROCESSES
        ensures Live(r.stacks, p) <==> Live(k.stacks, p) && p != Pid(k)
      {
        if Live(k.stacks, p) && p != Pid(k) {
          var t :| 0 <= t < |k.stacks| && p in k.stacks[t];
          assert p in r.stacks[t];
        }
      }
      hide Live, Forest, Sized, Entrance;
    }
  }

  lemma OtherPlaces(k: K, op: Op, tr: Trace)
    requires Placed(k, tr) && Allowed(k, op) && !op.Tick? && !op.Halt? && !Executes(k, op)
    ensures Placed(Step(k, op), Traced(k, op, tr))
  {
    hide Disjoint, Puts, AfterScan, StoredAll, Text, ReadBytes, ReachesAll, Live, Entrance;
    if Running(k) {
      TopIsLive(k.stacks, k.active);
    }
  }

  lemma StepPlaces(k: K, op: Op, tr: Trace)
    requires Placed(k, tr) && Allowed(k, op)
    ensures Placed(Step(k, op), Traced(k, op, tr))
  {
    match op
    case Tick(now) => TickPlaces(k, now, tr);
    case Halt => HaltPlaces(k, tr);
    case Execute(command, now) =>
      if command.Program? && !Full(k.stacks) {
        ExecutePlaces(k, command.image, now, tr);
      } else {
        OtherPlaces(k, op, tr);
      }
    case _ => OtherPlaces(k, op, tr);
  }

  // After any run esp0 and every kernel frame left behind are where the trace says.
  lemma {:induction false} EntriesAfterRun(k: K, ops: seq<Op>, tr: Trace)
    requires Placed(k, tr) && AllowedRun(k, ops)
    ensures Placed(Run(k, ops), TracedAll(k, ops, tr))
    decreases |ops|
  {
    hide Step, Allowed, Traced, Live;
    if ops != [] {
      StepPlaces(k, ops[0], tr);
      EntriesAfterRun(Step(k, ops[0]), ops[1..], Traced(k, ops[0], tr));
    }
  }

  // ----- When one entry falls on another -----

  // What the processor pushes when the running process next enters the kernel falls on
  // what it pushed when process p, suspended now, entered. A process inside a read is
  // in the kernel already.
  ghost predicate Hits(k: K, tr: Trace, p: nat) requires WF(k) && Running(k) && TraceOk(tr) {
    && p < PROCESSES && Live(k.stacks, p) && p != Pid(k) && !tr.inside[Pid(k)]
    && k.esp0 - FRAME < tr.entered[p] && tr.entered[p] - FRAME < k.esp0
  }

  lemma EntrancesMeet(q: nat, newborn: bool, p: nat, early: bool)
    requires p != q
    ensures (Entrance(q, newborn) - FRAME < Entrance(p, early) && Entrance(p, early) - FRAME < Entrance(q, newborn)) <==>
      (newborn && p == q + 1 && !early) || (!newborn && p == q - 1 && early)
  {
  }

  // Over every run from power-on: the next kernel entry falls on a suspended process's
  // frame in two cases. A newborn enters where the next pid's region begins, and hits
  // that pid if it was suspended from there; a process that has had its tick enters
  // there itself, and hits the pid before its own if that was suspended as newborn.
  lemma HitsExactlyWhen(k: K, ops: seq<Op>, p: nat)
    requires WF(k) && !Running(k) && AllowedRun(k, ops) && Running(Run(k, ops))
    ensures var r, tr := Run(k, ops), TracedAll(k, ops, START);
      Hits(r, tr, p) <==>
        && p < PROCESSES && Live(r.stacks, p) && !tr.inside[Pid(r)]
        && ((tr.newborn && p == Pid(r) + 1 && !tr.early[p]) || (!tr.newborn && p == Pid(r) - 1 && tr.early[p]))
  {
    StartIsPlaced(k);
    EntriesAfterRun(k, ops, START);
    PlacedHits(Run(k, ops), TracedAll(k, ops, START), p);
  }

  lemma StartIsPlaced(k: K)
    requires WF(k) && !Running(k)
    ensures Placed(k, START)
  {
  }

  lemma PlacedHits(r: K, tr: Trace, p: nat)
    requires Placed(r, tr) && Running(r)
    ensures Hits(r, tr, p) <==>
      && p < PROCESSES && Live(r.stacks, p) && !tr.inside[Pid(r)]
      && ((tr.newborn && p == Pid(r) + 1 && !tr.early[p]) || (!tr.newborn && p == Pid(r) - 1 && tr.early[p]))
  {
    hide Live, Forest, Sized, Entrance;
    if p < PROCESSES && p != Pid(r) {
      EntrancesMeet(Pid(r), tr.newborn, p, tr.early[p]);
    }
  }

  ghost predicate Damages(k: K, tr: Trace) requires WF(k) && Running(k) && TraceOk(tr) {
    exists p: nat :: Hits(k, tr, p)
  }

  // No entry of a run, up to its last step, falls on a suspended process's frame.
  ghost predicate QuietRun(k: K, ops: seq<Op>, tr: Trace)
    requires WF(k) && AllowedRun(k, ops) && TraceOk(tr)
    decreases |ops|
  {
    ops == [] ||
    ((Running(k) ==> !Damages(k, tr)) && QuietRun(Step(k, ops[0]), ops[1..], Traced(k, ops[0], tr)))
  }

  // ----- Runs of ticks, executes and halts, worked out on small shapes -----

  datatype Shape = Shape(active: nat, stacks: seq<seq<nat>>, newborn: bool, early: seq<bool>)

  datatype Move = Turn | Start | End

  function OpOf(m: Move, image: seq<byte>, c: Context): Op {
    match m
    case Turn => Tick(c)
    case Start => Execute(Program(image), c)
    case End => Halt
  }

  function OpsOf(moves: seq<Move>, image: seq<byte>, c: Context): seq<Op> {
    if moves == [] then [] else [OpOf(moves[0], image, c)] + OpsOf(moves[1..], image, c)
  }

  predicate ShapeOk(s: Shape) {
    && s.active < TERMINALS && |s.stacks| == TERMINALS && |s.early| == PROCESSES
    && forall t, i :: 0 <= t < TERMINALS && 0 <= i < |s.stacks[t]| ==> s.stacks[t][i] < PROCESSES
  }

  predicate In(stacks: seq<seq<nat>>, p: int) requires |stacks| == TERMINALS && p >= 0 {
    p in stacks[0] || p in stacks[1] || p in stacks[2]
  }

  // The tick is clean, the execute has a pid, the halt is not of a root shell; and no
  // entry hits.
  predicate Can(s: Shape, m: Move) requires ShapeOk(s) {
    && (m.Turn? ==> s.stacks[Next(s.active)] != [] || |s.stacks[s.active]| <= 1)
    && (m.Start? ==> s.stacks[s.active] != [] && !(In(s.stacks, 4) && In(s.stacks, 5) && In(s.stacks, 6)))
    && (m.End? ==> |s.stacks[s.active]| > 1)
    && (s.stacks[s.active] != [] ==> !Struck(s, Top(s.stacks[s.active]) - 1) && !Struck(s, Top(s.stacks[s.active]) + 1))
  }

  // The pid that the running process's next entry hits.
  predicate Struck(s: Shape, p: int) requires ShapeOk(s) && s.stacks[s.active] != [] {
    var q := Top(s.stacks[s.active]);
    && 0 <= p < PROCESSES && In(s.stacks, p)
    && ((s.newborn && p == q + 1 && !s.early[p]) || (!s.newborn && p == q - 1 && s.early[p]))
  }

  function Left(s: Shape): (r: seq<bool>)
    requires ShapeOk(s)
    ensures |r| == PROCESSES
  {
    if s.stacks[s.active] == [] then s.early else s.early[Top(s.stacks[s.active]) := s.newborn]
  }

  function FreeIn(stacks: seq<seq<nat>>): nat requires |stacks| == TERMINALS {
    if !In(stacks, 4) then 4 else if !In(stacks, 5) then 5 else 6
  }

  function Moved(s: Shape, m: Move): (r: Shape)
    requires ShapeOk(s) && Can(s, m)
    ensures ShapeOk(r)
  {
    var next, stack := Next(s.active), s.stacks[s.active];
    match m
    case Turn => Shape(next, if s.stacks[next] == [] then s.stacks[next := [next + 1]] else s.stacks, false, Left(s))
    case Start => Shape(s.active, s.stacks[s.active := stack + [FreeIn(s.stacks)]], true, Left(s))
    case End => Shape(s.active, s.stacks[s.active := stack[..|stack| - 1]], false, s.early)
  }

  // A state of the kernel, and the trace that led to it, have a shape.
  ghost predicate Has(k: K, tr: Trace, s: Shape) {
    && Placed(k, tr) && ShapeOk(s)
    && k.active == s.active && k.stacks == s.stacks && tr.newborn == s.newborn && tr.early == s.early
    && forall p :: 0 <= p < PROCESSES ==> !tr.inside[p]
  }

  lemma InIsLive(stacks: seq<seq<nat>>, p: nat)
    requires |stacks| == TERMINALS
    ensures In(stacks, p) <==> Live(stacks, p)
  {
  }

  lemma InsAreLives(stacks: seq<seq<nat>>)
    requires |stacks| == TERMINALS
    ensures Full(stacks) <==> In(stacks, 4) && In(stacks, 5) && In(stacks, 6)
    ensures !Full(stacks) ==> FreePid(stacks) == FreeIn(stacks)
  {
    InIsLive(stacks, 4);
    InIsLive(stacks, 5);
    InIsLive(stacks, 6);
    hide Live, In;
  }

  lemma StruckIsHit(k: K, tr: Trace, s: Shape, p: int)
    requires Has(k, tr, s) && Running(k)
    ensures Struck(s, p) <==> p >= 0 && Hits(k, tr, p)
  {
    if p >= 0 {
      PlacedHits(k, tr, p);
      InIsLive(k.stacks, p);
    }
  }

  lemma QuietShape(k: K, tr: Trace, s: Shape, m: Move)
    requires Has(k, tr, s) && Can(s, m) && Running(k)
    ensures !Damages(k, tr)
  {
    forall p: nat
      ensures !Hits(k, tr, p)
    {
      StruckIsHit(k, tr, s, p);
    }
  }

  lemma TurnKeepsShape(k: K, tr: Trace, s: Shape, c: Context)
    requires Has(k, tr, s) && Can(s, Turn)
    ensures CleanTick(k) && Has(Step(k, Tick(c)), Traced(k, Tick(c), tr), Moved(s, Turn))
  {
    hide Forest, Sized, Struck;
    StepPlaces(k, Tick(c), tr);
    hide Placed;
  }

  lemma StartKeepsShape(k: K, tr: Trace, s: Shape, image: seq<byte>, c: Context)
    requires Has(k, tr, s) && Can(s, Start) && |image| <= MAX_FILE_SIZE
    ensures var op := Execute(Program(image), c);
      Allowed(k, op) && Has(Step(k, op), Traced(k, op, tr), Moved(s, Start))
  {
    hide Disjoint, Struck, Loaded, Live, In;
    InsAreLives(k.stacks);
    var op := Execute(Program(image), c);
    assert Allowed(k, op) && Executes(k, op);
    StepPlaces(k, op, tr);
    hide Placed;
  }

  lemma EndKeepsShape(k: K, tr: Trace, s: Shape)
    requires Has(k, tr, s) && Can(s, End)
    ensures Allowed(k, Halt) && Has(Step(k, Halt), Traced(k, Halt, tr), Moved(s, End))
  {
    hide Disjoint, Struck;
    StepPlaces(k, Halt, tr);
    hide Placed;
  }

  lemma MoveKeepsShape(k: K, tr: Trace, s: Shape, m: Move, image: seq<byte>, c: Context)
    requires Has(k, tr, s) && Can(s, m) && |image| <= MAX_FILE_SIZE
    ensures var op := OpOf(m, image, c);
      && WF(k) && TraceOk(tr) && Allowed(k, op) && (op.Tick? ==> CleanTick(k))
      && Has(Step(k, op), Traced(k, op, tr), Moved(s, m))
  {
    assert WF(k) && TraceOk(tr);
    match m
    case Turn =>
      assert Allowed(k, Tick(c));
      hide Has, Can, Moved, Step, Traced, CleanTick, WF;
      TurnKeepsShape(k, tr, s, c);
    case Start =>
      hide Has, Can, Moved, Step, Traced, Allowed, WF;
      StartKeepsShape(k, tr, s, image, c);
    case End =>
      hide Has, Can, Moved, Step, Traced, Allowed, WF;
      EndKeepsShape(k, tr, s);
  }

  predicate CanAll(s: Shape, moves: seq<Move>)
    requires ShapeOk(s)
    decreases |moves|
  {
    moves == [] || (Can(s, moves[0]) && CanAll(Moved(s, moves[0]), moves[1..]))
  }

  function MovedAll(s: Shape, moves: seq<Move>): (r: Shape)
    requires ShapeOk(s) && CanAll(s, moves)
    ensures ShapeOk(r)
    decreases |moves|
  {
    if moves == [] then s else MovedAll(Moved(s, moves[0]), moves[1..])
  }

  // What can be worked out on shapes is a run of the kernel, with every tick clean and
  // every entry before the end harmless.
  lemma {:induction false} MovesAreRuns(k: K, tr: Trace, s: Shape, moves: seq<Move>, image: seq<byte>, c: Context)
    requires Has(k, tr, s) && CanAll(s, moves) && |image| <= MAX_FILE_SIZE
    ensures var ops := OpsOf(moves, image, c);
      && AllowedRun(k, ops) && CleanRun(k, ops) && QuietRun(k, ops, tr)
      && Has(Run(k, ops), TracedAll(k, ops, tr), MovedAll(s, moves))
    decreases |moves|
  {
    assert WF(k) && TraceOk(tr);
    hide Has, Can, Moved, Step, Traced, Allowed, WF, Damages, CleanTick, OpOf;
    if moves != [] {
      var op, ops := OpOf(moves[0], image, c), OpsOf(moves[1..], image, c);
      MoveKeepsShape(k, tr, s, moves[0], image, c);
      if Running(k) {
        QuietShape(k, tr, s, moves[0]);
      }
      MovesAreRuns(Step(k, op), Traced(k, op, tr), Moved(s, moves[0]), moves[1..], image, c);
      var all := [op] + ops;
      assert all[0] == op && all[1..] == ops;
    }
  }

  const NEVER: seq<bool> := [false, false, false, false, false, false, false]

  const AT_START := Shape(0, [[], [], []], false, NEVER)

  lemma StartHasShape(k: K)
    requires PoweredOn(k)
    ensures Has(k, START, AT_START)
  {
  }

  lemma MoveFirst(s: Shape, m: Move, next: Shape, rest: seq<Move>)
    requires ShapeOk(s) && ShapeOk(next) && Can(s, m) && Moved(s, m) == next && CanAll(next, rest)
    ensures CanAll(s, [m] + rest) && MovedAll(s, [m] + rest) == MovedAll(next, rest)
  {
    hide Can, Moved, ShapeOk;
    assert ([m] + rest)[0] == m && ([m] + rest)[1..] == rest;
  }

  const NEVER_BUT_4: seq<bool> := [false, false, false, false, true, false, false]
  const NEVER_BUT_5: seq<bool> := [false, false, false, false, false, true, false]
  const NEVER_BUT_4_5: seq<bool> := [false, false, false, false, true, true, false]

  const BOOTED := Shape(0, [[1], [2], [3]], false, NEVER)

  // Three ticks boot the three shells.
  lemma BootMoves(rest: seq<Move>)
    requires CanAll(BOOTED, rest)
    ensures var moves := [Turn] + ([Turn] + ([Turn] + rest));
      CanAll(AT_START, moves) && MovedAll(AT_START, moves) == MovedAll(BOOTED, rest)
  {
    var s1, s2 := Shape(1, [[], [2], []], false, NEVER), Shape(2, [[], [2], [3]], false, NEVER);
    assert Can(AT_START, Turn) && Moved(AT_START, Turn) == s1;
    assert Can(s1, Turn) && Moved(s1, Turn) == s2;
    assert Can(s2, Turn) && Moved(s2, Turn) == BOOTED;
    hide *;
    MoveFirst(s2, Turn, BOOTED, rest);
    MoveFirst(s1, Turn, s2, [Turn] + rest);
    MoveFirst(AT_START, Turn, s1, [Turn] + ([Turn] + rest));
  }

  // A child executes a child of its own before its first tick, and waits; when the
  // grandchild has had its tick, its next entry hits the child.
  const GRANDCHILD: seq<Move> :=
    [Turn] + ([Turn] + ([Turn] + ([Start] + ([Start] + ([Turn] + ([Turn] + ([Turn] + [])))))))

  const WITH_GRANDCHILD := Shape(0, [[1, 4, 5], [2], [3]], false, NEVER_BUT_4_5)

  lemma GrandchildMoves()
    ensures CanAll(AT_START, GRANDCHILD) && MovedAll(AT_START, GRANDCHILD) == WITH_GRANDCHILD
    ensures Struck(WITH_GRANDCHILD, 4)
  {
    var stacks := [[1, 4, 5], [2], [3]];
    var s1, s2 := Shape(0, [[1, 4], [2], [3]], true, NEVER), Shape(0, stacks, true, NEVER_BUT_4);
    assert Can(BOOTED, Start) && Moved(BOOTED, Start) == s1 by { assert [1] + [4] == [1, 4]; }
    assert Can(s1, Start) && Moved(s1, Start) == s2 by { assert [1, 4] + [5] == [1, 4, 5]; }
    GrandchildTurns();
    hide CanAll, Can, Moved, ShapeOk, MovedAll, Struck;
    MoveFirst(s1, Start, s2, [Turn] + ([Turn] + ([Turn] + [])));
    MoveFirst(BOOTED, Start, s1, [Start] + ([Turn] + ([Turn] + ([Turn] + []))));
    BootMoves([Start] + ([Start] + ([Turn] + ([Turn] + ([Turn] + [])))));
  }

  lemma GrandchildTurns()
    ensures var s, moves := Shape(0, [[1, 4, 5], [2], [3]], true, NEVER_BUT_4), [Turn] + ([Turn] + ([Turn] + []));
      ShapeOk(s) && CanAll(s, moves) && MovedAll(s, moves) == WITH_GRANDCHILD
    ensures Struck(WITH_GRANDCHILD, 4)
  {
    var stacks := [[1, 4, 5], [2], [3]];
    var s2, s3 := Shape(0, stacks, true, NEVER_BUT_4), Shape(1, stacks, false, NEVER_BUT_4_5);
    var s4 := Shape(2, stacks, false, NEVER_BUT_4_5);
    assert Can(s2, Turn) && Moved(s2, Turn) == s3;
    assert Can(s3, Turn) && Moved(s3, Turn) == s4;
    assert Can(s4, Turn) && Moved(s4, Turn) == WITH_GRANDCHILD;
    assert CanAll(WITH_GRANDCHILD, []) && MovedAll(WITH_GRANDCHILD, []) == WITH_GRANDCHILD;
    assert Struck(WITH_GRANDCHILD, 4);
    hide *;
    MoveFirst(s4, Turn, WITH_GRANDCHILD, []);
    MoveFirst(s3, Turn, s4, [Turn] + []);
    MoveFirst(s2, Turn, s3, [Turn] + ([Turn] + []));
  }

  lemma GrandchildHits(k: K, image: seq<byte>, c: Context)
    requires PoweredOn(k) && |image| <= MAX_FILE_SIZE
    ensures var ops := OpsOf(GRANDCHILD, image, c);
      && AllowedRun(k, ops) && CleanRun(k, ops) && QuietRun(k, ops, START)
      && Running(Run(k, ops)) && Pid(Run(k, ops)) == 5 && Hits(Run(k, ops), TracedAll(k, ops, START), 4)
  {
    StartHasShape(k);
    GrandchildMoves();
    ShapeHits(k, GRANDCHILD, WITH_GRANDCHILD, image, c, 4);
  }

  lemma ShapeHits(k: K, moves: seq<Move>, s: Shape, image: seq<byte>, c: Context, p: nat)
    requires Has(k, START, AT_START) && CanAll(AT_START, moves) && MovedAll(AT_START, moves) == s
    requires |image| <= MAX_FILE_SIZE && ShapeOk(s) && s.stacks[s.active] != [] && Struck(s, p)
    ensures var ops := OpsOf(moves, image, c);
      && WF(k) && AllowedRun(k, ops) && CleanRun(k, ops) && QuietRun(k, ops, START)
      && Running(Run(k, ops)) && Pid(Run(k, ops)) == Top(s.stacks[s.active])
      && Hits(Run(k, ops), TracedAll(k, ops, START), p)
  {
    assert WF(k) && TraceOk(START);
    hide CanAll, MovedAll, Struck, Hits, Placed, CleanRun, QuietRun, WF;
    MovesAreRuns(k, START, AT_START, moves, image, c);
    StruckIsHit(Run(k, OpsOf(moves, image, c)), TracedAll(k, OpsOf(moves, image, c), START), s, p);
  }

  // Two terminals have children, and both have had their ticks; the first child halts,
  // its shell executes another, and that one's first entry hits the second child.
  const SECOND_CHILD: seq<Move> :=
    [Turn] + ([Turn] + ([Turn] + ([Start] + ([Turn] + ([Start] + ([Turn] + (
    [Turn] + ([Turn] + ([Turn] + ([Turn] + ([End] + ([Start] + []))))))))))))

  const WITH_SECOND_CHILD := Shape(0, [[1, 4], [2, 5], [3]], true, NEVER)

  lemma SecondChildMoves()
    ensures CanAll(AT_START, SECOND_CHILD) && MovedAll(AT_START, SECOND_CHILD) == WITH_SECOND_CHILD
    ensures Struck(WITH_SECOND_CHILD, 5)
  {
    assert Struck(WITH_SECOND_CHILD, 5);
    hide CanAll, MovedAll, ShapeOk, Struck;
    SecondChildEnds();
    SecondChildTurns([Turn] + ([End] + ([Start] + [])));
    var rest := [Turn] + ([Turn] + ([Turn] + ([Turn] + ([End] + ([Start] + [])))));
    SecondStartMoves(rest);
    FirstStartMoves([Start] + ([Turn] + rest));
    BootMoves([Start] + ([Turn] + ([Start] + ([Turn] + rest))));
  }

  // The first terminal's shell executes and its turn is over.
  lemma FirstStartMoves(rest: seq<Move>)
    requires CanAll(Shape(1, [[1, 4], [2], [3]], false, NEVER_BUT_4), rest)
    ensures var s, moves := Shape(1, [[1, 4], [2], [3]], false, NEVER_BUT_4), [Start] + ([Turn] + rest);
      CanAll(BOOTED, moves) && MovedAll(BOOTED, moves) == MovedAll(s, rest)
  {
    var s1, s2 := Shape(0, [[1, 4], [2], [3]], true, NEVER), Shape(1, [[1, 4], [2], [3]], false, NEVER_BUT_4);
    assert Can(BOOTED, Start) && Moved(BOOTED, Start) == s1 by { assert [1] + [4] == [1, 4]; }
    assert Can(s1, Turn) && Moved(s1, Turn) == s2;
    hide *;
    MoveFirst(s1, Turn, s2, rest);
    MoveFirst(BOOTED, Start, s1, [Turn] + rest);
  }

  // And so does the second's.
  lemma SecondStartMoves(rest: seq<Move>)
    requires CanAll(Shape(2, [[1, 4], [2, 5], [3]], false, NEVER_BUT_4_5), rest)
    ensures var s, s' := Shape(1, [[1, 4], [2], [3]], false, NEVER_BUT_4), Shape(2, [[1, 4], [2, 5], [3]], false, NEVER_BUT_4_5);
      var moves := [Start] + ([Turn] + rest);
      ShapeOk(s) && CanAll(s, moves) && MovedAll(s, moves) == MovedAll(s', rest)
  {
    var s2, s3 := Shape(1, [[1, 4], [2], [3]], false, NEVER_BUT_4), Shape(1, [[1, 4], [2, 5], [3]], true, NEVER_BUT_4);
    var s4 := Shape(2, [[1, 4], [2, 5], [3]], false, NEVER_BUT_4_5);
    assert Can(s2, Start) && Moved(s2, Start) == s3 by { assert [2] + [5] == [2, 5]; }
    assert Can(s3, Turn) && Moved(s3, Turn) == s4;
    hide *;
    MoveFirst(s3, Turn, s4, rest);
    MoveFirst(s2, Start, s3, [Turn] + rest);
  }

  lemma SecondChildTurns(rest: seq<Move>)
    requires CanAll(Shape(2, [[1, 4], [2, 5], [3]], false, NEVER), rest)
    ensures var s, s' := Shape(2, [[1, 4], [2, 5], [3]], false, NEVER_BUT_4_5), Shape(2, [[1, 4], [2, 5], [3]], false, NEVER);
      var moves := [Turn] + ([Turn] + ([Turn] + rest));
      ShapeOk(s) && CanAll(s, moves) && MovedAll(s, moves) == MovedAll(s', rest)
  {
    var stacks := [[1, 4], [2, 5], [3]];
    var s4, s5 := Shape(2, stacks, false, NEVER_BUT_4_5), Shape(0, stacks, false, NEVER_BUT_4_5);
    var s6, s7 := Shape(1, stacks, false, NEVER_BUT_5), Shape(2, stacks, false, NEVER);
    assert Can(s4, Turn) && Moved(s4, Turn) == s5;
    assert Can(s5, Turn) && Moved(s5, Turn) == s6;
    assert Can(s6, Turn) && Moved(s6, Turn) == s7;
    hide *;
    MoveFirst(s6, Turn, s7, rest);
    MoveFirst(s5, Turn, s6, [Turn] + rest);
    MoveFirst(s4, Turn, s5, [Turn] + ([Turn] + rest));
  }

  lemma SecondChildEnd()
    ensures var s, r := Shape(0, [[1, 4], [2, 5], [3]], false, NEVER), Shape(0, [[1], [2, 5], [3]], false, NEVER);
      ShapeOk(s) && ShapeOk(r) && Can(s, End) && Moved(s, End) == r
  {
    assert [1, 4][..1] == [1];
  }

  lemma SecondChildStart()
    ensures var s := Shape(0, [[1], [2, 5], [3]], false, NEVER);
      ShapeOk(s) && ShapeOk(WITH_SECOND_CHILD) && Can(s, Start) && Moved(s, Start) == WITH_SECOND_CHILD
  {
    assert [1] + [4] == [1, 4];
  }

  lemma SecondChildEnds()
    ensures var s, moves := Shape(2, [[1, 4], [2, 5], [3]], false, NEVER), [Turn] + ([End] + ([Start] + []));
      ShapeOk(s) && CanAll(s, moves) && MovedAll(s, moves) == WITH_SECOND_CHILD
  {
    var stacks := [[1, 4], [2, 5], [3]];
    var s7, s8 := Shape(2, stacks, false, NEVER), Shape(0, stacks, false, NEVER);
    var s9 := Shape(0, [[1], [2, 5], [3]], false, NEVER);
    assert Can(s7, Turn) && Moved(s7, Turn) == s8;
    assert CanAll(WITH_SECOND_CHILD, []) && MovedAll(WITH_SECOND_CHILD, []) == WITH_SECOND_CHILD;
    hide *;
    SecondChildEnd();
    SecondChildStart();
    MoveFirst(s9, Start, WITH_SECOND_CHILD, []);
    MoveFirst(s8, End, s9, [Start] + []);
    MoveFirst(s7, Turn, s8, [End] + ([Start] + []));
  }

  lemma SecondChildHits(k: K, image: seq<byte>, c: Context)
    requires PoweredOn(k) && |image| <= MAX_FILE_SIZE
    ensures var ops := OpsOf(SECOND_CHILD, image, c);
      && AllowedRun(k, ops) && CleanRun(k, ops) && QuietRun(k, ops, START)
      && Running(Run(k, ops)) && Pid(Run(k, ops)) == 4 && Hits(Run(k, ops), TracedAll(k, ops, START), 5)
  {
    StartHasShape(k);
    SecondChildMoves();
    ShapeHits(k, SECOND_CHILD, WITH_SECOND_CHILD, image, c, 5);
  }
}
