// Saved contexts: the PCB slot of a process holds its context both when a tick
// preempts it and when it waits for a child it executed.
module SavedContexts {
  import opened Words
  import opened Console
  import opened Terminals
  import opened Paging
  import opened KernelModel
  import opened KernelRuns

  // The reference: each terminal has a stack of suspended contexts, and no slots.
  // A tick writes the top of the running terminal's stack, execute writes the top
  // and pushes, halt pops.
  ghost function Owes(k: K, op: Op, owed: seq<seq<Context>>): (r: seq<seq<Context>>)
    requires WF(k) && Allowed(k, op) && SameShape(k.stacks, owed)
    ensures SameShape(Step(k, op).stacks, r)
  {
    StepStacks(k, op);
    assert !op.Tick? && !op.Scan? ==> k.stacks[k.active] != [];
    hide Step, Allowed, WF, Full;
    match op
    case Tick(now) => TickOwes(k.stacks, k.active, owed, now)
    case Execute(Program(_), now) => if Full(k.stacks) then owed else PushOwes(k.stacks, k.active, owed, now, FreePid(k.stacks))
    case Halt => HaltOwes(k.stacks, k.active, owed)
    case _ => owed
  }

  function TickOwes(stacks: seq<seq<nat>>, active: nat, owed: seq<seq<Context>>, now: Context): (r: seq<seq<Context>>)
    requires |stacks| == TERMINALS && active < TERMINALS && SameShape(stacks, owed)
    ensures SameShape(if stacks[Next(active)] == [] then stacks[Next(active) := [Next(active) + 1]] else stacks, r)
  {
    var next := Next(active);
    var saved := if owed[active] == [] then owed else owed[active := WithLast(owed[active], now)];
    if stacks[next] == [] then saved[next := [FRESH]] else saved
  }

  function PushOwes(stacks: seq<seq<nat>>, active: nat, owed: seq<seq<Context>>, now: Context, child: nat): (r: seq<seq<Context>>)
    requires |stacks| == TERMINALS && active < TERMINALS && SameShape(stacks, owed) && stacks[active] != []
    ensures SameShape(stacks[active := stacks[active] + [child]], r)
  {
    owed[active := WithLast(owed[active], now) + [FRESH]]
  }

  function HaltOwes(stacks: seq<seq<nat>>, active: nat, owed: seq<seq<Context>>): (r: seq<seq<Context>>)
    requires |stacks| == TERMINALS && active < TERMINALS && SameShape(stacks, owed) && stacks[active] != []
    ensures SameShape(if |stacks[active]| == 1 then stacks else stacks[active := stacks[active][..|stacks[active]| - 1]], r)
  {
    if |owed[active]| == 1 then owed else owed[active := owed[active][..|owed[active]| - 1]]
  }

  lemma StepStacks(k: K, op: Op)
    requires WF(k) && Allowed(k, op)
    ensures k.active < TERMINALS == |k.stacks|
    ensures var s, next := k.stacks[k.active], Next(k.active);
      Step(k, op).stacks ==
        match op
        case Tick(_) => if k.stacks[next] == [] then k.stacks[next := [next + 1]] else k.stacks
        case Execute(Program(_), _) => if Full(k.stacks) then k.stacks else k.stacks[k.active := s + [FreePid(k.stacks)]]
        case Halt => if |s| == 1 then k.stacks else k.stacks[k.active := s[..|s| - 1]]
        case _ => k.stacks
  {
    hide Disjoint, Live, Puts, AfterScan, StoredAll, Loaded, Text, ReadBytes, ReachesAll;
  }

  predicate SameShape(stacks: seq<seq<nat>>, owed: seq<seq<Context>>) {
    |owed| == |stacks| && forall t :: 0 <= t < |stacks| ==> |owed[t]| == |stacks[t]|
  }

  function WithLast(s: seq<Context>, c: Context): (r: seq<Context>)
    requires s != []
    ensures |r| == |s|
  {
    s[|s| - 1 := c]
  }

  // Every suspended process, wherever it stands on its stack, has in its PCB slot
  // the context it is owed. Only the running process's slot is out of date.
  ghost predicate Keeps(k: K, owed: seq<seq<Context>>) requires WF(k) {
    && SameShape(k.stacks, owed)
    && forall t, i :: 0 <= t < TERMINALS && 0 <= i < |k.stacks[t]| && !(t == k.active && i == |k.stacks[t]| - 1) ==>
        k.stacks[t][i] < PROCESSES && k.slots[k.stacks[t][i]] == owed[t][i]
  }

  // A tick that boots a terminal saves under the root shell's pid, which is right
  // when that shell is what it interrupted.
  ghost predicate CleanTick(k: K) requires WF(k) {
    k.stacks[Next(k.active)] != [] || |k.stacks[k.active]| <= 1
  }

  lemma PidsSmall(stacks: seq<seq<nat>>, t: nat, i: nat)
    requires Forest(stacks) && t < TERMINALS && i < |stacks[t]|
    ensures 1 <= stacks[t][i] < PROCESSES
    ensures i == 0 ==> stacks[t][i] == t + 1
  {
    assert StackOk(stacks[t], t);
  }

  lemma TickKeepsContexts(k: K, now: Context, owed: seq<seq<Context>>)
    requires WF(k) && Keeps(k, owed) && CleanTick(k)
    ensures Keeps(Ticked(k, now), Owes(k, Tick(now), owed))
  {
    hide Disjoint;
    var r, owed' := Ticked(k, now), Owes(k, Tick(now), owed);
    var top := |k.stacks[k.active]| - 1;
    forall t, i | 0 <= t < TERMINALS && 0 <= i < |r.stacks[t]| && !(t == r.active && i == |r.stacks[t]| - 1)
      ensures r.stacks[t][i] < PROCESSES && r.slots[r.stacks[t][i]] == owed'[t][i]
    {
      PidsSmall(k.stacks, t, i);
      if k.stacks[k.active] != [] {
        PidsSmall(k.stacks, k.active, 0);
        assert SavePid(k) == k.stacks[k.active][top];
        if !(t == k.active && i == top) {
          Apart(k.stacks, t, i, k.active, top);
          assert k.slots[k.stacks[t][i]] == owed[t][i];
        }
      }
    }
  }

  lemma Apart(stacks: seq<seq<nat>>, t: nat, i: nat, u: nat, j: nat)
    requires Forest(stacks) && t < TERMINALS && i < |stacks[t]| && u < TERMINALS && j < |stacks[u]|
    requires t != u || i != j
    ensures stacks[t][i] != stacks[u][j]
  {
  }

  lemma ExecuteKeepsContexts(k: K, image: seq<byte>, now: Context, owed: seq<seq<Context>>)
    requires WF(k) && Allowed(k, Execute(Program(image), now)) && Keeps(k, owed) && !Full(k.stacks)
    ensures Keeps(Executed(k, Program(image), now), Owes(k, Execute(Program(image), now), owed))
  {
    hide Disjoint, Loaded;
    var r, owed' := Executed(k, Program(image), now), Owes(k, Execute(Program(image), now), owed);
    var child, top := FreePid(k.stacks), |k.stacks[k.active]| - 1;
    forall t, i | 0 <= t < TERMINALS && 0 <= i < |r.stacks[t]| && !(t == r.active && i == |r.stacks[t]| - 1)
      ensures r.stacks[t][i] < PROCESSES && r.slots[r.stacks[t][i]] == owed'[t][i]
    {
      PidsSmall(k.stacks, t, i);
      assert k.stacks[t][i] in k.stacks[t];
      assert k.stacks[t][i] != child;
      if !(t == k.active && i == top) {
        Apart(k.stacks, t, i, k.active, top);
        assert k.slots[k.stacks[t][i]] == owed[t][i];
      }
    }
  }

  lemma HaltKeepsContexts(k: K, owed: seq<seq<Context>>)
    requires WF(k) && Allowed(k, Halt) && Keeps(k, owed)
    ensures Keeps(Halted(k), Owes(k, Halt, owed))
  {
    hide Disjoint;
    var r, owed' := Halted(k), Owes(k, Halt, owed);
    forall t, i | 0 <= t < TERMINALS && 0 <= i < |r.stacks[t]| && !(t == r.active && i == |r.stacks[t]| - 1)
      ensures r.stacks[t][i] < PROCESSES && r.slots[r.stacks[t][i]] == owed'[t][i]
    {
      assert k.slots[k.stacks[t][i]] == owed[t][i];
    }
  }

  // A full descriptor table spoils the saved ebp of the process that is running,
  // which nothing reads before it is saved again.
  lemma SpoiledSlotIsDead(k: K, owed: seq<seq<Context>>)
    requires WF(k) && Allowed(k, OpenWhenFull) && Keeps(k, owed)
    ensures Keeps(Step(k, OpenWhenFull), owed)
  {
    hide Disjoint;
    var r := Step(k, OpenWhenFull);
    forall t, i | 0 <= t < TERMINALS && 0 <= i < |r.stacks[t]| && !(t == r.active && i == |r.stacks[t]| - 1)
      ensures r.stacks[t][i] < PROCESSES && r.slots[r.stacks[t][i]] == owed[t][i]
    {
      assert k.slots[k.stacks[t][i]] == owed[t][i];
      Apart(k.stacks, t, i, k.active, |k.stacks[k.active]| - 1);
    }
  }

  lemma StepKeepsContexts(k: K, op: Op, owed: seq<seq<Context>>)
    requires WF(k) && Allowed(k, op) && Keeps(k, owed) && (op.Tick? ==> CleanTick(k))
    ensures Keeps(Step(k, op), Owes(k, op, owed))
  {
    match op
    case Tick(now) => TickKeepsContexts(k, now, owed);
    case Execute(command, now) =>
      if command.Program? && !Full(k.stacks) {
        ExecuteKeepsContexts(k, command.image, now, owed);
      }
    case Halt => HaltKeepsContexts(k, owed);
    case OpenWhenFull => SpoiledSlotIsDead(k, owed);
    case _ => OthersKeepSlots(k, op);
  }

  lemma OthersKeepSlots(k: K, op: Op)
    requires WF(k) && Allowed(k, op)
    requires !op.Tick? && !op.Execute? && !op.Halt? && !op.OpenWhenFull?
    ensures Step(k, op).stacks == k.stacks && Step(k, op).slots == k.slots && Step(k, op).active == k.active
  {
    hide Forest, Sized, Terminals.AfterScan;
  }

  // ----- Runs -----

  ghost predicate CleanRun(k: K, ops: seq<Op>)
    requires WF(k) && AllowedRun(k, ops)
    decreases |ops|
  {
    ops == [] || ((ops[0].Tick? ==> CleanTick(k)) && CleanRun(Step(k, ops[0]), ops[1..]))
  }

  ghost function OwesAfter(k: K, ops: seq<Op>, owed: seq<seq<Context>>): (r: seq<seq<Context>>)
    requires WF(k) && AllowedRun(k, ops) && SameShape(k.stacks, owed)
    ensures SameShape(Run(k, ops).stacks, r)
    decreases |ops|
  {
    if ops == [] then owed else OwesAfter(Step(k, ops[0]), ops[1..], Owes(k, ops[0], owed))
  }

  lemma {:induction false} ContextsNeverMix(k: K, ops: seq<Op>, owed: seq<seq<Context>>)
    requires WF(k) && AllowedRun(k, ops) && Keeps(k, owed) && CleanRun(k, ops)
    ensures Keeps(Run(k, ops), OwesAfter(k, ops, owed))
    decreases |ops|
  {
    hide Step, Owes, Allowed;
    if ops != [] {
      StepKeepsContexts(k, ops[0], owed);
      ContextsNeverMix(Step(k, ops[0]), ops[1..], Owes(k, ops[0], owed));
    }
  }

  const NOTHING_OWED: seq<seq<Context>> := [[], [], []]

  // The same from power-on, when nothing is owed.
  lemma ContextsFromPowerOn(k: K, ops: seq<Op>)
    requires WF(k) && NothingBooted(k) && AllowedRun(k, ops) && CleanRun(k, ops)
    ensures Keeps(Run(k, ops), OwesAfter(k, ops, NOTHING_OWED))
  {
    ContextsNeverMix(k, ops, NOTHING_OWED);
  }

  // What the two context switches load is what the stack discipline says: schedule
  // the top of the next terminal's stack, halt the entry below the one it pops.
  lemma LoadsAreOwed(k: K, owed: seq<seq<Context>>)
    requires WF(k) && Running(k) && Keeps(k, owed)
    ensures var t := Next(k.active);
      k.stacks[t] != [] ==> k.slots[Top(k.stacks[t])] == owed[t][|owed[t]| - 1]
    ensures var s := k.stacks[k.active];
      |s| > 1 ==> k.slots[s[|s| - 2]] == owed[k.active][|s| - 2]
  {
  }

  lemma {:induction false} BootedRunsAreClean(k: K, ops: seq<Op>)
    requires WF(k) && AllowedRun(k, ops) && forall t :: 0 <= t < TERMINALS ==> k.stacks[t] != []
    ensures CleanRun(k, ops)
    decreases |ops|
  {
    if ops != [] {
      forall t | 0 <= t < TERMINALS
        ensures Step(k, ops[0]).stacks[t] != []
      {
        StepRoots(k, ops[0], t);
      }
      BootedRunsAreClean(Step(k, ops[0]), ops[1..]);
    }
  }

  // A tick that boots the next terminal keeps contexts apart exactly when the
  // terminal it interrupts runs its root shell.
  lemma BootTickKeepsExactlyWhenClean(k: K, owed: seq<seq<Context>>)
    requires WF(k) && Running(k) && Keeps(k, owed) && k.stacks[Next(k.active)] == []
    ensures (forall now :: Keeps(Ticked(k, now), Owes(k, Tick(now), owed))) <==> |k.stacks[k.active]| == 1
  {
    if |k.stacks[k.active]| == 1 {
      forall now
        ensures Keeps(Ticked(k, now), Owes(k, Tick(now), owed))
      {
        TickKeepsContexts(k, now, owed);
      }
    } else {
      var stack := k.stacks[k.active];
      var top := |stack| - 1;
      PidsSmall(k.stacks, k.active, 0);
      PidsSmall(k.stacks, k.active, top);
      var now := Context(k.slots[stack[top]].esp + 1, 0);
      var r, owed' := Ticked(k, now), Owes(k, Tick(now), owed);
      assert SavePid(k) == stack[0] != stack[top];
      assert r.stacks[k.active][top] == stack[top] && owed'[k.active][top] == now;
      assert r.slots[r.stacks[k.active][top]] != owed'[k.active][top];
      assert !Keeps(r, owed');
    }
  }

  // ----- A run from power-on on which contexts do mix -----

  // One shell boots and executes a program before the next terminal's first tick. The
  // program's context then goes to the shell's slot, over the one halt would need.
  function EarlyExecute(image: seq<byte>, first: Context, inShell: Context, inChild: Context): seq<Op> {
    [Tick(first)] + ([Execute(Program(image), inShell)] + ([Tick(inChild)] + []))
  }

  lemma OwedFirst(k: K, op: Op, ops: seq<Op>, owed: seq<seq<Context>>)
    requires WF(k) && Allowed(k, op) && AllowedRun(Step(k, op), ops) && AllowedRun(k, [op] + ops) && SameShape(k.stacks, owed)
    ensures OwesAfter(k, [op] + ops, owed) == OwesAfter(Step(k, op), ops, Owes(k, op, owed))
  {
    hide Step, Allowed, WF, Owes, SameShape;
    assert ([op] + ops)[0] == op && ([op] + ops)[1..] == ops;
  }

  lemma ThreeSteps(k: K, a: Op, b: Op, c: Op, owed: seq<seq<Context>>)
    requires WF(k) && Allowed(k, a) && Allowed(Step(k, a), b) && Allowed(Step(Step(k, a), b), c)
    requires SameShape(k.stacks, owed)
    ensures var k1, owed1 := Step(k, a), Owes(k, a, owed);
      var k2, owed2 := Step(k1, b), Owes(k1, b, owed1);
      var ops := [a] + ([b] + ([c] + []));
      && AllowedRun(k, ops)
      && Run(k, ops) == Step(k2, c) && OwesAfter(k, ops, owed) == Owes(k2, c, owed2)
  {
    hide *;
    var k1, owed1 := Step(k, a), Owes(k, a, owed);
    var k2, owed2 := Step(k1, b), Owes(k1, b, owed1);
    NoMoreSteps(Step(k2, c), Owes(k2, c, owed2));
    RunFirst(k2, c, []);
    RunFirst(k1, b, [c] + []);
    RunFirst(k, a, [b] + ([c] + []));
    OwedFirst(k, a, [b] + ([c] + []), owed);
    OwedFirst(k1, b, [c] + [], owed1);
    OwedFirst(k2, c, [], owed2);
  }

  lemma NoMoreSteps(k: K, owed: seq<seq<Context>>)
    requires WF(k) && SameShape(k.stacks, owed)
    ensures AllowedRun(k, []) && Run(k, []) == k && OwesAfter(k, [], owed) == owed
  {
  }

  lemma FirstTick(k: K, now: Context)
    requires WF(k) && NothingBooted(k)
    ensures SameShape(k.stacks, NOTHING_OWED) && Allowed(k, Tick(now))
    ensures var n, r := Next(k.active), Step(k, Tick(now));
      r.active == n && r.stacks[n] == [n + 1] && r.stacks[Next(n)] == [] && !Full(r.stacks)
  {
    var n, r := Next(k.active), Ticked(k, now);
    assert forall t :: 0 <= t < TERMINALS ==> 4 !in r.stacks[t];
  }

  lemma ExecuteThenBootTick(k: K, image: seq<byte>, inShell: Context, inChild: Context, owed: seq<seq<Context>>)
    requires WF(k) && SameShape(k.stacks, owed) && |image| <= MAX_FILE_SIZE && inShell != inChild
    requires k.stacks[k.active] == [k.active + 1] && k.stacks[Next(k.active)] == [] && !Full(k.stacks)
    ensures var b, c := Execute(Program(image), inShell), Tick(inChild);
      && Allowed(k, b) && Allowed(Step(k, b), c)
      && !Keeps(Step(Step(k, b), c), Owes(Step(k, b), c, Owes(k, b, owed)))
  {
    hide Disjoint, Loaded;
    var n := k.active;
    var r, owed' := Executed(k, Program(image), inShell), Owes(k, Execute(Program(image), inShell), owed);
    assert r.stacks[n] == [n + 1, FreePid(k.stacks)] && r.stacks[Next(n)] == [] && owed'[n] == [inShell, FRESH];
    var s, owed'' := Ticked(r, inChild), Owes(r, Tick(inChild), owed');
    assert s.active != n && s.stacks[n][0] == n + 1;
    assert s.slots[s.stacks[n][0]] == inChild && owed''[n][0] == inShell;
  }

  lemma EarlyOps(image: seq<byte>, first: Context, inShell: Context, inChild: Context)
    ensures EarlyExecute(image, first, inShell, inChild)
      == [Tick(first)] + ([Execute(Program(image), inShell)] + ([Tick(inChild)] + []))
  {
  }

  lemma EarlyExecuteMixesContexts(k: K, image: seq<byte>, first: Context, inShell: Context, inChild: Context)
    requires WF(k) && NothingBooted(k) && |image| <= MAX_FILE_SIZE && inShell != inChild
    ensures AllowedRun(k, EarlyExecute(image, first, inShell, inChild))
    ensures var ops := EarlyExecute(image, first, inShell, inChild);
      !Keeps(Run(k, ops), OwesAfter(k, ops, NOTHING_OWED))
  {
    hide *;
    var a, b, c := Tick(first), Execute(Program(image), inShell), Tick(inChild);
    EarlyOps(image, first, inShell, inChild);
    FirstTick(k, first);
    ExecuteThenBootTick(Step(k, a), image, inShell, inChild, Owes(k, a, NOTHING_OWED));
    ThreeSteps(k, a, b, c, NOTHING_OWED);
  }
}
