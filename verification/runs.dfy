// What holds over whole runs of the kernel model: every sequence of timer ticks,
// system calls, key presses and user-mode stores.
module KernelRuns {
  import opened Console
  import opened Keyboard
  import opened Terminals
  import opened KernelModel

  ghost predicate AllowedRun(k: K, ops: seq<Op>)
    requires WF(k)
    decreases |ops|
  {
    ops == [] || (Allowed(k, ops[0]) && AllowedRun(Step(k, ops[0]), ops[1..]))
  }

  ghost function Run(k: K, ops: seq<Op>): (r: K)
    requires WF(k) && AllowedRun(k, ops)
    ensures WF(r) && (Running(k) ==> Running(r))
    decreases |ops|
  {
    if ops == [] then k else Run(Step(k, ops[0]), ops[1..])
  }

  ghost predicate NothingBooted(k: K) requires WF(k) {
    forall t :: 0 <= t < TERMINALS ==> k.stacks[t] == []
  }

  // What the boot code leaves: nothing runs, the first terminal is on display, no key is
  // held and no line has been begun.
  ghost predicate PoweredOn(k: K) {
    && WF(k) && NothingBooted(k) && k.active == 0 && k.current == 0
    && k.mods == Mods(false, false, false, false)
    && forall t :: 0 <= t < TERMINALS ==> k.ttys[t].size == 0 && !k.ttys[t].enabled && k.ttys[t].overflow == 0
  }

  lemma NothingFollows(k: K)
    requires WF(k)
    ensures AllowedRun(k, []) && Run(k, []) == k
  {
  }

  lemma RunFirst(k: K, op: Op, ops: seq<Op>)
    requires WF(k) && Allowed(k, op) && AllowedRun(Step(k, op), ops)
    ensures AllowedRun(k, [op] + ops) && Run(k, [op] + ops) == Run(Step(k, op), ops)
  {
    hide Step, Allowed, WF;
    assert ([op] + ops)[0] == op && ([op] + ops)[1..] == ops;
  }

  // ----- Round robin -----

  function Ticks(ops: seq<Op>): nat {
    if ops == [] then 0 else (if ops[0].Tick? then 1 else 0) + Ticks(ops[1..])
  }

  // How many ticks of a run give terminal t the processor.
  ghost function Turns(k: K, ops: seq<Op>, t: nat): nat
    requires WF(k) && AllowedRun(k, ops)
    decreases |ops|
  {
    if ops == [] then 0
    else
      var next := Step(k, ops[0]);
      (if ops[0].Tick? && next.active == t then 1 else 0) + Turns(next, ops[1..], t)
  }

  lemma StepActive(k: K, op: Op)
    requires WF(k) && Allowed(k, op)
    ensures Step(k, op).active == if op.Tick? then Next(k.active) else k.active
  {
    hide Forest, Sized, Puts, AfterScan, Loaded;
  }

  lemma StepRoots(k: K, op: Op, t: nat)
    requires WF(k) && Allowed(k, op) && t < TERMINALS && k.stacks[t] != []
    ensures Step(k, op).stacks[t] != [] && Step(k, op).stacks[t][0] == k.stacks[t][0]
  {
    hide Disjoint, Puts, AfterScan, Loaded;
  }

  // Executes, halts and everything else between ticks do not disturb the rotation.
  lemma {:induction false} RoundRobin(k: K, ops: seq<Op>)
    requires WF(k) && AllowedRun(k, ops)
    ensures Run(k, ops).active == (k.active + Ticks(ops)) % TERMINALS
    decreases |ops|
  {
    hide Step, Allowed, Forest;
    if ops != [] {
      StepActive(k, ops[0]);
      RoundRobin(Step(k, ops[0]), ops[1..]);
    }
  }

  // Of n ticks, the terminal d places ahead takes (n + 3 - d) / 3.
  function Share(active: nat, ticks: nat, t: nat): nat
    requires active < TERMINALS && t < TERMINALS
  {
    (ticks + (active + TERMINALS - t) % TERMINALS) / TERMINALS
  }

  lemma OneMoreTurn(active: nat, ticks: nat, t: nat)
    requires active < TERMINALS && t < TERMINALS
    ensures Share(active, ticks + 1, t) == (if Next(active) == t then 1 else 0) + Share(Next(active), ticks, t)
  {
    if Next(active) == t {
      assert (active + TERMINALS - t) % TERMINALS == 2 && (Next(active) + TERMINALS - t) % TERMINALS == 0;
    } else {
      assert (Next(active) + TERMINALS - t) % TERMINALS == (active + TERMINALS - t) % TERMINALS + 1;
    }
  }

  lemma {:induction false} FairShare(k: K, ops: seq<Op>, t: nat)
    requires WF(k) && AllowedRun(k, ops) && t < TERMINALS
    ensures Turns(k, ops, t) == Share(k.active, Ticks(ops), t)
    decreases |ops|
  {
    hide Step, Allowed, Forest;
    if ops != [] {
      StepActive(k, ops[0]);
      FairShare(Step(k, ops[0]), ops[1..], t);
      OneMoreTurn(k.active, Ticks(ops[1..]), t);
      hide Share;
    }
  }

  lemma ThreeTicksServeAll(k: K, ops: seq<Op>, t: nat)
    requires WF(k) && AllowedRun(k, ops) && t < TERMINALS && Ticks(ops) == 3
    ensures Turns(k, ops, t) == 1 && Run(k, ops).active == k.active
  {
    hide Step, Allowed, Forest;
    RoundRobin(k, ops);
    FairShare(k, ops, t);
  }

  // A terminal that has booted has its root shell at the bottom of its stack for ever.
  lemma {:induction false} BootedForEver(k: K, ops: seq<Op>, t: nat)
    requires WF(k) && AllowedRun(k, ops) && t < TERMINALS && k.stacks[t] != []
    ensures Run(k, ops).stacks[t] != [] && Run(k, ops).stacks[t][0] == t + 1
    decreases |ops|
  {
    if ops == [] {
      assert StackOk(k.stacks[t], t);
    } else {
      StepRoots(k, ops[0], t);
      BootedForEver(Step(k, ops[0]), ops[1..], t);
    }
  }

  // Terminal t boots no later than its first turn.
  lemma {:induction false} BootsByItsTurn(k: K, ops: seq<Op>, t: nat)
    requires WF(k) && AllowedRun(k, ops) && t < TERMINALS && Turns(k, ops, t) > 0
    ensures Run(k, ops).stacks[t] != [] && Run(k, ops).stacks[t][0] == t + 1
    decreases |ops|
  {
    var next := Step(k, ops[0]);
    if ops[0].Tick? && next.active == t {
      BootedForEver(next, ops[1..], t);
    } else {
      BootsByItsTurn(next, ops[1..], t);
    }
  }

  lemma ThreeTicksBootAll(k: K, ops: seq<Op>, t: nat)
    requires WF(k) && AllowedRun(k, ops) && t < TERMINALS && Ticks(ops) >= 3
    ensures Run(k, ops).stacks[t] != [] && Run(k, ops).stacks[t][0] == t + 1
  {
    FairShare(k, ops, t);
    BootsByItsTurn(k, ops, t);
  }
}
