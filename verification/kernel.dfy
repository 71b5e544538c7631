// The process side of student-distrib/syscall.c: the pid pool, the process control
// blocks, the scheduler and the page directory entry of the running program.
module Syscalls {
  import opened Words
  import opened Console
  import opened LineDiscipline
  import opened Keyboard
  import opened Paging
  import opened Terminals
  import opened KernelModel
  import opened KernelRuns

  const MAX_NUM_PROCESSES := 6

  // The fields of a pcb_t that outlive one system call.
  datatype Pcb = Pcb(parent: nat, terminal: nat, context: Context, vidmap: bool)

  // Where a step leaves the processor: starting a program, or back in a saved context.
  datatype Resume = Restart | Resume(context: Context)

  ghost predicate Occupied(stacks: seq<seq<nat>>, pid: nat) {
    pid < FIRST_CHILD || Live(stacks, pid)
  }

  // Each process names its terminal, and the process below it on the stack as its parent.
  ghost predicate Linked(stack: seq<nat>, t: nat, pcbs: seq<Pcb>) {
    forall i :: 0 <= i < |stack| ==>
      stack[i] < |pcbs| && pcbs[stack[i]].terminal == t && (i > 0 ==> pcbs[stack[i]].parent == stack[i - 1])
  }

  // The pool: which slots are taken, and how many.
  ghost predicate PoolIn(stacks: seq<seq<nat>>, pool: seq<int>, count: int) {
    && |pool| == PROCESSES
    && (forall p :: 0 <= p < PROCESSES ==> pool[p] == if Occupied(stacks, p) then 1 else 0)
    && count == 3 + pool[4] + pool[5] + pool[6]
  }

  // The PCBs and the terminals' current pids spell out the stacks.
  ghost predicate ChainsIn(stacks: seq<seq<nat>>, current: seq<nat>, pcbs: seq<Pcb>) {
    && Forest(stacks) && |current| == TERMINALS && |pcbs| == PROCESSES
    && (forall t :: 0 <= t < TERMINALS ==> Linked(stacks[t], t, pcbs))
    && (forall p :: 1 <= p <= TERMINALS ==> pcbs[p].terminal == p - 1)
    && (forall t :: 0 <= t < TERMINALS ==> current[t] == if stacks[t] == [] then 0 else Top(stacks[t]))
  }

  lemma CurrentIsTop(stacks: seq<seq<nat>>, current: seq<nat>, pcbs: seq<Pcb>, t: nat)
    requires ChainsIn(stacks, current, pcbs) && t < TERMINALS
    ensures |stacks| == |current| == TERMINALS && |pcbs| == PROCESSES && Forest(stacks)
    ensures current[t] < PROCESSES && (current[t] == 0 <==> stacks[t] == [])
    ensures stacks[t] != [] ==> current[t] == Top(stacks[t])
  {
    assert StackOk(stacks[t], t);
  }

  lemma SaveKeeps(stacks: seq<seq<nat>>, current: seq<nat>, pcbs: seq<Pcb>, p: nat, now: Context)
    requires ChainsIn(stacks, current, pcbs) && p < PROCESSES
    ensures var saved := pcbs[p := pcbs[p].(context := now)];
      && ChainsIn(stacks, current, saved)
      && Slots(saved) == Slots(pcbs)[p := now]
      && Flags(saved) == Flags(pcbs)
  {
    hide Disjoint;
  }

  lemma FlagKeeps(stacks: seq<seq<nat>>, current: seq<nat>, pcbs: seq<Pcb>, p: nat)
    requires ChainsIn(stacks, current, pcbs) && p < PROCESSES
    ensures var flagged := pcbs[p := pcbs[p].(vidmap := true)];
      && ChainsIn(stacks, current, flagged)
      && Slots(flagged) == Slots(pcbs)
      && Flags(flagged) == Flags(pcbs)[p := true]
      && FlagsOk(Flags(flagged), true)
  {
    hide Disjoint;
  }

  lemma BootKeeps(stacks: seq<seq<nat>>, current: seq<nat>, pcbs: seq<Pcb>, pool: seq<int>, count: int, t: nat)
    requires ChainsIn(stacks, current, pcbs) && PoolIn(stacks, pool, count) && t < TERMINALS && stacks[t] == []
    ensures ChainsIn(stacks[t := [t + 1]], current[t := t + 1], pcbs)
    ensures PoolIn(stacks[t := [t + 1]], pool, count)
  {
    hide Disjoint;
    BootKeepsForest(stacks, t);
    var more := stacks[t := [t + 1]];
    forall p | 0 <= p < PROCESSES
      ensures Occupied(more, p) == Occupied(stacks, p)
    {
      if p >= FIRST_CHILD && Live(stacks, p) {
        var u :| 0 <= u < TERMINALS && p in stacks[u];
        assert p in more[u];
      }
    }
  }

  lemma RootIsAlone(stacks: seq<seq<nat>>, t: nat)
    requires Forest(stacks) && t < TERMINALS && stacks[t] != []
    ensures Top(stacks[t]) < FIRST_CHILD <==> |stacks[t]| == 1
    ensures |stacks[t]| == 1 ==> Top(stacks[t]) == t + 1
  {
    assert StackOk(stacks[t], t);
  }

  lemma PopKeepsChains(stacks: seq<seq<nat>>, current: seq<nat>, pcbs: seq<Pcb>, t: nat)
    requires ChainsIn(stacks, current, pcbs) && t < TERMINALS && |stacks[t]| > 1
    ensures var rest, pid := stacks[t][..|stacks[t]| - 1], Top(stacks[t]);
      && FIRST_CHILD <= pid <= LAST_CHILD
      && 1 <= Top(rest) == pcbs[pid].parent < PROCESSES && pcbs[Top(rest)].terminal == t
      && ChainsIn(stacks[t := rest], current[t := Top(rest)], pcbs)
  {
    hide Disjoint;
    PopKeepsForest(stacks, t);
    assert StackOk(stacks[t], t) && Linked(stacks[t], t, pcbs);
    var rest := stacks[t][..|stacks[t]| - 1];
    assert Linked(rest, t, pcbs);
  }

  lemma PopKeepsPool(stacks: seq<seq<nat>>, pool: seq<int>, count: int, t: nat)
    requires Forest(stacks) && PoolIn(stacks, pool, count) && t < TERMINALS && |stacks[t]| > 1
    ensures PoolIn(stacks[t := stacks[t][..|stacks[t]| - 1]], pool[Top(stacks[t]) := 0], count - 1)
  {
    RootIsAlone(stacks, t);
    PopFrees(stacks, t);
    assert Top(stacks[t]) in stacks[t];
    assert Live(stacks, Top(stacks[t])) && StackOk(stacks[t], t);
    hide Disjoint, Live;
    var less, pool' := stacks[t := stacks[t][..|stacks[t]| - 1]], pool[Top(stacks[t]) := 0];
    forall p | 0 <= p < PROCESSES
      ensures pool'[p] == if Occupied(less, p) then 1 else 0
    {
      assert pool[p] == if Occupied(stacks, p) then 1 else 0;
    }
  }

  // The process that halts is nobody's parent: releasing it leaves no orphan.
  lemma TopIsNoParent(stacks: seq<seq<nat>>, current: seq<nat>, pcbs: seq<Pcb>, t: nat, u: nat, i: nat)
    requires ChainsIn(stacks, current, pcbs) && t < TERMINALS && stacks[t] != []
    requires u < TERMINALS && 0 < i < |stacks[u]|
    ensures stacks[u][i] < |pcbs| && pcbs[stacks[u][i]].parent != Top(stacks[t])
  {
    assert Linked(stacks[u], u, pcbs);
    assert stacks[u][i - 1] != stacks[t][|stacks[t]| - 1];
  }

  lemma PopFrees(stacks: seq<seq<nat>>, t: nat)
    requires Forest(stacks) && t < TERMINALS && |stacks[t]| > 1
    ensures forall p :: Live(stacks[t := stacks[t][..|stacks[t]| - 1]], p) <==> Live(stacks, p) && p != Top(stacks[t])
  {
    hide Disjoint;
    var less := stacks[t := stacks[t][..|stacks[t]| - 1]];
    PopKeepsForest(stacks, t);
    forall p
      ensures Live(less, p) <==> Live(stacks, p) && p != Top(stacks[t])
    {
      if Live(stacks, p) && p != Top(stacks[t]) {
        var u :| 0 <= u < TERMINALS && p in stacks[u];
        assert p in less[u];
      }
      if Live(less, p) {
        var u :| 0 <= u < TERMINALS && p in less[u];
        assert p in stacks[u];
      }
    }
  }

  lemma PushKeepsChains(stacks: seq<seq<nat>>, current: seq<nat>, pcbs: seq<Pcb>, t: nat, child: nat)
    requires ChainsIn(stacks, current, pcbs) && t < TERMINALS && stacks[t] != []
    requires FIRST_CHILD <= child <= LAST_CHILD && !Live(stacks, child)
    ensures ChainsIn(stacks[t := stacks[t] + [child]], current[t := child],
                     pcbs[child := Pcb(Top(stacks[t]), t, FRESH, false)])
  {
    hide Disjoint;
    PushKeepsForest(stacks, t, child);
    var pcbs' := pcbs[child := Pcb(Top(stacks[t]), t, FRESH, false)];
    forall u | 0 <= u < TERMINALS
      ensures Linked(stacks[u], u, pcbs')
    {
      assert Linked(stacks[u], u, pcbs) && child !in stacks[u];
    }
    assert Linked(stacks[t] + [child], t, pcbs');
  }

  lemma PushKeepsPool(stacks: seq<seq<nat>>, pool: seq<int>, count: int, t: nat, child: nat)
    requires Forest(stacks) && PoolIn(stacks, pool, count) && t < TERMINALS
    requires FIRST_CHILD <= child <= LAST_CHILD && !Live(stacks, child)
    ensures PoolIn(stacks[t := stacks[t] + [child]], pool[child := 1], count + 1)
  {
    var more, pool' := stacks[t := stacks[t] + [child]], pool[child := 1];
    forall p | 0 <= p < PROCESSES
      ensures pool'[p] == if Occupied(more, p) then 1 else 0
    {
      assert pool[p] == if Occupied(stacks, p) then 1 else 0;
      if Live(stacks, p) {
        var u :| 0 <= u < TERMINALS && p in stacks[u];
        assert p in more[u];
      }
      assert child in more[t];
    }
  }

  // The pool's counter is the number of taken slots less one, so the capacity check
  // alone decides whether a pid is free, and the first free slot is the least free pid.
  lemma PoolAccounts(stacks: seq<seq<nat>>, pool: seq<int>, count: int)
    requires PoolIn(stacks, pool, count)
    ensures count + 1 == pool[0] + pool[1] + pool[2] + pool[3] + pool[4] + pool[5] + pool[6]
    ensures 3 <= count <= MAX_NUM_PROCESSES
    ensures count == MAX_NUM_PROCESSES <==> Full(stacks)
    ensures !Full(stacks) ==> pool[FreePid(stacks)] == 0
    ensures !Full(stacks) ==> forall p :: 0 <= p < FreePid(stacks) ==> pool[p] != 0
  {
    hide Live;
  }

  function Slots(pcbs: seq<Pcb>): (r: seq<Context>)
    ensures |r| == |pcbs|
  {
    seq(|pcbs|, p requires 0 <= p < |pcbs| => pcbs[p].context)
  }

  // The PCBs as execute leaves them: the child's made, then the parent's context saved.
  lemma SpawnSlots(pcbs: seq<Pcb>, child: nat, parent: nat, made: Pcb, now: Context)
    requires child < |pcbs| && parent < |pcbs| && child != parent
    ensures var born := pcbs[child := made];
      var done := born[parent := born[parent].(context := now)];
      && Slots(done) == Slots(pcbs)[child := made.context][parent := now]
      && Flags(done) == Flags(pcbs)[child := made.vidmap]
      && Flags(born) == Flags(done)
      && (forall on :: FlagsOk(Flags(pcbs), on) && !made.vidmap ==> FlagsOk(Flags(done), on))
  {
  }

  lemma SlotAt(pcbs: seq<Pcb>, p: nat)
    requires p < |pcbs|
    ensures Slots(pcbs)[p] == pcbs[p].context
  {
  }

  function Flags(pcbs: seq<Pcb>): (r: seq<bool>)
    ensures |r| == |pcbs|
  {
    seq(|pcbs|, p requires 0 <= p < |pcbs| => pcbs[p].vidmap)
  }

  // Only a process that asked for the vidmap page has it, and then it is set up.
  ghost predicate FlagsOk(flags: seq<bool>, setUp: bool) {
    forall p :: 0 <= p < |flags| && flags[p] ==> setUp
  }

  function Frames(mem: seq<byte>): (r: seq<seq<byte>>)
    requires |mem| >= MEMORY
    ensures |r| == PROCESSES && forall p :: 0 <= p < PROCESSES ==> |r[p]| == LARGE
  {
    seq(PROCESSES, p requires 0 <= p < PROCESSES => UserIn(mem, p))
  }

  // Writing to the video pages leaves every process's frame alone.
  lemma BeyondHoldsFrames(mem: seq<byte>, mem': seq<byte>)
    requires |mem| == |mem'| >= MEMORY && Beyond(mem) == Beyond(mem')
    ensures Frames(mem') == Frames(mem)
  {
    var cut, skipped := SCREEN_FRAME * PAGE, 4 * PAGE;
    forall a | cut + skipped <= a < |mem|
      ensures mem'[a] == mem[a]
    {
      assert Beyond(mem)[a - skipped] == mem[a] && Beyond(mem')[a - skipped] == mem'[a];
    }
    forall p | 0 <= p < PROCESSES
      ensures UserIn(mem', p) == UserIn(mem, p)
    {
      assert UserFrame(p) >= cut + skipped;
    }
  }

  // Loading a program changes its own frame and nothing that a screen shows.
  lemma LoadChanges(mem: seq<byte>, mem': seq<byte>, pid: nat, image: seq<byte>)
    requires |mem| == |mem'| >= MEMORY && pid < PROCESSES && |image| <= MAX_FILE_SIZE
    requires var lo := UserFrame(pid) + PROGRAM_OFFSET;
      && (forall a :: lo <= a < lo + |image| ==> mem'[a] == image[a - lo])
      && (forall a :: 0 <= a < |mem| && !(lo <= a < lo + |image|) ==> mem'[a] == mem[a])
    ensures Frames(mem') == Frames(mem)[pid := Loaded(Frames(mem)[pid], image)]
    ensures forall f :: SCREEN_FRAME <= f <= SCREEN_FRAME + 3 ==> PageIn(mem', f) == PageIn(mem, f)
  {
    forall p | 0 <= p < PROCESSES && p != pid
      ensures UserIn(mem', p) == UserIn(mem, p)
    {
      assert p < pid ==> UserFrame(p) + LARGE <= UserFrame(pid);
      assert pid < p ==> UserFrame(pid) + LARGE <= UserFrame(p);
    }
    assert UserIn(mem', pid) == Loaded(UserIn(mem, pid), image);
  }

  lemma PagesMakeTtys(mem: seq<byte>, mem': seq<byte>, terms: seq<Record>, current: nat)
    requires |mem| == |mem'| >= MEMORY && |terms| == TERMINALS && current < TERMINALS
    requires forall t :: 0 <= t < TERMINALS ==> RecordOk(terms[t])
    requires forall f :: SCREEN_FRAME <= f <= SCREEN_FRAME + 3 ==> PageIn(mem', f) == PageIn(mem, f)
    ensures TtysIn(mem', terms, current) == TtysIn(mem, terms, current)
  {
    forall t | 0 <= t < TERMINALS
      ensures PageIn(mem', FrameIn(current, t)) == PageIn(mem, FrameIn(current, t))
    {
    }
  }

  lemma UserStoreChanges(mem: seq<byte>, pid: nat, off: nat, b: byte)
    requires |mem| >= MEMORY && pid < PROCESSES && off < LARGE
    ensures var mem' := mem[UserFrame(pid) + off := b];
      && Frames(mem') == Frames(mem)[pid := Poked(Frames(mem)[pid], off, b)]
      && forall f :: SCREEN_FRAME <= f <= SCREEN_FRAME + 3 ==> PageIn(mem', f) == PageIn(mem, f)
  {
    var mem' := mem[UserFrame(pid) + off := b];
    forall p | 0 <= p < PROCESSES && p != pid
      ensures UserIn(mem', p) == UserIn(mem, p)
    {
      assert p < pid ==> UserFrame(p) + LARGE <= UserFrame(pid);
      assert pid < p ==> UserFrame(pid) + LARGE <= UserFrame(p);
    }
    assert UserIn(mem', pid) == Poked(UserIn(mem, pid), off, b);
  }

  // A store to a video page changes the screen that page shows, if it shows one.
  lemma VidStoreChanges(mem: seq<byte>, terms: seq<Record>, current: nat, frame: nat, off: nat, b: byte)
    requires |mem| >= MEMORY && |terms| == TERMINALS && current < TERMINALS
    requires forall t :: 0 <= t < TERMINALS ==> RecordOk(terms[t])
    requires SCREEN_FRAME <= frame <= SCREEN_FRAME + 3 && off < PAGE
    ensures var mem', ttys := mem[frame * PAGE + off := b], TtysIn(mem, terms, current);
      var t := if frame == SCREEN_FRAME then current else frame - SCREEN_FRAME - 1;
      && Frames(mem') == Frames(mem)
      && TtysIn(mem', terms, current) ==
         if frame != SCREEN_FRAME && t == current then ttys else ttys[t := WithByte(ttys[t], off, b)]
  {
    var mem' := mem[frame * PAGE + off := b];
    BeyondKept(mem, mem', frame);
    BeyondHoldsFrames(mem, mem');
    assert PageIn(mem', frame) == PageIn(mem, frame)[off := b];
    forall t | 0 <= t < TERMINALS && FrameIn(current, t) != frame
      ensures PageIn(mem', FrameIn(current, t)) == PageIn(mem, FrameIn(current, t))
    {
      PageKept(mem, mem', FrameIn(current, t), frame);
    }
  }

  // A read is over and its buffer is one the running program can write.
  ghost predicate ReadOk(k: K, keys: seq<byte>, size: nat, va: nat, n: nat) {
    && WF(k) && Allowed(k, Op.FinishRead(va, n))
    && keys == k.ttys[k.active].keys && size == k.ttys[k.active].size
  }

  // What such a read leaves behind, before it empties the buffer.
  ghost function ReadStored(k: K, va: nat, n: nat): (r: K)
    requires WF(k) && Running(k) && 0 < n
    ensures WF(r)
  {
    var tty := k.ttys[k.active];
    StoredAll(k, ReadStart(tty, va), ReadBytes(tty, n))
  }

  lemma ReadIsReady(k: K, keys: seq<byte>, size: nat, va: nat, n: nat)
    requires ReadOk(k, keys, size, va, n)
    ensures WF(k) && Running(k) && 0 < n && size <= |keys| && StoredAll(k, va, []) == k
  {
    NoStores(k, va);
  }

  // Every byte a read stores is within reach, up to its end or the first line break.
  lemma ReadReaches(k: K, keys: seq<byte>, size: nat, va: nat, n: nat, i: int)
    requires ReadOk(k, keys, size, va, n)
    requires (size == 0 ==> i == -1) && (size > 0 ==> 0 <= i < size <= |keys| && i < n && NEWLINE !in keys[..i])
    ensures 0 <= va + i && Reaches(k, va + i)
    ensures forall data :: Reaches(StoredAll(k, va, data), va + i)
  {
    if size > 0 {
      DeliveredHolds(keys, size, n, i);
    }
    assert Reaches(k, va + i);
    hide Stored;
  }

  lemma DeliveredHolds(keys: seq<byte>, size: nat, n: nat, i: nat)
    requires 0 < size <= |keys| && i < size && i < n && NEWLINE !in keys[..i]
    ensures i < |Delivered(keys, size, n)|
  {
    assert forall j :: 0 <= j < i ==> keys[..i][j] != NEWLINE;
  }

  lemma StoreTwice(k: K, va: int, a: byte, b: byte)
    requires WF(k) && Running(k)
    ensures Stored(Stored(k, va, a), va, b) == Stored(k, va, b)
  {
    if USER_START <= va < USER_START + LARGE {
      PokeTwice(k.user[Pid(k)], va - USER_START, a, b);
    } else if VIDMAP_START <= va < VIDMAP_START + PAGE && k.vid.present {
      VidStoreTwice(k, va - VIDMAP_START, a, b);
    }
  }

  lemma PokeTwice(frame: seq<byte>, off: nat, a: byte, b: byte)
    requires off < |frame|
    ensures Poked(Poked(frame, off, a), off, b) == Poked(frame, off, b)
  {
  }

  lemma VidStoreTwice(k: K, off: nat, a: byte, b: byte)
    requires WF(k) && k.vid.present && off < PAGE
    ensures VidStored(VidStored(k, off, a), off, b) == VidStored(k, off, b)
  {
    hide Forest;
    var t := if k.vid.frame == SCREEN_FRAME then k.current else k.vid.frame - SCREEN_FRAME - 1;
    PokeTwice(k.ttys[t].screen.page, off, a, b);
  }

  // The keys a read copies when there is no line break in its way.
  function ReadCopy(tty: Tty, n: nat): seq<byte>
    requires TtyOk(tty)
  {
    tty.keys[..if n > tty.size then tty.size else n]
  }

  lemma EmptyRead(tty: Tty, va: nat, n: nat)
    requires TtyOk(tty) && 0 < n && tty.size == 0
    ensures ReadCopy(tty, n) == [] && ReadStart(tty, va) == va - 1 && ReadBytes(tty, n) == [] + [NEWLINE]
  {
  }

  lemma CutRead(tty: Tty, va: nat, n: nat) returns (init: seq<byte>, last: byte)
    requires TtyOk(tty) && 0 < n && tty.size > 0 && NEWLINE !in ReadCopy(tty, n)
    ensures ReadCopy(tty, n) == init + [last]
    ensures ReadStart(tty, va) == va && ReadBytes(tty, n) == init + [NEWLINE]
  {
    hide Delivered;
    var copy := ReadCopy(tty, n);
    init, last := copy[..|copy| - 1], copy[|copy| - 1];
    DeliveredCut(tty.keys, tty.size, n);
  }

  // Storing a line break over the last byte of the copy leaves the delivered line.
  lemma LastByteAgain(k: K, va: nat, tty: Tty, n: nat)
    requires WF(k) && Running(k) && TtyOk(tty) && 0 < n && NEWLINE !in ReadCopy(tty, n)
    ensures StoredAll(k, ReadStart(tty, va), ReadBytes(tty, n))
      == Stored(StoredAll(k, va, ReadCopy(tty, n)), va + |ReadCopy(tty, n)| - 1, NEWLINE)
    ensures tty.size > 0 ==> |ReadBytes(tty, n)| == |ReadCopy(tty, n)|
  {
    hide *;
    if tty.size == 0 {
      EmptyRead(tty, va, n);
      NoStores(k, va - 1);
      NoStores(k, va);
      StoreOneMore(k, va - 1, [], NEWLINE);
    } else {
      var init, last := CutRead(tty, va, n);
      StoreLastAgain(k, va, init, last, NEWLINE);
    }
  }

  lemma StoreLastAgain(k: K, va: int, init: seq<byte>, a: byte, b: byte)
    requires WF(k) && Running(k)
    ensures StoredAll(k, va, init + [b]) == Stored(StoredAll(k, va, init + [a]), va + |init|, b)
  {
    hide Stored, StoredAll, Forest, Sized;
    StoreOneMore(k, va, init, a);
    StoreOneMore(k, va, init, b);
    StoreTwice(StoredAll(k, va, init), va + |init|, a, b);
  }

  lemma ReadBroken(k: K, keys: seq<byte>, size: nat, va: nat, n: nat, i: nat)
    requires ReadOk(k, keys, size, va, n) && Running(k) && 0 < n
    requires i < n && i < size <= |keys| && keys[i] == NEWLINE && NEWLINE !in keys[..i]
    ensures ReadStored(k, va, n) == StoredAll(k, va, keys[..i + 1]) && ReadCount(keys, size, n) == i + 1
  {
    DeliveredBreak(keys, size, n, i);
  }

  lemma ReadCut(k: K, keys: seq<byte>, size: nat, va: nat, n: nat)
    requires ReadOk(k, keys, size, va, n) && Running(k) && 0 < n
    requires var limit := if n > size then size else n;
      limit <= |keys| && NEWLINE !in keys[..limit]
    ensures var limit := if n > size then size else n;
      && ReadStored(k, va, n) == Stored(StoredAll(k, va, keys[..limit]), va + limit - 1, NEWLINE)
      && ReadCount(keys, size, n) == limit
  {
    hide *;
    var tty := ReadFrom(k, keys, size, va, n);
    LastByteAgain(k, va, tty, n);
  }

  // The terminal a read takes its line from, and what that makes of the definitions.
  lemma ReadFrom(k: K, keys: seq<byte>, size: nat, va: nat, n: nat) returns (tty: Tty)
    requires ReadOk(k, keys, size, va, n) && Running(k) && 0 < n
    ensures WF(k) && TtyOk(tty) && tty.size == size && size <= |keys|
    ensures ReadCopy(tty, n) == keys[..if n > size then size else n]
    ensures ReadStored(k, va, n) == StoredAll(k, ReadStart(tty, va), ReadBytes(tty, n))
    ensures ReadCount(keys, size, n) == if size == 0 then 0 else |ReadBytes(tty, n)|
  {
    hide StoredAll, Delivered, ReachesAll;
    tty := k.ttys[k.active];
  }

  lemma NoStores(k: K, va: int)
    requires WF(k) && Running(k)
    ensures StoredAll(k, va, []) == k
  {
  }

  lemma StoreOneMore(k: K, va: int, data: seq<byte>, b: byte)
    requires WF(k) && Running(k)
    ensures StoredAll(k, va, data + [b]) == Stored(StoredAll(k, va, data), va + |data|, b)
  {
    assert (data + [b])[..|data|] == data;
  }

  // A program is where execute and the boot code put it.
  ghost predicate Holds(frame: seq<byte>, image: seq<byte>) {
    |frame| == LARGE && |image| <= MAX_FILE_SIZE && frame[PROGRAM_OFFSET..PROGRAM_OFFSET + |image|] == image
  }

  lemma HeldByte(mem: seq<byte>, pid: nat, image: seq<byte>, i: nat)
    requires |mem| >= MEMORY && pid < PROCESSES && i < |image| && Holds(Frames(mem)[pid], image)
    ensures UserFrame(pid) + PROGRAM_OFFSET + i < |mem| && mem[UserFrame(pid) + PROGRAM_OFFSET + i] == image[i]
  {
    var frame := Frames(mem)[pid];
    assert frame[PROGRAM_OFFSET..PROGRAM_OFFSET + |image|][i] == frame[PROGRAM_OFFSET + i];
  }

  function Blank(terminal: nat): Pcb {
    Pcb(0, terminal, FRESH, false)
  }

  lemma EmptyIsForest(stacks: seq<seq<nat>>)
    requires |stacks| == TERMINALS && forall t :: 0 <= t < TERMINALS ==> stacks[t] == []
    ensures Forest(stacks) && forall p :: !Live(stacks, p)
  {
  }

  class Kernel {
    const video: Video
    const processes: array<int>
    const pcbs: array<Pcb>
    var processCount: int
    var activePid: nat
    var currentPid: seq<nat>          // current_process_id of the three terminals
    var esp0: int                     // of the task state segment
    ghost var stacks: seq<seq<nat>>   // the parent chains, root shell first

    ghost predicate Separate() reads this, video {
      && processes.Length == PROCESSES && pcbs.Length == PROCESSES
      && |currentPid| == TERMINALS && |stacks| == TERMINALS
      && (processes as object) != video.m.mem
    }

    ghost predicate Valid()
      reads this, processes, pcbs, video, video.m.pageDir, video.m.pageTab, video.m.vidmapTab
    {
      && Separate() && video.Valid()
      && PoolIn(stacks, processes[..], processCount) && ChainsIn(stacks, currentPid, pcbs[..])
      && activePid == currentPid[video.active]
      && (activePid == 0 ==> forall t :: 0 <= t < TERMINALS ==> stacks[t] == [])
      && (activePid != 0 ==> video.m.pageDir[USER_PDE] == UserEntry(activePid))
      && FlagsOk(Flags(pcbs[..]), video.m.pageDir[VIDMAP_PDE].present)
    }

    ghost function Model(): (k: K)
      requires Valid()
      reads this, processes, pcbs, video, video.m.mem, video.m.pageDir, video.m.pageTab, video.m.vidmapTab
      ensures WF(k)
      ensures Running(k) <==> activePid != 0
      ensures Running(k) ==> Pid(k) == activePid
    {
      var vid := video.m.vidmapTab[0];
      K(video.Ttys(), video.mods, video.active, video.current, stacks,
        Slots(pcbs[..]), Flags(pcbs[..]), Frames(video.m.mem[..]), VidMap(vid.present, vid.address), esp0)
    }

    // The globals of syscall.c as the kernel starts
    ghost predicate Initial() requires Separate() reads this, video, processes, pcbs {
      && processes[..] == [1, 1, 1, 1, 0, 0, 0]
      && pcbs[..] == [Blank(0), Blank(0), Blank(1), Blank(2), Blank(0), Blank(0), Blank(0)]
      && processCount == 3 && activePid == 0
      && |currentPid| == |stacks| == TERMINALS
      && forall t :: 0 <= t < TERMINALS ==> currentPid[t] == 0 && stacks[t] == []
    }

    constructor (v: Video)
      ensures video == v && Separate() && Initial()
      ensures fresh(processes) && fresh(pcbs)
    {
      video := v;
      processes := new int[PROCESSES][1, 1, 1, 1, 0, 0, 0];
      pcbs := new Pcb[PROCESSES][Blank(0), Blank(0), Blank(1), Blank(2), Blank(0), Blank(0), Blank(0)];
      processCount, activePid, currentPid, esp0 := 3, 0, [0, 0, 0], KERNEL_STACK_BASE;
      stacks := [[], [], []];
    }

    lemma InitialIsValid()
      requires Separate() && video.Valid() && Initial()
      ensures Valid()
    {
      EmptyIsForest(stacks);
    }

    // create_terminal_1_shell, _2 and _3, when the file system has the shell
    method CreateShell(t: nat, shell: seq<byte>)
      requires Separate() && video.Valid() && Initial() && t < TERMINALS && |shell| <= MAX_FILE_SIZE
      modifies this`currentPid, pcbs, video.m.mem, video.m.pageDir
      ensures Separate() && video.Valid() && Initial()
      ensures video.Ttys() == old(video.Ttys())
      ensures video.m.pageDir[VIDMAP_PDE] == old(video.m.pageDir[VIDMAP_PDE])
      ensures Holds(Frames(video.m.mem[..])[t + 1], shell)
      ensures forall p :: 0 <= p < PROCESSES && p != t + 1 ==> Frames(video.m.mem[..])[p] == old(Frames(video.m.mem[..]))[p]
    {
      video.m.MapUser(t + 1);
      LoadProgram(shell, t + 1);
      pcbs[t + 1] := Pcb(0, t, FRESH, false);
      currentPid := currentPid[t := 0];
    }

    method CreateShells(shell: seq<byte>)
      requires Separate() && video.Valid() && Initial() && |shell| <= MAX_FILE_SIZE
      modifies this`currentPid, pcbs, video.m.mem, video.m.pageDir
      ensures Separate() && video.Valid() && Initial()
      ensures video.Ttys() == old(video.Ttys())
      ensures video.m.pageDir[VIDMAP_PDE] == old(video.m.pageDir[VIDMAP_PDE])
      ensures forall p :: 1 <= p <= TERMINALS ==> Holds(Frames(video.m.mem[..])[p], shell)
    {
      hide TtysIn, Frames, Kernel.Initial, Video.Valid, Holds;
      CreateShell(0, shell);
      CreateShell(1, shell);
      CreateShell(2, shell);
    }

    // get_process_available
    method TakePid() returns (pid: int)
      requires processes.Length == PROCESSES
      modifies processes
      ensures pid == -1 ==> (forall p :: 0 <= p < PROCESSES ==> old(processes[p]) != 0) && processes[..] == old(processes[..])
      ensures pid != -1 ==>
        && 0 <= pid < PROCESSES && old(processes[pid]) == 0
        && (forall p :: 0 <= p < pid ==> old(processes[p]) != 0)
        && processes[..] == old(processes[..])[pid := 1]
    {
      for i := 0 to PROCESSES
        invariant forall p :: 0 <= p < i ==> processes[p] != 0
        invariant processes[..] == old(processes[..])
      {
        if processes[i] == 0 {
          processes[i] := 1;
          return i;
        }
      }
      return -1;
    }

    // release_process
    method ReleasePid(pid: int) returns (status: int)
      requires processes.Length == PROCESSES
      modifies processes
      ensures pid < 0 || pid > 6 ==> status == -1 && processes[..] == old(processes[..])
      ensures 0 <= pid <= 6 ==> status == 0 && processes[..] == old(processes[..])[pid := 0]
    {
      if pid < 0 || pid > 6 {
        return -1;
      }
      processes[pid] := 0;
      return 0;
    }

    method SaveContext(pid: nat, now: Context)
      requires pcbs.Length == PROCESSES && pid < PROCESSES
      modifies pcbs
      ensures pcbs[..] == old(pcbs[..])[pid := old(pcbs[pid]).(context := now)]
    {
      pcbs[pid] := pcbs[pid].(context := now);
    }

    // paging_execute of one process, then paging_video_memory, which looks at `pid`
    method MapFor(page: nat, pid: nat)
      requires Separate() && video.Shaped() && video.m.Tables() && page < PROCESSES && pid < PROCESSES
      requires FlagsOk(Flags(pcbs[..]), video.m.pageDir[VIDMAP_PDE].present)
      modifies video.m.pageDir, video.m.pageTab, video.m.vidmapTab
      ensures video.Mapped() && video.m.pageDir[USER_PDE] == UserEntry(page)
      ensures video.m.pageDir[VIDMAP_PDE] == old(video.m.pageDir[VIDMAP_PDE])
      ensures video.m.vidmapTab[0].present == Flags(pcbs[..])[pid]
      ensures video.m.vidmapTab[0].address == video.Frame(video.active)
    {
      assert pcbs[pid].vidmap == Flags(pcbs[..])[pid];
      video.m.MapUser(page);
      video.Remap(pcbs[pid].vidmap);
    }

    // boot_enter_terminal_1, _2 and _3
    method BootEnter(t: nat)
      requires Separate() && video.Shaped() && video.m.Tables() && t < TERMINALS && |currentPid| == TERMINALS
      requires FlagsOk(Flags(pcbs[..]), video.m.pageDir[VIDMAP_PDE].present)
      modifies this`activePid, this`currentPid, this`esp0, video`active, video.m.pageDir, video.m.pageTab, video.m.vidmapTab
      ensures video.active == t && activePid == t + 1 && currentPid == old(currentPid)[t := t + 1]
      ensures esp0 == StackTop(activePid)
      ensures video.Mapped() && video.m.pageDir[USER_PDE] == UserEntry(activePid)
      ensures video.m.pageDir[VIDMAP_PDE] == old(video.m.pageDir[VIDMAP_PDE])
      ensures video.m.vidmapTab[0].present == Flags(pcbs[..])[activePid]
      ensures video.m.vidmapTab[0].address == video.Frame(video.active)
    {
      video.active := t;
      activePid := t + 1;
      currentPid := currentPid[t := t + 1];
      MapFor(activePid, activePid);
      esp0 := KERNEL_STACK_BASE - (activePid - 1) * KERNEL_STACK_SIZE - 0x04;
    }

    // The first half of schedule: choose the next terminal and save the context.
    method Leave(now: Context)
      requires Valid()
      modifies this`activePid, video`active, pcbs
      ensures video.active == Next(old(video.active)) && activePid == currentPid[video.active]
      ensures ChainsIn(stacks, currentPid, pcbs[..])
      ensures var p := if activePid != 0 then old(activePid) else old(video.active) + 1;
        p < PROCESSES && Slots(pcbs[..]) == old(Slots(pcbs[..]))[p := now]
      ensures Flags(pcbs[..]) == old(Flags(pcbs[..]))
    {
      hide ChainsIn, PoolIn, Machine.Tables;
      CurrentIsTop(stacks, currentPid, pcbs[..], video.active);
      CurrentIsTop(stacks, currentPid, pcbs[..], Next(video.active));
      var original := activePid;
      if video.active == 0 {
        video.active := 1;
      } else if video.active == 1 {
        video.active := 2;
      } else {
        video.active := 0;
      }
      activePid := currentPid[video.active];
      if activePid != 0 {
        SaveContext(original, now);
      } else if video.active == 0 {
        SaveContext(3, now);
      } else if video.active == 1 {
        SaveContext(1, now);
      } else {
        SaveContext(2, now);
      }
      SaveKeeps(stacks, currentPid, old(pcbs[..]), if activePid != 0 then original else old(video.active) + 1, now);
    }

    // schedule: the timer interrupt, with the interrupted process's context
    method Schedule(now: Context) returns (resume: Resume)
      requires Valid()
      modifies this`activePid, this`currentPid, this`esp0, this`stacks, video`active, pcbs
      modifies video.m.pageDir, video.m.pageTab, video.m.vidmapTab
      ensures Valid() && Model() == Ticked(old(Model()), now)
      ensures resume == if old(stacks)[video.active] == [] then Restart else Resume(old(Model()).slots[activePid])
    {
      hide ChainsIn, PoolIn, FlagsOk, Forest, Machine.Tables, Machine.Shaped, TtysIn, Frames, Slots, Flags, Sized;
      CurrentIsTop(stacks, currentPid, pcbs[..], video.active);
      CurrentIsTop(stacks, currentPid, pcbs[..], Next(video.active));
      Leave(now);
      if activePid == 0 {
        BootEnter(video.active);
        BootKeeps(stacks, old(currentPid), pcbs[..], processes[..], processCount, video.active);
        stacks := stacks[video.active := [activePid]];
        return Restart;
      }
      esp0 := KERNEL_STACK_BASE - (activePid - 1) * KERNEL_STACK_SIZE - 0x04;
      MapFor(activePid, activePid);
      resume := Resume(pcbs[activePid].context);
      TopsDiffer(stacks, old(video.active), video.active);
      SlotAt(pcbs[..], activePid);
    }

    // syscall_halt of a root shell: the shell starts again.
    method RestartRoot(t: nat)
      requires Valid() && activePid == t + 1 <= TERMINALS
      modifies this`activePid, this`currentPid, this`esp0, video`active, video`terms, video`cursor
      modifies video.m.mem, video.m.pageDir, video.m.pageTab, video.m.vidmapTab
      ensures Valid() && |stacks[video.active]| == 1 && Model() == Halted(old(Model()))
    {
      hide ChainsIn, PoolIn, FlagsOk, Forest, Machine.Tables, TtysIn, Frames, Slots, Flags, Puts, Text, RootMessage;
      CurrentIsTop(stacks, currentPid, pcbs[..], video.active);
      RootIsAlone(stacks, video.active);
      video.Write(Text(RootMessage(t)));
      BeyondHoldsFrames(old(video.m.mem[..]), video.m.mem[..]);
      BootEnter(t);
      assert currentPid == old(currentPid);
    }

    // syscall_halt of any other process: its parent goes on.
    method HaltChild() returns (resume: Resume)
      requires Valid() && activePid >= FIRST_CHILD
      modifies this`activePid, this`currentPid, this`esp0, this`processCount, this`stacks, processes, video`active
      modifies video.m.pageDir, video.m.pageTab, video.m.vidmapTab
      ensures Valid() && |old(stacks)[video.active]| > 1 && Model() == Halted(old(Model()))
      ensures resume == Resume(old(Model()).slots[activePid])
    {
      hide ChainsIn, PoolIn, FlagsOk, Forest, Machine.Tables, Machine.Shaped, TtysIn, Frames, Slots, Flags, Sized;
      CurrentIsTop(stacks, currentPid, pcbs[..], video.active);
      RootIsAlone(stacks, video.active);
      PopKeepsChains(stacks, currentPid, pcbs[..], video.active);
      PopKeepsPool(stacks, processes[..], processCount, video.active);
      ghost var t := video.active;
      processCount := processCount - 1;
      var status := ReleasePid(activePid);
      activePid := pcbs[activePid].parent;
      video.active := pcbs[activePid].terminal;
      currentPid := currentPid[video.active := activePid];
      stacks := stacks[t := stacks[t][..|stacks[t]| - 1]];
      esp0 := KERNEL_STACK_BASE - (activePid - 1) * KERNEL_STACK_SIZE - 0x04;
      MapFor(activePid, activePid);
      resume := Resume(pcbs[activePid].context);
      SlotAt(pcbs[..], activePid);
    }

    // syscall_halt
    method Halt() returns (resume: Resume)
      requires Valid() && activePid != 0
      modifies this`activePid, this`currentPid, this`esp0, this`processCount, this`stacks, processes
      modifies video`active, video`terms, video`cursor
      modifies video.m.mem, video.m.pageDir, video.m.pageTab, video.m.vidmapTab
      ensures Valid() && Model() == Halted(old(Model()))
      ensures resume == if |old(stacks)[video.active]| == 1 then Restart else Resume(old(Model()).slots[activePid])
    {
      if activePid == 1 {
        RestartRoot(0);
        return Restart;
      }
      if activePid == 2 {
        RestartRoot(1);
        return Restart;
      }
      if activePid == 3 {
        RestartRoot(2);
        return Restart;
      }
      resume := HaltChild();
    }

    // read_data of the whole program to VIRTUAL_ADDRESS_PROGRAM_START
    method LoadProgram(image: seq<byte>, ghost pid: nat)
      requires Separate() && video.Shaped() && pid < PROCESSES && |image| <= MAX_FILE_SIZE
      requires video.m.pageDir[USER_PDE] == UserEntry(pid)
      modifies video.m.mem
      ensures Frames(video.m.mem[..]) == old(Frames(video.m.mem[..]))[pid := Loaded(old(Frames(video.m.mem[..]))[pid], image)]
      ensures video.Ttys() == old(video.Ttys())
    {
      ghost var lo := UserFrame(pid) + PROGRAM_OFFSET;
      ghost var was := video.m.mem[..];
      for i := 0 to |image|
        invariant forall a :: lo <= a < lo + i ==> video.m.mem[a] == image[a - lo]
        invariant forall a :: 0 <= a < video.m.mem.Length && !(lo <= a < lo + i) ==> video.m.mem[a] == was[a]
      {
        video.m.PutUser(PROGRAM_OFFSET + i, image[i], pid);
      }
      LoadChanges(was, video.m.mem[..], pid, image);
      PagesMakeTtys(was, video.m.mem[..], video.terms, video.current);
    }

    // The counter goes up before the search; the capacity check made sure it succeeds.
    method Allocate() returns (child: nat)
      requires Valid() && activePid != 0 && processCount != MAX_NUM_PROCESSES
      modifies this`processCount, processes
      ensures !Full(stacks) && child == FreePid(stacks)
      ensures PoolIn(stacks[video.active := stacks[video.active] + [child]], processes[..], processCount)
    {
      hide ChainsIn, PoolIn, FlagsOk, Forest, Machine.Tables, Live;
      CurrentIsTop(stacks, currentPid, pcbs[..], video.active);
      PoolAccounts(stacks, processes[..], processCount);
      processCount := processCount + 1;
      var pid := TakePid();
      if pid == -1 {
        assert false;
      }
      assert pid == FreePid(stacks);
      PushKeepsPool(stacks, old(processes[..]), old(processCount), video.active, pid);
      child := pid;
    }

    // syscall_execute once the file has turned out to be a program
    method Spawn(image: seq<byte>, now: Context)
      requires Valid() && activePid != 0 && processCount != MAX_NUM_PROCESSES && |image| <= MAX_FILE_SIZE
      modifies this`activePid, this`currentPid, this`esp0, this`processCount, this`stacks, processes, pcbs
      modifies video.m.mem, video.m.pageDir, video.m.pageTab, video.m.vidmapTab
      ensures Valid() && Model() == Executed(old(Model()), Program(image), now)
      ensures activePid == FreePid(old(stacks)) && Holds(Frames(video.m.mem[..])[activePid], image)
    {
      hide ChainsIn, PoolIn, FlagsOk, Forest, Machine.Tables, Machine.Shaped, TtysIn, Frames, Slots, Flags, Live, Sized;
      CurrentIsTop(stacks, currentPid, pcbs[..], video.active);
      var child := Allocate();
      ghost var t, parent := video.active, activePid;
      TopIsLive(stacks, t);
      PushKeepsChains(stacks, currentPid, pcbs[..], t, child);
      ghost var born := pcbs[..][child := Pcb(activePid, video.active, FRESH, false)];
      SaveKeeps(stacks[t := stacks[t] + [child]], currentPid[t := child], born, parent, now);
      SpawnSlots(pcbs[..], child, parent, born[child], now);
      Launch(child, image);
      SaveContext(activePid, now);
      activePid := child;
      esp0 := KERNEL_STACK_BASE - activePid * KERNEL_STACK_SIZE;
      stacks := stacks[t := stacks[t] + [child]];
    }

    // The child's PCB and page, and its program; the parent is still the active process.
    method Launch(child: nat, image: seq<byte>)
      requires Separate() && video.Valid() && |image| <= MAX_FILE_SIZE
      requires child < PROCESSES && activePid < PROCESSES && child != activePid
      requires FlagsOk(Flags(pcbs[..]), video.m.pageDir[VIDMAP_PDE].present)
      modifies this`currentPid, pcbs, video.m.mem, video.m.pageDir, video.m.pageTab, video.m.vidmapTab
      ensures pcbs[..] == old(pcbs[..])[child := Pcb(activePid, video.active, FRESH, false)]
      ensures currentPid == old(currentPid)[video.active := child]
      ensures video.Valid() && video.m.pageDir[USER_PDE] == UserEntry(child)
      ensures video.m.pageDir[VIDMAP_PDE] == old(video.m.pageDir[VIDMAP_PDE])
      ensures video.m.vidmapTab[0].present == old(Flags(pcbs[..]))[activePid]
      ensures video.m.vidmapTab[0].address == video.Frame(video.active)
      ensures video.Ttys() == old(video.Ttys())
      ensures Frames(video.m.mem[..]) == old(Frames(video.m.mem[..]))[child := Loaded(old(Frames(video.m.mem[..]))[child], image)]
    {
      hide Machine.Tables, Machine.Shaped, TtysIn, Frames, Slots, Flags, FlagsOk, Loaded;
      SpawnSlots(pcbs[..], child, activePid, Pcb(activePid, video.active, FRESH, false), FRESH);
      pcbs[child] := Pcb(activePid, video.active, FRESH, false);
      currentPid := currentPid[video.active := child];
      MapFor(child, activePid);
      LoadProgram(image, child);
    }

    // syscall_execute
    method Execute(command: Command, now: Context) returns (status: int)
      requires Valid() && activePid != 0 && (command.Program? ==> |command.image| <= MAX_FILE_SIZE)
      modifies this`activePid, this`currentPid, this`esp0, this`processCount, this`stacks, processes, pcbs, video`terms, video`cursor
      modifies video.m.mem, video.m.pageDir, video.m.pageTab, video.m.vidmapTab
      ensures Valid() && Model() == Executed(old(Model()), command, now)
      ensures status == if !Full(old(stacks)) && command.Program? then 0 else -1
      ensures status == -1 ==>
        && stacks == old(stacks) && currentPid == old(currentPid) && pcbs[..] == old(pcbs[..])
        && processes[..] == old(processes[..]) && processCount == old(processCount)
      ensures status == 0 ==> command.Program? && ProgramMapped(command.image)
    {
      PoolAccounts(stacks, processes[..], processCount);
      if processCount == MAX_NUM_PROCESSES {
        Write(Text(TOO_MANY));
        return -1;
      }
      match command
      case TooLong =>
        Write(Text(TOO_LONG));
        return -1;
      case NotRunnable =>
        return -1;
      case Program(image) =>
        Spawn(image, now);
        LoadedIsMapped(image);
        return 0;
    }

    // The running program's own accesses from 0x08048000 on reach these bytes.
    ghost predicate ProgramMapped(image: seq<byte>)
      requires video.m.Shaped()
      reads this, video, video.m.mem, video.m.pageDir, video.m.pageTab, video.m.vidmapTab
    {
      forall i :: 0 <= i < |image| ==>
        var t := video.m.Walk(0x08048000 + i, true);
        t.Phys? && t.address < video.m.mem.Length && video.m.mem[t.address] == image[i]
    }

    lemma LoadedIsMapped(image: seq<byte>)
      requires Valid() && activePid != 0 && |image| <= MAX_FILE_SIZE
      requires activePid < PROCESSES && Holds(Frames(video.m.mem[..])[activePid], image)
      ensures ProgramMapped(image)
    {
      hide ChainsIn, PoolIn, FlagsOk, Forest;
      forall i | 0 <= i < |image|
        ensures var t := video.m.Walk(0x08048000 + i, true);
          t.Phys? && t.address < video.m.mem.Length && video.m.mem[t.address] == image[i]
      {
        video.m.UserReach(0x08048000 + i, activePid);
        HeldByte(video.m.mem[..], activePid, image, i);
        hide Machine.Walk, Machine.Tables, Frames, Holds;
      }
    }

    // printf, and terminal_write
    method Write(text: seq<byte>)
      requires Valid()
      modifies video`terms, video`cursor, video.m.mem
      ensures Valid() && Model() == Printed(old(Model()), text)
    {
      hide ChainsIn, PoolIn, FlagsOk, Forest, Machine.Tables, TtysIn, Frames, Slots, Flags;
      video.Write(text);
      BeyondHoldsFrames(old(video.m.mem[..]), video.m.mem[..]);
    }

    // clear
    method ClearScreen()
      requires Valid() && activePid != 0
      modifies video`terms, video`cursor, video.m.mem
      ensures Valid() && Model() == Step(old(Model()), Op.ClearScreen)
    {
      hide ChainsIn, PoolIn, FlagsOk, Forest, Machine.Tables, TtysIn, Frames, Slots, Flags;
      video.Clear();
      BeyondHoldsFrames(old(video.m.mem[..]), video.m.mem[..]);
    }

    // keyboard_handler
    method KeyboardHandler(input: byte)
      requires Valid() && Allowed(Model(), Scan(input))
      modifies video`terms, video`current, video`cursor, video`mods
      modifies video.m.mem, video.m.pageTab, video.m.vidmapTab
      ensures Valid() && Model() == Scanned(old(Model()), input)
    {
      hide ChainsIn, PoolIn, Forest, Machine.Tables, TtysIn, Frames, AfterScan, Meaning;
      CurrentIsTop(stacks, currentPid, pcbs[..], video.active);
      assert pcbs[activePid].vidmap == Flags(pcbs[..])[activePid];
      video.KeyboardHandler(input, pcbs[activePid].vidmap);
      BeyondHoldsFrames(old(video.m.mem[..]), video.m.mem[..]);
    }

    // A store made by the running program.
    method UserStore(va: nat, b: byte) returns (ok: bool)
      requires Valid() && activePid != 0
      modifies video.m.mem
      ensures Valid() && Model() == Stored(old(Model()), va, b)
      ensures ok <==> Reaches(old(Model()), va)
    {
      hide ChainsIn, PoolIn, FlagsOk, Forest, TtysIn, Frames, Slots, Flags, Machine.Walk;
      CurrentIsTop(stacks, currentPid, pcbs[..], video.active);
      video.m.UserReach(va, activePid);
      var t := video.m.Walk(va, true);
      ok := t.Phys?;
      if t.Phys? {
        Land(va, t.address, b);
      }
    }

    // A store the kernel makes for the running program, at an address that program reaches.
    method KernelStore(va: nat, b: byte)
      requires Valid() && activePid != 0 && Reaches(Model(), va)
      modifies video.m.mem
      ensures Valid() && Model() == Stored(old(Model()), va, b)
    {
      hide ChainsIn, PoolIn, FlagsOk, Forest, TtysIn, Frames, Slots, Flags, Machine.Walk;
      CurrentIsTop(stacks, currentPid, pcbs[..], video.active);
      video.m.UserReach(va, activePid);
      video.m.KernelReach(va, activePid);
      Land(va, video.m.Walk(va, false).address, b);
    }

    // A store that the walk took to a frame or to a video page.
    method Land(ghost va: nat, address: nat, b: byte)
      requires Valid() && activePid != 0 && video.m.Walk(va, true) == Phys(address)
      modifies video.m.mem
      ensures Valid() && Model() == Stored(old(Model()), va, b)
    {
      hide ChainsIn, PoolIn, FlagsOk, Forest, TtysIn, Frames, Slots, Flags, Machine.Walk;
      CurrentIsTop(stacks, currentPid, pcbs[..], video.active);
      var m := video.m;
      ghost var was := m.mem[..];
      m.UserReach(va, activePid);
      m.mem[address] := b;
      assert m.mem[..] == was[address := b];
      if va < USER_START + LARGE {
        UserStoreChanges(was, activePid, va - USER_START, b);
        PagesMakeTtys(was, m.mem[..], video.terms, video.current);
      } else {
        VidStoreChanges(was, video.terms, video.current, m.vidmapTab[0].address, va - VIDMAP_START, b);
      }
    }

    // The copying of any system call that fills a buffer of its caller.
    method CopyOut(va: nat, data: seq<byte>)
      requires Valid() && activePid != 0 && ReachesAll(Model(), va, |data|)
      modifies video.m.mem
      ensures Valid() && Model() == StoredAll(old(Model()), va, data)
    {
      hide Kernel.Valid, Kernel.Model, Stored, WF;
      for i := 0 to |data|
        invariant Valid() && Model() == StoredAll(old(Model()), va, data[..i])
      {
        assert data[..i + 1][..i] == data[..i];
        assert Reaches(old(Model()), va + i);
        KernelStore(va + i, data[i]);
      }
      assert data[..|data|] == data;
    }

    // terminal_read, up to the wait
    method BeginRead()
      requires Valid() && activePid != 0
      modifies video`terms
      ensures Valid() && Model() == Step(old(Model()), Op.BeginRead)
    {
      hide ChainsIn, PoolIn, FlagsOk, Forest, Machine.Tables, TtysIn, Frames, Slots, Flags;
      video.BeginRead();
    }

    // terminal_read, after the wait
    method FinishRead(va: nat, n: nat) returns (count: nat)
      requires Valid() && activePid != 0 && Allowed(Model(), Op.FinishRead(va, n))
      modifies video`terms, video.m.mem
      ensures Valid() && Model() == Step(old(Model()), Op.FinishRead(va, n))
      ensures var tty := old(Model()).ttys[video.active]; count == ReadCount(tty.keys, tty.size, n)
    {
      hide ChainsIn, PoolIn, FlagsOk, Forest, Machine.Tables, Frames, Slots, Flags, Delivered, StoredAll, ReachesAll;
      var d := video.terms[video.active];
      count := CopyKeys(d.keys, d.size, va, n, Model());
      video.EndRead();
    }

    method CopyKeys(keys: seq<byte>, size: nat, va: nat, n: nat, ghost k: K) returns (limit: nat)
      requires Valid() && activePid != 0 && Model() == k && ReadOk(k, keys, size, va, n)
      modifies video.m.mem
      ensures Valid() && Model() == ReadStored(k, va, n) && limit == ReadCount(keys, size, n)
    {
      hide *;
      ReadIsReady(k, keys, size, va, n);
      var index := 0;
      limit := if n > size then size else n;
      while index < limit
        invariant 0 <= index <= limit && NEWLINE !in keys[..index]
        invariant Valid() && Model() == StoredAll(k, va, keys[..index])
      {
        assert keys[..index + 1] == keys[..index] + [keys[index]];
        StoreOneMore(k, va, keys[..index], keys[index]);
        ReadReaches(k, keys, size, va, n, index);
        KernelStore(va + index, keys[index]);
        if keys[index] == NEWLINE {
          ReadBroken(k, keys, size, va, n, index);
          return index + 1;
        }
        index := index + 1;
      }
      ReadCut(k, keys, size, va, n);
      ReadReaches(k, keys, size, va, n, limit - 1);
      KernelStore(va + limit - 1, NEWLINE);
    }

    // syscall_vidmap
    method EnableVidmap(va: nat) returns (status: int)
      requires Valid() && activePid != 0
      modifies pcbs, video.m.mem, video.m.pageDir, video.m.vidmapTab
      ensures Valid() && Model() == Step(old(Model()), Op.EnableVidmap(va))
      ensures status == if VidmapPointerOk(va) then VIDMAP_START else -1
    {
      if va < USER_START || va > VIDMAP_START {
        return -1;
      }
      TurnOnVidmap();
      CopyOut(va, VIDMAP_BYTES);
      return VIDMAP_START;
    }

    method TurnOnVidmap()
      requires Valid() && activePid != 0
      modifies pcbs, video.m.pageDir, video.m.vidmapTab
      ensures Valid() && Model() == VidmapOn(old(Model()))
    {
      hide PoolIn, Forest, Machine.Tables, TtysIn, Frames;
      CurrentIsTop(stacks, currentPid, pcbs[..], video.active);
      FlagKeeps(stacks, currentPid, pcbs[..], activePid);
      pcbs[activePid] := pcbs[activePid].(vidmap := true);
      video.m.EnableVidmap();
    }

    // file_descriptor_table_open on a full table: the write to the flags of the slot
    // past the end is a write to the saved ebp.
    method OpenWhenFull()
      requires Valid() && activePid != 0
      modifies pcbs
      ensures Valid() && Model() == Step(old(Model()), Op.OpenWhenFull)
    {
      hide ChainsIn, PoolIn, FlagsOk, Forest, Machine.Tables, TtysIn, Frames, Slots, Flags;
      CurrentIsTop(stacks, currentPid, pcbs[..], video.active);
      SlotAt(pcbs[..], activePid);
      SaveKeeps(stacks, currentPid, pcbs[..], activePid, pcbs[activePid].context.(ebp := 1));
      SaveContext(activePid, pcbs[activePid].context.(ebp := 1));
    }

    // ----- Whole runs -----

    method Perform(op: Op)
      requires Valid() && Allowed(Model(), op)
      modifies this`activePid, this`currentPid, this`esp0, this`processCount, this`stacks, processes, pcbs
      modifies video`active, video`current, video`terms, video`cursor, video`mods
      modifies video.m.mem, video.m.pageDir, video.m.pageTab, video.m.vidmapTab
      ensures Valid() && Model() == Step(old(Model()), op)
    {
      hide ChainsIn, PoolIn, FlagsOk, Forest, Machine.Tables, Machine.Shaped, TtysIn, Frames, Slots, Flags;
      match op
      case Tick(now) => var _ := Schedule(now);
      case Execute(command, now) => var _ := Execute(command, now);
      case Halt => var _ := Halt();
      case Write(text) => Write(text);
      case ClearScreen => ClearScreen();
      case Scan(input) => KeyboardHandler(input);
      case BeginRead => BeginRead();
      case FinishRead(va, n) => var _ := FinishRead(va, n);
      case CopyOut(va, data) => CopyOut(va, data);
      case Store(va, b) => var _ := UserStore(va, b);
      case EnableVidmap(va) => var _ := EnableVidmap(va);
      case OpenWhenFull => OpenWhenFull();
    }

    // Every run of the kernel is a run of the model.
    method RunAll(ops: seq<Op>)
      requires Valid() && AllowedRun(Model(), ops)
      modifies this`activePid, this`currentPid, this`esp0, this`processCount, this`stacks, processes, pcbs
      modifies video`active, video`current, video`terms, video`cursor, video`mods
      modifies video.m.mem, video.m.pageDir, video.m.pageTab, video.m.vidmapTab
      ensures Valid() && Model() == Run(old(Model()), ops)
    {
      hide Kernel.Model, Kernel.Valid, Step, Allowed, WF;
      for i := 0 to |ops|
        invariant Valid() && AllowedRun(Model(), ops[i..])
        invariant Run(Model(), ops[i..]) == Run(old(Model()), ops)
      {
        assert ops[i..][0] == ops[i] && ops[i..][1..] == ops[i + 1..];
        Perform(ops[i]);
      }
    }
  }

  // The kernel up to the sti of kernel.c: the display is cleared, the three root
  // shells are in memory, and nothing runs.
  method PowerOn(size: nat, tabFrame: nat, vidFrame: nat, shell: seq<byte>) returns (k: Kernel)
    requires size >= MEMORY && tabFrame != vidFrame && |shell| <= MAX_FILE_SIZE
    ensures fresh(k) && k.Valid() && PoweredOn(k.Model())
    ensures Shows(k.Model().ttys[0].screen, Layout([]))
    ensures forall p :: 1 <= p <= TERMINALS ==> Holds(k.Model().user[p], shell)
  {
    var v := ClearedDisplay(size, tabFrame, vidFrame);
    k := new Kernel(v);
    hide Shows, Layout, Holds, TtysIn, Frames, Kernel.Initial, Machine.Tables, Machine.Shaped;
    k.CreateShells(shell);
    k.InitialIsValid();
  }

  // The keyboard, paging and screen parts of the boot code
  method ClearedDisplay(size: nat, tabFrame: nat, vidFrame: nat) returns (v: Video)
    requires size >= MEMORY && tabFrame != vidFrame
    ensures fresh(v) && fresh(v.m.mem) && fresh(v.m.pageDir) && fresh(v.m.pageTab) && fresh(v.m.vidmapTab)
    ensures v.Valid() && v.current == 0 && v.active == 0 && v.mods == Mods(false, false, false, false)
    ensures forall t :: 0 <= t < TERMINALS ==>
      v.Ttys()[t].size == 0 && !v.Ttys()[t].enabled && v.Ttys()[t].overflow == 0
    ensures Shows(v.Ttys()[0].screen, Layout([]))
  {
    var m := new Machine(size, tabFrame, vidFrame);
    v := new Video(m);
    ClearShows(v.Ttys()[0].screen);
    v.Clear();
  }
}
