// What the kernel of student-distrib means: three terminals, each with its own
// screen and its own stack of processes, and one frame of memory per process.
module KernelModel {
  import opened Words
  import opened Console
  import opened LineDiscipline
  import opened Keyboard
  import opened Paging
  import opened Terminals

  const FIRST_CHILD := 4
  const LAST_CHILD := 6
  const PROGRAM_OFFSET := 0x48000       // VIRTUAL_ADDRESS_PROGRAM_START within its 4 MB page
  const MAX_FILE_SIZE := 63 * 4096
  const KERNEL_STACK_BASE := 0x800000
  const KERNEL_STACK_SIZE := 0x2000     // of one process: its stack and, below it, its PCB

  // The esp and ebp a PCB keeps.
  datatype Context = Context(esp: nat, ebp: nat)

  const FRESH := Context(0x083FFFFC, 0x083FFFFC)

  // The vidmap page table entry: is it present, and which physical page is it?
  datatype VidMap = VidMap(present: bool, frame: nat)

  datatype K = K(
    ttys: seq<Tty>,
    mods: Mods,
    active: nat,               // the terminal whose process is running
    current: nat,              // the terminal on the display
    stacks: seq<seq<nat>>,     // per terminal, pids from its root shell to its running process
    slots: seq<Context>,       // the context each PCB holds
    flags: seq<bool>,          // the vidmap flag each PCB holds
    user: seq<seq<byte>>,      // the memory frame of each pid
    vid: VidMap,
    esp0: int)                 // where the processor puts the stack when it enters the kernel

  // What the running process asks to execute, once the file system has been asked.
  datatype Command = TooLong | NotRunnable | Program(image: seq<byte>)

  datatype Op =
    | Tick(now: Context)                          // the timer interrupt: schedule
    | Execute(command: Command, now: Context)
    | Halt
    | Write(text: seq<byte>)                      // putc of each character
    | ClearScreen
    | Scan(input: byte)                           // the keyboard interrupt
    | BeginRead
    | FinishRead(va: nat, n: nat)                 // terminal_read of n bytes to address va, after its wait
    | CopyOut(va: nat, data: seq<byte>)           // what any other system call copies to its caller
    | Store(va: nat, b: byte)                     // a user-mode store that does not fault
    | EnableVidmap(va: nat)                       // vidmap with a pointer to be set
    | OpenWhenFull                                // open with no free descriptor

  function Text(s: string): seq<byte> {
    seq(|s|, i requires 0 <= i < |s| => Code(s[i]))
  }

  const TOO_MANY := "Max number of processes reached\n"
  const TOO_LONG := "Command is too long\n"

  function RootMessage(t: nat): string {
    " root shell of terminal " + (if t == 0 then "1" else if t == 1 then "2" else "3") + " could be be halted\n"
  }

  function Top(stack: seq<nat>): nat
    requires stack != []
  {
    stack[|stack| - 1]
  }

  // ----- Well-formed states -----

  // A booted terminal's stack stands on its root shell; other processes have
  // pids 4 to 6.
  ghost predicate StackOk(stack: seq<nat>, t: nat) {
    && (stack != [] ==> stack[0] == t + 1)
    && forall i :: 0 < i < |stack| ==> FIRST_CHILD <= stack[i] <= LAST_CHILD
  }

  // No process is on two stacks, or twice on one.
  ghost predicate Disjoint(stacks: seq<seq<nat>>) {
    forall t, i, u, j ::
      && 0 <= t < |stacks| && 0 <= i < |stacks[t]|
      && 0 <= u < |stacks| && 0 <= j < |stacks[u]|
      && stacks[t][i] == stacks[u][j]
      ==> t == u && i == j
  }

  ghost predicate Forest(stacks: seq<seq<nat>>) {
    && |stacks| == TERMINALS
    && (forall t :: 0 <= t < TERMINALS ==> StackOk(stacks[t], t))
    && Disjoint(stacks)
  }

  ghost predicate Live(stacks: seq<seq<nat>>, pid: nat) {
    exists t :: 0 <= t < |stacks| && pid in stacks[t]
  }

  ghost predicate Sized(k: K) {
    && |k.ttys| == TERMINALS && (forall t :: 0 <= t < TERMINALS ==> TtyOk(k.ttys[t]))
    && k.active < TERMINALS && k.current < TERMINALS
    && |k.slots| == PROCESSES && |k.flags| == PROCESSES && |k.user| == PROCESSES
    && (forall p :: 0 <= p < PROCESSES ==> |k.user[p]| == LARGE)
    && (k.vid.present ==> SCREEN_FRAME <= k.vid.frame <= SCREEN_FRAME + 3)
  }

  ghost predicate WF(k: K) {
    && Sized(k)
    && Forest(k.stacks)
    && (k.stacks[k.active] == [] ==> forall t :: 0 <= t < TERMINALS ==> k.stacks[t] == [])
  }

  ghost predicate Running(k: K) requires WF(k) {
    k.stacks[k.active] != []
  }

  ghost function Pid(k: K): nat
    requires WF(k) && Running(k)
    ensures Pid(k) < PROCESSES
  {
    Top(k.stacks[k.active])
  }

  // ----- Allocation -----

  ghost predicate Full(stacks: seq<seq<nat>>) {
    Live(stacks, 4) && Live(stacks, 5) && Live(stacks, 6)
  }

  ghost function FreePid(stacks: seq<seq<nat>>): (p: nat)
    requires !Full(stacks)
    ensures FIRST_CHILD <= p <= LAST_CHILD && !Live(stacks, p)
    ensures forall q :: FIRST_CHILD <= q < p ==> Live(stacks, q)
  {
    if !Live(stacks, 4) then 4 else if !Live(stacks, 5) then 5 else 6
  }

  // ----- Steps -----

  // The addresses the running program can store to; any other access faults, and
  // the fault handler stops the machine.
  ghost predicate Reaches(k: K, va: int) {
    USER_START <= va < USER_START + LARGE || (VIDMAP_START <= va < VIDMAP_START + PAGE && k.vid.present)
  }

  ghost predicate ReachesAll(k: K, va: int, n: nat) {
    forall a :: va <= a < va + n ==> Reaches(k, a)
  }

  // A key that puts another terminal on the display.
  predicate Switches(k: K, input: byte) {
    var press := Meaning(k.mods, input);
    press.Function? && press.terminal != k.current
  }

  ghost predicate Allowed(k: K, op: Op) requires WF(k) {
    && (!op.Tick? && !op.Scan? ==> Running(k))
    && (op.Scan? ==> Running(k) || !Switches(k, op.input))
    && (op.FinishRead? ==>
        var tty := k.ttys[k.active];
        0 < op.n && !tty.enabled && ReachesAll(k, ReadStart(tty, op.va), |ReadBytes(tty, op.n)|))
    && (op.CopyOut? ==> ReachesAll(k, op.va, |op.data|))
    && (op.Store? ==> Reaches(k, op.va))
    && (op.Execute? && op.command.Program? ==> |op.command.image| <= MAX_FILE_SIZE)
  }

  // Where terminal_read stores, and what: the delivered line, or, when the line has
  // been rubbed out after Enter, a line break just before the caller's buffer.
  function ReadStart(tty: Tty, va: nat): int {
    if tty.size == 0 then va - 1 else va
  }

  function ReadBytes(tty: Tty, n: nat): seq<byte>
    requires TtyOk(tty) && 0 < n
  {
    if tty.size == 0 then [NEWLINE] else Delivered(tty.keys, tty.size, n)
  }

  // The count a read returns: none for an emptied line, else that of the bytes it stored.
  function ReadCount(keys: seq<byte>, size: nat, n: nat): nat
    requires size <= |keys| && 0 < n
  {
    if size == 0 then 0 else |Delivered(keys, size, n)|
  }

  // tss.esp0 as schedule, halt and the boot entries set it, and as execute does.
  function StackTop(pid: nat): int {
    KERNEL_STACK_BASE - (pid - 1) * KERNEL_STACK_SIZE - 4
  }

  function SlotBottom(pid: nat): int {
    KERNEL_STACK_BASE - pid * KERNEL_STACK_SIZE
  }

  ghost function Printed(k: K, text: seq<byte>): (r: K)
    requires WF(k)
    ensures WF(r)
  {
    var tty := k.ttys[k.active];
    k.(ttys := k.ttys[k.active := tty.(screen := Puts(tty.screen, text))])
  }

  // paging_video_memory after terminal `active` was chosen, for the process `pid`
  ghost function Mapping(k: K, active: nat, pid: nat): VidMap
    requires pid < |k.flags|
  {
    VidMap(k.flags[pid], FrameIn(k.current, active))
  }

  function Next(t: nat): nat {
    (t + 1) % TERMINALS
  }

  // Where schedule puts the interrupted context: the running process's PCB, or,
  // when the next terminal has yet to boot, the PCB of this terminal's root shell.
  ghost function SavePid(k: K): (p: nat)
    requires WF(k)
    ensures p < PROCESSES
  {
    if k.stacks[Next(k.active)] != [] then Pid(k) else k.active + 1
  }

  ghost function Ticked(k: K, now: Context): (r: K)
    requires WF(k)
    ensures WF(r) && Running(r)
  {
    var next := Next(k.active);
    var stacks := if k.stacks[next] == [] then k.stacks[next := [next + 1]] else k.stacks;
    BootKeepsForest(k.stacks, next);
    k.(active := next, stacks := stacks, slots := k.slots[SavePid(k) := now],
       vid := Mapping(k, next, Top(stacks[next])), esp0 := StackTop(Top(stacks[next])))
  }

  ghost function Loaded(frame: seq<byte>, image: seq<byte>): (r: seq<byte>)
    requires |frame| == LARGE && |image| <= MAX_FILE_SIZE
    ensures |r| == LARGE
  {
    frame[..PROGRAM_OFFSET] + image + frame[PROGRAM_OFFSET + |image|..]
  }

  ghost function Executed(k: K, command: Command, now: Context): (r: K)
    requires WF(k) && Running(k) && (command.Program? ==> |command.image| <= MAX_FILE_SIZE)
    ensures WF(r) && Running(r)
  {
    if Full(k.stacks) then Printed(k, Text(TOO_MANY))
    else match command
      case TooLong => Printed(k, Text(TOO_LONG))
      case NotRunnable => k
      case Program(image) =>
        var child, parent := FreePid(k.stacks), Pid(k);
        PushKeepsForest(k.stacks, k.active, child);
        k.(stacks := k.stacks[k.active := k.stacks[k.active] + [child]],
           slots := k.slots[child := FRESH][parent := now],
           flags := k.flags[child := false],
           user := k.user[child := Loaded(k.user[child], image)],
           vid := Mapping(k, k.active, parent),
           esp0 := SlotBottom(child))
  }

  ghost function Halted(k: K): (r: K)
    requires WF(k) && Running(k)
    ensures WF(r) && Running(r)
  {
    var stack := k.stacks[k.active];
    if |stack| == 1 then
      Printed(k, Text(RootMessage(k.active))).(vid := Mapping(k, k.active, Top(stack)), esp0 := StackTop(Top(stack)))
    else
      var rest := stack[..|stack| - 1];
      PopKeepsForest(k.stacks, k.active);
      k.(stacks := k.stacks[k.active := rest], vid := Mapping(k, k.active, Top(rest)), esp0 := StackTop(Top(rest)))
  }

  ghost function WithByte(tty: Tty, off: nat, b: byte): (r: Tty)
    requires TtyOk(tty) && off < PAGE
    ensures TtyOk(r)
  {
    tty.(screen := tty.screen.(page := tty.screen.page[off := b]))
  }

  // A store through the vidmap page lands on whichever screen that physical page
  // shows; the current terminal's backing page shows none.
  ghost function VidStored(k: K, off: nat, b: byte): (r: K)
    requires WF(k) && k.vid.present && off < PAGE
    ensures WF(r)
  {
    var t := if k.vid.frame == SCREEN_FRAME then k.current else k.vid.frame - SCREEN_FRAME - 1;
    if k.vid.frame != SCREEN_FRAME && t == k.current then k
    else k.(ttys := k.ttys[t := WithByte(k.ttys[t], off, b)])
  }

  function Poked(frame: seq<byte>, off: nat, b: byte): seq<byte>
    requires off < |frame|
  {
    frame[off := b]
  }

  ghost function Stored(k: K, va: int, b: byte): (r: K)
    requires WF(k) && Running(k)
    ensures WF(r) && r == k.(ttys := r.ttys, user := r.user)
  {
    if USER_START <= va < USER_START + LARGE then
      k.(user := k.user[Pid(k) := Poked(k.user[Pid(k)], va - USER_START, b)])
    else if VIDMAP_START <= va < VIDMAP_START + PAGE && k.vid.present then
      VidStored(k, va - VIDMAP_START, b)
    else k
  }

  ghost function StoredAll(k: K, va: int, data: seq<byte>): (r: K)
    requires WF(k) && Running(k)
    ensures WF(r) && r == k.(ttys := r.ttys, user := r.user)
  {
    if data == [] then k
    else Stored(StoredAll(k, va, data[..|data| - 1]), va + |data| - 1, data[|data| - 1])
  }

  ghost function WithTty(k: K, t: nat, tty: Tty): (r: K)
    requires WF(k) && t < TERMINALS && TtyOk(tty)
    ensures WF(r)
  {
    k.(ttys := k.ttys[t := tty])
  }

  ghost function ReadDone(k: K, va: nat, n: nat): (r: K)
    requires WF(k) && Running(k) && 0 < n
    ensures WF(r) && Running(r)
  {
    var tty := k.ttys[k.active];
    var done := StoredAll(k, ReadStart(tty, va), ReadBytes(tty, n));
    WithTty(done, k.active, done.ttys[k.active].(size := 0))
  }

  // The pointer a program passes to vidmap has to lie in its page, or just above it.
  predicate VidmapPointerOk(va: nat) {
    USER_START <= va <= VIDMAP_START
  }

  // The address of the vidmap page, least significant byte first.
  const VIDMAP_BYTES: seq<byte> := [0x00, 0x00, 0x40, 0x08]

  ghost function VidmapOn(k: K): (r: K)
    requires WF(k) && Running(k)
    ensures WF(r) && Running(r)
  {
    k.(flags := k.flags[Pid(k) := true], vid := VidMap(true, SCREEN_FRAME))
  }

  ghost function Scanned(k: K, input: byte): (r: K)
    requires WF(k) && (Running(k) || !Switches(k, input))
    ensures WF(r) && (Running(r) <==> Running(k))
  {
    var press := Meaning(k.mods, input);
    var current := if press.Function? then press.terminal else k.current;
    k.(ttys := AfterScan(k.ttys, k.current, k.mods, input),
       mods := if press.Modify? then press.mods else k.mods,
       current := current,
       vid := if current == k.current then k.vid else Mapping(k.(current := current), k.active, Pid(k)))
  }

  ghost function Step(k: K, op: Op): (r: K)
    requires WF(k) && Allowed(k, op)
    ensures WF(r) && (Running(k) || op.Tick? ==> Running(r))
  {
    match op
    case Tick(now) => Ticked(k, now)
    case Execute(command, now) => Executed(k, command, now)
    case Halt => Halted(k)
    case Write(text) => Printed(k, text)
    case ClearScreen => WithTty(k, k.active, k.ttys[k.active].(screen := Clear(k.ttys[k.active].screen)))
    case Scan(input) => Scanned(k, input)
    case BeginRead => WithTty(k, k.active, k.ttys[k.active].(enabled := true))
    case FinishRead(va, n) => ReadDone(k, va, n)
    case CopyOut(va, data) => StoredAll(k, va, data)
    case Store(va, b) => Stored(k, va, b)
    case EnableVidmap(va) => if VidmapPointerOk(va) then StoredAll(VidmapOn(k), va, VIDMAP_BYTES) else k
    case OpenWhenFull => k.(slots := k.slots[Pid(k) := k.slots[Pid(k)].(ebp := 1)])
  }

  // ----- The forest is kept -----

  lemma TopIsLive(stacks: seq<seq<nat>>, t: nat)
    requires t < |stacks| && stacks[t] != []
    ensures Live(stacks, Top(stacks[t]))
  {
    assert Top(stacks[t]) in stacks[t];
  }

  lemma TopsDiffer(stacks: seq<seq<nat>>, t: nat, u: nat)
    requires Forest(stacks) && t < TERMINALS && u < TERMINALS && t != u
    requires stacks[t] != [] && stacks[u] != []
    ensures Top(stacks[t]) != Top(stacks[u])
  {
  }

  lemma BootKeepsForest(stacks: seq<seq<nat>>, t: nat)
    requires Forest(stacks) && t < TERMINALS
    ensures stacks[t] == [] ==> Forest(stacks[t := [t + 1]])
  {
    if stacks[t] == [] {
      var more := stacks[t := [t + 1]];
      forall u, i | 0 <= u < TERMINALS && u != t && 0 <= i < |more[u]|
        ensures more[u][i] != t + 1
      {
        assert StackOk(stacks[u], u);
      }
    }
  }

  lemma PushKeepsForest(stacks: seq<seq<nat>>, t: nat, child: nat)
    requires Forest(stacks) && t < TERMINALS && stacks[t] != []
    requires FIRST_CHILD <= child <= LAST_CHILD && !Live(stacks, child)
    ensures Forest(stacks[t := stacks[t] + [child]])
  {
  }

  lemma PopKeepsForest(stacks: seq<seq<nat>>, t: nat)
    requires Forest(stacks) && t < TERMINALS && |stacks[t]| > 1
    ensures Forest(stacks[t := stacks[t][..|stacks[t]| - 1]])
    ensures !Live(stacks[t := stacks[t][..|stacks[t]| - 1]], Top(stacks[t]))
  {
  }
}
