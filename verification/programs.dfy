// What execute leaves in memory for the new process to run.
module Programs {
  import opened Words
  import opened Console
  import opened Paging
  import opened KernelModel
  import opened Independence

  // The child runs on its own frame, which holds the program 0x48000 bytes from its
  // start and is otherwise what it was; every other frame is what it was.
  lemma ExecuteLoadsProgram(k: K, image: seq<byte>, now: Context)
    requires WF(k) && Allowed(k, Execute(Program(image), now)) && !Full(k.stacks)
    ensures var r := Step(k, Execute(Program(image), now));
      var child := Pid(r);
      && !Live(k.stacks, child) && |r.user[child]| == 0x400000
      && (forall i :: 0 <= i < |image| ==> r.user[child][0x48000 + i] == image[i])
      && (forall a :: 0 <= a < 0x48000 ==> r.user[child][a] == k.user[child][a])
      && (forall a :: 0x48000 + |image| <= a < 0x400000 ==> r.user[child][a] == k.user[child][a])
      && forall p :: 0 <= p < PROCESSES && p != child ==> r.user[p] == k.user[p]
  {
    var child := FreePid(k.stacks);
    assert Top(k.stacks[k.active] + [child]) == child;
    hide Disjoint;
  }

  // An execute that fails loads nothing.
  lemma FailedExecuteLoadsNothing(k: K, command: Command, now: Context)
    requires WF(k) && Allowed(k, Execute(command, now)) && (Full(k.stacks) || !command.Program?)
    ensures var r := Step(k, Execute(command, now));
      r.user == k.user && r.stacks == k.stacks && r.slots == k.slots && r.flags == k.flags && r.esp0 == k.esp0
  {
    hide Forest, Puts;
  }

  // What vidmap stores for its caller is, as the processor reads four bytes, the address
  // it returns and the address the page is at.
  lemma VidmapStoresAddress(k: K, va: nat)
    requires WF(k) && Running(k) && USER_START <= va && va + 4 <= USER_START + LARGE
    ensures Allowed(k, EnableVidmap(va))
    ensures var r, off := Step(k, EnableVidmap(va)), va - USER_START;
      && |r.user[Pid(k)]| == LARGE
      && var b0: nat, b1: nat, b2: nat, b3: nat :=
           r.user[Pid(k)][off], r.user[Pid(k)][off + 1], r.user[Pid(k)][off + 2], r.user[Pid(k)][off + 3];
         b0 + 0x100 * b1 + 0x10000 * b2 + 0x1000000 * b3 == 0x08400000 == VIDMAP_START
  {
    hide Forest, StoredAll;
    StoresFillFrame(VidmapOn(k), va, VIDMAP_BYTES);
  }
}
