// Physical memory seen through the page tables of student-distrib/paging.c:
// two-level translation with 4 KB and 4 MB pages (section 4.3, 32-Bit Paging, of
// the Intel SDM, Volume 3A).
module Paging {
  import opened Words
  import opened Console

  const ENTRIES := 1024
  const LARGE := 0x400000
  const VIDEO := 0xB8000            // VIDEO_MEM
  const VIDEO_DIRECT := 0xB7000     // VIDEO_ADDRESS_TO_PHYSICAL
  const SCREEN_FRAME := 0xB8        // physical page of the display
  const USER_PDE := 32              // 128 MB
  const VIDMAP_PDE := 33            // 132 MB
  const USER_START := 0x08000000
  const VIDMAP_START := 0x08400000
  const PROCESSES := 7
  const MEMORY := 0x2400000         // 8 MB for the kernel and seven 4 MB frames

  // The fields of a pde or pte that translation looks at.
  datatype Entry = Entry(present: bool, writable: bool, user: bool, large: bool, address: nat)

  const ABSENT := Entry(false, false, false, false, 0)
  const KERNEL_PAGE := Entry(true, true, false, false, 0)

  datatype Translation = Fault | Phys(address: nat)

  function UserFrame(pid: nat): nat {
    0x800000 + pid * LARGE
  }

  function UserEntry(pid: nat): Entry {
    Entry(true, true, true, true, 0x800 + pid * 0x400)
  }

  function PageIn(mem: seq<byte>, frame: nat): (p: Page)
    requires (frame + 1) * PAGE <= |mem|
  {
    mem[frame * PAGE..(frame + 1) * PAGE]
  }

  function UserIn(mem: seq<byte>, pid: nat): (s: seq<byte>)
    requires MEMORY <= |mem| && pid < PROCESSES
    ensures |s| == LARGE
  {
    mem[UserFrame(pid)..UserFrame(pid) + LARGE]
  }

  // Nothing differs outside one 4 KB page.
  ghost predicate SamePagesBut(mem: seq<byte>, mem': seq<byte>, frame: nat) {
    && |mem| == |mem'|
    && forall a :: 0 <= a < |mem| && !(frame * PAGE <= a < (frame + 1) * PAGE) ==> mem'[a] == mem[a]
  }

  lemma PageKept(mem: seq<byte>, mem': seq<byte>, f: nat, changed: nat)
    requires (f + 1) * PAGE <= |mem| && f != changed && SamePagesBut(mem, mem', changed)
    ensures PageIn(mem', f) == PageIn(mem, f)
  {
    assert f < changed ==> (f + 1) * PAGE <= changed * PAGE;
    assert changed < f ==> (changed + 1) * PAGE <= f * PAGE;
  }

  class Machine {
    const mem: array<byte>
    const pageDir: array<Entry>
    const pageTab: array<Entry>       // pg_tab_1
    const vidmapTab: array<Entry>     // vidmap_pg_tab_1
    const pageTabFrame: nat           // where the linker put the two tables
    const vidmapTabFrame: nat

    ghost predicate Shaped() {
      && mem.Length >= MEMORY
      && pageDir.Length == ENTRIES && pageTab.Length == ENTRIES && vidmapTab.Length == ENTRIES
      && pageDir != pageTab && pageDir != vidmapTab && pageTab != vidmapTab
      && pageTabFrame != vidmapTabFrame
    }

    // The walk the processor makes for one access.
    function Walk(va: nat, asUser: bool): (t: Translation)
      requires Shaped()
      reads pageDir, pageTab, vidmapTab
    {
      if va / LARGE >= ENTRIES then Fault
      else
        var pde := pageDir[va / LARGE];
        if !pde.present || (asUser && !(pde.user && pde.writable)) then Fault
        else if pde.large then Phys(pde.address / ENTRIES * LARGE + va % LARGE)
        else if pde.address != pageTabFrame && pde.address != vidmapTabFrame then Fault
        else
          var pte := (if pde.address == pageTabFrame then pageTab else vidmapTab)[va / PAGE % ENTRIES];
          if !pte.present || (asUser && !(pte.user && pte.writable)) then Fault
          else Phys(pte.address * PAGE + va % PAGE)
    }

    // Where a kernel access to base + off lands.
    function Reach(base: nat, off: nat): (t: Translation)
      requires Shaped()
      reads pageDir, pageTab, vidmapTab
    {
      Walk(base + off, false)
    }

    // The 4 KB at `base` are mapped to physical page `frame`.
    ghost predicate Maps(base: nat, frame: nat)
      requires Shaped()
      reads pageDir, pageTab, vidmapTab
    {
      forall off :: 0 <= off < PAGE ==> Reach(base, off) == Phys(frame * PAGE + off)
    }

    function PageAt(frame: nat): (p: Page)
      requires Shaped() && (frame + 1) * PAGE <= MEMORY
      reads mem
    {
      PageIn(mem[..], frame)
    }

    // What page_initialize establishes and no later step disturbs: the kernel page and
    // the video pages, user access through the two directory entries meant for it, and
    // nothing else.
    ghost predicate Tables()
      requires Shaped()
      reads pageDir, pageTab, vidmapTab
    {
      && pageDir[0] == KERNEL_PAGE.(address := pageTabFrame)
      && pageTab[0xB7] == KERNEL_PAGE.(address := SCREEN_FRAME)
      && pageTab[0xB8] == KERNEL_PAGE.(address := pageTab[0xB8].address)
      && (forall i :: 0xB9 <= i <= 0xBB ==> pageTab[i] == KERNEL_PAGE.(address := i))
      && (forall i :: 0 <= i < ENTRIES && !(0xB7 <= i <= 0xBB) ==> pageTab[i] == ABSENT)
      && pageDir[1] == KERNEL_PAGE.(large := true, address := ENTRIES)
      && (forall i :: 2 <= i < ENTRIES && i != USER_PDE && i != VIDMAP_PDE ==> pageDir[i] == ABSENT)
      && (pageDir[VIDMAP_PDE] == ABSENT || pageDir[VIDMAP_PDE] == Entry(true, true, true, false, vidmapTabFrame))
      && (vidmapTab[0].present ==> pageDir[VIDMAP_PDE].present)
      && (pageDir[VIDMAP_PDE].present ==> vidmapTab[0].user && vidmapTab[0].writable)
      && (forall i :: 0 < i < ENTRIES ==> vidmapTab[i] == ABSENT)
      && SCREEN_FRAME <= pageTab[0xB8].address <= SCREEN_FRAME + 3
      && (vidmapTab[0].present ==> SCREEN_FRAME <= vidmapTab[0].address <= SCREEN_FRAME + 3)
    }

    lemma PageMaps(n: nat)
      requires Shaped() && n < ENTRIES
      requires pageDir[0] == KERNEL_PAGE.(address := pageTabFrame) && pageTab[n].present
      ensures Maps(n * PAGE, pageTab[n].address)
    {
      forall off | 0 <= off < PAGE
        ensures Reach(n * PAGE, off) == Phys(pageTab[n].address * PAGE + off)
      {
        assert (n * PAGE + off) / PAGE == n && (n * PAGE + off) % PAGE == off;
        assert (n * PAGE + off) / LARGE == 0;
      }
    }

    lemma VideoMaps()
      requires Shaped() && Tables()
      ensures Maps(VIDEO_DIRECT, SCREEN_FRAME)
      ensures Maps(VIDEO, pageTab[0xB8].address)
    {
      PageMaps(0xB7);
      PageMaps(0xB8);
    }

    lemma BackingMaps(t: nat)
      requires Shaped() && Tables() && t < 3
      ensures Maps(VIDEO + PAGE * (1 + t), SCREEN_FRAME + 1 + t)
    {
      PageMaps(0xB9 + t);
    }

    // A kernel load and a kernel store through the tables.
    method Get(base: nat, off: nat, ghost frame: nat) returns (b: byte)
      requires Shaped() && Maps(base, frame) && off < PAGE && (frame + 1) * PAGE <= MEMORY
      ensures b == mem[frame * PAGE + off]
    {
      b := mem[Reach(base, off).address];
    }

    method Put(base: nat, off: nat, b: byte, ghost frame: nat)
      requires Shaped() && Maps(base, frame) && off < PAGE && (frame + 1) * PAGE <= MEMORY
      modifies mem
      ensures mem[frame * PAGE + off] == b
      ensures forall a :: 0 <= a < mem.Length && a != frame * PAGE + off ==> mem[a] == old(mem[a])
    {
      mem[Reach(base, off).address] := b;
    }

    // paging_execute
    method MapUser(pid: nat)
      requires Shaped() && pid < PROCESSES
      modifies pageDir
      ensures pageDir[USER_PDE] == UserEntry(pid)
      ensures forall i :: 0 <= i < ENTRIES && i != USER_PDE ==> pageDir[i] == old(pageDir[i])
    {
      pageDir[USER_PDE] := Entry(true, true, true, true, 0x400 + 0x400 + pid * 0x400);
    }

    // syscall_enable_vidmap_paging
    method EnableVidmap()
      requires Shaped() && Tables()
      modifies pageDir, vidmapTab
      ensures Tables() && pageDir[VIDMAP_PDE].present
      ensures vidmapTab[0].present && vidmapTab[0].address == SCREEN_FRAME
      ensures forall i :: 0 <= i < ENTRIES && i != VIDMAP_PDE ==> pageDir[i] == old(pageDir[i])
    {
      pageDir[VIDMAP_PDE] := Entry(true, true, true, false, vidmapTabFrame);
      vidmapTab[0] := Entry(true, true, true, false, VIDEO / PAGE);
    }

    // Which addresses a user-mode store can reach, and where it lands: the running
    // process's frame, or a video page through the vidmap entry.
    lemma UserReach(va: nat, pid: nat)
      requires Shaped() && Tables() && pid < PROCESSES && pageDir[USER_PDE] == UserEntry(pid)
      ensures Walk(va, true) ==
        if USER_START <= va < USER_START + LARGE then Phys(UserFrame(pid) + (va - USER_START))
        else if VIDMAP_START <= va < VIDMAP_START + PAGE && vidmapTab[0].present then
          Phys(vidmapTab[0].address * PAGE + (va - VIDMAP_START))
        else Fault
    {
    }

    // Which addresses a kernel access can reach: besides those, the kernel's own page
    // and the video pages.
    lemma KernelReach(va: nat, pid: nat)
      requires Shaped() && Tables() && pid < PROCESSES && pageDir[USER_PDE] == UserEntry(pid)
      ensures Walk(va, false) ==
        if VIDEO_DIRECT <= va < VIDEO then Phys(SCREEN_FRAME * PAGE + (va - VIDEO_DIRECT))
        else if VIDEO <= va < VIDEO + PAGE then Phys(pageTab[0xB8].address * PAGE + (va - VIDEO))
        else if VIDEO + PAGE <= va < VIDEO + 4 * PAGE || LARGE <= va < 2 * LARGE then Phys(va)
        else Walk(va, true)
    {
      if va < LARGE {
        assert va / LARGE == 0 && va / PAGE % ENTRIES == va / PAGE;
      } else if va < 2 * LARGE {
        assert va / LARGE == 1;
      }
    }

    // Whatever pointer a program hands to the kernel, no other program's frame is reached.
    lemma KernelReachesNoOtherFrame(va: nat, pid: nat, other: nat)
      requires Shaped() && Tables() && pid < PROCESSES && pageDir[USER_PDE] == UserEntry(pid)
      requires other < PROCESSES && other != pid && Walk(va, false).Phys?
      ensures !(UserFrame(other) <= Walk(va, false).address < UserFrame(other) + LARGE)
    {
      KernelReach(va, pid);
      UserReach(va, pid);
      hide Machine.Walk, Machine.Tables;
      assert other < pid ==> UserFrame(other) + LARGE <= UserFrame(pid);
      assert pid < other ==> UserFrame(pid) + LARGE <= UserFrame(other);
    }

    // A kernel store into the user page.
    method PutUser(off: nat, b: byte, ghost pid: nat)
      requires Shaped() && pid < PROCESSES && pageDir[USER_PDE] == UserEntry(pid) && off < LARGE
      modifies mem
      ensures mem[UserFrame(pid) + off] == b
      ensures forall a :: 0 <= a < mem.Length && a != UserFrame(pid) + off ==> mem[a] == old(mem[a])
    {
      assert (USER_START + off) / LARGE == USER_PDE && (USER_START + off) % LARGE == off;
      mem[Reach(USER_START, off).address] := b;
    }

    // page_initialize
    constructor (size: nat, tabFrame: nat, vidFrame: nat)
      requires size >= MEMORY && tabFrame != vidFrame
      ensures Shaped() && Tables()
      ensures pageTab[0xB8].address == SCREEN_FRAME && !vidmapTab[0].present
      ensures pageDir[USER_PDE] == pageDir[VIDMAP_PDE] == vidmapTab[0] == ABSENT
      ensures fresh(mem) && fresh(pageDir) && fresh(pageTab) && fresh(vidmapTab)
    {
      mem := new byte[size];
      var dir := new Entry[ENTRIES];
      var tab := new Entry[ENTRIES];
      var vid := new Entry[ENTRIES];
      pageDir, pageTab, vidmapTab, pageTabFrame, vidmapTabFrame := dir, tab, vid, tabFrame, vidFrame;
      new;
      pageDir[0] := Entry(true, true, false, false, tabFrame);
      pageDir[1] := Entry(true, true, false, true, 0x400);
      ClearEntries(pageDir, 2);
      ClearEntries(pageTab, 0);
      ClearEntries(vidmapTab, 0);
      MapVideo();
    }

    // The entries of the first page table that page_initialize fills in
    method MapVideo()
      requires Shaped() && forall i :: 0 <= i < ENTRIES ==> pageTab[i] == ABSENT
      modifies pageTab
      ensures pageTab[0xB7] == pageTab[0xB8] == KERNEL_PAGE.(address := SCREEN_FRAME)
      ensures forall i :: 0xB9 <= i <= 0xBB ==> pageTab[i] == KERNEL_PAGE.(address := i)
      ensures forall i :: 0 <= i < ENTRIES && !(0xB7 <= i <= 0xBB) ==> pageTab[i] == ABSENT
    {
      pageTab[VIDEO_DIRECT / PAGE] := Entry(true, true, false, false, VIDEO / PAGE);
      pageTab[VIDEO / PAGE] := Entry(true, true, false, false, VIDEO / PAGE);
      pageTab[0xB9000 / PAGE] := Entry(true, true, false, false, 0xB9000 / PAGE);
      pageTab[0xBA000 / PAGE] := Entry(true, true, false, false, 0xBA000 / PAGE);
      pageTab[0xBB000 / PAGE] := Entry(true, true, false, false, 0xBB000 / PAGE);
    }
  }

  method ClearEntries(table: array<Entry>, from: nat)
    requires from <= table.Length
    modifies table
    ensures forall i :: from <= i < table.Length ==> table[i] == ABSENT
    ensures forall i :: 0 <= i < from ==> table[i] == old(table[i])
  {
    for i := from to table.Length
      invariant forall j :: from <= j < i ==> table[j] == ABSENT
      invariant forall j :: 0 <= j < from ==> table[j] == old(table[j])
    {
      table[i] := ABSENT;
    }
  }
}
