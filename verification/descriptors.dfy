// The file descriptor table of student-distrib/general_file.c.
module Descriptors {
  import opened Words
  import opened FileSystem

  const MAX_NUM_FILES := 8

  // Which operations a slot's pointer names.
  datatype Operations = NoOps | Stdin | Stdout | FileOps | DirectoryOps | RtcOps

  datatype Slot = Slot(ops: Operations, inode: int, pos: nat, flags: int)

  datatype Call = Open(entry: Lookup) | Close(fd: int)

  function InitialSlot(i: nat): Slot {
    Slot(if i == 0 then Stdin else if i == 1 then Stdout else NoOps, -1, 0, 0)
  }

  predicate IsOpen(s: Slot) {
    s.flags == 1 && s.ops in {FileOps, DirectoryOps, RtcOps} && s.inode >= 0
  }

  // A failed open marks its slot used and leaves it otherwise as it was.
  predicate IsLeaked(s: Slot, i: nat) {
    s == InitialSlot(i).(flags := 1)
  }

  predicate TableOk(t: seq<Slot>) {
    && |t| == MAX_NUM_FILES
    && t[0] == InitialSlot(0) && t[1] == InitialSlot(1)
    && forall i :: 2 <= i < MAX_NUM_FILES ==> t[i] == InitialSlot(i) || IsOpen(t[i]) || IsLeaked(t[i], i)
  }

  // The least slot from 2 on that is not marked used, or 8.
  function FirstFree(t: seq<Slot>, from: nat): (i: nat)
    requires from <= |t| == MAX_NUM_FILES
    ensures from <= i <= MAX_NUM_FILES
    ensures i < MAX_NUM_FILES ==> t[i].flags != 1
    ensures forall j :: from <= j < i ==> t[j].flags == 1
    decreases |t| - from
  {
    if from < MAX_NUM_FILES && t[from].flags == 1 then FirstFree(t, from + 1) else from
  }

  function OperationsOf(kind: nat): Operations {
    if kind == 2 then FileOps else if kind == 1 then DirectoryOps else if kind == 0 then RtcOps else NoOps
  }

  // The slot that open leaves behind.
  function Taken(s: Slot, entry: Lookup): Slot {
    if entry.Found? && entry.kind <= 2 then Slot(OperationsOf(entry.kind), entry.inode, 0, 1) else s.(flags := 1)
  }

  function After(t: seq<Slot>, c: Call): seq<Slot>
    requires |t| == MAX_NUM_FILES
  {
    match c
    case Open(entry) =>
      var i := FirstFree(t, 2);
      if i == MAX_NUM_FILES then t else t[i := Taken(t[i], entry)]
    case Close(fd) =>
      if 0 <= fd < MAX_NUM_FILES && t[fd].inode != -1 then t[fd := Slot(NoOps, -1, 0, 0)] else t
  }

  function Answer(t: seq<Slot>, c: Call): int
    requires |t| == MAX_NUM_FILES
  {
    match c
    case Open(entry) => if FirstFree(t, 2) == MAX_NUM_FILES || entry.Missing? then -1 else FirstFree(t, 2)
    case Close(fd) => if 0 <= fd < MAX_NUM_FILES && t[fd].inode != -1 then 0 else -1
  }

  // A read of this descriptor reaches a file: it is an open file of the image, other
  // than inode 0, which file_read takes for none.
  ghost predicate Readable(t: seq<Slot>, fd: int, disk: seq<byte>)
    requires |t| == MAX_NUM_FILES
  {
    && 0 <= fd < MAX_NUM_FILES && t[fd].ops == FileOps && 0 < t[fd].inode
    && ImageOk(disk) && t[fd].inode < InodeCount(disk) && FileOk(disk, t[fd].inode)
  }

  // ----- The table in memory -----

  class Table {
    const slots: array<Slot>
    // Where the flags of a ninth slot would be: the saved ebp of the PCB.
    var beyond: int

    ghost predicate Valid() reads slots {
      slots.Length == MAX_NUM_FILES && TableOk(slots[..])
    }

    // file_descriptor_table_init
    constructor ()
      ensures Valid() && fresh(slots)
      ensures forall i :: 0 <= i < MAX_NUM_FILES ==> slots[i] == InitialSlot(i)
    {
      slots := new Slot[MAX_NUM_FILES];
      beyond := 0;
      new;
      for i := 0 to MAX_NUM_FILES
        invariant forall j :: 0 <= j < i ==> slots[j] == InitialSlot(j)
      {
        if i == 0 {
          slots[i] := Slot(Stdin, -1, 0, 0);
        } else if i == 1 {
          slots[i] := Slot(Stdout, -1, 0, 0);
        } else {
          slots[i] := Slot(NoOps, -1, 0, 0);
        }
      }
    }

    // file_descriptor_table_open
    method Open(entry: Lookup) returns (fd: int)
      requires Valid()
      modifies slots, this`beyond
      ensures Valid()
      ensures slots[..] == After(old(slots[..]), Call.Open(entry)) && fd == Answer(old(slots[..]), Call.Open(entry))
      ensures beyond == if FirstFree(old(slots[..]), 2) == MAX_NUM_FILES then 1 else old(beyond)
    {
      CallKeepsTable(slots[..], Call.Open(entry));
      var n := 2;
      while n < MAX_NUM_FILES && slots[n].flags == 1
        invariant 2 <= n <= MAX_NUM_FILES
        invariant FirstFree(slots[..], n) == FirstFree(slots[..], 2)
      {
        n := n + 1;
      }
      if n == MAX_NUM_FILES {
        beyond := 1;
        return -1;
      }
      slots[n] := slots[n].(flags := 1);
      if entry.Missing? {
        return -1;
      }
      if entry.kind == 2 {
        slots[n] := slots[n].(ops := FileOps, inode := entry.inode, pos := 0);
      } else if entry.kind == 1 {
        slots[n] := slots[n].(ops := DirectoryOps, inode := entry.inode, pos := 0);
      } else if entry.kind == 0 {
        slots[n] := slots[n].(ops := RtcOps, inode := entry.inode, pos := 0);
      }
      return n;
    }

    // file_descriptor_table_read of an ordinary file, or of a slot with nothing to read
    method Read(fd: int, disk: seq<byte>, buf: array<byte>, length: nat) returns (r: int)
      requires Valid() && ImageOk(disk) && length < UINT32
      requires 0 <= fd < MAX_NUM_FILES ==> slots[fd].ops in {NoOps, Stdout, FileOps} && slots[fd].pos < UINT32
      requires 0 <= fd < MAX_NUM_FILES && slots[fd].ops == FileOps && slots[fd].inode < InodeCount(disk) ==>
        && FileOk(disk, slots[fd].inode)
        && |Slice(Contents(disk, slots[fd].inode), slots[fd].pos, length)| <= buf.Length
      modifies slots, buf
      ensures Valid()
      ensures Readable(old(slots[..]), fd, disk) ==>
        var f, pos := Contents(disk, old(slots[fd].inode)), old(slots[fd].pos);
        && r == |Slice(f, pos, length)|
        && buf[..r] == Slice(f, pos, length) && buf[r..] == old(buf[r..])
        && slots[..] == old(slots[..])[fd := old(slots[fd]).(pos := NextPosition(f, pos, length))]
      ensures !Readable(old(slots[..]), fd, disk) ==>
        r == -1 && buf[..] == old(buf[..]) && slots[..] == old(slots[..])
    {
      hide FileOk, Contents, Slice, NextPosition;
      if fd < 0 || fd >= MAX_NUM_FILES {
        return -1;
      }
      if slots[fd].ops == NoOps {
        return -1;
      }
      if slots[fd].ops == Stdout {
        return -1;
      }
      var next;
      r, next := FileRead(disk, slots[fd].inode, slots[fd].pos, buf, length);
      slots[fd] := slots[fd].(pos := next);
    }

    // file_descriptor_table_close, with file_close
    method Close(fd: int) returns (status: int)
      requires Valid()
      modifies slots
      ensures Valid()
      ensures slots[..] == After(old(slots[..]), Call.Close(fd)) && status == Answer(old(slots[..]), Call.Close(fd))
    {
      CallKeepsTable(slots[..], Call.Close(fd));
      if fd < 0 || fd >= MAX_NUM_FILES {
        return -1;
      }
      if slots[fd].inode == -1 {
        return -1;
      }
      slots[fd] := slots[fd].(inode := -1);
      slots[fd] := slots[fd].(ops := NoOps, pos := 0, flags := 0);
      return 0;
    }
  }

  // ----- What an open leaves behind -----

  // An open of a name the directory has takes the least slot not marked used, and that
  // slot then names the entry's inode at position 0 and the operations of its kind.
  lemma OpenedSlot(t: seq<Slot>, kind: nat, inode: nat)
    requires TableOk(t) && kind <= 2 && exists i :: 2 <= i < MAX_NUM_FILES && t[i].flags != 1
    ensures var fd, r := Answer(t, Open(Found(kind, inode))), After(t, Open(Found(kind, inode)));
      && 2 <= fd < MAX_NUM_FILES && t[fd].flags != 1 && (forall i :: 2 <= i < fd ==> t[i].flags == 1)
      && r[fd].inode == inode && r[fd].pos == 0 && r[fd].flags == 1
      && (kind == 2 ==> r[fd].ops == FileOps)
      && (kind == 1 ==> r[fd].ops == DirectoryOps)
      && (kind == 0 ==> r[fd].ops == RtcOps)
      && forall i :: 0 <= i < MAX_NUM_FILES && i != fd ==> r[i] == t[i]
  {
  }

  // ----- Over every sequence of calls -----

  lemma CallKeepsTable(t: seq<Slot>, c: Call)
    requires TableOk(t)
    ensures TableOk(After(t, c))
  {
  }

  function AfterAll(t: seq<Slot>, calls: seq<Call>): (r: seq<Slot>)
    requires TableOk(t)
    ensures TableOk(r)
    decreases |calls|
  {
    if calls == [] then t
    else
      CallKeepsTable(t, calls[0]);
      AfterAll(After(t, calls[0]), calls[1..])
  }

  // What the invariant says of a slot from 2 on.
  lemma SlotMeaning(t: seq<Slot>, i: nat)
    requires TableOk(t) && 2 <= i < MAX_NUM_FILES
    ensures t[i].ops != NoOps <==> t[i].inode != -1
    ensures t[i].flags == 0 ==> t[i] == InitialSlot(i)
  {
  }

  // Opening an existing name gives the least slot not in use, and closing it again
  // restores the table; 0, 1 and slots that hold nothing cannot be closed.
  lemma OpenThenClose(t: seq<Slot>, kind: nat, inode: nat)
    requires TableOk(t) && kind <= 2 && FirstFree(t, 2) < MAX_NUM_FILES
    ensures var c := Open(Found(kind, inode));
      var fd := Answer(t, c);
      && 2 <= fd == FirstFree(t, 2)
      && IsOpen(After(t, c)[fd])
      && Answer(After(t, c), Close(fd)) == 0
      && After(After(t, c), Close(fd)) == t
  {
  }

  lemma CloseSucceedsExactlyWhenOpen(t: seq<Slot>, fd: int)
    requires TableOk(t)
    ensures Answer(t, Close(fd)) == 0 <==> 2 <= fd < MAX_NUM_FILES && IsOpen(t[fd])
    ensures Answer(t, Close(fd)) == -1 ==> After(t, Close(fd)) == t
  {
  }

  // ----- Leaks -----

  function Leaks(t: seq<Slot>, from: nat): (n: nat)
    requires from <= |t| == MAX_NUM_FILES
    ensures n <= MAX_NUM_FILES - from
    decreases |t| - from
  {
    if from == MAX_NUM_FILES then 0 else (if IsLeaked(t[from], from) then 1 else 0) + Leaks(t, from + 1)
  }

  // Opens of a missing name, or of a name of unknown kind, that find a free slot.
  function FailedOpens(t: seq<Slot>, calls: seq<Call>): nat
    requires TableOk(t)
    decreases |calls|
  {
    if calls == [] then 0
    else
      CallKeepsTable(t, calls[0]);
      (if Leaking(t, calls[0]) then 1 else 0) + FailedOpens(After(t, calls[0]), calls[1..])
  }

  predicate Leaking(t: seq<Slot>, c: Call)
    requires |t| == MAX_NUM_FILES
  {
    c.Open? && (c.entry.Missing? || c.entry.kind > 2) && FirstFree(t, 2) < MAX_NUM_FILES
  }

  lemma {:induction false} LeaksElsewhere(t: seq<Slot>, from: nat, i: nat, s: Slot)
    requires from <= |t| == MAX_NUM_FILES && i < MAX_NUM_FILES
    ensures Leaks(t[i := s], from) == Leaks(t, from)
      + (if from <= i && IsLeaked(s, i) then 1 else 0) - (if from <= i && IsLeaked(t[i], i) then 1 else 0)
    decreases |t| - from
  {
    if from < MAX_NUM_FILES {
      LeaksElsewhere(t, from + 1, i, s);
    }
  }

  // A leaked slot is lost for good, and only failed opens make them: after any calls
  // the table has lost exactly as many slots as there were failed opens.
  lemma {:induction false} EveryFailedOpenLeaks(t: seq<Slot>, calls: seq<Call>)
    requires TableOk(t)
    ensures Leaks(AfterAll(t, calls), 2) == Leaks(t, 2) + FailedOpens(t, calls)
    decreases |calls|
  {
    if calls != [] {
      CallKeepsTable(t, calls[0]);
      CallLeaks(t, calls[0]);
      EveryFailedOpenLeaks(After(t, calls[0]), calls[1..]);
    }
  }

  lemma CallLeaks(t: seq<Slot>, c: Call)
    requires TableOk(t)
    ensures Leaks(After(t, c), 2) == Leaks(t, 2) + if Leaking(t, c) then 1 else 0
  {
    match c
    case Open(entry) =>
      var i := FirstFree(t, 2);
      if i < MAX_NUM_FILES {
        LeaksElsewhere(t, 2, i, Taken(t[i], entry));
      }
    case Close(fd) =>
      if 0 <= fd < MAX_NUM_FILES && t[fd].inode != -1 {
        LeaksElsewhere(t, 2, fd, Slot(NoOps, -1, 0, 0));
      }
  }

  // With six failed opens behind it, no open succeeds again, whatever is closed.
  lemma SixFailuresExhaust(t: seq<Slot>, calls: seq<Call>, entry: Lookup)
    requires TableOk(t) && FailedOpens(t, calls) >= 6
    ensures Answer(AfterAll(t, calls), Open(entry)) == -1
  {
    EveryFailedOpenLeaks(t, calls);
    AllLeaked(AfterAll(t, calls), 2);
  }

  lemma {:induction false} AllLeaked(t: seq<Slot>, from: nat)
    requires 2 <= from <= |t| == MAX_NUM_FILES && Leaks(t, from) == MAX_NUM_FILES - from
    ensures FirstFree(t, from) == MAX_NUM_FILES
    decreases |t| - from
  {
    if from < MAX_NUM_FILES {
      AllLeaked(t, from + 1);
    }
  }
}
