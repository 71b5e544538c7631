// The read-only file system of student-distrib/filesystem.c on the bytes of its
// image: a boot block, then inode blocks, then data blocks of 4096 bytes.
module FileSystem {
  import opened Words

  const BLOCK := 4096
  const SLOTS := 1023               // data_block_num entries of an i_node_t

  // What a search of the directory answers: a kind of file and an inode number.
  datatype Lookup = Missing | Found(kind: nat, inode: nat)

  function Le32(disk: seq<byte>, a: nat): nat
    requires a + 4 <= |disk|
  {
    var b0: nat, b1: nat, b2: nat, b3: nat := disk[a], disk[a + 1], disk[a + 2], disk[a + 3];
    b0 + 0x100 * b1 + 0x10000 * b2 + 0x1000000 * b3
  }

  // The counts in the boot block cover the image.
  ghost predicate ImageOk(disk: seq<byte>) {
    && |disk| >= BLOCK
    && BLOCK * (1 + InodeCount(disk) + DataCount(disk)) <= |disk| < UINT32
  }

  function InodeCount(disk: seq<byte>): nat
    requires |disk| >= BLOCK
  {
    Le32(disk, 4)
  }

  function DataCount(disk: seq<byte>): nat
    requires |disk| >= BLOCK
  {
    Le32(disk, 8)
  }

  function InodeAddress(inode: nat): nat {
    BLOCK * (1 + inode)
  }

  function FileLength(disk: seq<byte>, inode: nat): nat
    requires InodeAddress(inode) + 4 <= |disk|
  {
    Le32(disk, InodeAddress(inode))
  }

  // Slot 1023 is the first word of the next block: read_data looks there, and copies
  // nothing, when a full-sized file is read to its end.
  function Slot(disk: seq<byte>, inode: nat, k: nat): nat
    requires InodeAddress(inode) + 8 + 4 * k <= |disk|
  {
    Le32(disk, InodeAddress(inode) + 4 + 4 * k)
  }

  function DataAddress(disk: seq<byte>, number: nat): nat
    requires |disk| >= BLOCK
  {
    BLOCK * (InodeCount(disk) + 1 + number)
  }

  // The file fits an inode, and each block it needs is a data block of the image.
  ghost predicate FileOk(disk: seq<byte>, inode: nat) {
    && ImageOk(disk) && inode < InodeCount(disk)
    && FileLength(disk, inode) <= SLOTS * BLOCK
    && forall k :: 0 <= k && BLOCK * k < FileLength(disk, inode) ==> Slot(disk, inode, k) < DataCount(disk)
  }

  // The file as one sequence of bytes.
  ghost function Contents(disk: seq<byte>, inode: nat): (f: seq<byte>)
    requires FileOk(disk, inode)
    ensures |f| == FileLength(disk, inode)
  {
    seq(FileLength(disk, inode), p requires 0 <= p < FileLength(disk, inode) => ByteOf(disk, inode, p))
  }

  ghost function ByteOf(disk: seq<byte>, inode: nat, p: nat): byte
    requires FileOk(disk, inode) && p < FileLength(disk, inode)
  {
    SlotInRange(disk, inode, p / BLOCK);
    disk[DataAddress(disk, Slot(disk, inode, p / BLOCK)) + p % BLOCK]
  }

  lemma SlotInRange(disk: seq<byte>, inode: nat, k: nat)
    requires FileOk(disk, inode) && BLOCK * k < FileLength(disk, inode)
    ensures k < SLOTS && InodeAddress(inode) + 8 + 4 * k <= |disk|
    ensures Slot(disk, inode, k) < DataCount(disk)
    ensures DataAddress(disk, Slot(disk, inode, k)) + BLOCK <= |disk|
  {
  }

  // The part of a file that a read asks for.
  function Slice(file: seq<byte>, offset: nat, length: nat): (s: seq<byte>) {
    if offset >= |file| then []
    else if length > |file| - offset then file[offset..]
    else file[offset..offset + length]
  }

  // ----- read_data -----

  // memcpy of part of one block to the buffer
  method CopyOut(disk: seq<byte>, from: nat, count: nat, buf: array<byte>, at: nat)
    requires count > 0 ==> from + count <= |disk|
    requires at + count <= buf.Length
    modifies buf
    ensures forall j :: at <= j < at + count ==> from + (j - at) < |disk| && buf[j] == disk[from + (j - at)]
    ensures forall j :: 0 <= j < buf.Length && !(at <= j < at + count) ==> buf[j] == old(buf[j])
  {
    for i := 0 to count
      invariant forall j :: at <= j < at + i ==> buf[j] == disk[from + (j - at)]
      invariant forall j :: 0 <= j < buf.Length && !(at <= j < at + i) ==> buf[j] == old(buf[j])
    {
      buf[at + i] := disk[from + i];
    }
  }

  // One turn of the loop copies the file's bytes from `start` to `stop`, which lie in
  // block `index`.
  method CopyBlock(disk: seq<byte>, inode: nat, index: nat, start: nat, stop: nat, buf: array<byte>, at: nat)
    requires FileOk(disk, inode) && start <= stop <= FileLength(disk, inode)
    requires 0 < FileLength(disk, inode) && index <= SLOTS
    requires BLOCK * index <= start && stop <= BLOCK * (index + 1)
    requires at + (stop - start) <= buf.Length
    modifies buf
    ensures forall j :: at <= j < at + (stop - start) ==> buf[j] == Contents(disk, inode)[start + (j - at)]
    ensures forall j :: 0 <= j < buf.Length && !(at <= j < at + (stop - start)) ==> buf[j] == old(buf[j])
  {
    SlotInRange(disk, inode, 0);
    var number := Slot(disk, inode, index);
    var begin := start - BLOCK * index;
    if start < stop {
      SlotInRange(disk, inode, index);
    }
    CopyOut(disk, DataAddress(disk, number) + begin, stop - start, buf, at);
    forall j | at <= j < at + (stop - start)
      ensures buf[j] == Contents(disk, inode)[start + (j - at)]
    {
      var p := start + (j - at);
      assert p / BLOCK == index && p % BLOCK == p - BLOCK * index;
    }
  }

  method ReadData(disk: seq<byte>, inode: int, offset: nat, buf: array<byte>, length: nat) returns (r: int)
    requires ImageOk(disk) && (0 <= inode < InodeCount(disk) ==> FileOk(disk, inode))
    requires offset < UINT32 && length < UINT32
    requires 0 <= inode < InodeCount(disk) ==> |Slice(Contents(disk, inode), offset, length)| <= buf.Length
    modifies buf
    ensures !(0 <= inode < InodeCount(disk)) ==> r == -1 && buf[..] == old(buf[..])
    ensures 0 <= inode < InodeCount(disk) ==>
      && r == |Slice(Contents(disk, inode), offset, length)|
      && buf[..r] == Slice(Contents(disk, inode), offset, length)
      && buf[r..] == old(buf[r..])
  {
    hide Contents, FileOk, Slice;
    if inode >= InodeCount(disk) || inode < 0 {
      return -1;
    }
    r := ReadFile(disk, inode, offset, buf, length);
  }

  method ReadFile(disk: seq<byte>, inode: nat, offset: nat, buf: array<byte>, length: nat) returns (r: nat)
    requires FileOk(disk, inode) && offset < UINT32 && length < UINT32
    requires |Slice(Contents(disk, inode), offset, length)| <= buf.Length
    modifies buf
    ensures r == |Slice(Contents(disk, inode), offset, length)|
    ensures buf[..r] == Slice(Contents(disk, inode), offset, length) && buf[r..] == old(buf[r..])
  {
    var size := FileLength(disk, inode);
    if offset >= size {
      return 0;
    }
    var n := if length > size - offset then size - offset else length;
    assert offset + n < UINT32;
    r := CopyBlocks(disk, inode, offset, n, buf);
  }

  // Where the loop's turn for block `index` begins.
  function TurnStart(offset: nat, end: nat, index: nat): nat {
    if index == offset / BLOCK then offset else if index <= end / BLOCK then BLOCK * index else end
  }

  lemma TurnFits(offset: nat, end: nat, index: nat)
    requires offset <= end && offset / BLOCK <= index <= end / BLOCK
    ensures offset <= TurnStart(offset, end, index) <= TurnStart(offset, end, index + 1) <= end
    ensures BLOCK * index <= TurnStart(offset, end, index)
    ensures TurnStart(offset, end, index + 1) <= BLOCK * (index + 1)
    ensures TurnStart(offset, end, index) - BLOCK * index == if index == offset / BLOCK then offset % BLOCK else 0
    ensures TurnStart(offset, end, index + 1) - BLOCK * index == if index == end / BLOCK then end % BLOCK else BLOCK
  {
  }

  method CopyBlocks(disk: seq<byte>, inode: nat, offset: nat, n: nat, buf: array<byte>) returns (r: nat)
    requires FileOk(disk, inode) && offset + n <= FileLength(disk, inode) && offset < FileLength(disk, inode)
    requires n <= buf.Length
    modifies buf
    ensures r == n
    ensures buf[..n] == Contents(disk, inode)[offset..offset + n] && buf[n..] == old(buf[n..])
  {
    var first, last := offset / BLOCK, (offset + n) / BLOCK;
    ghost var f, end := Contents(disk, inode), offset + n;
    r := 0;
    var index := first;
    while index <= last
      invariant first <= index <= last + 1 <= SLOTS + 1
      invariant r == TurnStart(offset, end, index) - offset <= n
      invariant forall j :: 0 <= j < r ==> buf[j] == f[offset + j]
      invariant forall j :: r <= j < buf.Length ==> buf[j] == old(buf[j])
    {
      TurnFits(offset, end, index);
      var begin, stop := 0, BLOCK;
      if index == first {
        begin := offset % BLOCK;
      }
      if index == last {
        stop := (offset + n) % BLOCK;
      }
      CopyBlock(disk, inode, index, BLOCK * index + begin, BLOCK * index + stop, buf, r);
      r := r + (stop - begin);
      index := index + 1;
    }
  }

  // ----- Reading a file in chunks -----

  // file_read moves the position by what was asked for, not by what came back, in
  // 32-bit arithmetic, and only when something came back.
  function NextPosition(file: seq<byte>, pos: nat, asked: nat): nat {
    if Slice(file, pos, asked) == [] then pos else (pos + asked) % UINT32
  }

  // All that a sequence of reads returns, in order, and where they leave the position.
  function Received(file: seq<byte>, pos: nat, requests: seq<nat>): seq<byte>
    decreases |requests|
  {
    if requests == [] then []
    else Slice(file, pos, requests[0]) + Received(file, NextPosition(file, pos, requests[0]), requests[1..])
  }

  function PositionAfter(file: seq<byte>, pos: nat, requests: seq<nat>): nat
    decreases |requests|
  {
    if requests == [] then pos else PositionAfter(file, NextPosition(file, pos, requests[0]), requests[1..])
  }

  // A request an int32_t byte count can make, other than none.
  predicate Positive(requests: seq<nat>) {
    forall i :: 0 <= i < |requests| ==> 0 < requests[i] < UINT32 / 2
  }

  function Clip(pos: nat, file: seq<byte>): (n: nat)
    ensures n <= |file|
  {
    if pos > |file| then |file| else pos
  }

  lemma ChunkIsBetween(file: seq<byte>, pos: nat, asked: nat)
    requires |file| <= SLOTS * BLOCK && pos < |file| + UINT32 / 2 && 0 < asked < UINT32 / 2
    ensures var next := NextPosition(file, pos, asked);
      && pos <= next < |file| + UINT32 / 2
      && Slice(file, pos, asked) == file[Clip(pos, file)..Clip(next, file)]
      && (Slice(file, pos, asked) == [] <==> pos >= |file|)
  {
  }

  lemma Joins(file: seq<byte>, a: nat, b: nat, c: nat)
    requires a <= b <= c <= |file|
    ensures file[a..b] + file[b..c] == file[a..c]
  {
  }

  // For every sequence of positive requests, the pieces join to the file between the
  // two positions; none is lost or repeated, although the position overshoots.
  lemma {:induction false} ChunksRebuildFile(file: seq<byte>, pos: nat, requests: seq<nat>)
    requires |file| <= SLOTS * BLOCK && pos < |file| + UINT32 / 2 && Positive(requests)
    ensures var after := PositionAfter(file, pos, requests);
      && pos <= after < |file| + UINT32 / 2
      && Received(file, pos, requests) == file[Clip(pos, file)..Clip(after, file)]
    decreases |requests|
  {
    if requests != [] {
      ChunkIsBetween(file, pos, requests[0]);
      hide Slice, NextPosition;
      var next := NextPosition(file, pos, requests[0]);
      ChunksRebuildFile(file, next, requests[1..]);
      Joins(file, Clip(pos, file), Clip(next, file), Clip(PositionAfter(file, next, requests[1..]), file));
    }
  }

  // A read returns nothing only when the whole file has been delivered.
  lemma NothingLeftAtEnd(file: seq<byte>, requests: seq<nat>, asked: nat)
    requires |file| <= SLOTS * BLOCK && Positive(requests) && 0 < asked
    ensures Slice(file, PositionAfter(file, 0, requests), asked) == [] <==> Received(file, 0, requests) == file
  {
    ChunksRebuildFile(file, 0, requests);
    var after := PositionAfter(file, 0, requests);
    if after < |file| {
      assert |Received(file, 0, requests)| == after;
    }
  }

  // A negative byte count reaches file_read as a request of 2^31 or more. The position
  // then moves past what was delivered exactly when the sum does not wrap.
  lemma PositionAdvancesExactlyWhen(file: seq<byte>, pos: nat, asked: nat)
    requires |file| <= SLOTS * BLOCK && asked < UINT32 && Slice(file, pos, asked) != []
    ensures NextPosition(file, pos, asked) >= pos + |Slice(file, pos, asked)| <==> pos + asked < UINT32
  {
  }

  lemma NegativeCountRereads(a: byte, b: byte)
    ensures var file, minusOne := [a, b], UINT32 - 1;
      Received(file, 0, [1, minusOne, 1]) == [a, b, a]
  {
    var file, minusOne := [a, b], UINT32 - 1;
    assert NextPosition(file, 0, 1) == 1 && NextPosition(file, 1, minusOne) == 0;
    assert Received(file, 0, [1]) == [a];
    assert [1, minusOne, 1][1..] == [minusOne, 1] && [minusOne, 1][1..] == [1];
    assert Received(file, 1, [minusOne, 1]) == [b] + Received(file, 0, [1]);
  }

  // file_read; an inode number of 0 reads as an unopened file
  method FileRead(disk: seq<byte>, inode: int, pos: nat, buf: array<byte>, length: nat) returns (r: int, next: nat)
    requires ImageOk(disk) && (0 <= inode < InodeCount(disk) ==> FileOk(disk, inode))
    requires pos < UINT32 && length < UINT32
    requires 0 <= inode < InodeCount(disk) ==> |Slice(Contents(disk, inode), pos, length)| <= buf.Length
    modifies buf
    ensures inode == 0 || !(0 <= inode < InodeCount(disk)) ==> r == -1 && next == pos && buf[..] == old(buf[..])
    ensures 0 < inode < InodeCount(disk) ==>
      var f := Contents(disk, inode);
      && r == |Slice(f, pos, length)|
      && buf[..r] == Slice(f, pos, length) && buf[r..] == old(buf[r..])
      && next == NextPosition(f, pos, length)
  {
    hide FileOk, Contents, Slice;
    next := pos;
    if inode == 0 {
      r := -1;
      return;
    }
    r := ReadData(disk, inode, pos, buf, length);
    if r > 0 {
      next := (pos + length) % UINT32;
    }
  }

  lemma SliceFits(file: seq<byte>, pos: nat, length: nat)
    ensures |Slice(file, pos, length)| <= length
  {
  }

  lemma FileIsSmall(disk: seq<byte>, inode: nat)
    requires FileOk(disk, inode)
    ensures |Contents(disk, inode)| <= SLOTS * BLOCK
  {
  }
}
