// File system images as a tool would write them: a boot block, one block per inode and
// the data blocks, laid end to end. The reader's view of them is proved to be the files
// that were put in.
module Images {
  import opened Words
  import opened FileSystem

  // ----- Writing -----

  // A 32-bit number, least significant byte first.
  function Bytes4(n: nat): (r: seq<byte>)
    requires n < UINT32
    ensures |r| == 4
  {
    [n % 0x100, n / 0x100 % 0x100, n / 0x10000 % 0x100, n / 0x1000000]
  }

  function Numbers(ns: seq<nat>): (r: seq<byte>)
    requires forall i :: 0 <= i < |ns| ==> ns[i] < UINT32
    ensures |r| == 4 * |ns|
  {
    if ns == [] then [] else Numbers(ns[..|ns| - 1]) + Bytes4(ns[|ns| - 1])
  }

  type Block = b: seq<byte> | |b| == 4096 witness seq(4096, _ => 0)

  // Filled up to a whole block.
  function Filled(bytes: seq<byte>): Block
    requires |bytes| <= 4096
  {
    bytes + seq(4096 - |bytes|, _ => 0)
  }

  function Joined(blocks: seq<Block>): (r: seq<byte>)
    ensures |r| == 4096 * |blocks|
  {
    if blocks == [] then [] else Joined(blocks[..|blocks| - 1]) + blocks[|blocks| - 1]
  }

  // The blocks a file is cut into, the last one filled up.
  function Cut(file: seq<byte>): (r: seq<Block>)
    ensures |r| == (|file| + 4095) / 4096
  {
    if file == [] then []
    else if |file| <= 4096 then [Filled(file)]
    else [file[..4096]] + Cut(file[4096..])
  }

  // A file, and the numbers of the data blocks it is put into.
  datatype Placed = Placed(file: seq<byte>, places: seq<nat>)

  predicate PlacedOk(p: Placed) {
    && |p.file| <= 1023 * 4096 && |p.places| == |Cut(p.file)|
    && forall k :: 0 <= k < |p.places| ==> p.places[k] < UINT32
  }

  function InodeBlock(p: Placed): Block
    requires PlacedOk(p)
  {
    Filled(Bytes4(|p.file|) + Numbers(p.places))
  }

  function InodeBlocks(files: seq<Placed>): (r: seq<Block>)
    requires forall i :: 0 <= i < |files| ==> PlacedOk(files[i])
    ensures |r| == |files|
  {
    seq(|files|, i requires 0 <= i < |files| => InodeBlock(files[i]))
  }

  // The boot block: how many directory entries, inodes and data blocks, 52 reserved
  // bytes, and the directory.
  function BootBlock(entries: nat, inodes: nat, blocks: nat, rest: seq<byte>): Block
    requires entries < UINT32 && inodes < UINT32 && blocks < UINT32 && |rest| == 4096 - 12
  {
    Bytes4(entries) + Bytes4(inodes) + Bytes4(blocks) + rest
  }

  predicate ImageFits(entries: nat, rest: seq<byte>, files: seq<Placed>, data: seq<Block>) {
    && entries < UINT32 && |rest| == 4096 - 12 && 4096 * (1 + |files| + |data|) < UINT32
    && forall i :: 0 <= i < |files| ==> PlacedOk(files[i])
  }

  // Every file's pieces are in the data blocks it is placed in.
  ghost predicate Stored(files: seq<Placed>, data: seq<Block>) {
    && (forall i :: 0 <= i < |files| ==> PlacedOk(files[i]))
    && forall i, k :: 0 <= i < |files| && 0 <= k < |files[i].places| ==>
        files[i].places[k] < |data| && data[files[i].places[k]] == Cut(files[i].file)[k]
  }

  function Image(entries: nat, rest: seq<byte>, files: seq<Placed>, data: seq<Block>): (r: seq<byte>)
    requires ImageFits(entries, rest, files, data)
    ensures |r| == 4096 * (1 + |files| + |data|)
  {
    Joined([BootBlock(entries, |files|, |data|, rest)] + InodeBlocks(files) + data)
  }

  // ----- Reading back -----

  lemma {:induction false} JoinedAt(blocks: seq<Block>, b: nat, j: nat)
    requires b < |blocks| && j < 4096
    ensures Joined(blocks)[4096 * b + j] == blocks[b][j]
  {
    if b < |blocks| - 1 {
      JoinedAt(blocks[..|blocks| - 1], b, j);
    }
  }

  lemma {:induction false} NumbersAt(ns: seq<nat>, k: nat, j: nat)
    requires (forall i :: 0 <= i < |ns| ==> ns[i] < UINT32) && k < |ns| && j < 4
    ensures Numbers(ns)[4 * k + j] == Bytes4(ns[k])[j]
  {
    if k < |ns| - 1 {
      NumbersAt(ns[..|ns| - 1], k, j);
    }
  }

  lemma Bytes4Read(n: nat)
    requires n < UINT32
    ensures var b := Bytes4(n);
      var b0: nat, b1: nat, b2: nat, b3: nat := b[0], b[1], b[2], b[3];
      b0 + 0x100 * b1 + 0x10000 * b2 + 0x1000000 * b3 == n
  {
  }

  lemma Le32Is(disk: seq<byte>, a: nat, n: nat)
    requires a + 4 <= |disk| && n < UINT32 && forall j :: 0 <= j < 4 ==> disk[a + j] == Bytes4(n)[j]
    ensures Le32(disk, a) == n
  {
    Bytes4Read(n);
    assert disk[a + 0] == Bytes4(n)[0];
  }

  lemma {:induction false} CutAt(file: seq<byte>, p: nat)
    requires p < |file|
    ensures p / 4096 < |Cut(file)| && Cut(file)[p / 4096][p % 4096] == file[p]
  {
    if |file| > 4096 && p >= 4096 {
      CutAt(file[4096..], p - 4096);
      assert (p - 4096) / 4096 == p / 4096 - 1 && (p - 4096) % 4096 == p % 4096;
    }
  }

  // Block b of an image: the boot block, then the inodes, then the data.
  lemma ImageAt(entries: nat, rest: seq<byte>, files: seq<Placed>, data: seq<Block>, j: nat)
    requires ImageFits(entries, rest, files, data) && j < 4096
    ensures var disk := Image(entries, rest, files, data);
      && disk[j] == BootBlock(entries, |files|, |data|, rest)[j]
      && (forall i :: 0 <= i < |files| ==> disk[4096 * (1 + i) + j] == InodeBlock(files[i])[j])
      && forall d :: 0 <= d < |data| ==> disk[4096 * (1 + |files| + d) + j] == data[d][j]
  {
    hide Joined, BootBlock, InodeBlock, PlacedOk;
    var blocks := [BootBlock(entries, |files|, |data|, rest)] + InodeBlocks(files) + data;
    JoinedAt(blocks, 0, j);
    forall i | 0 <= i < |files|
      ensures Joined(blocks)[4096 * (1 + i) + j] == InodeBlock(files[i])[j]
    {
      JoinedAt(blocks, 1 + i, j);
    }
    forall d | 0 <= d < |data|
      ensures Joined(blocks)[4096 * (1 + |files| + d) + j] == data[d][j]
    {
      JoinedAt(blocks, 1 + |files| + d, j);
    }
  }

  lemma CountsRead(entries: nat, rest: seq<byte>, files: seq<Placed>, data: seq<Block>)
    requires ImageFits(entries, rest, files, data)
    ensures var disk := Image(entries, rest, files, data);
      ImageOk(disk) && InodeCount(disk) == |files| && DataCount(disk) == |data|
  {
    var disk, boot := Image(entries, rest, files, data), BootBlock(entries, |files|, |data|, rest);
    forall j | 0 <= j < 4
      ensures disk[4 + j] == Bytes4(|files|)[j] && disk[8 + j] == Bytes4(|data|)[j]
    {
      ImageAt(entries, rest, files, data, 4 + j);
      ImageAt(entries, rest, files, data, 8 + j);
      hide Image, Bytes4;
    }
    hide Image, Bytes4, Le32, BootBlock;
    Le32Is(disk, 4, |files|);
    Le32Is(disk, 8, |data|);
  }

  lemma LengthRead(entries: nat, rest: seq<byte>, files: seq<Placed>, data: seq<Block>, i: nat)
    requires ImageFits(entries, rest, files, data) && i < |files|
    ensures var disk := Image(entries, rest, files, data);
      InodeAddress(i) + 4096 <= |disk| && FileLength(disk, i) == |files[i].file|
  {
    var disk, p := Image(entries, rest, files, data), files[i];
    assert PlacedOk(p);
    forall j | 0 <= j < 4
      ensures disk[4096 * (1 + i) + j] == Bytes4(|p.file|)[j]
    {
      ImageAt(entries, rest, files, data, j);
      hide Image, Bytes4, Numbers;
    }
    hide Image, Bytes4, Le32;
    Le32Is(disk, 4096 * (1 + i), |p.file|);
  }

  lemma SlotRead(entries: nat, rest: seq<byte>, files: seq<Placed>, data: seq<Block>, i: nat, k: nat)
    requires ImageFits(entries, rest, files, data) && i < |files| && k < |files[i].places|
    ensures var disk := Image(entries, rest, files, data);
      k < SLOTS && InodeAddress(i) + 4096 <= |disk| && Slot(disk, i, k) == files[i].places[k] < UINT32
  {
    var disk, p := Image(entries, rest, files, data), files[i];
    assert PlacedOk(p);
    forall j | 0 <= j < 4
      ensures disk[4096 * (1 + i) + 4 + 4 * k + j] == Bytes4(p.places[k])[j]
    {
      ImageAt(entries, rest, files, data, 4 + 4 * k + j);
      NumbersAt(p.places, k, j);
      hide Image, Bytes4, Numbers;
    }
    hide Image, Bytes4, Le32;
    Le32Is(disk, 4096 * (1 + i) + 4 + 4 * k, p.places[k]);
  }

  lemma FileIsOk(entries: nat, rest: seq<byte>, files: seq<Placed>, data: seq<Block>, i: nat)
    requires ImageFits(entries, rest, files, data) && Stored(files, data) && i < |files|
    ensures FileOk(Image(entries, rest, files, data), i)
  {
    var disk, p := Image(entries, rest, files, data), files[i];
    assert PlacedOk(p);
    CountsRead(entries, rest, files, data);
    LengthRead(entries, rest, files, data, i);
    hide Image, InodeCount, DataCount, FileLength, Slot, Cut;
    forall k | 0 <= k && BLOCK * k < FileLength(disk, i)
      ensures Slot(disk, i, k) < DataCount(disk)
    {
      SlotRead(entries, rest, files, data, i, k);
    }
  }

  lemma ByteReadsBack(entries: nat, rest: seq<byte>, files: seq<Placed>, data: seq<Block>, i: nat, q: nat)
    requires ImageFits(entries, rest, files, data) && Stored(files, data) && i < |files| && q < |files[i].file|
    requires FileOk(Image(entries, rest, files, data), i) && q < FileLength(Image(entries, rest, files, data), i)
    ensures ByteOf(Image(entries, rest, files, data), i, q) == files[i].file[q]
  {
    var p := files[i];
    assert PlacedOk(p);
    CountsRead(entries, rest, files, data);
    CutAt(p.file, q);
    SlotRead(entries, rest, files, data, i, q / 4096);
    ImageAt(entries, rest, files, data, q % 4096);
    hide Image, InodeCount, DataCount, FileLength, Slot, Cut, FileOk, InodeBlock, BootBlock;
  }

  // Whatever files are put in, wherever their blocks are placed, the reader finds a good
  // image, and file i in it is the file that was put in.
  lemma FileReadsBack(entries: nat, rest: seq<byte>, files: seq<Placed>, data: seq<Block>, i: nat)
    requires ImageFits(entries, rest, files, data) && Stored(files, data) && i < |files|
    ensures var disk := Image(entries, rest, files, data);
      && ImageOk(disk) && InodeCount(disk) == |files|
      && FileOk(disk, i) && Contents(disk, i) == files[i].file
  {
    var disk := Image(entries, rest, files, data);
    CountsRead(entries, rest, files, data);
    FileIsOk(entries, rest, files, data, i);
    LengthRead(entries, rest, files, data, i);
    hide Image, InodeCount, DataCount, FileLength, FileOk, ImageFits, Stored, ByteOf;
    forall q | 0 <= q < |files[i].file|
      ensures Contents(disk, i)[q] == files[i].file[q]
    {
      ByteReadsBack(entries, rest, files, data, i, q);
    }
  }

  // ----- Files packed one after the other -----

  function BlocksOf(files: seq<seq<byte>>): seq<Block> {
    if files == [] then [] else BlocksOf(files[..|files| - 1]) + Cut(files[|files| - 1])
  }

  function Consecutive(from: nat, n: nat): (r: seq<nat>)
    ensures |r| == n
  {
    seq(n, k requires 0 <= k < n => from + k)
  }

  function Pack(files: seq<seq<byte>>): (r: seq<Placed>)
    ensures |r| == |files|
  {
    if files == [] then []
    else
      var init, last := files[..|files| - 1], files[|files| - 1];
      Pack(init) + [Placed(last, Consecutive(|BlocksOf(init)|, |Cut(last)|))]
  }

  // Any files that fit can be made into an image that stores them.
  lemma {:induction false} PackStores(files: seq<seq<byte>>)
    requires |BlocksOf(files)| < UINT32 && forall i :: 0 <= i < |files| ==> |files[i]| <= 1023 * 4096
    ensures Stored(Pack(files), BlocksOf(files))
    ensures forall i :: 0 <= i < |files| ==> Pack(files)[i].file == files[i]
  {
    hide Cut;
    if files != [] {
      PackStores(files[..|files| - 1]);
    }
  }
}
