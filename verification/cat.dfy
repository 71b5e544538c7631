// The cat program of syscalls/ece391cat.c on a file system image and a descriptor
// table: a name is looked up, opened, and read until nothing comes back.
module CatProgram {
  import opened Words
  import opened FileSystem
  import opened Descriptors
  import opened Images
  import opened Directory

  // What a user is told about a name on a disk that was written with these entries and
  // files: the exit status, and what was printed.
  function Told(es: seq<Entry>, files: seq<Placed>, name: seq<byte>, full: bool): (int, seq<byte>) {
    var entry := FirstAnswer(es, name);
    if entry.Missing? || full then (2, [])
    else if 0 < entry.inode < |files| then (0, files[entry.inode].file)
    else (3, [])
  }

  // A disk whose every file is stored, as the file system sees it.
  lemma DiskIsGood(es: seq<Entry>, files: seq<Placed>, data: seq<Block>)
    requires DiskFits(es, files, data) && Stored(files, data)
    ensures var disk := Disk(es, files, data);
      && ImageOk(disk) && InodeCount(disk) == |files|
      && forall i :: 0 <= i < |files| ==> FileOk(disk, i) && Contents(disk, i) == files[i].file
  {
    hide ImageOk, FileOk, Contents, Stored;
    CountsRead(|es|, DirectoryBytes(es), files, data);
    forall i | 0 <= i < |files|
      ensures FileOk(Disk(es, files, data), i) && Contents(Disk(es, files, data), i) == files[i].file
    {
      FileReadsBack(|es|, DirectoryBytes(es), files, data, i);
    }
  }

  // The loop: it ends, and has written what the descriptor's file holds, or nothing when
  // the descriptor cannot be read.
  method ReadAll(table: Table, fd: int, disk: seq<byte>, buf: array<byte>) returns (status: int, written: seq<byte>)
    requires table.Valid() && ImageOk(disk) && 2 <= fd < MAX_NUM_FILES
    requires table.slots[fd].ops == FileOps && table.slots[fd].pos == 0 && 0 < buf.Length < UINT32 / 2
    requires table.slots[fd].inode < InodeCount(disk) ==> FileOk(disk, table.slots[fd].inode)
    modifies table.slots, buf
    ensures (status, written) ==
      if 0 < old(table.slots[fd].inode) < InodeCount(disk) then (0, Contents(disk, old(table.slots[fd].inode))) else (3, [])
  {
    ghost var inode := table.slots[fd].inode;
    assert inode >= 0;
    ghost var readable := 0 < inode < InodeCount(disk);
    ghost var f := if inode < InodeCount(disk) then Contents(disk, inode) else [];
    if inode < InodeCount(disk) {
      FileIsSmall(disk, inode);
    }
    hide FileOk, Contents, Slice, NextPosition, ImageOk;
    written := [];
    while true
      invariant table.Valid() && table.slots[fd].ops == FileOps && table.slots[fd].inode == inode
      invariant table.slots[fd].pos < |f| + UINT32 / 2 && (!readable ==> table.slots[fd].pos == 0)
      invariant written == f[..Clip(table.slots[fd].pos, f)]
      decreases |f| - Clip(table.slots[fd].pos, f)
    {
      ghost var pos := table.slots[fd].pos;
      ChunkIsBetween(f, pos, buf.Length);
      SliceFits(f, pos, buf.Length);
      var cnt := table.Read(fd, disk, buf, buf.Length);
      Joins(f, 0, Clip(pos, f), Clip(table.slots[fd].pos, f));
      if cnt == 0 {
        assert f[..|f|] == f;
        return 0, written;
      }
      if cnt == -1 {
        return 3, written;
      }
      written := written + buf[..cnt];
    }
  }

  // For every name, disk and table: the whole program.
  method Cat(table: Table, disk: seq<byte>, name: seq<byte>, buf: array<byte>,
             ghost es: seq<Entry>, ghost files: seq<Placed>, ghost data: seq<Block>) returns (status: int, written: seq<byte>)
    requires table.Valid() && 0 < buf.Length < UINT32 / 2 && 0 !in name
    requires DiskFits(es, files, data) && Stored(files, data) && disk == Disk(es, files, data)
    requires FirstAnswer(es, name).Found? ==> FirstAnswer(es, name).kind == 2
    modifies table.slots, table`beyond, buf
    ensures var full := forall i :: 2 <= i < MAX_NUM_FILES ==> old(table.slots[i]).flags == 1;
      (status, written) == Told(es, files, name, full)
  {
    DiskIsGood(es, files, data);
    EntriesEnd(es, files, data);
    hide DiskFits, Disk, Stored, ImageOk, FileOk, Contents;
    var entry := ReadDentryByName(disk, name);
    SearchFindsEntry(es, files, data, name, entry);
    var fd := table.Open(entry);
    if fd == -1 {
      return 2, [];
    }
    OpenedSlot(old(table.slots[..]), 2, entry.inode);
    status, written := ReadAll(table, fd, disk, buf);
  }
}
