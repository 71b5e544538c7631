// The directory in the boot block, and read_dentry_by_name of
// student-distrib/filesystem.c, which searches it.
module Directory {
  import opened Words
  import opened FileSystem
  import opened Images

  const NAME := 32         // FILENAME_LEN
  const ENTRIES := 63      // MAX_DIRECTORY_NUMBER

  // ----- The search -----

  function EntryAddress(i: nat): nat {
    64 + 64 * i
  }

  // The bytes up to the first zero, which strlen counts.
  function CString(disk: seq<byte>, a: nat): (s: seq<byte>)
    requires a <= |disk|
    ensures a + |s| <= |disk| && s == disk[a..a + |s|] && 0 !in s
    ensures a + |s| < |disk| ==> disk[a + |s|] == 0
    decreases |disk| - a
  {
    if a == |disk| || disk[a] == 0 then [] else [disk[a]] + CString(disk, a + 1)
  }

  // The name field is the name when that has 32 characters, or the string at the field
  // is the name.
  predicate NameAt(disk: seq<byte>, a: nat, name: seq<byte>)
    requires a + NAME <= |disk|
  {
    (|name| == NAME && disk[a..a + NAME] == name) || CString(disk, a) == name
  }

  function EntryAt(disk: seq<byte>, i: nat): Lookup
    requires |disk| >= BLOCK && i < ENTRIES
  {
    Found(Le32(disk, EntryAddress(i) + 32), Le32(disk, EntryAddress(i) + 36))
  }

  // The first entry whose name this is; all 63 are searched, however many are in use.
  ghost predicate IsFound(disk: seq<byte>, name: seq<byte>, entry: Lookup)
    requires |disk| >= BLOCK
  {
    if name == [] || forall i :: 0 <= i < ENTRIES ==> !NameAt(disk, EntryAddress(i), name) then entry == Missing
    else exists i :: 0 <= i < ENTRIES && entry == EntryAt(disk, i) && IsFirst(disk, name, i)
  }

  ghost predicate IsFirst(disk: seq<byte>, name: seq<byte>, i: nat)
    requires |disk| >= BLOCK && i < ENTRIES
  {
    NameAt(disk, EntryAddress(i), name) && forall j :: 0 <= j < i ==> !NameAt(disk, EntryAddress(j), name)
  }

  // strlen of the string at an address
  method Strlen(disk: seq<byte>, a: nat) returns (len: nat)
    requires a <= |disk| && a + |CString(disk, a)| < |disk|
    ensures len == |CString(disk, a)|
  {
    len := 0;
    ghost var s := CString(disk, a);
    assert forall j :: 0 <= j < |s| ==> s[j] == disk[a + j] && s[j] in s;
    while disk[a + len] != 0
      invariant len <= |s|
      decreases |s| - len
    {
      len := len + 1;
    }
  }

  // strncmp of a name with the string at an address
  method Strncmp(name: seq<byte>, disk: seq<byte>, a: nat, n: nat) returns (d: int)
    requires n <= |name| && a + n <= |disk| && 0 !in name
    ensures d == 0 <==> disk[a..a + n] == name[..n]
  {
    for i := 0 to n
      invariant disk[a..a + i] == name[..i]
    {
      if name[i] != disk[a + i] || name[i] == 0 {
        var c: int, e: int := name[i], disk[a + i];
        assert disk[a..a + n][i] == disk[a + i] && name[..n][i] == name[i];
        return c - e;
      }
    }
    return 0;
  }

  // read_dentry_by_name; every entry's string has an end
  method ReadDentryByName(disk: seq<byte>, name: seq<byte>) returns (entry: Lookup)
    requires |disk| >= BLOCK && 0 !in name
    requires forall i :: 0 <= i < ENTRIES ==> EntryAddress(i) + |CString(disk, EntryAddress(i))| < |disk|
    ensures IsFound(disk, name, entry)
  {
    if |name| == 0 {
      return Missing;
    }
    for index := 0 to ENTRIES
      invariant forall j :: 0 <= j < index ==> !NameAt(disk, EntryAddress(j), name)
    {
      var a := EntryAddress(index);
      var same := CompareName(disk, a, name);
      if same {
        entry := Found(Le32(disk, a + 32), Le32(disk, a + 36));
        assert entry == EntryAt(disk, index) && IsFirst(disk, name, index);
        return;
      }
    }
    return Missing;
  }

  // The two comparisons of the search's body
  method CompareName(disk: seq<byte>, a: nat, name: seq<byte>) returns (same: bool)
    requires a + NAME <= |disk| && a + |CString(disk, a)| < |disk| && 0 !in name
    ensures same <==> NameAt(disk, a, name)
  {
    var len := Strlen(disk, a);
    assert name[..|name|] == name;
    if |name| == NAME {
      var d := Strncmp(name, disk, a, NAME);
      if d == 0 {
        return true;
      }
    }
    if |name| == len {
      var d := Strncmp(name, disk, a, |name|);
      if d == 0 {
        return true;
      }
    }
    return false;
  }

  // ----- A directory as a tool would write it -----

  datatype Entry = Entry(name: seq<byte>, kind: nat, inode: nat)

  predicate EntryOk(e: Entry) {
    0 < |e.name| <= 32 && 0 !in e.name && e.kind <= 2 && e.inode < UINT32
  }

  function Zeros(n: nat): (r: seq<byte>)
    ensures |r| == n
  {
    seq(n, _ => 0)
  }

  function EntryBytes(e: Entry): (r: seq<byte>)
    requires EntryOk(e)
    ensures |r| == 64
  {
    e.name + Zeros(32 - |e.name|) + Bytes4(e.kind) + Bytes4(e.inode) + Zeros(24)
  }

  function EntriesBytes(es: seq<Entry>): (r: seq<byte>)
    requires forall i :: 0 <= i < |es| ==> EntryOk(es[i])
    ensures |r| == 64 * |es|
  {
    if es == [] then [] else EntriesBytes(es[..|es| - 1]) + EntryBytes(es[|es| - 1])
  }

  // What follows the three counts in the boot block.
  function DirectoryBytes(es: seq<Entry>): (r: seq<byte>)
    requires |es| <= 63 && forall i :: 0 <= i < |es| ==> EntryOk(es[i])
    ensures |r| == 4096 - 12
  {
    Zeros(52) + EntriesBytes(es) + Zeros(64 * (63 - |es|))
  }

  ghost predicate DiskFits(es: seq<Entry>, files: seq<Placed>, data: seq<Block>) {
    && |es| <= 63 && (forall i :: 0 <= i < |es| ==> EntryOk(es[i]))
    && ImageFits(|es|, DirectoryBytes(es), files, data)
  }

  ghost function Disk(es: seq<Entry>, files: seq<Placed>, data: seq<Block>): (r: seq<byte>)
    requires DiskFits(es, files, data)
    ensures |r| >= BLOCK
  {
    Image(|es|, DirectoryBytes(es), files, data)
  }

  lemma {:induction false} EntriesAt(es: seq<Entry>, i: nat, j: nat)
    requires (forall i :: 0 <= i < |es| ==> EntryOk(es[i])) && i < |es| && j < 64
    ensures EntriesBytes(es)[64 * i + j] == EntryBytes(es[i])[j]
  {
    hide EntryBytes, EntryOk;
    if i < |es| - 1 {
      EntriesAt(es[..|es| - 1], i, j);
    }
  }

  // Byte j of entry i on the disk.
  lemma DiskEntryAt(es: seq<Entry>, files: seq<Placed>, data: seq<Block>, i: nat, j: nat)
    requires DiskFits(es, files, data) && i < 63 && j < 64
    ensures Disk(es, files, data)[EntryAddress(i) + j] == if i < |es| then EntryBytes(es[i])[j] else 0
  {
    var rest := DirectoryBytes(es);
    ImageAt(|es|, rest, files, data, EntryAddress(i) + j);
    assert rest[52 + 64 * i + j] == if i < |es| then EntriesBytes(es)[64 * i + j] else 0;
    if i < |es| {
      EntriesAt(es, i, j);
    }
    hide EntryBytes, EntriesBytes, Image, DirectoryBytes;
  }

  // ----- Finding a name -----

  // The names an entry answers to: its own and, when that has 32 characters, its own and
  // the byte behind it, which is the kind.
  predicate Answers(e: Entry, name: seq<byte>) {
    e.name == name || (|e.name| == 32 && 0 < e.kind < 0x100 && name == e.name + [e.kind])
  }

  // The first entry that answers to a name.
  function FirstAnswer(es: seq<Entry>, name: seq<byte>): Lookup {
    if es == [] then Missing
    else if Answers(es[0], name) then Found(es[0].kind, es[0].inode)
    else FirstAnswer(es[1..], name)
  }

  lemma {:induction false} CStringIs(disk: seq<byte>, a: nat, s: seq<byte>)
    requires a + |s| < |disk| && disk[a..a + |s|] == s && 0 !in s && disk[a + |s|] == 0
    ensures CString(disk, a) == s
    decreases |s|
  {
    if s != [] {
      assert disk[a] == s[0] && s[0] in s;
      CStringIs(disk, a + 1, s[1..]);
    }
  }

  // The string at an entry: its name, and the kind behind it if nothing comes between.
  function StringOf(e: Entry): (s: seq<byte>)
    requires EntryOk(e)
    ensures 0 !in s && |s| <= 33
  {
    if |e.name| == 32 && e.kind > 0 then e.name + [e.kind] else e.name
  }

  // The 64 bytes of entry i, in use or not.
  function BytesAt(es: seq<Entry>, i: nat): (r: seq<byte>)
    requires i < |es| ==> EntryOk(es[i])
    ensures |r| == 64
  {
    if i < |es| then EntryBytes(es[i]) else Zeros(64)
  }

  function StringAt(es: seq<Entry>, i: nat): (s: seq<byte>)
    requires i < |es| ==> EntryOk(es[i])
    ensures 0 !in s && |s| <= 33 && BytesAt(es, i)[..|s|] == s && BytesAt(es, i)[|s|] == 0
  {
    if i < |es| then StringInEntry(es[i]); StringOf(es[i]) else []
  }

  lemma EntryString(es: seq<Entry>, files: seq<Placed>, data: seq<Block>, i: nat)
    requires DiskFits(es, files, data) && i < 63
    ensures var disk := Disk(es, files, data);
      && CString(disk, EntryAddress(i)) == StringAt(es, i)
      && disk[EntryAddress(i)..EntryAddress(i) + 32] == BytesAt(es, i)[..32]
  {
    hide *;
    EntryOnDisk(es, files, data, i);
    StringIn(Disk(es, files, data), EntryAddress(i), BytesAt(es, i), StringAt(es, i));
  }

  lemma EntryOnDisk(es: seq<Entry>, files: seq<Placed>, data: seq<Block>, i: nat)
    requires DiskFits(es, files, data) && i < 63
    ensures (i < |es| ==> EntryOk(es[i])) && EntryAddress(i) + 64 <= |Disk(es, files, data)|
    ensures forall j :: 0 <= j < 64 ==> Disk(es, files, data)[EntryAddress(i) + j] == BytesAt(es, i)[j]
  {
    hide EntryBytes, Image, DirectoryBytes, Disk;
    forall j | 0 <= j < 64
      ensures Disk(es, files, data)[EntryAddress(i) + j] == BytesAt(es, i)[j]
    {
      DiskEntryAt(es, files, data, i, j);
    }
  }

  lemma StringIn(disk: seq<byte>, a: nat, bytes: seq<byte>, s: seq<byte>)
    requires a + 64 <= |disk| && |bytes| == 64 && forall j :: 0 <= j < 64 ==> disk[a + j] == bytes[j]
    requires |s| < 64 && 0 !in s && bytes[..|s|] == s && bytes[|s|] == 0
    ensures CString(disk, a) == s && disk[a..a + 32] == bytes[..32]
  {
    assert disk[a..a + |s|] == bytes[..|s|];
    CStringIs(disk, a, s);
  }

  lemma StringInEntry(e: Entry)
    requires EntryOk(e)
    ensures var s := StringOf(e); EntryBytes(e)[..|s|] == s && EntryBytes(e)[|s|] == 0
  {
  }

  lemma NameAtEntry(es: seq<Entry>, files: seq<Placed>, data: seq<Block>, i: nat, name: seq<byte>)
    requires DiskFits(es, files, data) && i < 63 && name != [] && 0 !in name
    ensures NameAt(Disk(es, files, data), EntryAddress(i), name) <==> i < |es| && Answers(es[i], name)
  {
    EntryString(es, files, data, i);
    if i < |es| {
      FieldIsName(es[i], name);
    } else {
      assert BytesAt(es, i)[..32][0] == 0;
    }
    hide Disk, DiskFits, CString, EntryBytes;
  }

  lemma FieldIsName(e: Entry, name: seq<byte>)
    requires EntryOk(e) && name != [] && 0 !in name
    ensures (|name| == 32 && EntryBytes(e)[..32] == name) || StringOf(e) == name <==> Answers(e, name)
  {
    var field := EntryBytes(e)[..32];
    if |e.name| < 32 {
      assert field[31] == 0;
      assert field != name;
    } else {
      assert field == e.name;
    }
  }

  lemma EntryReads(es: seq<Entry>, files: seq<Placed>, data: seq<Block>, i: nat)
    requires DiskFits(es, files, data) && i < |es|
    ensures EntryAt(Disk(es, files, data), i) == Found(es[i].kind, es[i].inode)
  {
    var disk, e := Disk(es, files, data), es[i];
    assert EntryOk(e) && i < 63;
    hide DiskFits, Disk;
    forall j | 0 <= j < 4
      ensures disk[EntryAddress(i) + 32 + j] == Bytes4(e.kind)[j] && disk[EntryAddress(i) + 36 + j] == Bytes4(e.inode)[j]
    {
      DiskEntryAt(es, files, data, i, 32 + j);
      DiskEntryAt(es, files, data, i, 36 + j);
    }
    Le32Is(disk, EntryAddress(i) + 32, e.kind);
    Le32Is(disk, EntryAddress(i) + 36, e.inode);
  }

  lemma {:induction false} FirstAnswerIs(es: seq<Entry>, name: seq<byte>, i: nat)
    requires i <= |es| && (i < |es| ==> Answers(es[i], name)) && forall j :: 0 <= j < i ==> !Answers(es[j], name)
    ensures FirstAnswer(es, name) == if i < |es| then Found(es[i].kind, es[i].inode) else Missing
    decreases i
  {
    if i > 0 {
      FirstAnswerIs(es[1..], name, i - 1);
    }
  }

  // On every disk written with a directory, the search answers with the first entry of
  // that name, or, for a name of 33 characters, with a full-length name followed by its
  // kind; and otherwise not at all.
  lemma SearchFindsEntry(es: seq<Entry>, files: seq<Placed>, data: seq<Block>, name: seq<byte>, entry: Lookup)
    requires DiskFits(es, files, data) && 0 !in name
    ensures IsFound(Disk(es, files, data), name, entry) <==> entry == FirstAnswer(es, name)
  {
    var disk := Disk(es, files, data);
    assert |es| <= 63 && forall i :: 0 <= i < |es| ==> EntryOk(es[i]);
    if name == [] {
      FirstAnswerIs(es, name, |es|);
      return;
    }
    hide DiskFits, Disk, NameAt, Answers, EntryAt;
    forall i | 0 <= i < ENTRIES
      ensures NameAt(disk, EntryAddress(i), name) <==> i < |es| && Answers(es[i], name)
    {
      NameAtEntry(es, files, data, i, name);
    }
    if forall i :: 0 <= i < |es| ==> !Answers(es[i], name) {
      FirstAnswerIs(es, name, |es|);
    } else {
      var i := FirstAt(es, name);
      FirstAnswerIs(es, name, i);
      EntryReads(es, files, data, i);
    }
  }

  lemma FirstAt(es: seq<Entry>, name: seq<byte>) returns (i: nat)
    requires exists i :: 0 <= i < |es| && Answers(es[i], name)
    ensures i < |es| && Answers(es[i], name) && forall j :: 0 <= j < i ==> !Answers(es[j], name)
  {
    hide Answers;
    i := 0;
    while !Answers(es[i], name)
      invariant i < |es| && forall j :: 0 <= j < i ==> !Answers(es[j], name)
      decreases |es| - i
    {
      i := i + 1;
    }
  }

  lemma EntriesEnd(es: seq<Entry>, files: seq<Placed>, data: seq<Block>)
    requires DiskFits(es, files, data)
    ensures var disk := Disk(es, files, data);
      forall i :: 0 <= i < ENTRIES ==> EntryAddress(i) + |CString(disk, EntryAddress(i))| < |disk|
  {
    var disk := Disk(es, files, data);
    forall i | 0 <= i < ENTRIES
      ensures EntryAddress(i) + |CString(disk, EntryAddress(i))| < |disk|
    {
      EntryString(es, files, data, i);
      assert i < |es| ==> EntryOk(es[i]);
    }
  }
}
