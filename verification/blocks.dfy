// The block operations of student-distrib/lib.c on byte-addressed memory: a head of
// bytes up to alignment, a body of little-endian double words, a tail of bytes.
module Blocks {
  import opened Words

  const WORD := 4

  function Filled(m: seq<byte>, s: nat, b: byte, n: nat): (r: seq<byte>)
    requires s + n <= |m|
    ensures |r| == |m|
  {
    m[..s] + seq(n, _ => b) + m[s + n..]
  }

  lemma FilledAt(m: seq<byte>, s: nat, b: byte, n: nat)
    requires s + n <= |m|
    ensures forall i :: 0 <= i < |m| ==> Filled(m, s, b, n)[i] == if s <= i < s + n then b else m[i]
  {
  }

  lemma MovedAt(m: seq<byte>, dest: nat, src: nat, n: nat)
    requires dest + n <= |m| && src + n <= |m|
    ensures forall i :: 0 <= i < |m| ==> Moved(m, dest, src, n)[i] == if dest <= i < dest + n then m[src + (i - dest)] else m[i]
  {
  }

  // Every byte moved at once.
  function Moved(m: seq<byte>, dest: nat, src: nat, n: nat): (r: seq<byte>)
    requires dest + n <= |m| && src + n <= |m|
    ensures |r| == |m|
  {
    m[..dest] + m[src..src + n] + m[dest + n..]
  }

  // The simple loop: byte after byte, upwards.
  function CopiedUp(m: seq<byte>, dest: nat, src: nat, n: nat): (r: seq<byte>)
    requires dest + n <= |m| && src + n <= |m|
    ensures |r| == |m|
    decreases n
  {
    if n == 0 then m else CopiedUp(m[dest := m[src]], dest + 1, src + 1, n - 1)
  }

  // The same by double words: four bytes are read before four are written.
  function WordsUp(m: seq<byte>, dest: nat, src: nat, words: nat): (r: seq<byte>)
    requires dest + WORD * words <= |m| && src + WORD * words <= |m|
    ensures |r| == |m|
    decreases words
  {
    if words == 0 then m else WordsUp(Moved(m, dest, src, WORD), dest + WORD, src + WORD, words - 1)
  }

  // ----- memset -----

  // A double word all of whose bytes are b, as c << 24 | c << 16 | c << 8 | c.
  function Spread(b: byte): nat {
    b * 0x1000000 + b * 0x10000 + b * 0x100 + b
  }

  method StoreWord(mem: array<byte>, at: nat, v: nat)
    requires at + WORD <= mem.Length
    modifies mem
    ensures mem[..] == old(mem[..at]) + [v % 256, v / 0x100 % 256, v / 0x10000 % 256, v / 0x1000000 % 256] + old(mem[at + WORD..])
  {
    mem[at] := v % 256;
    mem[at + 1] := v / 0x100 % 256;
    mem[at + 2] := v / 0x10000 % 256;
    mem[at + 3] := v / 0x1000000 % 256;
  }

  lemma SpreadLow(b: byte)
    ensures Spread(b) % 256 == b && Spread(b) / 0x100 == 0x10101 * b
  {
    assert Spread(b) == 0x100 * (0x10101 * b) + b;
  }

  lemma SpreadHigh(b: byte)
    ensures Spread(b) / 0x10000 == 0x101 * b && Spread(b) / 0x1000000 == b
  {
    assert Spread(b) == 0x10000 * (0x101 * b) + 0x101 * b;
    assert Spread(b) == 0x1000000 * b + 0x10101 * b;
  }

  lemma SpreadMiddle(b: byte)
    ensures 0x10101 * b % 256 == b && 0x101 * b % 256 == b
  {
    assert 0x10101 * b == 0x100 * (0x101 * b) + b;
  }

  method SetHead(mem: array<byte>, s: nat, b: byte, n: nat) returns (edi: nat, ecx: nat)
    requires s + n <= mem.Length
    modifies mem
    ensures s <= edi && edi + ecx == s + n && (ecx != 0 ==> edi % WORD == 0)
    ensures mem[..] == Filled(old(mem[..]), s, b, edi - s)
  {
    ghost var was := mem[..];
    FilledNone(was, s, b);
    hide Filled;
    edi, ecx := s, n;
    while ecx != 0 && edi % WORD != 0
      invariant s <= edi && edi + ecx == s + n
      invariant mem[..] == Filled(was, s, b, edi - s)
    {
      FilledNext(was, s, b, edi - s);
      mem[edi] := b;
      edi, ecx := edi + 1, ecx - 1;
    }
  }

  lemma FilledNone(m: seq<byte>, s: nat, b: byte)
    requires s <= |m|
    ensures Filled(m, s, b, 0) == m
  {
  }

  lemma FilledNext(m: seq<byte>, s: nat, b: byte, i: nat)
    requires s + i < |m|
    ensures Filled(m, s, b, i + 1) == Filled(m, s, b, i)[s + i := b]
  {
  }

  // rep stosl
  method SetWords(mem: array<byte>, s: nat, b: byte, words: nat)
    requires s + WORD * words <= mem.Length
    modifies mem
    ensures mem[..] == Filled(old(mem[..]), s, b, WORD * words)
  {
    var eax := Spread(b);
    SpreadLow(b);
    SpreadMiddle(b);
    SpreadHigh(b);
    hide Spread;
    for i := 0 to words
      invariant mem[..] == Filled(old(mem[..]), s, b, WORD * i)
    {
      StoreWord(mem, s + WORD * i, eax);
    }
  }

  method SetTail(mem: array<byte>, s: nat, b: byte, n: nat)
    requires s + n <= mem.Length
    modifies mem
    ensures mem[..] == Filled(old(mem[..]), s, b, n)
  {
    ghost var was := mem[..];
    NoneFilled(was, s, b);
    hide Filled;
    for i := 0 to n
      invariant mem[..] == Filled(was, s, b, i)
    {
      FilledOneMore(was, s, b, i);
      mem[s + i] := b;
    }
  }

  lemma NoneFilled(m: seq<byte>, s: nat, b: byte)
    requires s <= |m|
    ensures Filled(m, s, b, 0) == m
  {
  }

  lemma FilledOneMore(m: seq<byte>, s: nat, b: byte, n: nat)
    requires s + n < |m|
    ensures Filled(m, s, b, n)[s + n := b] == Filled(m, s, b, n + 1)
  {
  }

  method Memset(mem: array<byte>, s: nat, c: int, n: nat)
    requires s + n <= mem.Length
    modifies mem
    ensures forall i :: 0 <= i < mem.Length ==> mem[i] == if s <= i < s + n then c % 256 else old(mem[i])
  {
    FilledAt(mem[..], s, c % 256, n);
    hide Filled;
    SetBytes(mem, s, c % 256, n);
  }

  // The three parts: bytes up to alignment, double words, and the rest
  method SetBytes(mem: array<byte>, s: nat, b: byte, n: nat)
    requires s + n <= mem.Length
    modifies mem
    ensures mem[..] == Filled(old(mem[..]), s, b, n)
  {
    hide Filled;
    ghost var was := mem[..];
    var edi, ecx := SetHead(mem, s, b, n);
    if ecx != 0 {
      var words, edx := ecx / WORD, ecx % WORD;
      SetWords(mem, edi, b, words);
      FilledJoins(was, s, b, edi - s, WORD * words);
      SetTail(mem, edi + WORD * words, b, edx);
      FilledJoins(was, s, b, edi - s + WORD * words, edx);
    }
  }

  lemma FilledJoins(m: seq<byte>, s: nat, b: byte, i: nat, j: nat)
    requires s + i + j <= |m|
    ensures Filled(Filled(m, s, b, i), s + i, b, j) == Filled(m, s, b, i + j)
  {
  }

  // ----- memcpy -----

  // Four bytes read, then four written: one step of rep movsl.
  method CopyWord(mem: array<byte>, dest: nat, src: nat)
    requires dest + WORD <= mem.Length && src + WORD <= mem.Length
    modifies mem
    ensures mem[..] == Moved(old(mem[..]), dest, src, WORD)
  {
    ghost var was := mem[..];
    MovedWord(was, dest, src);
    hide Moved;
    var a, b, c, d := mem[src], mem[src + 1], mem[src + 2], mem[src + 3];
    mem[dest] := a;
    mem[dest + 1] := b;
    mem[dest + 2] := c;
    mem[dest + 3] := d;
    assert mem[..] == was[dest := a][dest + 1 := b][dest + 2 := c][dest + 3 := d];
  }

  lemma MovedWord(m: seq<byte>, dest: nat, src: nat)
    requires dest + WORD <= |m| && src + WORD <= |m|
    ensures Moved(m, dest, src, WORD)
      == m[dest := m[src]][dest + 1 := m[src + 1]][dest + 2 := m[src + 2]][dest + 3 := m[src + 3]]
  {
    var r, w := Moved(m, dest, src, WORD),
      m[dest := m[src]][dest + 1 := m[src + 1]][dest + 2 := m[src + 2]][dest + 3 := m[src + 3]];
    forall i | 0 <= i < |m|
      ensures r[i] == w[i]
    {
      assert dest <= i < dest + WORD ==> r[i] == m[src + (i - dest)];
    }
  }

  // What memcpy computes, whatever the overlap: how many bytes go before the double
  // words depends on the alignment of the destination.
  function HeadLength(dest: nat, n: nat): (r: nat)
    ensures r <= n && r < WORD
    ensures dest % WORD == 0 ==> r == 0
  {
    var gap := (WORD - dest % WORD) % WORD;
    if n < gap then n else gap
  }

  function Memcopied(m: seq<byte>, dest: nat, src: nat, n: nat): (r: seq<byte>)
    requires dest + n <= |m| && src + n <= |m|
    ensures |r| == |m|
  {
    var head := HeadLength(dest, n);
    var words := (n - head) / WORD;
    ThreeParts(m, dest, src, head, words, n - head - WORD * words)
  }

  function ThreeParts(m: seq<byte>, dest: nat, src: nat, head: nat, words: nat, tail: nat): (r: seq<byte>)
    requires var n := head + WORD * words + tail; dest + n <= |m| && src + n <= |m|
    ensures |r| == |m|
  {
    WordsThenTail(CopiedUp(m, dest, src, head), dest + head, src + head, words, tail)
  }

  function WordsThenTail(m: seq<byte>, dest: nat, src: nat, words: nat, tail: nat): (r: seq<byte>)
    requires var n := WORD * words + tail; dest + n <= |m| && src + n <= |m|
    ensures |r| == |m|
  {
    CopiedUp(WordsUp(m, dest, src, words), dest + WORD * words, src + WORD * words, tail)
  }

  method CopyHead(mem: array<byte>, dest: nat, src: nat, n: nat) returns (edi: nat, esi: nat, ecx: nat)
    requires dest + n <= mem.Length && src + n <= mem.Length
    modifies mem
    ensures var head := HeadLength(dest, n);
      edi == dest + head && esi == src + head && ecx == n - head
    ensures mem[..] == CopiedUp(old(mem[..]), dest, src, HeadLength(dest, n))
  {
    edi, esi, ecx := dest, src, n;
    ghost var head := HeadLength(dest, n);
    while ecx != 0 && edi % WORD != 0
      invariant dest <= edi <= dest + head && esi - src == edi - dest && edi + ecx == dest + n
      invariant CopiedUp(mem[..], edi, esi, head - (edi - dest)) == CopiedUp(old(mem[..]), dest, src, head)
      decreases ecx
    {
      var al := mem[esi];
      ghost var was := mem[..];
      mem[edi] := al;
      assert mem[..] == was[edi := was[esi]];
      edi, esi, ecx := edi + 1, esi + 1, ecx - 1;
    }
  }

  method CopyWords(mem: array<byte>, dest: nat, src: nat, words: nat)
    requires dest + WORD * words <= mem.Length && src + WORD * words <= mem.Length
    modifies mem
    ensures mem[..] == WordsUp(old(mem[..]), dest, src, words)
  {
    hide Moved;
    var edi, esi, ecx: nat := dest, src, words;
    while ecx != 0
      invariant dest <= edi && esi - src == edi - dest && edi + WORD * ecx == dest + WORD * words
      invariant WordsUp(mem[..], edi, esi, ecx) == WordsUp(old(mem[..]), dest, src, words)
    {
      CopyWord(mem, edi, esi);
      edi, esi, ecx := edi + WORD, esi + WORD, ecx - 1;
    }
  }

  method CopyTail(mem: array<byte>, dest: nat, src: nat, n: nat)
    requires dest + n <= mem.Length && src + n <= mem.Length
    modifies mem
    ensures mem[..] == CopiedUp(old(mem[..]), dest, src, n)
  {
    for i := 0 to n
      invariant CopiedUp(mem[..], dest + i, src + i, n - i) == CopiedUp(old(mem[..]), dest, src, n)
    {
      ghost var was := mem[..];
      mem[dest + i] := mem[src + i];
      assert mem[..] == was[dest + i := was[src + i]];
    }
  }

  method Memcpy(mem: array<byte>, dest: nat, src: nat, n: nat)
    requires dest + n <= mem.Length && src + n <= mem.Length
    modifies mem
    ensures mem[..] == Memcopied(old(mem[..]), dest, src, n)
  {
    hide CopiedUp, WordsUp, HeadLength;
    var edi, esi, ecx := CopyHead(mem, dest, src, n);
    if ecx != 0 {
      var edx := ecx % WORD;
      CopyWords(mem, edi, esi, ecx / WORD);
      CopyTail(mem, edi + WORD * (ecx / WORD), esi + WORD * (ecx / WORD), edx);
    } else {
      NothingLeft(mem[..], edi, esi);
    }
  }

  lemma NothingLeft(m: seq<byte>, dest: nat, src: nat)
    requires dest <= |m| && src <= |m|
    ensures WordsThenTail(m, dest, src, 0, 0) == m
  {
  }

  // ----- When the fast form is the simple loop, and when that is a move -----

  lemma {:induction false} CopiedUpJoins(m: seq<byte>, dest: nat, src: nat, a: nat, b: nat)
    requires dest + a + b <= |m| && src + a + b <= |m|
    ensures CopiedUp(m, dest, src, a + b) == CopiedUp(CopiedUp(m, dest, src, a), dest + a, src + a, b)
    decreases a
  {
    if a != 0 {
      CopiedUpJoins(m[dest := m[src]], dest + 1, src + 1, a - 1, b);
    }
  }

  lemma WordIsFourBytes(m: seq<byte>, dest: nat, src: nat)
    requires dest + WORD <= |m| && src + WORD <= |m| && (dest <= src || src + WORD <= dest)
    ensures Moved(m, dest, src, WORD) == CopiedUp(m, dest, src, WORD)
  {
    var m1 := m[dest := m[src]];
    var m2 := m1[dest + 1 := m1[src + 1]];
    var m3 := m2[dest + 2 := m2[src + 2]];
    var m4 := m3[dest + 3 := m3[src + 3]];
    assert CopiedUp(m, dest, src, WORD) == CopiedUp(m1, dest + 1, src + 1, 3) == CopiedUp(m2, dest + 2, src + 2, 2);
    assert CopiedUp(m2, dest + 2, src + 2, 2) == CopiedUp(m3, dest + 3, src + 3, 1) == CopiedUp(m4, dest + 4, src + 4, 0) == m4;
    assert m1[src + 1] == m[src + 1] && m2[src + 2] == m[src + 2] && m3[src + 3] == m[src + 3];
    MovedWord(m, dest, src);
    hide Moved, CopiedUp;
  }

  lemma {:induction false} WordsAreBytes(m: seq<byte>, dest: nat, src: nat, words: nat)
    requires dest + WORD * words <= |m| && src + WORD * words <= |m| && (dest <= src || src + WORD <= dest)
    ensures WordsUp(m, dest, src, words) == CopiedUp(m, dest, src, WORD * words)
    decreases words
  {
    if words != 0 {
      WordIsFourBytes(m, dest, src);
      var rest: nat := WORD * (words - 1);
      CopiedUpJoins(m, dest, src, WORD, rest);
      WordsAreBytes(Moved(m, dest, src, WORD), dest + WORD, src + WORD, words - 1);
    }
  }

  // For every alignment and length, memcpy is the simple loop unless the destination
  // lies one to three bytes above the source.
  lemma MemcpyIsSimpleLoop(m: seq<byte>, dest: nat, src: nat, n: nat)
    requires dest + n <= |m| && src + n <= |m| && (dest <= src || src + WORD <= dest)
    ensures Memcopied(m, dest, src, n) == CopiedUp(m, dest, src, n)
  {
    hide CopiedUp, WordsUp, WordsThenTail, ThreeParts, HeadLength;
    var head := HeadLength(dest, n);
    var words := (n - head) / WORD;
    ThreePartsJoin(m, dest, src, head, words, n - head - WORD * words);
  }

  lemma ThreePartsJoin(m: seq<byte>, dest: nat, src: nat, head: nat, words: nat, tail: nat)
    requires var n := head + WORD * words + tail; dest + n <= |m| && src + n <= |m|
    requires dest <= src || src + WORD <= dest
    ensures ThreeParts(m, dest, src, head, words, tail) == CopiedUp(m, dest, src, head + WORD * words + tail)
  {
    var body: nat := WORD * words;
    WordsAreBytes(CopiedUp(m, dest, src, head), dest + head, src + head, words);
    CopiedUpJoins(m, dest, src, head, body);
    CopiedUpJoins(m, dest, src, head + body, tail);
  }

  lemma {:induction false} UpIsMove(m: seq<byte>, dest: nat, src: nat, n: nat)
    requires dest + n <= |m| && src + n <= |m| && (dest <= src || src + n <= dest)
    ensures CopiedUp(m, dest, src, n) == Moved(m, dest, src, n)
    decreases n
  {
    if n != 0 {
      UpIsMove(m[dest := m[src]], dest + 1, src + 1, n - 1);
      assert m[dest := m[src]][src + 1..src + n] == m[src + 1..src + n];
      assert m[src..src + n] == [m[src]] + m[src + 1..src + n];
    }
  }

  // With no overlap, or with the destination below, memcpy moves the block.
  lemma MemcpyMoves(m: seq<byte>, dest: nat, src: nat, n: nat)
    requires dest + n <= |m| && src + n <= |m| && (dest <= src || src + n <= dest)
    ensures Memcopied(m, dest, src, n) == Moved(m, dest, src, n)
  {
    UpIsMove(m, dest, src, n);
    if dest <= src || src + WORD <= dest {
      MemcpyIsSimpleLoop(m, dest, src, n);
    } else {
      ShortCopyIsSimpleLoop(m, dest, src, n);
    }
  }

  lemma ShortCopyIsSimpleLoop(m: seq<byte>, dest: nat, src: nat, n: nat)
    requires dest + n <= |m| && src + n <= |m| && n - HeadLength(dest, n) < WORD
    ensures Memcopied(m, dest, src, n) == CopiedUp(m, dest, src, n)
  {
    hide CopiedUp, ThreeParts, HeadLength;
    var head := HeadLength(dest, n);
    assert (n - head) / WORD == 0;
    NoWords(m, dest, src, head, n - head);
    CopiedUpJoins(m, dest, src, head, n - head);
  }

  lemma NoWords(m: seq<byte>, dest: nat, src: nat, head: nat, tail: nat)
    requires dest + head + tail <= |m| && src + head + tail <= |m|
    ensures ThreeParts(m, dest, src, head, 0, tail) == CopiedUp(CopiedUp(m, dest, src, head), dest + head, src + head, tail)
  {
    hide CopiedUp;
  }

  lemma NoHead(m: seq<byte>, dest: nat, src: nat, n: nat)
    requires dest + n <= |m| && src + n <= |m| && dest % WORD == 0
    ensures Memcopied(m, dest, src, n) == WordsThenTail(m, dest, src, n / WORD, n % WORD)
  {
    hide WordsThenTail, HeadLength;
    assert HeadLength(dest, n) == 0 && n - WORD * (n / WORD) == n % WORD;
  }

  // ----- The overlaps that memcpy gets wrong -----

  lemma {:induction false} UpLeavesBelow(m: seq<byte>, dest: nat, src: nat, n: nat, i: nat)
    requires dest + n <= |m| && src + n <= |m| && i < dest
    ensures CopiedUp(m, dest, src, n)[i] == m[i]
    decreases n
  {
    if n != 0 {
      UpLeavesBelow(m[dest := m[src]], dest + 1, src + 1, n - 1, i);
    }
  }

  lemma {:induction false} WordsLeaveBelow(m: seq<byte>, dest: nat, src: nat, words: nat, i: nat)
    requires dest + WORD * words <= |m| && src + WORD * words <= |m| && i < dest
    ensures WordsUp(m, dest, src, words)[i] == m[i]
    decreases words
  {
    if words != 0 {
      WordsLeaveBelow(Moved(m, dest, src, WORD), dest + WORD, src + WORD, words - 1, i);
    }
  }

  // The first byte that the simple loop reads from what it has already written.
  lemma UpEchoes(m: seq<byte>, dest: nat, src: nat, n: nat)
    requires dest + n <= |m| && src < dest < src + n
    ensures CopiedUp(m, dest, src, n)[dest + (dest - src)] == m[src]
  {
    var e := dest - src;
    CopiedUpJoins(m, dest, src, e, n - e);
    UpIsMove(m, dest, src, e);
    var m1 := CopiedUp(m, dest, src, e);
    assert m1[dest] == m[src];
    UpLeavesBelow(m1[dest + e := m1[dest]], dest + e + 1, dest + 1, n - e - 1, dest + e);
  }

  function Marked(size: nat, at: nat): (m: seq<byte>)
    ensures |m| == size
  {
    seq(size, i => if i == at then 1 else 0)
  }

  // Where a later part of memcpy leaves what an earlier part wrote.
  lemma LaterPartsLeaveBelow(m: seq<byte>, dest: nat, src: nat, words: nat, tail: nat, i: nat)
    requires var n := WORD * words + tail; dest + n <= |m| && src + n <= |m| && i < dest
    ensures WordsThenTail(m, dest, src, words, tail)[i] == m[i]
  {
    var done := WORD * words;
    WordsLeaveBelow(m, dest, src, words, i);
    UpLeavesBelow(WordsUp(m, dest, src, words), dest + done, src + done, tail, i);
  }

  // Unaligned destination, one to three bytes up: byte dest - src is read from the copy.
  lemma UnalignedEchoes(m: seq<byte>, dest: nat, src: nat, n: nat)
    requires dest + n <= |m| && src < dest < src + WORD && dest < src + n && dest % WORD != 0
    ensures Memcopied(m, dest, src, n)[dest + (dest - src)] == m[src]
  {
    hide WordsThenTail, CopiedUp, WordsUp;
    var e, head := dest - src, HeadLength(dest, n);
    var words := (n - head) / WORD;
    var tail := n - head - WORD * words;
    if words == 0 {
      ShortCopyIsSimpleLoop(m, dest, src, n);
      UpEchoes(m, dest, src, n);
    } else {
      var m1 := CopiedUp(m, dest, src, head);
      if e < head {
        UpEchoes(m, dest, src, head);
        LaterPartsLeaveBelow(m1, dest + head, src + head, words, tail, dest + e);
      } else {
        UpIsMove(m, dest, src, head);
        assert m1[dest] == m[src];
        var m2 := Moved(m1, dest + head, src + head, WORD);
        assert m2[dest + e] == m1[dest];
        NextWord(m1, dest + head, src + head, words, tail);
        LaterPartsLeaveBelow(m2, dest + head + WORD, src + head + WORD, words - 1, tail, dest + e);
      }
    }
  }

  // Aligned destination: the first double word is right, the byte after it is not.
  lemma AlignedEchoes(m: seq<byte>, dest: nat, src: nat, n: nat)
    requires dest + n <= |m| && src < dest < src + WORD && WORD < n && dest % WORD == 0
    ensures Memcopied(m, dest, src, n)[dest + WORD] == m[src + WORD - (dest - src)]
  {
    hide Memcopied, WordsUp, HeadLength;
    var words, tail := n / WORD, n % WORD;
    NoHead(m, dest, src, n);
    var m1 := Moved(m, dest, src, WORD);
    NextWord(m, dest, src, words, tail);
    assert m1[src + WORD] == m[src + WORD - (dest - src)];
    if words == 1 {
      TailOnly(m1, dest + WORD, src + WORD, tail);
      UpLeavesBelow(m1[dest + WORD := m1[src + WORD]], dest + WORD + 1, src + WORD + 1, tail - 1, dest + WORD);
    } else {
      var m2 := Moved(m1, dest + WORD, src + WORD, WORD);
      NextWord(m1, dest + WORD, src + WORD, words - 1, tail);
      LaterPartsLeaveBelow(m2, dest + 2 * WORD, src + 2 * WORD, words - 2, tail, dest + WORD);
    }
  }

  lemma TailOnly(m: seq<byte>, dest: nat, src: nat, tail: nat)
    requires dest + tail <= |m| && src + tail <= |m|
    ensures WordsThenTail(m, dest, src, 0, tail) == CopiedUp(m, dest, src, tail)
  {
  }

  lemma NextWord(m: seq<byte>, dest: nat, src: nat, words: nat, tail: nat)
    requires var n := WORD * words + tail; dest + n <= |m| && src + n <= |m|
    requires words > 0
    ensures WordsThenTail(m, dest, src, words, tail)
      == WordsThenTail(Moved(m, dest, src, WORD), dest + WORD, src + WORD, words - 1, tail)
  {
  }

  // Exactly when memcpy moves every memory's block: when the destination is not above
  // the source and inside the block, or the block is one aligned double word.
  lemma MemcpyMovesExactlyWhen(size: nat, dest: nat, src: nat, n: nat)
    requires dest + n <= size && src + n <= size
    ensures (forall m: seq<byte> :: |m| == size ==> Memcopied(m, dest, src, n) == Moved(m, dest, src, n))
      <==> dest <= src || src + n <= dest || (dest % WORD == 0 && n == WORD)
  {
    if dest <= src || src + n <= dest {
      forall m: seq<byte> | |m| == size
        ensures Memcopied(m, dest, src, n) == Moved(m, dest, src, n)
      {
        MemcpyMoves(m, dest, src, n);
      }
    } else if dest % WORD == 0 && n == WORD {
      forall m: seq<byte> | |m| == size
        ensures Memcopied(m, dest, src, n) == Moved(m, dest, src, n)
      {
        OneWordMoves(m, dest, src);
      }
    } else {
      OverlapFails(size, dest, src, n);
    }
  }

  lemma OneWordMoves(m: seq<byte>, dest: nat, src: nat)
    requires dest + WORD <= |m| && src + WORD <= |m| && dest % WORD == 0
    ensures Memcopied(m, dest, src, WORD) == Moved(m, dest, src, WORD)
  {
    var m1 := Moved(m, dest, src, WORD);
    assert WordsUp(m, dest, src, 1) == WordsUp(m1, dest + WORD, src + WORD, 0) == m1;
  }

  lemma OverlapFails(size: nat, dest: nat, src: nat, n: nat)
    requires dest + n <= size && src < dest < src + n && !(dest % WORD == 0 && n == WORD)
    ensures exists m: seq<byte> :: |m| == size && Memcopied(m, dest, src, n) != Moved(m, dest, src, n)
  {
    var e := dest - src;
    var m, at := Marked(size, src), dest + e;
    if e >= WORD {
      MemcpyIsSimpleLoop(m, dest, src, n);
      UpEchoes(m, dest, src, n);
    } else if dest % WORD != 0 {
      UnalignedEchoes(m, dest, src, n);
    } else if n < WORD {
      ShortCopyIsSimpleLoop(m, dest, src, n);
      UpEchoes(m, dest, src, n);
    } else {
      m, at := Marked(size, src + WORD - e), dest + WORD;
      AlignedEchoes(m, dest, src, n);
    }
    assert Memcopied(m, dest, src, n)[at] == 1 && Moved(m, dest, src, n)[at] == 0;
  }

  // ----- memmove -----

  // Downwards from the last byte, as rep movsb does with the direction flag set.
  method Memmove(mem: array<byte>, dest: nat, src: nat, n: nat)
    requires dest + n <= mem.Length && src + n <= mem.Length
    modifies mem
    ensures mem[..] == Moved(old(mem[..]), dest, src, n)
    ensures forall i :: 0 <= i < mem.Length ==>
      mem[i] == if dest <= i < dest + n then old(mem[src + (i - dest)]) else old(mem[i])
  {
    MovedAt(mem[..], dest, src, n);
    if src >= dest {
      UpIsMove(mem[..], dest, src, n);
      CopyTail(mem, dest, src, n);
    } else {
      CopyDown(mem, dest, src, n);
    }
  }

  method CopyDown(mem: array<byte>, dest: nat, src: nat, n: nat)
    requires dest + n <= mem.Length && src + n <= mem.Length && src < dest
    modifies mem
    ensures mem[..] == Moved(old(mem[..]), dest, src, n)
  {
    var ecx := n;
    while ecx != 0
      invariant 0 <= ecx <= n
      invariant forall a :: dest + ecx <= a < dest + n ==> mem[a] == old(mem[a - (dest - src)])
      invariant forall a :: 0 <= a < mem.Length && !(dest + ecx <= a < dest + n) ==> mem[a] == old(mem[a])
    {
      mem[dest + ecx - 1] := mem[src + ecx - 1];
      ecx := ecx - 1;
    }
  }
}
