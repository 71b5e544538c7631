// Number printing in student-distrib/lib.c: itoa, strrev and the %#x conversion.
module Numerals {
  import opened Words

  const LOOKUP: string := "0123456789ABCDEF" + "GHIJKLMNOPQRSTUV" + "WXYZ"
  const DIGITS := 32      // of a 32-bit value in radix 2

  lemma LookupSize()
    ensures |LOOKUP| == 36
  {
  }

  function Digit(d: nat): char
    requires d < 36
  {
    LookupSize();
    LOOKUP[d]
  }

  // The value a reader gives a digit.
  function DigitValue(c: char): nat {
    if '0' <= c <= '9' then c as int - '0' as int
    else if 'A' <= c <= 'Z' then c as int - 'A' as int + 10
    else 36
  }

  // The value a reader gives a numeral, most significant digit first.
  function Value(s: string, radix: nat): nat {
    if s == [] then 0 else Value(s[..|s| - 1], radix) * radix + DigitValue(s[|s| - 1])
  }

  // The numeral of a value: its quotient's numeral, then the digit of its remainder.
  function Numeral(value: nat, radix: nat): string
    requires 2 <= radix <= 36
    decreases value
  {
    if value < radix then [Digit(value)]
    else
      SmallerQuotient(value, radix);
      Numeral(value / radix, radix) + [Digit(value % radix)]
  }

  lemma SmallerQuotient(value: nat, radix: nat)
    requires 2 <= radix && 0 < value
    ensures value / radix < value && value == value / radix * radix + value % radix
  {
    var q, r := value / radix, value % radix;
    assert value == q * radix + r;
    TwiceAtMost(q, radix);
  }

  lemma TwiceAtMost(q: nat, radix: nat)
    requires 2 <= radix
    ensures 2 * q <= q * radix
  {
  }

  lemma DigitReads(d: nat)
    requires d < 36
    ensures DigitValue(Digit(d)) == d
    ensures Digit(d) == '0' <==> d == 0
    ensures Digit(d) != '\0'
  {
    if d < 10 {
      assert Digit(d) == '0' + d as char;
    } else {
      assert Digit(d) == 'A' + (d - 10) as char;
    }
  }

  // ----- What a numeral is -----

  lemma {:induction false} NumeralReadsBack(value: nat, radix: nat)
    requires 2 <= radix <= 36
    ensures Value(Numeral(value, radix), radix) == value
    decreases value
  {
    var s := Numeral(value, radix);
    if value < radix {
      DigitReads(value);
      assert Value(s[..0], radix) == 0;
    } else {
      SmallerQuotient(value, radix);
      NumeralReadsBack(value / radix, radix);
      DigitReads(value % radix);
      assert s[..|s| - 1] == Numeral(value / radix, radix);
    }
  }

  lemma {:induction false} NumeralIsProper(value: nat, radix: nat)
    requires 2 <= radix <= 36
    ensures var s := Numeral(value, radix);
      && |s| > 0
      && (s[0] == '0' <==> value == 0)
      && '\0' !in s
      && forall i :: 0 <= i < |s| ==> DigitValue(s[i]) < radix
    decreases value
  {
    if value < radix {
      DigitReads(value);
    } else {
      SmallerQuotient(value, radix);
      NumeralIsProper(value / radix, radix);
      DigitReads(value % radix);
      assert value / radix >= 1;
    }
  }

  lemma NumeralHasNoEnd(value: nat, radix: nat)
    requires 2 <= radix <= 36
    ensures '\0' !in Numeral(value, radix)
  {
    NumeralIsProper(value, radix);
  }

  lemma ZeroNumeral(radix: nat)
    requires 2 <= radix <= 36
    ensures Numeral(0, radix) == "0"
  {
  }

  lemma NumeralNotEmpty(value: nat, radix: nat)
    requires 2 <= radix <= 36
    ensures |Numeral(value, radix)| > 0
  {
  }

  function Power(b: nat, e: nat): nat {
    if e == 0 then 1 else b * Power(b, e - 1)
  }

  // A value below radix^k has at most k digits.
  lemma {:induction false} NumeralLength(value: nat, radix: nat, k: nat)
    requires 2 <= radix <= 36 && 0 < k && value < Power(radix, k)
    ensures |Numeral(value, radix)| <= k
    decreases k
  {
    if value >= radix {
      SmallerQuotient(value, radix);
      assert Power(radix, 1) == radix * Power(radix, 0);
      assert k > 1;
      QuotientBelow(value, radix, Power(radix, k - 1));
      NumeralLength(value / radix, radix, k - 1);
    }
  }

  lemma QuotientBelow(value: nat, radix: nat, p: nat)
    requires 2 <= radix && value < radix * p
    ensures value / radix < p
  {
    var q := value / radix;
    assert q * radix <= value;
    assert (p - q) * radix == p * radix - q * radix > 0;
  }

  lemma {:induction false} PowerGrows(b: nat, e: nat)
    requires 2 <= b
    ensures Power(b, e) >= Power(2, e) > 0
  {
    if e > 0 {
      PowerGrows(b, e - 1);
      assert b * Power(b, e - 1) >= 2 * Power(2, e - 1);
    }
  }

  lemma WordFits(value: nat, radix: nat)
    requires 2 <= radix <= 36 && value < UINT32
    ensures |Numeral(value, radix)| <= DIGITS
    ensures radix == 16 ==> |Numeral(value, radix)| <= 8
  {
    PowerGrows(radix, DIGITS);
    assert Power(2, 8) == 256;
    assert Power(2, 16) == 0x10000 by { assert Power(2, 12) == 0x1000; }
    assert Power(2, 24) == 0x1000000 by { assert Power(2, 20) == 0x100000; }
    assert Power(2, DIGITS) == UINT32 by { assert Power(2, 28) == 0x10000000; }
    NumeralLength(value, radix, DIGITS);
    if radix == 16 {
      assert Power(16, 8) == UINT32 by { assert Power(16, 4) == 0x10000; }
      NumeralLength(value, radix, 8);
    }
  }

  // ----- The buffers -----

  function Reversed(s: string): (r: string)
    ensures |r| == |s|
  {
    seq(|s|, i requires 0 <= i < |s| => s[|s| - 1 - i])
  }

  // The string at the start of s is its first n characters.
  ghost predicate EndsAt(s: string, n: nat) {
    n < |s| && s[n] == '\0' && forall j :: 0 <= j < n ==> s[j] != '\0'
  }

  lemma OneEnd(s: string, n: nat, k: nat)
    requires EndsAt(s, n) && EndsAt(s, k)
    ensures n == k
  {
  }

  method Strlen(s: array<char>, at: nat) returns (len: nat)
    requires at < s.Length && '\0' in s[at..]
    ensures EndsAt(s[at..], len)
  {
    len := 0;
    ghost var i :| at <= i < s.Length && s[i] == '\0';
    while s[at + len] != '\0'
      invariant at + len <= i && forall j :: at <= j < at + len ==> s[j] != '\0'
      decreases i - (at + len)
    {
      len := len + 1;
    }
  }

  method Strrev(s: array<char>, at: nat, ghost len: nat)
    requires at <= s.Length && EndsAt(s[at..], len)
    modifies s
    ensures s[..] == old(s[..at]) + Reversed(old(s[at..at + len])) + old(s[at + len..])
  {
    var n := Strlen(s, at);
    OneEnd(s[at..], n, len);
    Swap(s, at, n);
  }

  method Swap(s: array<char>, at: nat, n: nat)
    requires at + n <= s.Length
    modifies s
    ensures s[..] == old(s[..at]) + Reversed(old(s[at..at + n])) + old(s[at + n..])
  {
    ghost var was := s[..];
    ExchangeEnds(s, at, n);
    MirroredIsReversed(was, s[..], at, n);
    assert was[..at] == old(s[..at]) && was[at..at + n] == old(s[at..at + n]) && was[at + n..] == old(s[at + n..]);
  }

  // Exchange the ends and close in.
  method ExchangeEnds(s: array<char>, at: nat, n: nat)
    requires at + n <= s.Length
    modifies s
    ensures forall i :: at <= i < at + n ==> s[i] == old(s[2 * at + n - 1 - i])
    ensures forall i :: 0 <= i < s.Length && !(at <= i < at + n) ==> s[i] == old(s[i])
  {
    var beg, end := 0, n - 1;
    while beg < end
      invariant 0 <= beg && beg + end == n - 1 && beg <= end + 2
      invariant forall i :: at <= i < at + beg ==> s[i] == old(s[2 * at + n - 1 - i])
      invariant forall i :: at + end < i < at + n ==> s[i] == old(s[2 * at + n - 1 - i])
      invariant forall i :: 0 <= i < s.Length && !(at <= i < at + beg) && !(at + end < i < at + n) ==> s[i] == old(s[i])
    {
      var tmp := s[at + end];
      s[at + end] := s[at + beg];
      s[at + beg] := tmp;
      beg, end := beg + 1, end - 1;
    }
  }

  lemma MirroredIsReversed(s: string, t: string, at: nat, n: nat)
    requires at + n <= |s| == |t|
    requires forall i :: at <= i < at + n ==> t[i] == s[2 * at + n - 1 - i]
    requires forall i :: 0 <= i < |s| && !(at <= i < at + n) ==> t[i] == s[i]
    ensures t == s[..at] + Reversed(s[at..at + n]) + s[at + n..]
  {
  }

  function Quotient(value: nat, radix: nat): (q: nat)
    requires 2 <= radix
    ensures 0 < value ==> q < value
  {
    if value > 0 then SmallerQuotient(value, radix); value / radix else 0
  }

  function Remainder(value: nat, radix: nat): (r: nat)
    requires 2 <= radix
    ensures r < radix
  {
    value % radix
  }

  // One more digit, least significant first, makes the reversed buffer longer.
  lemma NextDigit(newval: nat, radix: nat, done: string)
    requires 2 <= radix <= 36 && newval > 0
    ensures var q, more := Quotient(newval, radix), done + [Digit(Remainder(newval, radix))];
      && (q == 0 ==> Numeral(newval, radix) + Reversed(done) == Reversed(more))
      && (q > 0 ==> Numeral(newval, radix) + Reversed(done) == Numeral(q, radix) + Reversed(more))
  {
    QuotientCases(newval, radix);
    LastBecomesFirst(done, Digit(newval % radix));
    hide Reversed;
    if newval >= radix {
      assert Numeral(newval, radix) == Numeral(newval / radix, radix) + [Digit(newval % radix)];
    }
  }

  lemma QuotientCases(value: nat, radix: nat)
    requires 2 <= radix
    ensures value < radix ==> value / radix == 0 && value % radix == value
    ensures value >= radix ==> value / radix > 0
  {
  }

  lemma LastBecomesFirst(s: string, c: char)
    ensures Reversed(s + [c]) == [c] + Reversed(s)
  {
  }

  method Itoa(value: nat, buf: array<char>, at: nat, radix: nat) returns (ghost len: nat)
    requires value < UINT32 && 2 <= radix <= 36 && at + DIGITS < buf.Length
    modifies buf
    ensures len == |Numeral(value, radix)| <= DIGITS
    ensures buf[at..at + len] == Numeral(value, radix) && buf[at + len] == '\0'
    ensures forall j :: 0 <= j < buf.Length && !(at <= j <= at + len) ==> buf[j] == old(buf[j])
  {
    WordFits(value, radix);
    ZeroNumeral(radix);
    hide Numeral, Reversed;
    if value == 0 {
      buf[at] := '0';
      buf[at + 1] := '\0';
      return 1;
    }
    len := PutDigits(value, buf, at, radix);
    DigitsEnd(buf[..], at, len, value, radix);
    Strrev(buf, at, len);
  }

  lemma DigitsEnd(s: string, at: nat, len: nat, value: nat, radix: nat)
    requires 2 <= radix <= 36 && at + len < |s| && s[at + len] == '\0' && Reversed(s[at..at + len]) == Numeral(value, radix)
    ensures EndsAt(s[at..], len) && Reversed(Numeral(value, radix)) == s[at..at + len]
  {
    var digits := s[at..at + len];
    NumeralHasNoEnd(value, radix);
    ReversedTwice(digits);
    ReversedHolds(digits);
    hide Numeral, Reversed;
    forall j | 0 <= j < len
      ensures s[at..][j] != '\0'
    {
      assert s[at..][j] == digits[j] && digits[j] in digits;
    }
  }

  // The digits as the loop leaves them, least significant first, and the end mark.
  method PutDigits(value: nat, buf: array<char>, at: nat, radix: nat) returns (ghost len: nat)
    requires 0 < value < UINT32 && 2 <= radix <= 36 && at + DIGITS < buf.Length
    modifies buf
    ensures len == |Numeral(value, radix)| <= DIGITS
    ensures Reversed(buf[at..at + len]) == Numeral(value, radix)
    ensures buf[at + len] == '\0'
    ensures forall j :: 0 <= j < buf.Length && !(at <= j <= at + len) ==> buf[j] == old(buf[j])
  {
    WordFits(value, radix);
    hide Numeral, Reversed, Digit, Quotient, Remainder, DigitValue;
    var p, newval: nat := at, value;
    while newval > 0
      invariant at <= p <= at + |Numeral(value, radix)|
      invariant forall j :: 0 <= j < buf.Length && !(at <= j < p) ==> buf[j] == old(buf[j])
      invariant Numeral(value, radix) == Rest(newval, radix) + Reversed(buf[at..p])
    {
      NextDigit(newval, radix, buf[at..p]);
      NumeralNotEmpty(newval, radix);
      assert |Numeral(value, radix)| == |Numeral(newval, radix)| + (p - at);
      ghost var was := buf[at..p];
      var i := Remainder(newval, radix);
      buf[p] := Digit(i);
      p := p + 1;
      assert buf[at..p] == was + [Digit(i)];
      newval := Quotient(newval, radix);
    }
    len := p - at;
    buf[p] := '\0';
  }

  // The digits still to come.
  function Rest(newval: nat, radix: nat): string
    requires 2 <= radix <= 36
  {
    if newval > 0 then Numeral(newval, radix) else []
  }

  lemma ReversedTwice(s: string)
    ensures Reversed(Reversed(s)) == s
  {
  }

  lemma ReversedHolds(s: string)
    ensures '\0' in s ==> '\0' in Reversed(s)
  {
    if '\0' in s {
      var i :| 0 <= i < |s| && s[i] == '\0';
      assert Reversed(s)[|s| - 1 - i] == '\0';
    }
  }

  // ----- %#x -----

  function Zeros(n: nat): (s: string)
    ensures |s| == n
  {
    seq(n, _ => '0')
  }

  lemma {:induction false} ZerosAddNothing(n: nat, s: string, radix: nat)
    ensures Value(Zeros(n) + s, radix) == Value(s, radix)
    decreases |s|, n
  {
    if s != [] {
      var t := Zeros(n) + s;
      assert t[..|t| - 1] == Zeros(n) + s[..|s| - 1];
      ZerosAddNothing(n, s[..|s| - 1], radix);
    } else if n > 0 {
      assert Zeros(n) + s == Zeros(n);
      assert Zeros(n)[..n - 1] == Zeros(n - 1) + [];
      ZerosAddNothing(n - 1, [], radix);
    } else {
      assert Zeros(n) + s == s;
    }
  }

  // %#x: what puts shows, from the first padding zero to the end mark.
  method HexEight(value: nat) returns (shown: string)
    requires value < UINT32
    ensures |shown| == 8 && Value(shown, 16) == value
    ensures var digits := Numeral(value, 16); |digits| <= 8 && shown == Zeros(8 - |digits|) + digits
  {
    var conv := new char[64];
    var start := HexDigits(value, conv);
    PadZeros(conv, start);
    PaddedHex(conv[..], start, value);
    hide *;
    shown := Puts(conv, start, 8);
  }

  // The eight characters in the buffer, and what they say.
  lemma PaddedHex(s: string, start: nat, value: nat)
    requires value < UINT32 && |s| == 64 && start == |Numeral(value, 16)| <= 8
    requires s[start..8] == Zeros(8 - start) && s[8..8 + start] == Numeral(value, 16)
    ensures s[start..8 + start] == Zeros(8 - start) + Numeral(value, 16)
    ensures '\0' !in s[start..8 + start] && Value(s[start..8 + start], 16) == value
  {
    hide Numeral, Value, Zeros;
    PaddedDigits(s, start, Numeral(value, 16));
    ZerosAddNothing(8 - start, Numeral(value, 16), 16);
    NumeralReadsBack(value, 16);
    NumeralHasNoEnd(value, 16);
    ZerosHaveNoEnd(8 - start);
  }

  lemma ZerosHaveNoEnd(n: nat)
    ensures '\0' !in Zeros(n)
  {
  }

  // puts: the characters it prints
  method Puts(s: array<char>, at: nat, ghost n: nat) returns (shown: string)
    requires at + n < s.Length && s[at + n] == '\0' && '\0' !in s[at..at + n]
    ensures shown == s[at..at + n]
  {
    shown := [];
    var index := 0;
    while s[at + index] != '\0'
      invariant 0 <= index <= n && shown == s[at..at + index]
      decreases n - index
    {
      shown := shown + [s[at + index]];
      index := index + 1;
    }
  }

  // The digits from place 8 on, and their number as strlen counts it.
  method HexDigits(value: nat, conv: array<char>) returns (start: nat)
    requires value < UINT32 && conv.Length == 64
    modifies conv
    ensures start == |Numeral(value, 16)| <= 8 && conv[8..8 + start] == Numeral(value, 16)
    ensures conv[8 + start] == '\0'
  {
    hide Numeral;
    ghost var len := Itoa(value, conv, 8, 16);
    WordFits(value, 16);
    NumeralHasNoEnd(value, 16);
    assert EndsAt(conv[8..], len) by {
      forall j | 0 <= j < len
        ensures conv[8..][j] != '\0'
      {
        assert conv[8..][j] == conv[8..8 + len][j];
        assert conv[8..8 + len][j] in Numeral(value, 16);
      }
    }
    start := Strlen(conv, 8);
    OneEnd(conv[8..], start, len);
  }

  lemma PaddedDigits(s: string, start: nat, digits: string)
    requires start <= 8 && |s| == 64 && s[start..8] == Zeros(8 - start) && s[8..8 + start] == digits
    ensures s[start..8 + start] == Zeros(8 - start) + digits
  {
    assert s[start..8 + start] == s[start..8] + s[8..8 + start];
  }

  method PadZeros(conv: array<char>, start: nat)
    requires start <= 8 <= conv.Length
    modifies conv
    ensures conv[start..8] == Zeros(8 - start)
    ensures forall j :: 8 <= j < conv.Length ==> conv[j] == old(conv[j])
  {
    var i := start;
    while i < 8
      invariant start <= i <= 8
      invariant conv[start..i] == Zeros(i - start)
      invariant forall j :: 8 <= j < conv.Length ==> conv[j] == old(conv[j])
    {
      conv[i] := '0';
      i := i + 1;
    }
  }
}
