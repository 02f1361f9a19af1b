/**
  `DwarfLoader::ReadULEB128` and `ReadSLEB128` (section 7.6 of the DWARF 5 standard): the loops of
  the program, the number they denote, and the encodings they invert.
 */
module Leb128 {
  import opened Basics
  import opened Bits

  const WORD: nat := 64

  /** How many bytes the loops read: up to a byte below 128, the end of the data, or ten bytes. */
  function Count(data: seq<byte>, pos: nat, end: nat, shift: nat): (n: nat)
    requires end <= |data|
    ensures pos <= end ==> pos + n <= end
    ensures pos < end && shift < WORD ==> n > 0
    decreases end - pos
  {
    if pos < end && shift < WORD then
      if data[pos] < 128 then 1 else 1 + Count(data, pos + 1, end, shift + 7)
    else 0
  }

  /** The number written by seven-bit groups, least significant group first. */
  function Groups(data: seq<byte>, pos: nat, n: nat): nat
    requires pos + n <= |data|
    decreases n
  {
    if n == 0 then 0 else data[pos] % 128 + 128 * Groups(data, pos + 1, n - 1)
  }

  /** What `ReadULEB128` returns and how far it moves the cursor. */
  function Unsigned(data: seq<byte>, pos: nat, end: nat): (r: (nat, nat))
    requires end <= |data|
    ensures pos <= end ==> pos <= r.1 <= end
    ensures pos < end ==> pos < r.1
  {
    var n := if pos <= end then Count(data, pos, end, 0) else 0;
    (if pos <= end then Low(Groups(data, pos, n), WORD) else 0, pos + n)
  }

  // ---------------------------------------------------------------------------------------------
  // The loops
  // ---------------------------------------------------------------------------------------------

  lemma {:induction false} GroupsBound(data: seq<byte>, pos: nat, n: nat)
    requires pos + n <= |data|
    ensures Groups(data, pos, n) < Pow2(7 * n)
    decreases n
  {
    if n > 0 {
      GroupsBound(data, pos + 1, n - 1);
      Pow2Seven(7 * (n - 1));
    }
  }

  lemma Pow2Seven(m: nat)
    ensures Pow2(m + 7) == 128 * Pow2(m)
  {
    Pow2Add(m, 7);
    ShlSeven(Pow2(m));
  }

  lemma ShlSeven(x: nat)
    ensures Shl(x, 7) == 128 * x
  {
    assert Shl(x, 1) == 2 * x;
    assert Shl(x, 2) == 4 * x;
    assert Shl(x, 4) == 16 * x;
    assert Shl(x, 6) == 64 * x;
  }

  /** One more group goes above the others. */
  lemma {:induction false} GroupsSnoc(data: seq<byte>, pos: nat, n: nat)
    requires pos + n < |data|
    ensures Groups(data, pos, n + 1) == Groups(data, pos, n) + Shl(data[pos + n] % 128, 7 * n)
    decreases n
  {
    if n > 0 {
      GroupsSnoc(data, pos + 1, n - 1);
      var g := data[pos + n] % 128;
      ShlShl(g, 7 * (n - 1), 7);
      ShlSeven(Shl(g, 7 * (n - 1)));
    }
  }

  /** One round of the loop: or-ing the shifted group in, truncated to the word. */
  lemma {:induction false} RoundAddsGroup(data: seq<byte>, pos: nat, n: nat)
    requires pos + n < |data|
    ensures
      Or(Low(Groups(data, pos, n), WORD), Low(Shl(data[pos + n] % 128, 7 * n), WORD)) ==
      Low(Groups(data, pos, n + 1), WORD)
  {
    hide Low, Or, Shl, Groups;
    GroupsBound(data, pos, n);
    GroupsSnoc(data, pos, n);
    OrIsSum(Groups(data, pos, n), data[pos + n] % 128, 7 * n);
    LowOfOr(Groups(data, pos, n), Shl(data[pos + n] % 128, 7 * n), WORD);
  }

  lemma NoGroups(data: seq<byte>, pos: nat)
    requires pos <= |data|
    ensures Groups(data, pos, 0) == 0
  {
  }

  /** The common loop of the two readers; `last` is the last byte read, 0 if there was none. */
  method ReadGroups(data: seq<byte>, pos: nat, end: nat)
    returns (result: nat, next: nat, shift: nat, last: byte)
    requires pos <= end <= |data|
    ensures
      var n := Count(data, pos, end, 0);
      && next == pos + n && shift == 7 * n
      && result == Low(Groups(data, pos, n), WORD)
      && last == if n == 0 then 0 else data[pos + n - 1]
  {
    hide Low, Or, Shl, Groups;
    result, next, shift, last := 0, pos, 0, 0;
    ghost var n: nat := 0;
    LowOfZero(WORD);
    NoGroups(data, pos);
    while next < end && shift < WORD
      invariant next == pos + n <= end && shift == 7 * n
      invariant n + Count(data, next, end, shift) == Count(data, pos, end, 0)
      invariant result == Low(Groups(data, pos, n), WORD)
      invariant last == if n == 0 then 0 else data[next - 1]
      decreases end - next
    {
      last := data[next];
      RoundAddsGroup(data, pos, n);
      next := next + 1;
      result := Or(result, Low(Shl(last % 128, shift), WORD));
      shift := shift + 7;
      n := n + 1;
      if last < 128 {
        break;
      }
    }
  }

  method ReadULEB128(data: seq<byte>, pos: nat, end: nat) returns (result: nat, next: nat)
    requires pos <= end <= |data|
    ensures (result, next) == Unsigned(data, pos, end)
  {
    var shift, last;
    result, next, shift, last := ReadGroups(data, pos, end);
  }

  /** A word read as a two's complement number. */
  function ToSigned(u: nat): int
  {
    if Bit(u, WORD - 1) then u - Pow2(WORD) else u
  }

  /** What `ReadSLEB128` returns: the sign bit of the last group counts below the word size. */
  function Signed(data: seq<byte>, pos: nat, end: nat): (r: (int, nat))
    requires pos <= end <= |data|
    ensures pos <= r.1 <= end && (pos < end ==> pos < r.1)
  {
    var n := Count(data, pos, end, 0);
    var u := Groups(data, pos, n);
    if 7 * n < WORD && n > 0 && Bit(data[pos + n - 1], 6) then (u - Pow2(7 * n), pos + n)
    else (ToSigned(Low(u, WORD)), pos + n)
  }

  /** Setting all the bits of a word from `s` up is subtracting 2^s. */
  lemma {:induction false} SignExtend(u: nat, s: nat)
    requires s < WORD && u < Pow2(s)
    ensures ToSigned(Or(u, Shl(Pow2(WORD - s) - 1, s))) == u - Pow2(s)
  {
    hide ToSigned, Or, Pow2, Shl;
    var high := Shl(Pow2(WORD - s) - 1, s);
    OrIsSum(u, Pow2(WORD - s) - 1, s);
    ShlOfPow2Less1(WORD - s, s);
    TopBit(u + high);
    Pow2Half(s);
  }

  lemma {:induction false} ShlOfPow2Less1(m: nat, s: nat)
    ensures Shl(Pow2(m) - 1, s) == Pow2(m + s) - Pow2(s)
  {
    if s > 0 {
      ShlOfPow2Less1(m, s - 1);
    }
  }

  lemma Pow2Half(s: nat)
    requires s < WORD
    ensures Pow2(s) <= Pow2(WORD - 1) && Pow2(WORD) == 2 * Pow2(WORD - 1)
  {
    Pow2Grows(s, WORD - 1);
  }

  /** The top bit of a word tells whether it is in the upper half. */
  lemma TopBit(x: nat)
    requires x < Pow2(WORD)
    ensures ToSigned(x) == if x >= Pow2(WORD - 1) then x - Pow2(WORD) else x
  {
    TopBitOf(x, WORD - 1);
  }

  lemma {:induction false} TopBitOf(x: nat, k: nat)
    requires x < Pow2(k + 1)
    ensures Bit(x, k) <==> x >= Pow2(k)
  {
    if k > 0 {
      TopBitOf(x / 2, k - 1);
    }
  }

  method ReadSLEB128(data: seq<byte>, pos: nat, end: nat) returns (result: int, next: nat)
    requires pos <= end <= |data|
    ensures (result, next) == Signed(data, pos, end)
  {
    hide ToSigned, Or, Shl, Low, Groups, Count, Pow2, Bit;
    var word, shift, last := 0, 0, 0;
    word, next, shift, last := ReadGroups(data, pos, end);
    BitOfZero(6);
    if shift < WORD && Bit(last, 6) {
      GroupsBound(data, pos, next - pos);
      Pow2Grows(shift, WORD);
      LowId(Groups(data, pos, next - pos), WORD);
      SignExtend(word, shift);
      word := Or(word, Shl(Pow2(WORD - shift) - 1, shift));
    }
    result := ToSigned(word);
  }

  // ---------------------------------------------------------------------------------------------
  // Decoding inverts encoding
  // ---------------------------------------------------------------------------------------------

  function EncodeUnsigned(v: nat): (s: seq<byte>)
    ensures |s| > 0
  {
    if v < 128 then [v] else [v % 128 + 128] + EncodeUnsigned(v / 128)
  }

  function EncodeSigned(v: int): (s: seq<byte>)
    ensures |s| > 0
    decreases if v < 0 then -v else v
  {
    if -64 <= v < 64 then [v % 128] else [v % 128 + 128] + EncodeSigned(v / 128)
  }

  predicate At(data: seq<byte>, pos: nat, text: seq<byte>)
  {
    pos + |text| <= |data| && data[pos .. pos + |text|] == text
  }

  lemma AtSplit(data: seq<byte>, pos: nat, a: seq<byte>, b: seq<byte>)
    requires At(data, pos, a + b)
    ensures At(data, pos, a) && At(data, pos + |a|, b)
  {
    var whole := data[pos .. pos + |a + b|];
    assert whole[..|a|] == a && whole[|a|..] == b;
  }

  lemma AtHead(data: seq<byte>, pos: nat, text: seq<byte>)
    requires At(data, pos, text) && text != []
    ensures pos < |data| && data[pos] == text[0]
  {
    assert data[pos] == data[pos .. pos + |text|][0];
  }

  lemma AtEnd(data: seq<byte>, pos: nat, text: seq<byte>)
    requires At(data, pos, text)
    ensures pos + |text| <= |data|
  {
  }

  /** The definitions one byte deep. */
  lemma ByteParts(data: seq<byte>, pos: nat, end: nat, shift: nat, m: nat)
    requires pos < end <= |data| && shift < WORD && pos + 1 + m <= |data|
    ensures Count(data, pos, end, shift) == if data[pos] < 128 then 1 else 1 + Count(data, pos + 1, end, shift + 7)
    ensures Groups(data, pos, m + 1) == data[pos] % 128 + 128 * Groups(data, pos + 1, m)
  {
  }

  /** All groups of an encoding are read, and they spell the number. */
  lemma {:induction false} EncodedUnsigned(v: nat, data: seq<byte>, pos: nat, end: nat, shift: nat)
    requires At(data, pos, EncodeUnsigned(v)) && pos + |EncodeUnsigned(v)| <= end <= |data|
    requires shift < WORD && shift % 7 == 0 && v < Pow2(WORD - shift)
    ensures Count(data, pos, end, shift) == |EncodeUnsigned(v)|
    ensures Groups(data, pos, |EncodeUnsigned(v)|) == v
    decreases v
  {
    hide At, Count, Groups, Pow2;
    AtHead(data, pos, EncodeUnsigned(v));
    AtEnd(data, pos, EncodeUnsigned(v));
    ByteParts(data, pos, end, shift, |EncodeUnsigned(v)| - 1);
    if v >= 128 {
      AtSplit(data, pos, [v % 128 + 128], EncodeUnsigned(v / 128));
      SevenBitsLess(v, WORD - shift);
      EncodedUnsigned(v / 128, data, pos + 1, end, shift + 7);
    } else {
      NoGroups(data, pos + 1);
    }
  }

  /** Every 64-bit value is read back, and exactly its bytes are consumed. */
  lemma {:induction false} UnsignedRoundTrip(v: nat, data: seq<byte>, pos: nat, end: nat)
    requires v < Pow2(WORD) && At(data, pos, EncodeUnsigned(v)) && pos + |EncodeUnsigned(v)| <= end <= |data|
    ensures Unsigned(data, pos, end) == (v, pos + |EncodeUnsigned(v)|)
  {
    hide EncodeUnsigned, Pow2, Low, Groups, Count;
    EncodedUnsigned(v, data, pos, end, 0);
    LowId(v, WORD);
  }

  /**
    The groups of a signed encoding spell the number plus 2^(7n) when it is negative; the sign is
    the top bit of the last group.
   */
  lemma {:induction false} EncodedSigned(v: int, data: seq<byte>, pos: nat, end: nat, shift: nat)
    requires At(data, pos, EncodeSigned(v)) && pos + |EncodeSigned(v)| <= end <= |data|
    requires shift < WORD && shift % 7 == 0 && -(Pow2(WORD - 1 - shift) as int) <= v < Pow2(WORD - 1 - shift)
    ensures
      var n := |EncodeSigned(v)|;
      && Count(data, pos, end, shift) == n
      && Groups(data, pos, n) == (if v < 0 then v + Pow2(7 * n) else v)
      && (Bit(data[pos + n - 1], 6) <==> v < 0)
    decreases if v < 0 then -v else v
  {
    hide At, Bit, Count, Groups, Pow2;
    AtEnd(data, pos, EncodeSigned(v));
    if -64 <= v < 64 {
      LastSignedGroup(v, data, pos, end, shift);
    } else {
      AtHead(data, pos, EncodeSigned(v));
      AtSplit(data, pos, [v % 128 + 128], EncodeSigned(v / 128));
      SevenBitsDown(v, WORD - 1 - shift);
      EncodedSigned(v / 128, data, pos + 1, end, shift + 7);
      var m := |EncodeSigned(v / 128)|;
      Pow2Seven(7 * m);
      ByteParts(data, pos, end, shift, m);
    }
  }

  lemma SevenBitsLess(v: nat, n: nat)
    requires 128 <= v < Pow2(n)
    ensures n > 7 && v / 128 < Pow2(n - 7)
  {
    hide Pow2;
    SixBits();
    if n <= 7 {
      Pow2Grows(n, 7);
      assert false;
    }
    Pow2Seven(n - 7);
  }

  /** A value of more than one group, without its lowest group, needs seven bits less. */
  lemma SevenBitsDown(v: int, n: nat)
    requires -(Pow2(n) as int) <= v < Pow2(n) && !(-64 <= v < 64)
    ensures n >= 7 && -(Pow2(n - 7) as int) <= v / 128 < Pow2(n - 7)
  {
    hide Pow2;
    SixBits();
    if n <= 6 {
      Pow2Grows(n, 6);
      assert false;
    }
    Pow2Seven(n - 7);
  }

  lemma Pow2Of32()
    ensures Pow2(32) == 0x1_0000_0000
  {
    assert Pow2(4) == 16;
    Pow2Seven(4);
    Pow2Seven(11);
    Pow2Seven(18);
    Pow2Seven(25);
  }

  /** The word has 64 bits. */
  lemma WordIs()
    ensures Pow2(WORD) == 0x1_0000_0000_0000_0000 && Pow2(WORD - 1) == 0x8000_0000_0000_0000
  {
    hide Pow2;
    Pow2Of32();
    Pow2Seven(32);
    Pow2Seven(39);
    Pow2Seven(46);
    Pow2Seven(53);
    NextPow2(60);
    NextPow2(61);
    NextPow2(62);
    NextPow2(63);
  }

  lemma NextPow2(m: nat)
    ensures Pow2(m + 1) == 2 * Pow2(m)
  {
  }

  /** A 32-bit number is a 64-bit number, and truncation leaves it alone. */
  lemma Small32(v: nat)
    requires v < 0x1_0000_0000
    ensures v < Pow2(WORD) && Low(v, 32) == v
  {
    hide Low, Pow2;
    Pow2Of32();
    LowId(v, 32);
    Pow2Grows(32, WORD);
  }

  lemma SixBits()
    ensures Pow2(6) == 64 && Pow2(7) == 128
  {
  }

  lemma LastSignedGroup(v: int, data: seq<byte>, pos: nat, end: nat, shift: nat)
    requires -64 <= v < 64 && At(data, pos, EncodeSigned(v)) && pos < end <= |data| && shift < WORD
    ensures Count(data, pos, end, shift) == 1 && |EncodeSigned(v)| == 1
    ensures Groups(data, pos, 1) == if v < 0 then v + Pow2(7) else v
    ensures Bit(data[pos], 6) <==> v < 0
  {
    hide At;
    AtHead(data, pos, EncodeSigned(v));
    assert Groups(data, pos, 1) == data[pos] % 128 + 128 * Groups(data, pos + 1, 0);
    assert Pow2(6) == 64 && Pow2(7) == 128;
    TopBitOf(v % 128, 6);
  }

  /** Every signed 64-bit value is read back, and exactly its bytes are consumed. */
  lemma {:induction false} SignedRoundTrip(v: int, data: seq<byte>, pos: nat, end: nat)
    requires -(Pow2(WORD - 1) as int) <= v < Pow2(WORD - 1)
    requires At(data, pos, EncodeSigned(v)) && pos + |EncodeSigned(v)| <= end <= |data|
    ensures Signed(data, pos, end) == (v, pos + |EncodeSigned(v)|)
  {
    hide EncodeSigned, Groups, Count, ToSigned, Low, Pow2;
    EncodedSigned(v, data, pos, end, 0);
    var n := |EncodeSigned(v)|;
    var u := Groups(data, pos, n);
    if 7 * n < WORD {
      if v >= 0 {
        Pow2Half(0);
        LowId(u, WORD);
        TopBit(u);
      }
    } else {
      WrapsToSigned(v, 7 * n);
    }
  }

  /** Truncating v + 2^m to the word leaves the two's complement of v. */
  lemma {:induction false} WrapsToSigned(v: int, m: nat)
    requires WORD <= m && -(Pow2(WORD - 1) as int) <= v < Pow2(WORD - 1)
    ensures v < 0 ==> v + Pow2(m) >= 0
    ensures ToSigned(Low(if v < 0 then v + Pow2(m) else v, WORD)) == v
  {
    hide ToSigned, Low;
    Pow2Half(0);
    Pow2Grows(WORD, m);
    if v < 0 {
      LowOfSum(v + Pow2(WORD), m, WORD);
      LowId(v + Pow2(WORD), WORD);
      TopBit(v + Pow2(WORD));
    } else {
      LowId(v, WORD);
      TopBit(v);
    }
  }

  /** Multiples of 2^n above the word do not matter. */
  lemma {:induction false} LowOfSum(x: nat, m: nat, n: nat)
    requires n <= m && x < Pow2(n)
    ensures x + Pow2(m) - Pow2(n) >= 0
    ensures Low(x + Pow2(m) - Pow2(n), n) == Low(x, n)
    decreases n
  {
    Pow2Grows(n, m);
    if n > 0 {
      LowOfSum(x / 2, m - 1, n - 1);
      assert (x + Pow2(m) - Pow2(n)) / 2 == x / 2 + Pow2(m - 1) - Pow2(n - 1);
    }
  }

  // ---------------------------------------------------------------------------------------------
  // Padded encodings
  // ---------------------------------------------------------------------------------------------

  /** `n` bytes that the standard reads as one number: only the last of them is below 128. */
  predicate IsNumber(data: seq<byte>, pos: nat, n: nat)
  {
    && n > 0 && pos + n <= |data| && data[pos + n - 1] < 128
    && forall k :: pos <= k < pos + n - 1 ==> data[k] >= 128
  }

  const LONGEST: nat := 10

  lemma {:induction false} CountOfNumber(data: seq<byte>, pos: nat, n: nat, end: nat, j: nat)
    requires IsNumber(data, pos, n) && pos + n <= end <= |data| && j <= LONGEST
    ensures Count(data, pos, end, 7 * j) == if n <= LONGEST - j then n else LONGEST - j
    decreases n
  {
    if j < LONGEST && n > 1 {
      CountOfNumber(data, pos + 1, n - 1, end, j + 1);
    }
  }

  /** Whatever stands 2^m above a number does not show in fewer bits. */
  lemma {:induction false} LowIgnores(x: nat, y: nat, m: nat, k: nat)
    requires k <= m
    ensures Low(x + Shl(y, m), k) == Low(x, k)
    decreases k
  {
    if k > 0 {
      var p := Shl(y, m - 1);
      assert (x + 2 * p) % 2 == x % 2 && (x + 2 * p) / 2 == x / 2 + p;
      LowIgnores(x / 2, y, m - 1, k - 1);
    }
  }

  /** The groups behind the tenth do not show in a word. */
  lemma {:induction false} LowOfGroups(data: seq<byte>, pos: nat, n: nat)
    requires LONGEST <= n && pos + n <= |data|
    ensures Low(Groups(data, pos, n), WORD) == Low(Groups(data, pos, LONGEST), WORD)
    decreases n
  {
    hide Low, Groups, Shl;
    if n > LONGEST {
      LowOfGroups(data, pos, n - 1);
      GroupsSnoc(data, pos, n - 1);
      LowIgnores(Groups(data, pos, n - 1), data[pos + n - 1] % 128, 7 * (n - 1), WORD);
    }
  }

  /**
    An unsigned number however long it is padded: the value is right modulo 2^64, and the cursor
    ends behind the number if and only if it has at most ten bytes; otherwise it stops after ten.
   */
  lemma PaddedUnsigned(data: seq<byte>, pos: nat, n: nat, end: nat)
    requires IsNumber(data, pos, n) && pos + n <= end <= |data|
    ensures
      var (v, next) := Unsigned(data, pos, end);
      && (next == pos + n <==> n <= 10)
      && (n > 10 ==> next == pos + 10)
      && v == Low(Groups(data, pos, n), WORD)
      && (Groups(data, pos, n) < Pow2(WORD) ==> v == Groups(data, pos, n))
  {
    hide Low, Groups, Pow2, Count;
    CountOfNumber(data, pos, n, end, 0);
    if n > LONGEST {
      LowOfGroups(data, pos, n);
    }
    if Groups(data, pos, n) < Pow2(WORD) {
      LowId(Groups(data, pos, n), WORD);
    }
  }

  /** What the standard reads: the sixth bit of the last byte is the sign. */
  function SignedValue(data: seq<byte>, pos: nat, n: nat): int
    requires n > 0 && pos + n <= |data|
  {
    Groups(data, pos, n) - if Bit(data[pos + n - 1], 6) then Pow2(7 * n) else 0
  }

  /** The same for signed numbers: every value that fits a word is read right. */
  lemma PaddedSigned(data: seq<byte>, pos: nat, n: nat, end: nat)
    requires IsNumber(data, pos, n) && pos + n <= end <= |data|
    ensures
      var (v, next) := Signed(data, pos, end);
      && (next == pos + n <==> n <= 10)
      && (n > 10 ==> next == pos + 10)
      && (7 * n >= WORD ==> v == ToSigned(Low(Groups(data, pos, n), WORD)))
      && (-(Pow2(WORD - 1) as int) <= SignedValue(data, pos, n) < Pow2(WORD - 1) ==> v == SignedValue(data, pos, n))
  {
    hide Low, Groups, Pow2, Count, ToSigned, Bit;
    CountOfNumber(data, pos, n, end, 0);
    GroupsBound(data, pos, n);
    var u := Groups(data, pos, n);
    if n > LONGEST {
      LowOfGroups(data, pos, n);
    }
    if 7 * n < WORD {
      Pow2Grows(7 * n, WORD - 1);
      Pow2Half(0);
      LowId(u, WORD);
      TopBit(u);
    } else if -(Pow2(WORD - 1) as int) <= SignedValue(data, pos, n) < Pow2(WORD - 1) {
      WrapsToSigned(SignedValue(data, pos, n), 7 * n);
    }
  }

  lemma {:induction false} ZeroGroups(data: seq<byte>, pos: nat, n: nat)
    requires pos + n <= |data| && forall k :: pos <= k < pos + n ==> data[k] % 128 == 0
    ensures Groups(data, pos, n) == 0
    decreases n
  {
    if n > 0 {
      ZeroGroups(data, pos + 1, n - 1);
    }
  }

  /** Zero in eleven bytes: the value is right, and the last byte is left for the next read. */
  lemma ElevenBytesLeaveOne()
    ensures
      var data := seq(10, _ => 128) + [0];
      IsNumber(data, 0, 11) && Unsigned(data, 0, 11) == (0, 10)
  {
    hide Low, Count, Groups, Unsigned;
    var data := seq(10, _ => 128) + [0];
    ZeroGroups(data, 0, 11);
    PaddedUnsigned(data, 0, 11, 11);
    Small32(0);
  }
}
