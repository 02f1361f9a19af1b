/**
  ART's bit-packed memory (`BitMemoryRegion`, `BitMemoryReader`): word-at-a-time loads, chunk
  visiting and varints, against the definition bit by bit.  `width` is the word size of the dumped
  process, 32 or 64 bits.
 */
module BitRegion {
  import opened Basics
  import opened Bits

  /** The dumped memory, total: which addresses are mapped is the address space's business. */
  type Memory = nat -> byte

  /** `start` counts bits from the base address `data`. */
  datatype Region = Region(data: nat, start: nat, size: nat)

  predicate IsWidth(width: nat) { width == 32 || width == 64 }

  // ---------------------------------------------------------------------------------------------
  // Bits and the numbers they form
  // ---------------------------------------------------------------------------------------------

  predicate BitAt(mem: Memory, data: nat, i: nat) { Bit(mem(data + i / 8), i % 8) }

  /** The number formed by `n` bits from `i` on, the first bit lowest. */
  function BitsValue(mem: Memory, data: nat, i: nat, n: nat): nat
    decreases n
  {
    if n == 0 then 0 else BitValue(BitAt(mem, data, i)) + 2 * BitsValue(mem, data, i + 1, n - 1)
  }

  lemma {:induction false} BitOfBitsValue(mem: Memory, data: nat, i: nat, n: nat, k: nat)
    ensures Bit(BitsValue(mem, data, i, n), k) == (k < n && BitAt(mem, data, i + k))
    decreases n
  {
    hide BitAt;
    if n == 0 {
      BitOfZero(k);
    } else {
      var x := BitsValue(mem, data, i, n);
      assert x / 2 == BitsValue(mem, data, i + 1, n - 1) && x % 2 == BitValue(BitAt(mem, data, i));
      if k > 0 {
        BitOfBitsValue(mem, data, i + 1, n - 1, k - 1);
      }
    }
  }

  lemma {:induction false} BitsValueBound(mem: Memory, data: nat, i: nat, n: nat)
    ensures BitsValue(mem, data, i, n) < Pow2(n)
    decreases n
  {
    if n > 0 {
      BitsValueBound(mem, data, i + 1, n - 1);
    }
  }

  /** A number whose bits are those of the memory, up to `n`, is the number they form. */
  lemma {:induction false} IsBitsValue(mem: Memory, data: nat, i: nat, n: nat, x: nat)
    requires forall k: nat :: Bit(x, k) == (k < n && BitAt(mem, data, i + k))
    ensures x == BitsValue(mem, data, i, n)
  {
    hide BitAt, BitsValue, Bit;
    forall k: nat
      ensures Bit(x, k) == Bit(BitsValue(mem, data, i, n), k)
    {
      BitOfBitsValue(mem, data, i, n, k);
    }
    Extensional(x, BitsValue(mem, data, i, n));
  }

  // ---------------------------------------------------------------------------------------------
  // Words
  // ---------------------------------------------------------------------------------------------

  /** `n` bytes as a little-endian number. */
  function Bytes(mem: Memory, a: nat, n: nat): nat
    decreases n
  {
    if n == 0 then 0 else mem(a) + Shl(Bytes(mem, a + 1, n - 1), 8)
  }

  lemma {:induction false} BitOfBytes(mem: Memory, a: nat, n: nat, k: nat)
    ensures Bit(Bytes(mem, a, n), k) == (k < 8 * n && Bit(mem(a + k / 8), k % 8))
    decreases n
  {
    hide Bit, Shl, Or;
    if n == 0 {
      BitOfZero(k);
    } else {
      var rest := Bytes(mem, a + 1, n - 1);
      EightBits(mem(a));
      OrIsSum(mem(a), rest, 8);
      BitOfOr(mem(a), Shl(rest, 8), k);
      BitOfShl(rest, 8, k);
      if k >= 8 {
        HighBitsClear(mem(a), 8, k);
        BitOfBytes(mem, a + 1, n - 1, k - 8);
      }
    }
  }

  lemma EightBits(b: byte)
    ensures b < Pow2(8)
  {
    assert Pow2(4) == 16;
    assert Pow2(8) == 256;
  }

  /** `valueOf(index * point_size)`: eight bytes are read and masked to the pointer size. */
  function Word(mem: Memory, data: nat, index: nat, width: nat): nat
  {
    Low(Bytes(mem, data + index * (width / 8), 8), width)
  }

  lemma {:induction false} BitOfWord(mem: Memory, data: nat, index: nat, width: nat, k: nat)
    requires IsWidth(width)
    ensures Bit(Word(mem, data, index, width), k) == (k < width && BitAt(mem, data, index * width + k))
  {
    hide Bit, Low, Bytes;
    var a := data + index * (width / 8);
    BitOfLow(Bytes(mem, a, 8), width, k);
    if k < width {
      BitOfBytes(mem, a, 8, k);
      assert a + k / 8 == data + (index * width + k) / 8 && k % 8 == (index * width + k) % 8;
    }
  }

  // ---------------------------------------------------------------------------------------------
  // Loads
  // ---------------------------------------------------------------------------------------------

  const PAGE: nat := 0x1000

  /** A region given by any base and bit offset is kept relative to the page of its first bit. */
  function NewRegion(data: nat, bitStart: int, size: nat): (r: Region)
    requires 8 * data + bitStart >= 0
    ensures r.data % 0x1000 == 0 && r.start < 0x8000 && r.size == size
    ensures 8 * r.data + r.start == 8 * data + bitStart
  {
    var page := (data + bitStart / 8) / PAGE * PAGE;
    Region(page, bitStart + 8 * (data - page), size)
  }

  /** Moving the base does not move the bits. */
  lemma NewRegionKeepsBits(mem: Memory, data: nat, bitStart: int, size: nat, offset: nat)
    requires 8 * data + bitStart >= 0
    ensures
      var i := 8 * data + bitStart + offset;
      LoadBit(mem, NewRegion(data, bitStart, size), offset) == Bit(mem(i / 8), i % 8)
  {
    hide NewRegion, Bit;
    var r := NewRegion(data, bitStart, size);
    var i := 8 * data + bitStart + offset;
    assert i == 8 * r.data + (r.start + offset);
  }

  predicate LoadBit(mem: Memory, r: Region, offset: nat) { BitAt(mem, r.data, r.start + offset) }

  /** `LoadBits` for the given word size; `LoadBits64` is the same with 64. */
  function LoadBits(mem: Memory, r: Region, offset: nat, length: nat, width: nat): nat
    requires IsWidth(width)
  {
    if length == 0 then 0
    else
      var first := r.start + offset;
      var index, shift := first / width, first % width;
      var value := Shr(Word(mem, r.data, index, width), shift);
      var extra := Word(mem, r.data, index + (shift + (length - 1)) / width, width);
      Low(Or(value, Low(Shl(extra, LeftShift(shift, width)), 64)), length)
  }

  /** `(width - shift) & (width - 1)`. */
  function LeftShift(shift: nat, width: nat): nat
    requires shift < width
  {
    if shift == 0 then 0 else width - shift
  }

  lemma {:induction false} BitOfLoad(mem: Memory, data: nat, index: nat, shift: nat, length: nat, width: nat, k: nat)
    requires IsWidth(width) && shift < width && 0 < length <= width
    ensures
      var value := Shr(Word(mem, data, index, width), shift);
      var extra := Word(mem, data, index + (shift + (length - 1)) / width, width);
      Bit(Low(Or(value, Low(Shl(extra, LeftShift(shift, width)), 64)), length), k) ==
      (k < length && BitAt(mem, data, index * width + shift + k))
  {
    hide Bit, Low, Or, Shl, Shr, Word, BitAt;
    var w0 := Word(mem, data, index, width);
    var last := index + (shift + (length - 1)) / width;
    var w1 := Word(mem, data, last, width);
    var left := LeftShift(shift, width);
    var x, y := Shr(w0, shift), Low(Shl(w1, left), 64);
    BitOfLow(Or(x, y), length, k);
    if k < length {
      BitOfOr(x, y, k);
      BitOfShr(w0, shift, k);
      BitOfWord(mem, data, index, width, k + shift);
      BitOfLow(Shl(w1, left), 64, k);
      BitOfShl(w1, left, k);
      if k >= left {
        BitOfWord(mem, data, last, width, k - left);
      }
      Spans(index, shift, length, width, k);
    }
  }

  /** Which of the two words a bit comes from. */
  lemma Spans(index: nat, shift: nat, length: nat, width: nat, k: nat)
    requires IsWidth(width) && shift < width && k < length <= width
    ensures
      var last := index + (shift + (length - 1)) / width;
      var left := LeftShift(shift, width);
      && (k + shift >= width ==> k >= left && last * width + (k - left) == index * width + shift + k)
      && (k + shift < width && shift > 0 ==> k < left)
      && (shift == 0 ==> last == index)
  {
    if width == 32 {
      assert (shift + (length - 1)) / 32 <= 1;
    } else {
      assert (shift + (length - 1)) / 64 <= 1;
    }
  }

  /**
    For every offset and every length up to the word size, `LoadBits` is the number formed by the
    single bits that `LoadBit` reads.
   */
  lemma {:induction false} LoadBitsExact(mem: Memory, r: Region, offset: nat, length: nat, width: nat)
    requires IsWidth(width) && length <= width
    ensures LoadBits(mem, r, offset, length, width) == BitsValue(mem, r.data, r.start + offset, length)
    ensures forall k: nat ::
      Bit(LoadBits(mem, r, offset, length, width), k) == (k < length && LoadBit(mem, r, offset + k))
  {
    hide Bit, Low, Or, Shl, Shr, Word, BitAt, BitsValue;
    var first := r.start + offset;
    var x := LoadBits(mem, r, offset, length, width);
    forall k: nat
      ensures Bit(x, k) == (k < length && BitAt(mem, r.data, first + k))
    {
      if length == 0 {
        BitOfZero(k);
      } else {
        BitOfLoad(mem, r.data, first / width, first % width, length, width, k);
        assert first / width * width + first % width == first;
      }
    }
    IsBitsValue(mem, r.data, first, length, x);
  }

  // ---------------------------------------------------------------------------------------------
  // Chunks
  // ---------------------------------------------------------------------------------------------

  datatype Chunk = Chunk(offset: nat, bits: nat, value: nat)

  /** Chunks that cover the bits from `from` to `to`, each once and in order, with their values. */
  predicate Tiles(mem: Memory, r: Region, chunks: seq<Chunk>, from: nat, to: nat)
    decreases |chunks|
  {
    if chunks == [] then from == to
    else
      var c := chunks[|chunks| - 1];
      && c.offset + c.bits == to && c.bits > 0
      && c.value == BitsValue(mem, r.data, r.start + c.offset, c.bits)
      && Tiles(mem, r, chunks[..|chunks| - 1], from, c.offset)
  }

  lemma TilesSnoc(mem: Memory, r: Region, chunks: seq<Chunk>, c: Chunk)
    requires Tiles(mem, r, chunks, 0, c.offset) && c.bits > 0
    requires c.value == BitsValue(mem, r.data, r.start + c.offset, c.bits)
    ensures Tiles(mem, r, chunks + [c], 0, c.offset + c.bits)
  {
    assert (chunks + [c])[..|chunks|] == chunks;
  }

  /** The rest of a word above `shift`, cut to `length` bits. */
  lemma {:induction false} PartOfWord(mem: Memory, data: nat, index: nat, width: nat, shift: nat, length: nat)
    requires IsWidth(width) && shift + length <= width
    ensures Low(Shr(Word(mem, data, index, width), shift), length) ==
            BitsValue(mem, data, index * width + shift, length)
  {
    hide Bit, Low, Shr, Word, BitAt, BitsValue;
    var w := Word(mem, data, index, width);
    forall k: nat
      ensures Bit(Low(Shr(w, shift), length), k) == (k < length && BitAt(mem, data, index * width + shift + k))
    {
      BitOfLow(Shr(w, shift), length, k);
      BitOfShr(w, shift, k);
      BitOfWord(mem, data, index, width, k + shift);
    }
    IsBitsValue(mem, data, index * width + shift, length, Low(Shr(w, shift), length));
  }

  /** A word shifted down needs no cut when all of its upper part is taken. */
  lemma {:induction false} UpperPart(mem: Memory, data: nat, index: nat, width: nat, shift: nat)
    requires IsWidth(width) && shift <= width
    ensures Shr(Word(mem, data, index, width), shift) == BitsValue(mem, data, index * width + shift, width - shift)
  {
    hide Bit, Low, Shr, Word, BitAt, BitsValue;
    var w := Word(mem, data, index, width);
    forall k: nat
      ensures Bit(Shr(w, shift), k) == (k < width - shift && BitAt(mem, data, index * width + shift + k))
    {
      BitOfShr(w, shift, k);
      BitOfWord(mem, data, index, width, k + shift);
    }
    IsBitsValue(mem, data, index * width + shift, width - shift, Shr(w, shift));
  }

  /** `VisitChunks` with a visitor that records what it is given and never stops. */
  method VisitChunks(mem: Memory, r: Region, width: nat) returns (chunks: seq<Chunk>)
    requires IsWidth(width)
    ensures Tiles(mem, r, chunks, 0, r.size)
    ensures forall c <- chunks :: c.bits <= width
  {
    hide Word, Shr, Low, BitsValue;
    chunks := [];
    var remaining: nat := r.size;
    if remaining == 0 {
      return;
    }
    var offset: nat, index: nat, shift: nat := 0, r.start / width, r.start % width;
    assert r.start == index * width + shift;
    if shift != 0 {
      var leading := width - shift;
      var value := Shr(Word(mem, r.data, index, width), shift);
      UpperPart(mem, r.data, index, width, shift);
      if leading > remaining {
        leading := remaining;
        value := Low(value, remaining);
        PartOfWord(mem, r.data, index, width, shift, remaining);
      }
      TilesSnoc(mem, r, chunks, Chunk(offset, leading, value));
      chunks := chunks + [Chunk(offset, leading, value)];
      offset := offset + leading;
      remaining := remaining - leading;
      index := index + 1;
    }
    while remaining >= width
      invariant offset + remaining == r.size
      invariant remaining > 0 ==> r.start + offset == index * width
      invariant Tiles(mem, r, chunks, 0, offset)
      invariant forall c <- chunks :: c.bits <= width
      decreases remaining
    {
      var value := Word(mem, r.data, index, width);
      UpperPart(mem, r.data, index, width, 0);
      WholeWord(value);
      TilesSnoc(mem, r, chunks, Chunk(offset, width, value));
      chunks := chunks + [Chunk(offset, width, value)];
      offset := offset + width;
      remaining := remaining - width;
      index := index + 1;
    }
    if remaining != 0 {
      var value := Low(Word(mem, r.data, index, width), remaining);
      PartOfWord(mem, r.data, index, width, 0, remaining);
      WholeWord(Word(mem, r.data, index, width));
      TilesSnoc(mem, r, chunks, Chunk(offset, remaining, value));
      chunks := chunks + [Chunk(offset, remaining, value)];
    }
  }

  lemma WholeWord(x: nat)
    ensures Shr(x, 0) == x
  {
  }

  /** How many of `n` bits from `i` on are set. */
  function CountSet(mem: Memory, data: nat, i: nat, n: nat): nat
    decreases n
  {
    if n == 0 then 0 else BitValue(BitAt(mem, data, i)) + CountSet(mem, data, i + 1, n - 1)
  }

  lemma {:induction false} PopCountOfValue(mem: Memory, data: nat, i: nat, n: nat)
    ensures PopCount(BitsValue(mem, data, i, n)) == CountSet(mem, data, i, n)
    decreases n
  {
    hide BitAt;
    if n > 0 {
      PopCountOfValue(mem, data, i + 1, n - 1);
      var x := BitsValue(mem, data, i, n);
      assert x / 2 == BitsValue(mem, data, i + 1, n - 1) && x % 2 == BitValue(BitAt(mem, data, i));
      assert PopCount(x) == x % 2 + PopCount(x / 2);
    }
  }

  lemma {:induction false} CountSplit(mem: Memory, data: nat, i: nat, m: nat, n: nat)
    ensures CountSet(mem, data, i, m + n) == CountSet(mem, data, i, m) + CountSet(mem, data, i + m, n)
    decreases m
  {
    if m > 0 {
      CountSplit(mem, data, i + 1, m - 1, n);
    }
  }

  function SumPopCounts(chunks: seq<Chunk>): nat
    decreases |chunks|
  {
    if chunks == [] then 0
    else SumPopCounts(chunks[..|chunks| - 1]) + PopCount(chunks[|chunks| - 1].value)
  }

  lemma {:induction false} TilesCount(mem: Memory, r: Region, chunks: seq<Chunk>, to: nat)
    requires Tiles(mem, r, chunks, 0, to)
    ensures SumPopCounts(chunks) == CountSet(mem, r.data, r.start, to)
    decreases |chunks|
  {
    hide PopCount, BitsValue;
    if chunks != [] {
      var c := chunks[|chunks| - 1];
      TilesCount(mem, r, chunks[..|chunks| - 1], c.offset);
      PopCountOfValue(mem, r.data, r.start + c.offset, c.bits);
      CountSplit(mem, r.data, r.start, c.offset, c.bits);
    }
  }

  /** `PopCount`: the chunk-wise count is the number of set bits of the region. */
  method RegionPopCount(mem: Memory, r: Region, width: nat) returns (result: nat)
    requires IsWidth(width)
    ensures result == CountSet(mem, r.data, r.start, r.size)
  {
    hide PopCount;
    var chunks := VisitChunks(mem, r, width);
    result := 0;
    for j := 0 to |chunks|
      invariant result == SumPopCounts(chunks[..j])
    {
      assert chunks[..j + 1][..j] == chunks[..j];
      result := result + PopCount(chunks[j].value);
    }
    assert chunks[..|chunks|] == chunks;
    TilesCount(mem, r, chunks, r.size);
  }
}
