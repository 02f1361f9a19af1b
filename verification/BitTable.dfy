/**
  ART's bit tables (`BitMemoryReader`, `BitTable`): varint headers in the interleaved and in the
  older sequential format, column offsets and cells.
 */
module BitTable {
  import opened Basics
  import opened Bits
  import opened BitRegion

  const U16: nat := 0x1_0000
  const U32: nat := 0x1_0000_0000
  const VARINT_BITS: nat := 4
  const VARINT_MAX: nat := 11

  // ---------------------------------------------------------------------------------------------
  // Varints
  // ---------------------------------------------------------------------------------------------

  /** Payload size of a varint whose first four bits are `x`. */
  function PayloadBits(x: nat): nat { if x <= VARINT_MAX then 0 else (x - VARINT_MAX) * 8 }

  function Nibble(mem: Memory, data: nat, i: nat): (x: nat)
    ensures x < 16
  {
    BitsValueBound(mem, data, i, VARINT_BITS);
    assert Pow2(4) == 16;
    BitsValue(mem, data, i, VARINT_BITS)
  }

  /** A varint at bit `i`: its value and how many bits it takes. */
  function Varint(mem: Memory, data: nat, i: nat): (nat, nat)
  {
    var x := Nibble(mem, data, i);
    if x <= VARINT_MAX then (x, 4) else (BitsValue(mem, data, i + 4, PayloadBits(x)), 4 + PayloadBits(x))
  }

  function Nibbles(mem: Memory, data: nat, i: nat, num: nat): (xs: seq<nat>)
    ensures |xs| == num
    ensures forall j :: 0 <= j < num ==> xs[j] == Nibble(mem, data, i + 4 * j)
  {
    seq(num, j requires 0 <= j < num => Nibble(mem, data, i + 4 * j))
  }

  /** Payloads follow in the order of their nibbles; the second result is their total size. */
  function Payloads(mem: Memory, data: nat, i: nat, xs: seq<nat>): (r: (seq<nat>, nat))
    ensures |r.0| == |xs|
    decreases |xs|
  {
    if xs == [] then ([], 0)
    else
      var n := PayloadBits(xs[0]);
      var (rest, size) := Payloads(mem, data, i + n, xs[1..]);
      ([if xs[0] <= VARINT_MAX then xs[0] else BitsValue(mem, data, i, n)] + rest, n + size)
  }

  function Interleaved(mem: Memory, data: nat, i: nat, num: nat): (r: (seq<nat>, nat))
    ensures |r.0| == num
  {
    var (values, size) := Payloads(mem, data, i + 4 * num, Nibbles(mem, data, i, num));
    (values, 4 * num + size)
  }

  class BitMemoryReader {
    const mem: Memory
    const width: nat
    const data: nat
    const origin: nat
    var size: nat  // bits read so far

    constructor (mem: Memory, width: nat, data: nat, origin: nat)
      ensures this.mem == mem && this.width == width && this.data == data && this.origin == origin && size == 0
    {
      this.mem, this.width, this.data, this.origin, this.size := mem, width, data, origin, 0;
    }

    ghost predicate Valid()
      reads this
    {
      IsWidth(width)
    }

    function Position(): nat
      reads this
    {
      origin + size
    }

    method ReadRegion(length: nat) returns (r: Region)
      modifies this
      ensures r == Region(data, old(Position()), length) && size == old(size) + length
    {
      var offset := size;
      size := offset + length;
      r := Region(data, origin + offset, length);
    }

    method ReadBits(length: nat) returns (v: nat)
      requires Valid() && length <= width
      modifies this
      ensures size == old(size) + length
      ensures v == BitsValue(mem, data, old(Position()), length)
    {
      hide LoadBits;
      var r := ReadRegion(length);
      LoadBitsExact(mem, r, 0, length, width);
      v := LoadBits(mem, r, 0, length, width);
    }

    method ReadBits64(length: nat) returns (v: nat)
      requires length <= 64
      modifies this
      ensures size == old(size) + length
      ensures v == BitsValue(mem, data, old(Position()), length)
    {
      hide LoadBits;
      var r := ReadRegion(length);
      LoadBitsExact(mem, r, 0, length, 64);
      v := LoadBits(mem, r, 0, length, 64);
    }

    method ReadVarint() returns (v: nat)
      requires Valid()
      modifies this
      ensures
        var (value, bits) := Varint(mem, data, old(Position()));
        v == value && size == old(size) + bits
    {
      hide BitsValue;
      var x := ReadBits(VARINT_BITS);
      assert x == Nibble(mem, data, old(Position()));
      if x <= VARINT_MAX {
        return x;
      }
      v := ReadBits((x - VARINT_MAX) * 8);
    }

    /** One 64-bit load for all the nibbles, so at most sixteen of them. */
    method ReadInterleavedVarints(num: nat) returns (values: seq<nat>)
      requires Valid() && num <= 16
      modifies this
      ensures
        var (vs, bits) := Interleaved(mem, data, old(Position()), num);
        values == vs && size == old(size) + bits
    {
      hide Payloads, Nibbles, BitsValue;
      var start := Position();
      var word := ReadBits64(num * VARINT_BITS);
      values := Extract(mem, data, start, num, word);
      values := ReadPayloads(values);
    }

    /** Replaces the values that announce a payload by that payload, from first to last. */
    method ReadPayloads(xs: seq<nat>) returns (values: seq<nat>)
      requires Valid() && forall j :: 0 <= j < |xs| ==> xs[j] < 16
      modifies this
      ensures
        var (vs, bits) := Payloads(mem, data, old(Position()), xs);
        values == vs && size == old(size) + bits
    {
      hide BitsValue;
      values := xs;
      ghost var done: nat := 0;
      for j := 0 to |xs|
        invariant |values| == |xs| && forall k :: j <= k < |xs| ==> values[k] == xs[k]
        invariant size == old(size) + done
        invariant Payloads(mem, data, old(Position()), xs[..j]) == (values[..j], done)
      {
        var x := values[j];
        PayloadsSnoc(mem, data, old(Position()), xs[..j], x);
        assert xs[..j + 1] == xs[..j] + [x];
        if x > VARINT_MAX {
          var v := ReadBits((x - VARINT_MAX) * 8);
          values := values[j := v];
        }
        done := done + PayloadBits(x);
        assert values[..j + 1] == values[..j] + [values[j]];
      }
      assert xs[..|xs|] == xs && values[..|xs|] == values;
    }
  }

  /** The loop that cuts the loaded word into nibbles. */
  method Extract(mem: Memory, ghost data: nat, ghost start: nat, num: nat, word: nat) returns (values: seq<nat>)
    requires word == BitsValue(mem, data, start, num * VARINT_BITS)
    ensures values == Nibbles(mem, data, start, num)
  {
    hide BitsValue, Low, Shr;
    ghost var xs := Nibbles(mem, data, start, num);
    values := [];
    for j := 0 to num
      invariant values == xs[..j]
    {
      FieldIsNibble(mem, data, start, num, j);
      values := values + [Low(Shr(word, j * VARINT_BITS), VARINT_BITS)];
    }
  }

  /** One more value behind the others. */
  lemma {:induction false} PayloadsSnoc(mem: Memory, data: nat, i: nat, xs: seq<nat>, x: nat)
    ensures
      var (vs, bits) := Payloads(mem, data, i, xs);
      var v := if x <= VARINT_MAX then x else BitsValue(mem, data, i + bits, PayloadBits(x));
      Payloads(mem, data, i, xs + [x]) == (vs + [v], bits + PayloadBits(x))
    decreases |xs|
  {
    hide BitsValue, PayloadBits;
    if xs == [] {
      var n := PayloadBits(x);
      assert xs + [x] == [x] && [x][1..] == [];
      assert Payloads(mem, data, i, []) == ([], 0) && Payloads(mem, data, i + n, []) == ([], 0);
      var v := if x <= VARINT_MAX then x else BitsValue(mem, data, i, n);
      assert [v] + [] == [] + [v];
    } else {
      PayloadsSnoc(mem, data, i + PayloadBits(xs[0]), xs[1..], x);
      assert (xs + [x])[1..] == xs[1..] + [x] && (xs + [x])[0] == xs[0];
      var (vs, bits) := Payloads(mem, data, i + PayloadBits(xs[0]), xs[1..]);
      var v := if x <= VARINT_MAX then x else BitsValue(mem, data, i + PayloadBits(xs[0]) + bits, PayloadBits(x));
      var v0 := if xs[0] <= VARINT_MAX then xs[0] else BitsValue(mem, data, i, PayloadBits(xs[0]));
      assert [v0] + (vs + [v]) == ([v0] + vs) + [v];
    }
  }

  /** `BitFieldExtract` of the j-th nibble. */
  lemma {:induction false} FieldIsNibble(mem: Memory, data: nat, i: nat, num: nat, j: nat)
    requires j < num
    ensures Low(Shr(BitsValue(mem, data, i, num * 4), j * 4), 4) == Nibble(mem, data, i + 4 * j)
  {
    hide Bit, Low, Shr, BitsValue, BitAt;
    var word := BitsValue(mem, data, i, num * 4);
    forall k: nat
      ensures Bit(Low(Shr(word, j * 4), 4), k) == (k < 4 && BitAt(mem, data, i + 4 * j + k))
    {
      BitOfLow(Shr(word, j * 4), 4, k);
      BitOfShr(word, j * 4, k);
      BitOfBitsValue(mem, data, i, num * 4, k + j * 4);
    }
    IsBitsValue(mem, data, i + 4 * j, 4, Low(Shr(word, j * 4), 4));
  }

  // ---------------------------------------------------------------------------------------------
  // The table
  // ---------------------------------------------------------------------------------------------

  /** Column offsets in 16-bit arithmetic: one more than there are columns. */
  function Offsets(widths: seq<nat>): (offsets: seq<nat>)
    ensures |offsets| == |widths| + 1
    ensures offsets[0] == 0
    ensures forall c :: 0 <= c < |widths| ==> offsets[c + 1] == (offsets[c] + widths[c]) % 0x1_0000
    decreases |widths|
  {
    if widths == [] then [0]
    else
      var n := |widths| - 1;
      var front := Offsets(widths[..n]);
      front + [(front[n] + widths[n]) % U16]
  }

  function Zeros(n: nat): (zs: seq<nat>)
    ensures |zs| == n
    ensures forall i :: 0 <= i < n ==> zs[i] == 0
  {
    seq(n, _ => 0)
  }

  /** `std::vector::resize(n, 0)`: what is there stays, up to the new size. */
  function Resized(before: seq<nat>, n: nat): (r: seq<nat>)
    ensures |r| == n && forall i :: 0 <= i < n ==> r[i] == if i < |before| then before[i] else 0
  {
    if |before| >= n then before[..n] else before + Zeros(n - |before|)
  }

  datatype Table = Table(rows: nat, offsets: seq<nat>, data: Region)

  function RowBits(offsets: seq<nat>): nat
    requires offsets != []
  {
    offsets[|offsets| - 1]
  }

  /**
    What `DecodeOnly` leaves in the table, and how many bits it reads.  `before` are the column
    offsets that the object had: the older format does not set them if there are no rows.
   */
  function Decode(mem: Memory, data: nat, i: nat, version: nat, columns: nat, before: seq<nat>): Option<(Table, nat)>
  {
    if version >= 173 then
      var (header, size) := Interleaved(mem, data, i, columns + 1);
      var offsets := Offsets(header[1..]);
      Some(WithRows(data, i, header[0], offsets, size))
    else if version >= 159 then
      var (rows, size) := Varint(mem, data, i);
      if rows == 0 then Some(WithRows(data, i, 0, Resized(before, columns + 1), size))
      else
        var (widths, more) := Varints(mem, data, i + size, columns);
        Some(WithRows(data, i, rows, Offsets(widths), size + more))
    else None
  }

  function WithRows(data: nat, i: nat, rows: nat, offsets: seq<nat>, size: nat): (Table, nat)
    requires offsets != []
  {
    var bits := rows * RowBits(offsets) % U32;
    (Table(rows, offsets, Region(data, i + size, bits)), size + bits)
  }

  /** Varints one after the other. */
  function Varints(mem: Memory, data: nat, i: nat, num: nat): (r: (seq<nat>, nat))
    ensures |r.0| == num
    decreases num
  {
    if num == 0 then ([], 0)
    else
      var (front, size) := Varints(mem, data, i, num - 1);
      var (v, bits) := Varint(mem, data, i + size);
      (front + [v], size + bits)
  }

  function NumColumnBits(t: Table, column: nat): nat
    requires column + 1 < |t.offsets|
  {
    (t.offsets[column + 1] - t.offsets[column]) % U32
  }

  /** Where a cell starts in the table's data, in 32-bit arithmetic. */
  function CellOffset(t: Table, row: nat, column: nat): nat
    requires column + 1 < |t.offsets|
  {
    (row * RowBits(t.offsets) + t.offsets[column]) % U32
  }

  /** `Get`: the cell plus 2^32 - 1, in 32-bit arithmetic. */
  function Get(mem: Memory, width: nat, t: Table, row: nat, column: nat): nat
    requires IsWidth(width) && column + 1 < |t.offsets|
  {
    (LoadBits(mem, t.data, CellOffset(t, row, column), NumColumnBits(t, column), width) + (U32 - 1)) % U32
  }

  /** `GetBitMemoryRegion`. */
  function CellRegion(t: Table, row: nat, column: nat): Region
    requires column + 1 < |t.offsets|
  {
    Region(t.data.data, t.data.start + CellOffset(t, row, column), NumColumnBits(t, column))
  }

  class BitTable {
    const columns: nat
    var data: Region
    var rows: nat
    var offsets: seq<nat>

    constructor (columns: nat)
      ensures this.columns == columns && rows == 0 && offsets == []
    {
      this.columns, data, rows, offsets := columns, Region(0, 0, 0), 0, [];
    }

    function State(): Table
      reads this
    {
      Table(rows, offsets, data)
    }

    method DecodeOnly(reader: BitMemoryReader, version: nat)
      requires reader.Valid() && columns + 1 <= 16
      modifies this, reader
      ensures
        var r := Decode(reader.mem, reader.data, old(reader.Position()), version, columns, old(offsets));
        if r.None? then unchanged(this) && unchanged(reader)
        else State() == r.value.0 && reader.size == old(reader.size) + r.value.1
    {
      hide Interleaved, Varint, Varints, Offsets, Resized;
      if version >= 173 {
        var header := reader.ReadInterleavedVarints(columns + 1);
        rows := header[0];
        SetOffsets(header[1..]);
        data := reader.ReadRegion(rows * RowBits(offsets) % U32);
      } else if version >= 159 {
        offsets := Resized(offsets, columns + 1);
        rows := reader.ReadVarint();
        if rows != 0 {
          var widths := ReadWidths(reader);
          SetOffsets(widths);
        }
        data := reader.ReadRegion(rows * RowBits(offsets) % U32);
      }
    }

    /** The loop that accumulates the column offsets. */
    method SetOffsets(widths: seq<nat>)
      modifies this`offsets
      ensures offsets == Offsets(widths)
    {
      offsets := [0];
      for c := 0 to |widths|
        invariant offsets == Offsets(widths[..c])
      {
        assert widths[..c + 1][..c] == widths[..c];
        offsets := offsets + [(offsets[c] + widths[c]) % U16];
      }
      assert widths[..|widths|] == widths;
    }

    /** The column widths of the older header. */
    method ReadWidths(reader: BitMemoryReader) returns (widths: seq<nat>)
      requires reader.Valid()
      modifies reader
      ensures
        var (ws, bits) := Varints(reader.mem, reader.data, old(reader.Position()), columns);
        widths == ws && reader.size == old(reader.size) + bits
    {
      hide Varint;
      widths := [];
      for c := 0 to columns
        invariant
          var (ws, bits) := Varints(reader.mem, reader.data, old(reader.Position()), c);
          widths == ws && reader.size == old(reader.size) + bits
      {
        var w := reader.ReadVarint();
        widths := widths + [w];
      }
    }
  }

  // ---------------------------------------------------------------------------------------------
  // Encoding
  // ---------------------------------------------------------------------------------------------

  function ToBits(v: nat, n: nat): (bits: seq<bool>)
    ensures |bits| == n
  {
    seq(n, k requires 0 <= k => Bit(v, k))
  }

  predicate Holds(mem: Memory, data: nat, i: nat, bits: seq<bool>)
  {
    forall k :: 0 <= k < |bits| ==> BitAt(mem, data, i + k) == bits[k]
  }

  lemma HoldsSplit(mem: Memory, data: nat, i: nat, a: seq<bool>, b: seq<bool>)
    requires Holds(mem, data, i, a + b)
    ensures Holds(mem, data, i, a) && Holds(mem, data, i + |a|, b)
  {
    hide BitAt;
    forall k | 0 <= k < |a|
      ensures BitAt(mem, data, i + k) == a[k]
    {
      assert (a + b)[k] == a[k];
    }
    forall k | 0 <= k < |b|
      ensures BitAt(mem, data, i + |a| + k) == b[k]
    {
      assert (a + b)[|a| + k] == b[k];
      assert i + (|a| + k) == i + |a| + k;
    }
  }

  lemma {:induction false} ReadsNumber(mem: Memory, data: nat, i: nat, v: nat, n: nat)
    requires v < Pow2(n) && Holds(mem, data, i, ToBits(v, n))
    ensures BitsValue(mem, data, i, n) == v
  {
    hide Bit, BitAt, BitsValue, Pow2;
    forall k: nat
      ensures Bit(v, k) == (k < n && BitAt(mem, data, i + k))
    {
      if k >= n {
        HighBitsClear(v, n, k);
      } else {
        assert ToBits(v, n)[k] == Bit(v, k);
      }
    }
    IsBitsValue(mem, data, i, n, v);
  }

  /** Payload bytes of a number above eleven: as few as hold it. */
  function PayloadBytes(v: nat): (b: nat)
    requires v < U32
    ensures 1 <= b <= 4 && v < Pow2(8 * b)
  {
    PowersOf256();
    if v < 0x100 then 1 else if v < 0x1_0000 then 2 else if v < 0x100_0000 then 3 else 4
  }

  lemma PowersOf256()
    ensures Pow2(8) == 0x100 && Pow2(16) == 0x1_0000 && Pow2(24) == 0x100_0000 && Pow2(32) == U32 == 0x1_0000_0000
  {
    assert Pow2(4) == 16;
    assert Pow2(8) == 0x100;
    assert Pow2(12) == 0x1000;
    assert Pow2(16) == 0x1_0000;
    assert Pow2(20) == 0x10_0000;
    assert Pow2(24) == 0x100_0000;
    assert Pow2(28) == 0x1000_0000;
  }

  function FirstNibble(v: nat): (x: nat)
    requires v < U32
    ensures x < 16
  {
    if v <= 11 then v else 11 + PayloadBytes(v)
  }

  function PayloadOf(v: nat): seq<bool>
    requires v < U32
  {
    if v <= 11 then [] else ToBits(v, 8 * PayloadBytes(v))
  }

  function EncodeVarint(v: nat): seq<bool>
    requires v < U32
  {
    ToBits(FirstNibble(v), 4) + PayloadOf(v)
  }

  lemma {:induction false} ReadsNibble(mem: Memory, data: nat, i: nat, v: nat)
    requires v < U32 && Holds(mem, data, i, ToBits(FirstNibble(v), 4))
    ensures Nibble(mem, data, i) == FirstNibble(v)
    ensures PayloadBits(FirstNibble(v)) == |PayloadOf(v)| && (FirstNibble(v) <= VARINT_MAX <==> v <= VARINT_MAX)
  {
    hide Holds, BitsValue;
    assert Pow2(4) == 16;
    ReadsNumber(mem, data, i, FirstNibble(v), 4);
  }

  lemma {:induction false} ReadsPayload(mem: Memory, data: nat, i: nat, v: nat)
    requires VARINT_MAX < v < U32 && Holds(mem, data, i, PayloadOf(v))
    ensures BitsValue(mem, data, i, |PayloadOf(v)|) == v
  {
    hide Holds, BitsValue, PayloadBytes;
    ReadsNumber(mem, data, i, v, 8 * PayloadBytes(v));
  }

  /** Every 32-bit number is read back, and exactly its bits are consumed. */
  lemma {:induction false} VarintRoundTrip(mem: Memory, data: nat, i: nat, v: nat)
    requires v < U32 && Holds(mem, data, i, EncodeVarint(v))
    ensures Varint(mem, data, i) == (v, |EncodeVarint(v)|)
  {
    hide Holds, BitsValue, PayloadBytes, Nibble;
    HoldsSplit(mem, data, i, ToBits(FirstNibble(v), 4), PayloadOf(v));
    ReadsNibble(mem, data, i, v);
    if v > VARINT_MAX {
      ReadsPayload(mem, data, i + 4, v);
    }
  }

  predicate All32(vs: seq<nat>) { forall j :: 0 <= j < |vs| ==> vs[j] < U32 }

  function EncodeNibbles(vs: seq<nat>): (bits: seq<bool>)
    requires All32(vs)
    ensures |bits| == 4 * |vs|
    decreases |vs|
  {
    if vs == [] then [] else ToBits(FirstNibble(vs[0]), 4) + EncodeNibbles(vs[1..])
  }

  function EncodePayloads(vs: seq<nat>): seq<bool>
    requires All32(vs)
    decreases |vs|
  {
    if vs == [] then [] else PayloadOf(vs[0]) + EncodePayloads(vs[1..])
  }

  lemma {:induction false} NibblesRoundTrip(mem: Memory, data: nat, i: nat, vs: seq<nat>, j: nat)
    requires All32(vs) && Holds(mem, data, i, EncodeNibbles(vs)) && j < |vs|
    ensures Nibble(mem, data, i + 4 * j) == FirstNibble(vs[j])
    decreases |vs|
  {
    hide Holds, Nibble, FirstNibble;
    HoldsSplit(mem, data, i, ToBits(FirstNibble(vs[0]), 4), EncodeNibbles(vs[1..]));
    if j == 0 {
      ReadsNibble(mem, data, i, vs[0]);
    } else {
      NibblesRoundTrip(mem, data, i + 4, vs[1..], j - 1);
      assert i + 4 + 4 * (j - 1) == i + 4 * j;
    }
  }

  /** The definitions one number deep. */
  lemma {:induction false} PayloadsParts(mem: Memory, data: nat, i: nat, xs: seq<nat>)
    requires xs != []
    ensures
      var n := PayloadBits(xs[0]);
      var (rest, size) := Payloads(mem, data, i + n, xs[1..]);
      Payloads(mem, data, i, xs) ==
      ([if xs[0] <= VARINT_MAX then xs[0] else BitsValue(mem, data, i, n)] + rest, n + size)
  {
    hide BitsValue, PayloadBits;
  }

  lemma EncodePayloadsParts(vs: seq<nat>)
    requires All32(vs) && vs != []
    ensures EncodePayloads(vs) == PayloadOf(vs[0]) + EncodePayloads(vs[1..])
  {
    hide PayloadOf;
  }

  lemma NoPayloads(mem: Memory, data: nat, i: nat)
    ensures EncodePayloads([]) == [] && Payloads(mem, data, i, []) == ([], 0)
  {
  }

  lemma FirstPayload(mem: Memory, data: nat, i: nat, v: nat)
    requires v < U32 && Holds(mem, data, i, PayloadOf(v))
    ensures
      var x := FirstNibble(v);
      && PayloadBits(x) == |PayloadOf(v)|
      && v == if x <= VARINT_MAX then x else BitsValue(mem, data, i, PayloadBits(x))
  {
    hide Holds, BitsValue, PayloadBytes, ToBits;
    if v > VARINT_MAX {
      ReadsPayload(mem, data, i, v);
    }
  }

  lemma {:induction false} PayloadsRoundTrip(mem: Memory, data: nat, i: nat, vs: seq<nat>, xs: seq<nat>)
    requires All32(vs) && Holds(mem, data, i, EncodePayloads(vs)) && |xs| == |vs|
    requires forall j :: 0 <= j < |vs| ==> xs[j] == FirstNibble(vs[j])
    ensures Payloads(mem, data, i, xs) == (vs, |EncodePayloads(vs)|)
    decreases |vs|
  {
    hide Holds, BitsValue, PayloadOf, PayloadBits, FirstNibble, Payloads, EncodePayloads;
    if vs != [] {
      PayloadsParts(mem, data, i, xs);
      EncodePayloadsParts(vs);
      HoldsSplit(mem, data, i, PayloadOf(vs[0]), EncodePayloads(vs[1..]));
      FirstPayload(mem, data, i, vs[0]);
      PayloadsRoundTrip(mem, data, i + |PayloadOf(vs[0])|, vs[1..], xs[1..]);
      assert [vs[0]] + vs[1..] == vs;
    } else {
      NoPayloads(mem, data, i);
    }
  }

  function EncodeInterleaved(vs: seq<nat>): seq<bool>
    requires All32(vs)
  {
    EncodeNibbles(vs) + EncodePayloads(vs)
  }

  lemma {:induction false} InterleavedRoundTrip(mem: Memory, data: nat, i: nat, vs: seq<nat>)
    requires All32(vs) && Holds(mem, data, i, EncodeInterleaved(vs))
    ensures Interleaved(mem, data, i, |vs|) == (vs, |EncodeInterleaved(vs)|)
  {
    hide Holds, Payloads, Nibble, FirstNibble, EncodeNibbles, EncodePayloads;
    HoldsSplit(mem, data, i, EncodeNibbles(vs), EncodePayloads(vs));
    var xs := Nibbles(mem, data, i, |vs|);
    forall j | 0 <= j < |vs|
      ensures xs[j] == FirstNibble(vs[j])
    {
      NibblesRoundTrip(mem, data, i, vs, j);
    }
    PayloadsRoundTrip(mem, data, i + 4 * |vs|, vs, xs);
  }

  function EncodeVarints(vs: seq<nat>): seq<bool>
    requires All32(vs)
    decreases |vs|
  {
    if vs == [] then [] else EncodeVarints(vs[..|vs| - 1]) + EncodeVarint(vs[|vs| - 1])
  }

  lemma EncodeVarintsStep(vs: seq<nat>)
    requires All32(vs) && vs != []
    ensures EncodeVarints(vs) == EncodeVarints(vs[..|vs| - 1]) + EncodeVarint(vs[|vs| - 1])
  {
  }

  lemma {:induction false} VarintsStep(mem: Memory, data: nat, i: nat, num: nat)
    ensures
      var (front, size) := Varints(mem, data, i, num);
      var (v, bits) := Varint(mem, data, i + size);
      Varints(mem, data, i, num + 1) == (front + [v], size + bits)
  {
    hide Varint;
  }

  lemma NoVarints(mem: Memory, data: nat, i: nat, vs: seq<nat>)
    requires vs == []
    ensures EncodeVarints(vs) == [] && Varints(mem, data, i, 0) == ([], 0)
  {
  }

  lemma {:induction false} VarintsRoundTrip(mem: Memory, data: nat, i: nat, vs: seq<nat>)
    requires All32(vs) && Holds(mem, data, i, EncodeVarints(vs))
    ensures Varints(mem, data, i, |vs|) == (vs, |EncodeVarints(vs)|)
    decreases |vs|
  {
    hide Holds, Varint, EncodeVarint, EncodeVarints, Varints;
    if vs != [] {
      var front, last := vs[..|vs| - 1], vs[|vs| - 1];
      var bits := EncodeVarints(front);
      EncodeVarintsStep(vs);
      HoldsSplit(mem, data, i, bits, EncodeVarint(last));
      VarintsRoundTrip(mem, data, i, front);
      VarintRoundTrip(mem, data, i + |bits|, last);
      VarintsStep(mem, data, i, |front|);
      assert front + [last] == vs;
    } else {
      NoVarints(mem, data, i, vs);
    }
  }

  // ---------------------------------------------------------------------------------------------
  // Tables of cells
  // ---------------------------------------------------------------------------------------------

  function Sum(widths: seq<nat>): nat
    decreases |widths|
  {
    if widths == [] then 0 else Sum(widths[..|widths| - 1]) + widths[|widths| - 1]
  }

  lemma {:induction false} SumPrefix(widths: seq<nat>, c: nat)
    requires c <= |widths|
    ensures Sum(widths[..c]) <= Sum(widths)
    decreases |widths|
  {
    if c < |widths| {
      SumPrefix(widths[..|widths| - 1], c);
      assert widths[..|widths| - 1][..c] == widths[..c];
    } else {
      assert widths[..c] == widths;
    }
  }

  /** Below 2^16 the column offsets are the sums of the widths before them. */
  lemma {:induction false} OffsetsAreSums(widths: seq<nat>, c: nat)
    requires Sum(widths) < U16 && c <= |widths|
    ensures Offsets(widths)[c] == Sum(widths[..c])
    decreases c
  {
    hide Offsets, Sum;
    var offsets := Offsets(widths);
    if c > 0 {
      OffsetsAreSums(widths, c - 1);
      SumPrefix(widths, c);
      SumStep(widths, c - 1);
      assert offsets[(c - 1) + 1] == (offsets[c - 1] + widths[c - 1]) % U16;
    } else {
      SumEmpty(widths);
    }
  }

  lemma SumEmpty(widths: seq<nat>)
    ensures Sum(widths[..0]) == 0
  {
  }

  lemma SumStep(widths: seq<nat>, c: nat)
    requires c < |widths|
    ensures Sum(widths[..c + 1]) == Sum(widths[..c]) + widths[c]
  {
    assert widths[..c + 1][..c] == widths[..c];
  }

  predicate RowFits(row: seq<nat>, widths: seq<nat>)
  {
    |row| == |widths| && forall c :: 0 <= c < |row| ==> row[c] < Pow2(widths[c])
  }

  function EncodeRow(row: seq<nat>, widths: seq<nat>): (bits: seq<bool>)
    requires |row| == |widths|
    ensures |bits| == Sum(widths)
    decreases |row|
  {
    if row == [] then []
    else
      var n := |row| - 1;
      EncodeRow(row[..n], widths[..n]) + ToBits(row[n], widths[n])
  }

  function EncodeRows(rows: seq<seq<nat>>, widths: seq<nat>): (bits: seq<bool>)
    requires forall r :: 0 <= r < |rows| ==> |rows[r]| == |widths|
    ensures |bits| == |rows| * Sum(widths)
    decreases |rows|
  {
    if rows == [] then []
    else
      var n := |rows| - 1;
      assert (n + 1) * Sum(widths) == n * Sum(widths) + Sum(widths);
      EncodeRows(rows[..n], widths) + EncodeRow(rows[n], widths)
  }

  lemma {:induction false} RowCell(mem: Memory, data: nat, i: nat, row: seq<nat>, widths: seq<nat>, c: nat)
    requires |row| == |widths| && Holds(mem, data, i, EncodeRow(row, widths)) && c < |row|
    ensures Holds(mem, data, i + Sum(widths[..c]), ToBits(row[c], widths[c]))
    decreases |row|
  {
    hide Holds, ToBits;
    var n := |row| - 1;
    HoldsSplit(mem, data, i, EncodeRow(row[..n], widths[..n]), ToBits(row[n], widths[n]));
    if c < n {
      RowCell(mem, data, i, row[..n], widths[..n], c);
      assert widths[..n][..c] == widths[..c];
    }
  }

  /** The bits of row `r`, column `c` stand where `Get` looks for them. */
  lemma {:induction false} TableCell(
    mem: Memory, data: nat, i: nat, rows: seq<seq<nat>>, widths: seq<nat>, r: nat, c: nat)
    requires forall k :: 0 <= k < |rows| ==> |rows[k]| == |widths|
    requires Holds(mem, data, i, EncodeRows(rows, widths)) && r < |rows| && c < |widths|
    ensures Holds(mem, data, i + r * Sum(widths) + Sum(widths[..c]), ToBits(rows[r][c], widths[c]))
    decreases |rows|
  {
    hide Holds, ToBits, EncodeRow, Sum;
    var n := |rows| - 1;
    HoldsSplit(mem, data, i, EncodeRows(rows[..n], widths), EncodeRow(rows[n], widths));
    if r < n {
      TableCell(mem, data, i, rows[..n], widths, r, c);
    } else {
      RowCell(mem, data, i + n * Sum(widths), rows[n], widths, c);
    }
  }

  /** A table that the header can describe. */
  predicate Encodable(rows: seq<seq<nat>>, widths: seq<nat>)
  {
    && |rows| < 0x1_0000_0000 && |rows| * Sum(widths) < 0x1_0000_0000 && Sum(widths) < 0x1_0000
    && (forall c :: 0 <= c < |widths| ==> widths[c] <= 32)
    && (forall r :: 0 <= r < |rows| ==> RowFits(rows[r], widths))
  }

  function EncodeHeader(rows: seq<seq<nat>>, widths: seq<nat>, version: nat): seq<bool>
    requires |rows| < U32 && All32(widths)
  {
    if version >= 173 then EncodeInterleaved([|rows|] + widths)
    else if rows == [] then EncodeVarint(0)
    else EncodeVarint(|rows|) + EncodeVarints(widths)
  }

  lemma WidthsSmall(rows: seq<seq<nat>>, widths: seq<nat>)
    requires Encodable(rows, widths)
    ensures All32(widths) && forall r :: 0 <= r < |rows| ==> |rows[r]| == |widths|
  {
  }

  function EncodeTable(rows: seq<seq<nat>>, widths: seq<nat>, version: nat): seq<bool>
    requires Encodable(rows, widths)
  {
    WidthsSmall(rows, widths);
    EncodeHeader(rows, widths, version) + EncodeRows(rows, widths)
  }

  lemma {:induction false} HeaderRoundTrip(
    mem: Memory, data: nat, i: nat, rows: seq<seq<nat>>, widths: seq<nat>, version: nat, before: seq<nat>)
    requires version >= 159 && |rows| < U32 && All32(widths) && Holds(mem, data, i, EncodeHeader(rows, widths, version))
    ensures
      var r := Decode(mem, data, i, version, |widths|, before);
      var offsets := if version >= 173 || rows != [] then Offsets(widths) else Resized(before, |widths| + 1);
      r == Some(WithRows(data, i, |rows|, offsets, |EncodeHeader(rows, widths, version)|))
  {
    hide Holds, Interleaved, Varint, Varints, EncodeInterleaved, EncodeVarint, EncodeVarints, Offsets;
    if version >= 173 {
      var header := [|rows|] + widths;
      InterleavedRoundTrip(mem, data, i, header);
      assert header[1..] == widths;
    } else if rows == [] {
      VarintRoundTrip(mem, data, i, 0);
    } else {
      HoldsSplit(mem, data, i, EncodeVarint(|rows|), EncodeVarints(widths));
      VarintRoundTrip(mem, data, i, |rows|);
      VarintsRoundTrip(mem, data, i + |EncodeVarint(|rows|)|, widths);
    }
  }

  /**
    Decoding inverts encoding, in both header formats: the row count and (unless the older format
    has no rows) the column widths come back, every cell is read back less one modulo 2^32, and
    the reader stops right behind the last row.
   */
  lemma {:induction false} TableRoundTrip(
    mem: Memory, data: nat, i: nat, rows: seq<seq<nat>>, widths: seq<nat>, version: nat, width: nat, before: seq<nat>)
    requires version >= 159 && IsWidth(width) && Encodable(rows, widths)
    requires Holds(mem, data, i, EncodeTable(rows, widths, version))
    ensures
      var r := Decode(mem, data, i, version, |widths|, before);
      && r.Some? && r.value.0.rows == |rows| && |r.value.0.offsets| == |widths| + 1
      && r.value.1 == |EncodeTable(rows, widths, version)|
      && (version >= 173 || rows != [] ==>
            forall c :: 0 <= c < |widths| ==> NumColumnBits(r.value.0, c) == widths[c])
      && (forall k, c :: 0 <= k < |rows| && 0 <= c < |widths| ==>
            Get(mem, width, r.value.0, k, c) == (rows[k][c] + 0xFFFF_FFFF) % 0x1_0000_0000)
  {
    hide Holds, EncodeHeader, EncodeRows, Offsets, LoadBits, Sum, RowFits, Decode;
    WidthsSmall(rows, widths);
    var header := EncodeHeader(rows, widths, version);
    HoldsSplit(mem, data, i, header, EncodeRows(rows, widths));
    HeaderRoundTrip(mem, data, i, rows, widths, version, before);
    var t := Decode(mem, data, i, version, |widths|, before).value.0;
    if version >= 173 || rows != [] {
      assert t.offsets == Offsets(widths);
      forall c | 0 <= c < |widths|
        ensures NumColumnBits(t, c) == widths[c]
      {
        ColumnWidth(widths, c);
      }
      OffsetsAreSums(widths, |widths|);
      assert widths[..|widths|] == widths;
      assert RowBits(t.offsets) == Sum(widths);
      forall k, c | 0 <= k < |rows| && 0 <= c < |widths|
        ensures Get(mem, width, t, k, c) == (rows[k][c] + 0xFFFF_FFFF) % 0x1_0000_0000
      {
        CellRoundTrip(mem, data, i + |header|, rows, widths, t, width, k, c);
      }
    } else {
      assert |rows| * Sum(widths) == 0;
    }
  }

  lemma ColumnWidth(widths: seq<nat>, c: nat)
    requires Sum(widths) < U16 && c < |widths|
    ensures (Offsets(widths)[c + 1] - Offsets(widths)[c]) % U32 == widths[c]
    ensures Sum(widths[..c]) + widths[c] <= Sum(widths)
  {
    hide Offsets, Sum;
    OffsetsAreSums(widths, c);
    OffsetsAreSums(widths, c + 1);
    SumPrefix(widths, c + 1);
    SumStep(widths, c);
  }

  /** Within the bounds, a cell lies where the sums of the widths say. */
  lemma CellPlace(widths: seq<nat>, n: nat, t: Table, k: nat, c: nat)
    requires Sum(widths) < U16 && n * Sum(widths) < U32 && k < n && c < |widths|
    requires t.offsets == Offsets(widths) && RowBits(t.offsets) == Sum(widths)
    ensures CellOffset(t, k, c) == k * Sum(widths) + Sum(widths[..c]) && NumColumnBits(t, c) == widths[c]
  {
    hide Offsets, Sum, NumColumnBits, RowBits, CellOffset;
    OffsetsAreSums(widths, c);
    ColumnWidth(widths, c);
    RowsInRange(k, n, Sum(widths));
    NoWrap(k * Sum(widths), Sum(widths), n * Sum(widths), Sum(widths[..c]));
    CellParts(t, k, c, Sum(widths));
  }

  lemma NoWrap(p: nat, s: nat, q: nat, o: nat)
    requires p + s <= q < U32 && o <= s
    ensures (p + o) % U32 == p + o
  {
  }

  lemma CellParts(t: Table, k: nat, c: nat, s: nat)
    requires c + 1 < |t.offsets| && RowBits(t.offsets) == s
    ensures CellOffset(t, k, c) == (k * s + t.offsets[c]) % U32
    ensures NumColumnBits(t, c) == (t.offsets[c + 1] - t.offsets[c]) % U32
  {
  }

  lemma {:induction false} CellRoundTrip(
    mem: Memory, data: nat, i: nat, rows: seq<seq<nat>>, widths: seq<nat>, t: Table, width: nat, k: nat, c: nat)
    requires IsWidth(width) && Encodable(rows, widths) && k < |rows| && c < |widths|
    requires t.offsets == Offsets(widths) && t.data.data == data && t.data.start == i
    requires RowBits(t.offsets) == Sum(widths)
    requires forall r :: 0 <= r < |rows| ==> |rows[r]| == |widths|
    requires Holds(mem, data, i, EncodeRows(rows, widths))
    ensures Get(mem, width, t, k, c) == (rows[k][c] + 0xFFFF_FFFF) % 0x1_0000_0000
  {
    hide Holds, EncodeRows, Offsets, LoadBits, Sum, ToBits, BitsValue, CellOffset, NumColumnBits, LoadBit, Bit, Pow2;
    CellPlace(widths, |rows|, t, k, c);
    TableCell(mem, data, i, rows, widths, k, c);
    var offset := k * Sum(widths) + Sum(widths[..c]);
    LoadBitsExact(mem, t.data, offset, widths[c], width);
    ReadsNumber(mem, data, i + offset, rows[k][c], widths[c]);
  }

  lemma {:induction false} RowsInRange(k: nat, n: nat, s: nat)
    requires k < n
    ensures k * s + s <= n * s
    decreases n
  {
    assert n * s == (n - 1) * s + s;
    if k < n - 1 {
      RowsInRange(k, n - 1, s);
    }
  }

  /**
    In a decoded table the regions of cells never overlap, and none reaches past the table's data:
    a cell ends before any cell of a later row or column starts.
   */
  lemma CellsDisjoint(mem: Memory, data: nat, i: nat, rows: seq<seq<nat>>, widths: seq<nat>, version: nat,
                      before: seq<nat>, r1: nat, c1: nat, r2: nat, c2: nat)
    requires version >= 159 && Encodable(rows, widths) && Holds(mem, data, i, EncodeTable(rows, widths, version))
    requires r1 < |rows| && r2 < |rows| && c1 < |widths| && c2 < |widths| && (r1 < r2 || (r1 == r2 && c1 < c2))
    ensures
      var r := Decode(mem, data, i, version, |widths|, before);
      && r.Some? && |r.value.0.offsets| == |widths| + 1
      && var t := r.value.0;
      && var a := CellRegion(t, r1, c1);
      && var b := CellRegion(t, r2, c2);
      && a.start + a.size <= b.start
      && b.start + b.size <= t.data.start + t.data.size
  {
    hide Holds, EncodeHeader, EncodeRows, Offsets, Sum, RowFits, Decode, CellOffset, NumColumnBits;
    DecodedShape(mem, data, i, rows, widths, version, before);
    var t := Decode(mem, data, i, version, |widths|, before).value.0;
    CellPlace(widths, |rows|, t, r1, c1);
    CellPlace(widths, |rows|, t, r2, c2);
    CellSpans(widths, |rows|, r1, c1, r2, c2);
  }

  /** What a table with rows decodes to. */
  lemma DecodedShape(
    mem: Memory, data: nat, i: nat, rows: seq<seq<nat>>, widths: seq<nat>, version: nat, before: seq<nat>)
    requires version >= 159 && Encodable(rows, widths) && Holds(mem, data, i, EncodeTable(rows, widths, version))
    requires version >= 173 || rows != []
    ensures
      var r := Decode(mem, data, i, version, |widths|, before);
      && r.Some? && r.value.0.offsets == Offsets(widths) && RowBits(r.value.0.offsets) == Sum(widths)
      && r.value.0.data.size == |rows| * Sum(widths)
  {
    hide Holds, EncodeHeader, EncodeRows, Offsets, Sum, RowFits, Decode;
    WidthsSmall(rows, widths);
    HoldsSplit(mem, data, i, EncodeHeader(rows, widths, version), EncodeRows(rows, widths));
    HeaderRoundTrip(mem, data, i, rows, widths, version, before);
    OffsetsAreSums(widths, |widths|);
    assert widths[..|widths|] == widths;
  }

  /** Cells never overlap, and none reaches past the end of the rows. */
  lemma {:induction false} CellSpans(widths: seq<nat>, n: nat, r1: nat, c1: nat, r2: nat, c2: nat)
    requires r1 < n && r2 < n && c1 < |widths| && c2 < |widths| && (r1 < r2 || (r1 == r2 && c1 < c2))
    ensures
      var s := Sum(widths);
      && r1 * s + Sum(widths[..c1]) + widths[c1] <= r2 * s + Sum(widths[..c2])
      && r2 * s + Sum(widths[..c2]) + widths[c2] <= n * s
  {
    hide Sum;
    SumStep(widths, c1);
    SumStep(widths, c2);
    SumPrefix(widths, c1 + 1);
    SumPrefix(widths, c2 + 1);
    RowsInRange(r2, n, Sum(widths));
    if r1 < r2 {
      RowsInRange(r1, r2, Sum(widths));
    } else {
      SumPrefix(widths[..c2], c1 + 1);
      assert widths[..c2][..c1 + 1] == widths[..c1 + 1];
    }
  }

  /**
    An older table without rows keeps the offsets of what the object held before.  They are those
    of a fresh object if and only if they were zero.
   */
  lemma StaleOffsets(mem: Memory, data: nat, i: nat, version: nat, columns: nat, before: seq<nat>)
    requires 159 <= version < 173 && Holds(mem, data, i, EncodeVarint(0))
    ensures
      var r := Decode(mem, data, i, version, columns, before);
      && r.Some? && r.value.0.rows == 0 && r.value.0.offsets == Resized(before, columns + 1)
      && (r.value.0.offsets == Zeros(columns + 1) <==>
            forall c :: 0 <= c < |before| && c <= columns ==> before[c] == 0)
  {
    hide Holds, Varint, EncodeVarint;
    VarintRoundTrip(mem, data, i, 0);
    var offsets := Resized(before, columns + 1);
    if offsets == Zeros(columns + 1) {
      forall c | 0 <= c < |before| && c <= columns
        ensures before[c] == 0
      {
        assert offsets[c] == before[c];
      }
    }
  }

  /** Two columns of an empty table that seem five and four bits wide. */
  lemma StaleWidths(mem: Memory, data: nat, i: nat)
    requires Holds(mem, data, i, EncodeVarint(0))
    ensures
      var r := Decode(mem, data, i, 160, 2, [0, 5, 9]);
      r.Some? && r.value.0.rows == 0 && |r.value.0.offsets| == 3
      && NumColumnBits(r.value.0, 0) == 5 && NumColumnBits(r.value.0, 1) == 4
  {
    hide Holds, Varint, EncodeVarint;
    StaleOffsets(mem, data, i, 160, 2, [0, 5, 9]);
  }
}
