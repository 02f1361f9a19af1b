/**
  Attribute values of a debugging information entry (section 7.5.6 of the DWARF 5 standard):
  `DwarfLoader::ReadAttrValue` and the string look-ups it uses.  Cursors are positions in the
  `.debug_info` bytes.
 */
module DwarfAttributes {
  import opened Basics
  import opened Bits
  import opened Leb128

  /** The string sections; `None` when the file has no such section. */
  datatype Sections = Sections(str: Option<seq<byte>>, strOffsets: Option<seq<byte>>)

  /** The unit an attribute belongs to. */
  datatype Format = Format(addrSize: nat, dwarf64: bool, strOffsetsBase: nat)

  /** A parse error, or the cursor behind the value with what the form provides. */
  datatype Attr = Bad | Attr(next: nat, value: Option<nat>, text: Option<string>)

  const FORM_ADDR: nat := 0x01
  const FORM_BLOCK2: nat := 0x03
  const FORM_BLOCK4: nat := 0x04
  const FORM_DATA2: nat := 0x05
  const FORM_DATA4: nat := 0x06
  const FORM_DATA8: nat := 0x07
  const FORM_STRING: nat := 0x08
  const FORM_BLOCK: nat := 0x09
  const FORM_BLOCK1: nat := 0x0a
  const FORM_DATA1: nat := 0x0b
  const FORM_FLAG: nat := 0x0c
  const FORM_SDATA: nat := 0x0d
  const FORM_STRP: nat := 0x0e
  const FORM_UDATA: nat := 0x0f
  const FORM_REF_ADDR: nat := 0x10
  const FORM_REF1: nat := 0x11
  const FORM_REF2: nat := 0x12
  const FORM_REF4: nat := 0x13
  const FORM_REF8: nat := 0x14
  const FORM_REF_UDATA: nat := 0x15
  const FORM_INDIRECT: nat := 0x16
  const FORM_SEC_OFFSET: nat := 0x17
  const FORM_EXPRLOC: nat := 0x18
  const FORM_FLAG_PRESENT: nat := 0x19
  const FORM_STRX: nat := 0x1a
  const FORM_ADDRX: nat := 0x1b
  const FORM_REF_SUP4: nat := 0x1c
  const FORM_STRP_SUP: nat := 0x1d
  const FORM_DATA16: nat := 0x1e
  const FORM_LINE_STRP: nat := 0x1f
  const FORM_REF_SIG8: nat := 0x20
  const FORM_IMPLICIT_CONST: nat := 0x21
  const FORM_LOCLISTX: nat := 0x22
  const FORM_RNGLISTX: nat := 0x23
  const FORM_REF_SUP8: nat := 0x24
  const FORM_STRX1: nat := 0x25
  const FORM_STRX2: nat := 0x26
  const FORM_STRX3: nat := 0x27
  const FORM_STRX4: nat := 0x28
  const FORM_ADDRX1: nat := 0x29
  const FORM_ADDRX2: nat := 0x2a
  const FORM_ADDRX3: nat := 0x2b
  const FORM_ADDRX4: nat := 0x2c

  const OP_CONSTU: nat := 0x10
  const OP_PLUS_UCONST: nat := 0x23

  predicate IsRelRef(form: nat)
  {
    form == FORM_REF1 || form == FORM_REF2 || form == FORM_REF4 || form == FORM_REF8 || form == FORM_REF_UDATA
  }

  // ---------------------------------------------------------------------------------------------
  // Numbers and strings
  // ---------------------------------------------------------------------------------------------

  /** A little-endian number of `n` bytes. */
  function LittleEndian(data: seq<byte>, pos: nat, n: nat): nat
    requires pos + n <= |data|
    decreases n
  {
    if n == 0 then 0 else data[pos] + 256 * LittleEndian(data, pos + 1, n - 1)
  }

  /** The first zero byte at or after `pos`, or `end`. */
  function StringEnd(data: seq<byte>, pos: nat, end: nat): (q: nat)
    requires pos <= end <= |data|
    ensures pos <= q <= end
    decreases end - pos
  {
    if pos == end || data[pos] == 0 then pos else StringEnd(data, pos + 1, end)
  }

  function ToText(bytes: seq<byte>): (s: string)
    ensures |s| == |bytes|
  {
    seq(|bytes|, i requires 0 <= i < |bytes| => bytes[i] as char)
  }

  /** A string of `.debug_str`, if it is terminated inside the section. */
  function DebugStr(sec: Sections, offset: nat): Option<string>
  {
    if sec.str.None? || offset >= |sec.str.value| then None
    else
      var s := sec.str.value;
      var q := StringEnd(s, offset, |s|);
      if q >= |s| then None else Some(ToText(s[offset..q]))
  }

  /** An indexed string, through `.debug_str_offsets`. */
  function DebugStrX(sec: Sections, index: nat, f: Format): Option<string>
  {
    if sec.strOffsets.None? then None
    else
      var size := OffsetSize(f);
      var off := f.strOffsetsBase + index * size;
      if off + size > |sec.strOffsets.value| then None
      else DebugStr(sec, LittleEndian(sec.strOffsets.value, off, size))
  }

  function OffsetSize(f: Format): nat { if f.dwarf64 then 8 else 4 }

  /** The constant of a one-operation location expression. */
  function Exprloc(data: seq<byte>, pos: nat, size: nat): Option<nat>
    requires pos + size <= |data|
  {
    if size == 0 || (data[pos] != OP_PLUS_UCONST && data[pos] != OP_CONSTU) || size == 1 then None
    else Some(Unsigned(data, pos + 1, pos + size).0)
  }

  // ---------------------------------------------------------------------------------------------
  // One attribute value
  // ---------------------------------------------------------------------------------------------

  function Skip(pos: nat, end: nat, n: nat): Attr
  {
    if pos + n > end then Bad else Attr(pos + n, None, None)
  }

  function When<T>(want: bool, x: Option<T>): Option<T> { if want then x else None }

  function Number(data: seq<byte>, pos: nat, end: nat, n: nat, want: bool): Attr
    requires end <= |data|
  {
    if pos + n > end then Bad
    else Attr(pos + n, When(want, Some(Low(LittleEndian(data, pos, n), WORD))), None)
  }

  /** A block of known length; its value is that of a location expression. */
  function Block(data: seq<byte>, pos: nat, end: nat, len: nat, want: bool): Attr
    requires end <= |data|
  {
    if pos + len > end then Bad else Attr(pos + len, When(want, Exprloc(data, pos, len)), None)
  }

  /** A block whose length stands before it in `n` bytes. */
  function SizedBlock(data: seq<byte>, pos: nat, end: nat, n: nat, want: bool): Attr
    requires end <= |data|
  {
    if pos + n > end then Bad else Block(data, pos + n, end, LittleEndian(data, pos, n), want)
  }

  function IndexedString(sec: Sections, data: seq<byte>, pos: nat, end: nat, n: nat, f: Format, want: bool): Attr
    requires end <= |data|
  {
    if pos + n > end then Bad
    else Attr(pos + n, None, When(want, DebugStrX(sec, LittleEndian(data, pos, n), f)))
  }

  /**
    `ReadAttrValue`.  The two flags tell whether the caller passed a place for the number and for
    the string.  A cursor at the end is refused even for forms that take no bytes.
   */
  function ReadAttr(sec: Sections, data: seq<byte>, pos: nat, end: nat, form: nat, f: Format,
                    wantValue: bool, wantText: bool): (r: Attr)
    requires end <= |data|
    ensures r.Attr? ==> pos <= r.next <= end
    decreases end - pos
  {
    if pos >= end then Bad
    else if form == FORM_INDIRECT then
      var (inner, next) := Unsigned(data, pos, end);
      ReadAttr(sec, data, next, end, Low(inner, 32), f, wantValue, wantText)
    else ReadDirect(sec, data, pos, end, form, f, wantValue, wantText)
  }

  /** Every form except the indirect one. */
  function ReadDirect(sec: Sections, data: seq<byte>, pos: nat, end: nat, form: nat, f: Format,
                      wantValue: bool, wantText: bool): (r: Attr)
    requires pos < end <= |data|
    ensures r.Attr? ==> pos <= r.next <= end
  {
    if form == FORM_ADDR then Number(data, pos, end, f.addrSize, wantValue)
    else if form in {FORM_DATA1, FORM_FLAG, FORM_REF1} then Number(data, pos, end, 1, wantValue)
    else if form in {FORM_DATA2, FORM_REF2} then Number(data, pos, end, 2, wantValue)
    else if form in {FORM_DATA4, FORM_REF4, FORM_REF_SUP4} then Number(data, pos, end, 4, wantValue)
    else if form in {FORM_DATA8, FORM_REF8, FORM_REF_SUP8, FORM_REF_SIG8} then Number(data, pos, end, 8, wantValue)
    else if form in {FORM_REF_ADDR, FORM_SEC_OFFSET} then Number(data, pos, end, OffsetSize(f), wantValue)
    else if form == FORM_DATA16 then Skip(pos, end, 16)
    else if form in {FORM_UDATA, FORM_REF_UDATA} then
      var (v, next) := Unsigned(data, pos, end);
      Attr(next, When(wantValue, Some(v)), None)
    else if form in {FORM_LOCLISTX, FORM_RNGLISTX, FORM_ADDRX} then Attr(Unsigned(data, pos, end).1, None, None)
    else if form == FORM_STRX then
      var (index, next) := Unsigned(data, pos, end);
      Attr(next, None, When(wantText, DebugStrX(sec, index, f)))
    else if form == FORM_ADDRX1 then Skip(pos, end, 1)
    else if form == FORM_ADDRX2 then Skip(pos, end, 2)
    else if form == FORM_ADDRX3 then Skip(pos, end, 3)
    else if form == FORM_ADDRX4 then Skip(pos, end, 4)
    else if form == FORM_STRX1 then IndexedString(sec, data, pos, end, 1, f, wantText)
    else if form == FORM_STRX2 then IndexedString(sec, data, pos, end, 2, f, wantText)
    else if form == FORM_STRX3 then IndexedString(sec, data, pos, end, 3, f, wantText)
    else if form == FORM_STRX4 then IndexedString(sec, data, pos, end, 4, f, wantText)
    else if form == FORM_SDATA then
      var (v, next) := Signed(data, pos, end);
      Attr(next, When(wantValue, Some(FromSigned(v))), None)
    else if form == FORM_STRING then
      var q := StringEnd(data, pos, end);
      if q >= end then Bad else Attr(q + 1, None, When(wantText, Some(ToText(data[pos..q]))))
    else if form in {FORM_STRP, FORM_STRP_SUP, FORM_LINE_STRP} then
      if pos + OffsetSize(f) > end then Bad
      else
        var off := LittleEndian(data, pos, OffsetSize(f));
        Attr(pos + OffsetSize(f), None, When(wantText && form == FORM_STRP, DebugStr(sec, off)))
    else if form == FORM_BLOCK1 then SizedBlock(data, pos, end, 1, wantValue)
    else if form == FORM_BLOCK2 then SizedBlock(data, pos, end, 2, wantValue)
    else if form == FORM_BLOCK4 then SizedBlock(data, pos, end, 4, wantValue)
    else if form in {FORM_BLOCK, FORM_EXPRLOC} then
      var (len, next) := Unsigned(data, pos, end);
      Block(data, next, end, len, wantValue)
    else if form == FORM_FLAG_PRESENT then Attr(pos, When(wantValue, Some(1)), None)
    else if form == FORM_IMPLICIT_CONST then Attr(pos, None, None)
    else Bad
  }

  /** The word that holds a signed number. */
  function FromSigned(v: int): nat
  {
    if v >= 0 then v else if v + Pow2(WORD) >= 0 then v + Pow2(WORD) else 0
  }

  /** Where a value ends, if it is well formed. */
  function End(r: Attr): Option<nat> { match r case Bad => None case Attr(next, _, _) => Some(next) }

  lemma LowFormsCursor(
    sec1: Sections, sec2: Sections, data: seq<byte>, pos: nat, end: nat, form: nat, f1: Format, f2: Format,
    value1: bool, value2: bool, text1: bool, text2: bool)
    requires pos < end <= |data| && f1.addrSize == f2.addrSize && f1.dwarf64 == f2.dwarf64
    requires form < FORM_REF_ADDR
    ensures End(ReadDirect(sec1, data, pos, end, form, f1, value1, text1)) ==
            End(ReadDirect(sec2, data, pos, end, form, f2, value2, text2))
  {
    hide Unsigned, Signed, LittleEndian, DebugStr, DebugStrX, Exprloc, StringEnd, ToText, FromSigned, Low;
  }

  lemma HighFormsCursor(
    sec1: Sections, sec2: Sections, data: seq<byte>, pos: nat, end: nat, form: nat, f1: Format, f2: Format,
    value1: bool, value2: bool, text1: bool, text2: bool)
    requires pos < end <= |data| && f1.addrSize == f2.addrSize && f1.dwarf64 == f2.dwarf64
    requires form >= FORM_REF_ADDR
    ensures End(ReadDirect(sec1, data, pos, end, form, f1, value1, text1)) ==
            End(ReadDirect(sec2, data, pos, end, form, f2, value2, text2))
  {
    hide Unsigned, Signed, LittleEndian, DebugStr, DebugStrX, Exprloc, StringEnd, ToText, FromSigned, Low;
  }

  lemma DirectCursorIndependent(
    sec1: Sections, sec2: Sections, data: seq<byte>, pos: nat, end: nat, form: nat, f1: Format, f2: Format,
    value1: bool, value2: bool, text1: bool, text2: bool)
    requires pos < end <= |data| && f1.addrSize == f2.addrSize && f1.dwarf64 == f2.dwarf64
    ensures End(ReadDirect(sec1, data, pos, end, form, f1, value1, text1)) ==
            End(ReadDirect(sec2, data, pos, end, form, f2, value2, text2))
  {
    hide ReadDirect;
    if form < FORM_REF_ADDR {
      LowFormsCursor(sec1, sec2, data, pos, end, form, f1, f2, value1, value2, text1, text2);
    } else {
      HighFormsCursor(sec1, sec2, data, pos, end, form, f1, f2, value1, value2, text1, text2);
    }
  }

  /**
    Where a value ends does not depend on which outputs are requested, nor on the string sections
    or the base of the string offsets: only on the bytes, the form and the two sizes.
   */
  lemma {:induction false} CursorIndependent(
    sec1: Sections, sec2: Sections, data: seq<byte>, pos: nat, end: nat, form: nat, f1: Format, f2: Format,
    value1: bool, value2: bool, text1: bool, text2: bool)
    requires end <= |data| && f1.addrSize == f2.addrSize && f1.dwarf64 == f2.dwarf64
    ensures End(ReadAttr(sec1, data, pos, end, form, f1, value1, text1)) ==
            End(ReadAttr(sec2, data, pos, end, form, f2, value2, text2))
    decreases end - pos
  {
    hide Unsigned, ReadDirect, Low;
    if pos < end {
      if form == FORM_INDIRECT {
        var (inner, next) := Unsigned(data, pos, end);
        CursorIndependent(sec1, sec2, data, next, end, Low(inner, 32), f1, f2, value1, value2, text1, text2);
      } else {
        DirectCursorIndependent(sec1, sec2, data, pos, end, form, f1, f2, value1, value2, text1, text2);
      }
    }
  }

  lemma DirectValueIndependent(
    sec: Sections, data: seq<byte>, pos: nat, end: nat, form: nat, f1: Format, f2: Format, text1: bool, text2: bool)
    requires pos < end <= |data| && f1.addrSize == f2.addrSize && f1.dwarf64 == f2.dwarf64
    ensures
      var r1 := ReadDirect(sec, data, pos, end, form, f1, true, text1);
      var r2 := ReadDirect(sec, data, pos, end, form, f2, true, text2);
      r1.Attr? && r2.Attr? ==> r1.value == r2.value
  {
    hide Unsigned, Signed, LittleEndian, DebugStr, DebugStrX, Exprloc, StringEnd, ToText, FromSigned, Low;
  }

  /** A requested number does not depend on the string sections or the base of the string offsets. */
  lemma {:induction false} ValueIndependent(
    sec: Sections, data: seq<byte>, pos: nat, end: nat, form: nat, f1: Format, f2: Format, text1: bool, text2: bool)
    requires end <= |data| && f1.addrSize == f2.addrSize && f1.dwarf64 == f2.dwarf64
    ensures
      var r1 := ReadAttr(sec, data, pos, end, form, f1, true, text1);
      var r2 := ReadAttr(sec, data, pos, end, form, f2, true, text2);
      r1.Attr? && r2.Attr? ==> r1.value == r2.value
    decreases end - pos
  {
    hide Unsigned, ReadDirect, Low;
    if pos < end {
      if form == FORM_INDIRECT {
        var (inner, next) := Unsigned(data, pos, end);
        ValueIndependent(sec, data, next, end, Low(inner, 32), f1, f2, text1, text2);
      } else {
        DirectValueIndependent(sec, data, pos, end, form, f1, f2, text1, text2);
      }
    }
  }
}
