/**
  Names of entries: what stands in the string sections is what the loader gets.  A string section
  holds strings one behind the other, each closed by a zero byte; `.debug_str_offsets` holds the
  offsets of strings, from the base of the unit on (sections 7.26 and 7.5.5 of the DWARF 5 standard).
 */
module DwarfStrings {
  import opened Basics
  import opened Bits
  import opened Leb128
  import opened DwarfAttributes
  import opened DwarfForms

  // ---------------------------------------------------------------------------------------------
  // How a producer writes the sections
  // ---------------------------------------------------------------------------------------------

  /** Characters of one byte, none of them null. */
  predicate IsText(text: string) { forall i :: 0 <= i < |text| ==> 0 < text[i] as int < 256 }

  function CharBytes(text: string): (bytes: seq<byte>)
    requires IsText(text)
    ensures |bytes| == |text|
  {
    if text == "" then [] else [text[0] as int] + CharBytes(text[1..])
  }

  function StringBytes(text: string): seq<byte>
    requires IsText(text)
  {
    CharBytes(text) + [0]
  }

  predicate AllText(strings: seq<string>) { forall k :: 0 <= k < |strings| ==> IsText(strings[k]) }

  function StringTable(strings: seq<string>): seq<byte>
    requires AllText(strings)
  {
    if strings == [] then [] else StringBytes(strings[0]) + StringTable(strings[1..])
  }

  /** Where string `k` starts: behind the strings before it, each with its zero byte. */
  function Offset(strings: seq<string>, k: nat): nat
    requires k <= |strings|
  {
    if k == 0 then 0 else |strings[0]| + 1 + Offset(strings[1..], k - 1)
  }

  /** The offsets of the strings with these numbers, in `size` bytes each. */
  function OffsetTable(strings: seq<string>, order: seq<nat>, size: nat): seq<byte>
    requires forall j :: 0 <= j < |order| ==> order[j] < |strings|
  {
    if order == [] then []
    else LittleEndianBytes(Offset(strings, order[0]), size) + OffsetTable(strings, order[1..], size)
  }

  // ---------------------------------------------------------------------------------------------
  // Where the pieces stand
  // ---------------------------------------------------------------------------------------------

  lemma {:induction false} StringStands(strings: seq<string>, k: nat, data: seq<byte>, pos: nat)
    requires AllText(strings) && k < |strings| && At(data, pos, StringTable(strings))
    ensures At(data, pos + Offset(strings, k), StringBytes(strings[k]))
    decreases k
  {
    hide At, StringBytes;
    BytesLength(strings[0]);
    AtSplit(data, pos, StringBytes(strings[0]), StringTable(strings[1..]));
    if k > 0 {
      StringStands(strings[1..], k - 1, data, pos + |strings[0]| + 1);
    }
  }

  lemma BytesLength(text: string)
    requires IsText(text)
    ensures |StringBytes(text)| == |text| + 1
  {
  }

  lemma {:induction false} OffsetStands(
    strings: seq<string>, order: seq<nat>, size: nat, j: nat, data: seq<byte>, pos: nat)
    requires forall i :: 0 <= i < |order| ==> order[i] < |strings|
    requires j < |order| && At(data, pos, OffsetTable(strings, order, size))
    ensures At(data, pos + j * size, LittleEndianBytes(Offset(strings, order[j]), size))
    decreases j
  {
    hide At, LittleEndianBytes, Offset;
    AtSplit(data, pos, LittleEndianBytes(Offset(strings, order[0]), size), OffsetTable(strings, order[1..], size));
    if j > 0 {
      OffsetStands(strings, order[1..], size, j - 1, data, pos + size);
      assert size + (j - 1) * size == j * size;
    }
  }

  // ---------------------------------------------------------------------------------------------
  // What the loader gets
  // ---------------------------------------------------------------------------------------------

  lemma {:induction false} CharsBack(text: string)
    requires IsText(text)
    ensures NoZero(CharBytes(text)) && ToText(CharBytes(text)) == text
  {
    if text != "" {
      CharsBack(text[1..]);
      var bytes := CharBytes(text);
      assert forall i :: 0 < i < |bytes| ==> bytes[i] == CharBytes(text[1..])[i - 1];
      assert forall i :: 0 < i < |bytes| ==> ToText(CharBytes(text[1..]))[i - 1] == text[i];
    }
  }

  /** A string that stands anywhere in `.debug_str`, also inside another one. */
  lemma StringFound(sec: Sections, offset: nat, text: string)
    requires IsText(text) && sec.str.Some? && At(sec.str.value, offset, StringBytes(text))
    ensures DebugStr(sec, offset) == Some(text)
  {
    hide At, ToText;
    var s := sec.str.value;
    CharsBack(text);
    AtEnd(s, offset, StringBytes(text));
    StringRoundTrip(CharBytes(text), s, offset, |s|);
  }

  /** The same through an offset that stands in `.debug_str_offsets`. */
  lemma IndexFound(sec: Sections, f: Format, index: nat, offset: nat, text: string)
    requires IsText(text) && sec.str.Some? && At(sec.str.value, offset, StringBytes(text))
    requires
      var size := if f.dwarf64 then 8 else 4;
      && offset < Pow2(8 * size) && sec.strOffsets.Some?
      && At(sec.strOffsets.value, f.strOffsetsBase + index * size, LittleEndianBytes(offset, size))
    ensures DebugStrX(sec, index, f) == Some(text)
  {
    hide At, DebugStr, LittleEndian, LittleEndianBytes, Pow2, StringBytes;
    var size := if f.dwarf64 then 8 else 4;
    AtEnd(sec.strOffsets.value, f.strOffsetsBase + index * size, LittleEndianBytes(offset, size));
    LittleEndianRoundTrip(offset, size, sec.strOffsets.value, f.strOffsetsBase + index * size);
    StringFound(sec, offset, text);
  }

  /** The string sections hold these strings and, from the base on, these offsets. */
  predicate Holds(sec: Sections, f: Format, strings: seq<string>, order: seq<nat>)
  {
    var size := if f.dwarf64 then 8 else 4;
    && AllText(strings) && (forall j :: 0 <= j < |order| ==> order[j] < |strings|)
    && (forall j :: 0 <= j < |order| ==> Offset(strings, order[j]) < Pow2(8 * size))
    && sec.str.Some? && At(sec.str.value, 0, StringTable(strings))
    && sec.strOffsets.Some? && At(sec.strOffsets.value, f.strOffsetsBase, OffsetTable(strings, order, size))
  }

  /** The value of a string form is written at `pos`. */
  predicate StringWritten(data: seq<byte>, pos: nat, end: nat, form: nat, f: Format, v: nat)
  {
    && f.addrSize <= 8 && FitsForm(form, f, Numeric(v))
    && At(data, pos, WriteForm(form, f, Numeric(v))) && pos + |WriteForm(form, f, Numeric(v))| <= end <= |data|
  }

  /**
    An indexed string, in strx (0x1a) or strx1 to strx4 (0x25 to 0x28), in both formats: the loader
    gets the characters of the string whose offset stands at the index.
   */
  lemma IndexedStringRead(
    sec: Sections, strings: seq<string>, order: seq<nat>, j: nat, data: seq<byte>, pos: nat, end: nat, form: nat,
    f: Format, wantValue: bool, wantText: bool)
    requires Holds(sec, f, strings, order) && j < |order|
    requires form in {0x1a, 0x25, 0x26, 0x27, 0x28} && StringWritten(data, pos, end, form, f, j)
    ensures
      var next := pos + |WriteForm(form, f, Numeric(j))|;
      ReadAttr(sec, data, pos, end, form, f, wantValue, wantText) ==
      Attr(next, None, if wantText then Some(strings[order[j]]) else None)
  {
    hide At, DebugStrX, DebugStr, ReadAttr, StringTable, OffsetTable, Offset, IsText, StringBytes, Pow2;
    hide LittleEndianBytes, EncodeUnsigned, FitsForm, WriteForm, FormValue, FormText, TakesBytes;
    var size := if f.dwarf64 then 8 else 4;
    StringStands(strings, order[j], sec.str.value, 0);
    OffsetStands(strings, order, size, j, sec.strOffsets.value, f.strOffsetsBase);
    IndexFound(sec, f, j, Offset(strings, order[j]), strings[order[j]]);
    IndexForms(sec, form, f, j);
    AttrRoundTrip(sec, data, pos, end, form, f, Numeric(j), wantValue, wantText);
  }

  /** What the forms with an index amount to. */
  lemma IndexForms(sec: Sections, form: nat, f: Format, j: nat)
    requires form in {0x1a, 0x25, 0x26, 0x27, 0x28} && FitsForm(form, f, Numeric(j))
    ensures FormValue(form, f, Numeric(j)) == None && FormText(sec, form, f, Numeric(j)) == DebugStrX(sec, j, f)
    ensures TakesBytes(form, f, Numeric(j))
  {
    hide DebugStrX, Pow2;
  }

  /** A string by its offset, in strp (0x0e): the loader gets its characters. */
  lemma OffsetStringRead(
    sec: Sections, strings: seq<string>, k: nat, data: seq<byte>, pos: nat, end: nat, f: Format,
    wantValue: bool, wantText: bool)
    requires AllText(strings) && k < |strings| && sec.str.Some? && At(sec.str.value, 0, StringTable(strings))
    requires StringWritten(data, pos, end, 0x0e, f, Offset(strings, k))
    ensures
      ReadAttr(sec, data, pos, end, 0x0e, f, wantValue, wantText) ==
      Attr(pos + (if f.dwarf64 then 8 else 4), None, if wantText then Some(strings[k]) else None)
  {
    hide At, DebugStr, ReadAttr, StringTable, Offset, IsText, StringBytes, Pow2, LittleEndianBytes;
    StringStands(strings, k, sec.str.value, 0);
    StringFound(sec, Offset(strings, k), strings[k]);
    AttrRoundTrip(sec, data, pos, end, 0x0e, f, Numeric(Offset(strings, k)), wantValue, wantText);
  }

  /** A string that stands in the entry itself (form 0x08). */
  lemma InlineStringRead(
    sec: Sections, text: string, data: seq<byte>, pos: nat, end: nat, f: Format, wantValue: bool, wantText: bool)
    requires IsText(text) && f.addrSize <= 8
    requires At(data, pos, StringBytes(text)) && pos + |text| + 1 <= end <= |data|
    ensures
      ReadAttr(sec, data, pos, end, 0x08, f, wantValue, wantText) ==
      Attr(pos + |text| + 1, None, if wantText then Some(text) else None)
  {
    hide At, ReadAttr, ToText;
    CharsBack(text);
    AttrRoundTrip(sec, data, pos, end, 0x08, f, Chars(CharBytes(text)), wantValue, wantText);
  }

  /** `a` and `b`, the second under index 0 behind a base of eight bytes. */
  lemma SecondStringByIndex()
    ensures
      var sec := Sections(Some([97, 0, 98, 0]), Some([8, 0, 0, 0, 5, 0, 0, 0, 2, 0, 0, 0]));
      ReadAttr(sec, [0], 0, 1, 0x25, Format(8, false, 8), true, true) == Attr(1, None, Some("b"))
  {
    hide ReadAttr, DebugStrX, Pow2;
    var sec := Sections(Some([97, 0, 98, 0]), Some([8, 0, 0, 0, 5, 0, 0, 0, 2, 0, 0, 0]));
    var offsets := sec.strOffsets.value;
    assert CharBytes("b") == [98] && [97, 0, 98, 0][2..4] == [98, 0];
    assert LittleEndianBytes(2, 4) == [2, 0, 0, 0] && offsets[8..12] == [2, 0, 0, 0];
    Pow2Of32();
    IndexFound(sec, Format(8, false, 8), 0, 2, "b");
    ReadsStrx1(sec, Format(8, false, 8), 0);
  }

  lemma ReadsStrx1(sec: Sections, f: Format, index: byte)
    ensures ReadAttr(sec, [index], 0, 1, 0x25, f, true, true) == Attr(1, None, DebugStrX(sec, index, f))
  {
    hide DebugStrX;
    assert LittleEndian([index], 0, 1) == index;
  }
}
