/**
  Unit headers (section 7.5.1 of the DWARF 5 standard), the peek at the first entry of a unit and
  the walk over the whole of `.debug_info`.
 */
module DwarfUnits {
  import opened Basics
  import opened Bits
  import opened Leb128
  import opened DwarfAttributes
  import opened DwarfDies
  import opened DwarfTypes

  datatype File = File(data: seq<byte>, sec: Sections, abbrevs: map<nat, AbbrevTable>)

  /**
    What a unit header says: no unit fits any more, the unit is skipped, or its entries start at
    `dies`.
   */
  datatype Header =
    | NoUnit
    | Skipped(end: nat)
    | Header(end: nat, dies: nat, addrSize: nat, dwarf64: bool, abbrevOffset: nat)

  /** Where the length field puts the end of the unit at `pos`, and where the header goes on. */
  function UnitSpan(data: seq<byte>, pos: nat): (r: Option<(nat, nat, bool)>)
    ensures r.Some? ==> pos + 4 <= r.value.0 <= r.value.1 <= |data|
  {
    if pos + 4 > |data| then None
    else
      var len := LittleEndian(data, pos, 4);
      if len != 0xffff_ffff then
        if pos + 4 + len > |data| then None else Some((pos + 4, pos + 4 + len, false))
      else if pos + 12 > |data| then None
      else
        var len64 := LittleEndian(data, pos + 4, 8);
        if pos + 12 + len64 > |data| then None else Some((pos + 12, pos + 12 + len64, true))
  }

  const UT_COMPILE: nat := 1

  function ReadHeader(data: seq<byte>, pos: nat): (h: Header)
    ensures h.NoUnit? <==> UnitSpan(data, pos).None?
    ensures !h.NoUnit? ==> h.end == UnitSpan(data, pos).value.1
    ensures h.Header? ==> pos < h.dies <= h.end <= |data|
  {
    var span := UnitSpan(data, pos);
    if span.None? then NoUnit
    else
      var (p, end, dwarf64) := span.value;
      var size := if dwarf64 then 8 else 4;
      if p + 2 > end then Skipped(end)
      else if LittleEndian(data, p, 2) >= 5 then
        if p + 4 > end || data[p + 2] != UT_COMPILE || p + 4 + size > end then Skipped(end)
        else Header(end, p + 4 + size, data[p + 3], dwarf64, LittleEndian(data, p + 4, size))
      else if p + 2 + size > end || p + 2 + size + 1 > end then Skipped(end)
      else Header(end, p + 3 + size, data[p + 2 + size], dwarf64, LittleEndian(data, p + 2, size))
  }

  // ---------------------------------------------------------------------------------------------
  // The peek at the first entry
  // ---------------------------------------------------------------------------------------------

  const AT_STR_OFFSETS_BASE: nat := 0x72

  /** Scans the attributes of the first entry for the base of the string offsets; 0 if not found. */
  function Peek(u: Unit, pos: nat, attrs: seq<AttrSpec>): nat
    requires ValidUnit(u)
    decreases |attrs|
  {
    if attrs == [] then 0
    else
      var spec := attrs[0];
      var wanted := spec.name == AT_STR_OFFSETS_BASE;
      if spec.form == FORM_IMPLICIT_CONST then
        if wanted then FromSigned(spec.implicitConst) else Peek(u, pos, attrs[1..])
      else
        match ReadAttr(u.sec, u.data, pos, u.end, spec.form, u.format.(strOffsetsBase := 0), wanted, false)
        case Bad => 0
        case Attr(next, v, _) => if wanted then Or0(v) else Peek(u, next, attrs[1..])
  }

  /** The base of the string offsets, from the first entry at `pos`. */
  function PeekBase(u: Unit, pos: nat): nat
    requires ValidUnit(u)
  {
    var (code, next) := Unsigned(u.data, pos, u.end);
    if Low(code, 32) !in u.table then 0 else Peek(u, next, u.table[Low(code, 32)].attrs)
  }

  /** The number that the entry pass reads for attribute `k`, at the cursor where it reads it. */
  function EntryPassValue(u: Unit, pos: nat, attrs: seq<AttrSpec>, k: nat, info: Info): nat
    requires ValidUnit(u) && k < |attrs| && ReadAttrs(u, pos, attrs, info).Some?
    decreases k
  {
    var spec := attrs[0];
    if spec.form == FORM_IMPLICIT_CONST then
      if k == 0 then FromSigned(spec.implicitConst)
      else EntryPassValue(u, pos, attrs[1..], k - 1, Absorb(info, spec, FromSigned(spec.implicitConst), ""))
    else
      var r := ReadAttr(u.sec, u.data, pos, u.end, spec.form, u.format, true, true);
      if k == 0 then Or0(r.value)
      else EntryPassValue(u, r.next, attrs[1..], k - 1, Absorb(info, spec, Or0(r.value), OrEmpty(r.text)))
  }

  /**
    The peek pass requests other outputs and does not know the base yet, but it sees the same
    attribute boundaries: what it returns is what the entry pass reads for that attribute.
   */
  lemma {:induction false} PeekSeesEntryPass(u: Unit, pos: nat, attrs: seq<AttrSpec>, k: nat, info: Info)
    requires ValidUnit(u) && k < |attrs| && ReadAttrs(u, pos, attrs, info).Some?
    requires attrs[k].name == AT_STR_OFFSETS_BASE
    requires forall j :: 0 <= j < k ==> attrs[j].name != AT_STR_OFFSETS_BASE
    ensures Peek(u, pos, attrs) == EntryPassValue(u, pos, attrs, k, info)
    decreases k
  {
    hide ReadAttr, Absorb, FromSigned;
    var spec := attrs[0];
    if spec.form == FORM_IMPLICIT_CONST {
      if k > 0 {
        PeekSeesEntryPass(u, pos, attrs[1..], k - 1, Absorb(info, spec, FromSigned(spec.implicitConst), ""));
      }
    } else {
      var f0 := u.format.(strOffsetsBase := 0);
      var wanted := spec.name == AT_STR_OFFSETS_BASE;
      CursorIndependent(u.sec, u.sec, u.data, pos, u.end, spec.form, f0, u.format, wanted, true, false, true);
      if k == 0 {
        ValueIndependent(u.sec, u.data, pos, u.end, spec.form, f0, u.format, false, true);
      } else {
        var r := ReadAttr(u.sec, u.data, pos, u.end, spec.form, u.format, true, true);
        PeekSeesEntryPass(u, r.next, attrs[1..], k - 1, Absorb(info, spec, Or0(r.value), OrEmpty(r.text)));
      }
    }
  }

  // ---------------------------------------------------------------------------------------------
  // Units and the section
  // ---------------------------------------------------------------------------------------------

  function UnitAt(file: File, pos: nat, h: Header): (u: Unit)
    requires h.Header? && h.end <= |file.data| && h.abbrevOffset in file.abbrevs
    ensures ValidUnit(u) && u.end == h.end
  {
    var u := Unit(file.data, h.end, pos, Format(h.addrSize, h.dwarf64, 0), file.sec, file.abbrevs[h.abbrevOffset]);
    u.(format := Format(h.addrSize, h.dwarf64, PeekBase(u, h.dies)))
  }

  /** `ParseCompileUnit`: where the next unit starts (if there is one) and what was collected. */
  function ParseUnit(file: File, l: Loader, pos: nat): (Option<nat>, Loader)
  {
    var h := ReadHeader(file.data, pos);
    match h
    case NoUnit => (None, l)
    case Skipped(end) => (Some(end), l)
    case Header(end, dies, _, _, abbrevOffset) =>
      if abbrevOffset !in file.abbrevs then (Some(end), l)
      else (Some(end), WalkOn(UnitAt(file, pos, h), Walk(dies, TOP, [], l)))
  }

  /** The loop of `ParseInfoSection`. */
  function ParseUnits(file: File, l: Loader, pos: nat): Loader
    requires pos <= |file.data|
    decreases |file.data| - pos
  {
    if pos == |file.data| then l
    else
      var (next, l') := ParseUnit(file, l, pos);
      if next.None? then l' else ParseUnits(file, l', next.value)
  }

  /** Where the units of the section start, by their length fields alone. */
  function UnitStarts(data: seq<byte>, pos: nat): (starts: seq<nat>)
    requires pos <= |data|
    ensures starts != [] ==> starts[0] == pos
    ensures forall i :: 0 <= i < |starts| ==> UnitSpan(data, starts[i]).Some?
    ensures forall i :: 0 < i < |starts| ==> starts[i] == UnitSpan(data, starts[i - 1]).value.1
    decreases |data| - pos
  {
    if pos == |data| || UnitSpan(data, pos).None? then []
    else
      var rest := UnitStarts(data, UnitSpan(data, pos).value.1);
      assert forall i :: 0 < i <= |rest| ==> ([pos] + rest)[i] == rest[i - 1];
      [pos] + rest
  }

  /** Parsing the units at the given places, one after the other. */
  function ParseEach(file: File, l: Loader, starts: seq<nat>): Loader
    decreases |starts|
  {
    if starts == [] then l else ParseEach(file, ParseUnit(file, l, starts[0]).1, starts[1..])
  }

  /**
    The units tile the section: whatever the units contain, and however their parsing fails, the
    next unit is read where the length field of the previous one puts it.
   */
  lemma {:induction false} UnitsTile(file: File, l: Loader, pos: nat)
    requires pos <= |file.data|
    ensures ParseUnits(file, l, pos) == ParseEach(file, l, UnitStarts(file.data, pos))
    decreases |file.data| - pos
  {
    hide WalkOn, UnitAt, UnitSpan;
    if pos < |file.data| && UnitSpan(file.data, pos).Some? {
      var (next, l') := ParseUnit(file, l, pos);
      UnitsTile(file, l', next.value);
      var starts := UnitStarts(file.data, pos);
      assert starts[1..] == UnitStarts(file.data, next.value);
    }
  }

  /** Pending references are valid slots over all units, until they are resolved. */
  lemma {:induction false} UnitsKeepSound(file: File, l: Loader, pos: nat)
    requires pos <= |file.data| && Sound(l)
    ensures Sound(ParseUnits(file, l, pos))
    decreases |file.data| - pos
  {
    hide Sound, WalkOn, UnitAt;
    if pos < |file.data| {
      var h := ReadHeader(file.data, pos);
      if h.Header? && h.abbrevOffset in file.abbrevs {
        WalkKeepsSound(UnitAt(file, pos, h), Walk(h.dies, TOP, [], l));
      }
      var (next, l') := ParseUnit(file, l, pos);
      if next.Some? {
        UnitsKeepSound(file, l', next.value);
      }
    }
  }
}
