/**
  A whole file as a producer writes it: unit headers, units one behind the other and abbreviation
  tables, and what the loader makes of them.
 */
module DwarfSections {
  import opened Basics
  import opened Bits
  import opened Leb128
  import opened DwarfAttributes
  import opened DwarfForms
  import opened DwarfAbbrevs
  import opened DwarfDies
  import opened DwarfTypes
  import opened DwarfMeaning
  import opened DwarfUnits
  import opened DwarfProducer

  // ---------------------------------------------------------------------------------------------
  // Unit headers
  // ---------------------------------------------------------------------------------------------

  datatype UnitInfo = UnitInfo(version: nat, dwarf64: bool, addrSize: byte, abbrevOffset: nat)

  function SizeOf(i: UnitInfo): nat { if i.dwarf64 then 8 else 4 }

  /**
    The header behind the length: version 5 added the type of the unit (0x01: a compilation unit)
    and moved the address size.
   */
  function HeaderTail(i: UnitInfo): seq<byte>
  {
    LittleEndianBytes(i.version, 2)
    + if i.version >= 5 then [0x01, i.addrSize] + LittleEndianBytes(i.abbrevOffset, SizeOf(i))
      else LittleEndianBytes(i.abbrevOffset, SizeOf(i)) + [i.addrSize]
  }

  /** The header of a unit with `body` bytes of entries. */
  function LengthField(i: UnitInfo, body: nat): seq<byte>
  {
    var len := |HeaderTail(i)| + body;
    if i.dwarf64 then LittleEndianBytes(0xffff_ffff, 4) + LittleEndianBytes(len, 8) else LittleEndianBytes(len, 4)
  }

  function WriteHeader(i: UnitInfo, body: nat): seq<byte> { LengthField(i, body) + HeaderTail(i) }

  predicate OkHeader(i: UnitInfo, body: nat)
  {
    && i.version < Pow2(16) && i.abbrevOffset < Pow2(8 * SizeOf(i))
    && |HeaderTail(i)| + body < if i.dwarf64 then Pow2(64) else 0xffff_ffff
  }

  lemma SpanRoundTrip(i: UnitInfo, body: nat, data: seq<byte>, pos: nat)
    requires OkHeader(i, body) && At(data, pos, LengthField(i, body))
    requires pos + |WriteHeader(i, body)| + body <= |data|
    ensures
      var p := pos + |LengthField(i, body)|;
      UnitSpan(data, pos) == Some((p, p + |HeaderTail(i)| + body, i.dwarf64))
  {
    hide At, LittleEndian, LittleEndianBytes, HeaderTail, Pow2;
    var len := |HeaderTail(i)| + body;
    FourBytes();
    if i.dwarf64 {
      AtSplit(data, pos, LittleEndianBytes(0xffff_ffff, 4), LittleEndianBytes(len, 8));
      LittleEndianRoundTrip(0xffff_ffff, 4, data, pos);
      LittleEndianRoundTrip(len, 8, data, pos + 4);
    } else {
      LittleEndianRoundTrip(len, 4, data, pos);
    }
  }

  lemma FourBytes()
    ensures Pow2(8 * 4) == U32
  {
    Pow2Of32();
  }

  /**
    Headers of both layouts, in both formats, are read back; the unit ends where it should.  The
    layout is that of versions 2 to 4 or that of version 5; the forms of the entries are those
    of version 3 and later (`AddressSizedReference` tells what version 2 has otherwise).
   */
  lemma HeaderRoundTrip(i: UnitInfo, body: nat, data: seq<byte>, pos: nat)
    requires OkHeader(i, body) && At(data, pos, WriteHeader(i, body))
    requires pos + |WriteHeader(i, body)| + body <= |data|
    ensures
      var dies := pos + |WriteHeader(i, body)|;
      ReadHeader(data, pos) == Header(dies + body, dies, i.addrSize, i.dwarf64, i.abbrevOffset)
  {
    hide At, LittleEndian, LittleEndianBytes, UnitSpan, LengthField, HeaderTail, Pow2;
    AtSplit(data, pos, LengthField(i, body), HeaderTail(i));
    SpanRoundTrip(i, body, data, pos);
    TailRead(i, data, pos + |LengthField(i, body)|);
  }

  /** The fields behind the length, where the version puts them. */
  lemma TailRead(i: UnitInfo, data: seq<byte>, p: nat)
    requires i.version < Pow2(16) && i.abbrevOffset < Pow2(8 * SizeOf(i)) && At(data, p, HeaderTail(i))
    ensures p + |HeaderTail(i)| <= |data| && |HeaderTail(i)| == if i.version >= 5 then 4 + SizeOf(i) else 3 + SizeOf(i)
    ensures LittleEndian(data, p, 2) == i.version
    ensures i.version >= 5 ==>
      data[p + 2] == UT_COMPILE && data[p + 3] == i.addrSize && LittleEndian(data, p + 4, SizeOf(i)) == i.abbrevOffset
    ensures i.version < 5 ==>
      LittleEndian(data, p + 2, SizeOf(i)) == i.abbrevOffset && data[p + 2 + SizeOf(i)] == i.addrSize
  {
    hide At, LittleEndian, LittleEndianBytes, Pow2;
    AtEnd(data, p, HeaderTail(i));
    var version, offset := LittleEndianBytes(i.version, 2), LittleEndianBytes(i.abbrevOffset, SizeOf(i));
    if i.version >= 5 {
      AtSplit(data, p, version, [UT_COMPILE, i.addrSize] + offset);
      AtSplit(data, p + 2, [UT_COMPILE, i.addrSize], offset);
      AtPair(data, p + 2, UT_COMPILE, i.addrSize);
      LittleEndianRoundTrip(i.abbrevOffset, SizeOf(i), data, p + 4);
    } else {
      AtSplit(data, p, version, offset + [i.addrSize]);
      AtSplit(data, p + 2, offset, [i.addrSize]);
      AtHead(data, p + 2 + SizeOf(i), [i.addrSize]);
      LittleEndianRoundTrip(i.abbrevOffset, SizeOf(i), data, p + 2);
    }
    LittleEndianRoundTrip(i.version, 2, data, p);
  }

  lemma {:induction false} LittleEndianWritten(data: seq<byte>, pos: nat, n: nat)
    requires pos + n <= |data|
    ensures LittleEndianBytes(LittleEndian(data, pos, n), n) == data[pos..pos + n]
    ensures LittleEndian(data, pos, n) < Pow2(8 * n)
    decreases n
  {
    hide Pow2;
    if n > 0 {
      LittleEndianWritten(data, pos + 1, n - 1);
      Pow2Eight(8 * (n - 1));
      var rest := LittleEndian(data, pos + 1, n - 1);
      assert (data[pos] + 256 * rest) % 256 == data[pos] && (data[pos] + 256 * rest) / 256 == rest;
      assert data[pos..pos + n] == [data[pos]] + data[pos + 1..pos + n];
    } else {
      Pow2Zero();
    }
  }

  /** Where a length is found, it stands there, and the unit fits the section. */
  lemma SpanExact(data: seq<byte>, pos: nat)
    requires UnitSpan(data, pos).Some?
    ensures
      var (p, end, dwarf64) := UnitSpan(data, pos).value;
      && p <= end <= |data|
      && (!dwarf64 ==> p == pos + 4 && end - p != 0xffff_ffff && data[pos..p] == LittleEndianBytes(end - p, 4))
      && (dwarf64 ==>
            p == pos + 12 && data[pos..p] == LittleEndianBytes(0xffff_ffff, 4) + LittleEndianBytes(end - p, 8))
  {
    hide LittleEndianBytes, LittleEndian, Pow2;
    LittleEndianWritten(data, pos, 4);
    var (p, end, dwarf64) := UnitSpan(data, pos).value;
    if dwarf64 {
      LittleEndianWritten(data, pos + 4, 8);
      assert data[pos..pos + 12] == data[pos..pos + 4] + data[pos + 4..pos + 12];
    }
  }

  /** What a header found at a place says. */
  function InfoAt(data: seq<byte>, pos: nat): UnitInfo
    requires ReadHeader(data, pos).Header?
  {
    var h := ReadHeader(data, pos);
    UnitInfo(LittleEndian(data, UnitSpan(data, pos).value.0, 2), h.dwarf64, h.addrSize, h.abbrevOffset)
  }

  lemma TailExact(data: seq<byte>, pos: nat)
    requires ReadHeader(data, pos).Header?
    ensures
      var p, h, i := UnitSpan(data, pos).value.0, ReadHeader(data, pos), InfoAt(data, pos);
      && p <= h.dies && data[p..h.dies] == HeaderTail(i)
      && i.version < Pow2(8 * 2) && i.abbrevOffset < Pow2(8 * SizeOf(i))
  {
    hide LittleEndianBytes, LittleEndian, UnitSpan, Pow2;
    var p, h, i := UnitSpan(data, pos).value.0, ReadHeader(data, pos), InfoAt(data, pos);
    var size := SizeOf(i);
    LittleEndianWritten(data, p, 2);
    if i.version >= 5 {
      LittleEndianWritten(data, p + 4, size);
      assert data[p..h.dies] == data[p..p + 2] + ([data[p + 2], data[p + 3]] + data[p + 4..p + 4 + size]);
    } else {
      LittleEndianWritten(data, p + 2, size);
      assert data[p..h.dies] == data[p..p + 2] + (data[p + 2..p + 2 + size] + [data[p + 2 + size]]);
    }
  }

  /**
    Conversely, where a header is found, it stands there: units of another type, and those that are
    too short for their header, have none.
   */
  lemma HeaderExact(data: seq<byte>, pos: nat)
    requires ReadHeader(data, pos).Header?
    ensures
      var h, i := ReadHeader(data, pos), InfoAt(data, pos);
      && h.dies <= h.end <= |data| && OkHeader(i, h.end - h.dies)
      && data[pos..h.dies] == WriteHeader(i, h.end - h.dies)
  {
    hide LittleEndianBytes, LittleEndian, UnitSpan, HeaderTail, Pow2;
    var h, i := ReadHeader(data, pos), InfoAt(data, pos);
    var (p, end, dwarf64) := UnitSpan(data, pos).value;
    SpanExact(data, pos);
    TailExact(data, pos);
    FourBytes();
    assert 8 * 2 == 16 && 8 * 8 == 64;
    assert data[pos..h.dies] == data[pos..p] + data[p..h.dies];
    assert |HeaderTail(i)| + (h.end - h.dies) == end - p;
    SpanBound(data, pos);
  }

  lemma SpanBound(data: seq<byte>, pos: nat)
    requires UnitSpan(data, pos).Some?
    ensures
      var (p, end, dwarf64) := UnitSpan(data, pos).value;
      end - p < if dwarf64 then Pow2(64) else 0xffff_ffff
  {
    hide LittleEndian, Pow2;
    FourBytes();
    LittleEndianWritten(data, pos, 4);
    if UnitSpan(data, pos).value.2 {
      LittleEndianWritten(data, pos + 4, 8);
      assert 8 * 8 == 64;
    }
  }

  lemma AtPair(data: seq<byte>, pos: nat, a: byte, b: byte)
    requires At(data, pos, [a, b])
    ensures pos + 2 <= |data| && data[pos] == a && data[pos + 1] == b
  {
    assert data[pos..pos + 2][0] == a && data[pos..pos + 2][1] == b;
  }

  // ---------------------------------------------------------------------------------------------
  // The whole section
  // ---------------------------------------------------------------------------------------------

  /**
    A unit as a producer has it: its header, its entries and how many bytes are reserved for them;
    or a unit of `size` bytes that the loader has no use for.
   */
  datatype Produced =
    | Produced(info: UnitInfo, source: Source, body: nat)
    | Ignored(size: nat)

  function HeaderEnd(pos: nat, p: Produced): nat
    requires p.Produced?
  {
    pos + |WriteHeader(p.info, p.body)|
  }

  /** Where the next unit starts. */
  function UnitEnd(pos: nat, p: Produced): nat
  {
    match p
    case Produced(_, _, body) => HeaderEnd(pos, p) + body
    case Ignored(size) => pos + size
  }

  function HeaderOf(pos: nat, p: Produced): Header
    requires p.Produced?
  {
    var dies := HeaderEnd(pos, p);
    Header(dies + p.body, dies, p.info.addrSize, p.info.dwarf64, p.info.abbrevOffset)
  }

  /** The entries fill the room for them, or a null entry closes them and anything may follow. */
  predicate Filled(u: Unit, pos: nat, source: Source)
    requires Placed(u, pos, source)
  {
    var q := pos + |WriteSource(u, source)|;
    if q == u.end then Closed(u, source) else u.data[q] == 0
  }

  predicate EntriesPlaced(file: File, pos: nat, p: Produced)
    requires p.Produced?
  {
    && OkHeader(p.info, p.body) && At(file.data, pos, WriteHeader(p.info, p.body))
    && UnitEnd(pos, p) <= |file.data| && p.info.abbrevOffset in file.abbrevs
    && var u := UnitAt(file, pos, HeaderOf(pos, p));
    && Placed(u, HeaderEnd(pos, p), p.source) && Filled(u, HeaderEnd(pos, p), p.source)
  }

  /** A header that is cut short or not that of a compilation unit, or abbreviations that are missing. */
  predicate NoUse(file: File, pos: nat, size: nat)
  {
    var h := ReadHeader(file.data, pos);
    !h.NoUnit? && h.end == pos + size && (h.Header? ==> h.abbrevOffset !in file.abbrevs)
  }

  /** The unit stands in the section at `pos`. */
  predicate UnitPlaced(file: File, pos: nat, p: Produced)
  {
    match p
    case Produced(_, _, _) => EntriesPlaced(file, pos, p)
    case Ignored(size) => NoUse(file, pos, size)
  }

  /** What a unit contributes: nothing if it is ignored. */
  function UnitForest(file: File, pos: nat, p: Produced): Forest
    requires UnitPlaced(file, pos, p)
  {
    match p
    case Produced(_, source, _) => ForestOf(UnitAt(file, pos, HeaderOf(pos, p)), HeaderEnd(pos, p), source)
    case Ignored(_) => Nil
  }

  /** Units one behind the other, up to the end of the section or to bytes that hold no unit. */
  predicate SectionPlaced(file: File, pos: nat, ps: seq<Produced>)
    decreases |ps|
  {
    if ps == [] then pos == |file.data| || (pos < |file.data| && UnitSpan(file.data, pos).None?)
    else UnitPlaced(file, pos, ps[0]) && SectionPlaced(file, UnitEnd(pos, ps[0]), ps[1..])
  }

  function SectionDecls(file: File, pos: nat, ps: seq<Produced>): seq<Decl>
    requires SectionPlaced(file, pos, ps)
    decreases |ps|
  {
    hide UnitPlaced, UnitEnd, DeclsOf;
    if ps == [] then []
    else DeclsOf(UnitForest(file, pos, ps[0]), "") + SectionDecls(file, UnitEnd(pos, ps[0]), ps[1..])
  }

  function SectionRegistry(file: File, pos: nat, ps: seq<Produced>): map<nat, TypeEntry>
    requires SectionPlaced(file, pos, ps)
    decreases |ps|
  {
    hide UnitPlaced, UnitEnd, RegistryOf;
    if ps == [] then map[]
    else RegistryOf(UnitForest(file, pos, ps[0]), "") + SectionRegistry(file, UnitEnd(pos, ps[0]), ps[1..])
  }

  /** A unit is read as its forest, and the next unit starts behind it. */
  lemma UnitParsed(file: File, l: Loader, pos: nat, p: Produced)
    requires UnitPlaced(file, pos, p)
    ensures ParseUnit(file, l, pos) == (Some(UnitEnd(pos, p)), ReadTree(l, TOP, UnitForest(file, pos, p)))
    ensures pos < UnitEnd(pos, p) <= |file.data|
  {
    hide EntriesPlaced, WalkOn, UnitSpan, UnitAt, ForestOf, HeaderEnd, HeaderOf;
    if p.Produced? {
      EntriesParsed(file, l, pos, p);
    }
  }

  lemma EntriesParsed(file: File, l: Loader, pos: nat, p: Produced)
    requires p.Produced? && EntriesPlaced(file, pos, p)
    ensures ParseUnit(file, l, pos) == (Some(UnitEnd(pos, p)), ReadTree(l, TOP, UnitForest(file, pos, p)))
    ensures pos < UnitEnd(pos, p) <= |file.data|
  {
    hide At, WriteHeader, WriteSource, Placed, Readable, WalkOn, ReadTree, Spelled, NextToken, ForestOf, ReadHeader;
    hide OkHeader, PeekBase, Closed;
    var u, dies := UnitAt(file, pos, HeaderOf(pos, p)), HeaderEnd(pos, p);
    HeaderRoundTrip(p.info, p.body, file.data, pos);
    HeaderNotEmpty(p.info, p.body);
    PlacedInside(u, dies, p.source);
    FilledIsReadable(u, dies, p.source);
    SourceSpelled(u, dies, p.source);
    LoopRefinesTreeReader(u, dies, TOP, l, ForestOf(u, dies, p.source));
  }

  /** The entries can be read, and what follows them in the unit is a null entry. */
  lemma FilledIsReadable(u: Unit, pos: nat, source: Source)
    requires Placed(u, pos, source) && Filled(u, pos, source)
    ensures
      var q := pos + |WriteSource(u, source)|;
      Readable(u, pos, source) && q <= u.end && (q < u.end ==> NextToken(u, q).Null?)
  {
    hide WriteSource, NextToken, Closed;
    var q := pos + |WriteSource(u, source)|;
    if q < u.end {
      assert u.data[q..q + 1] == [0];
      NullRoundTrip(u, q);
    }
  }

  lemma HeaderNotEmpty(i: UnitInfo, body: nat)
    ensures |WriteHeader(i, body)| > 0
  {
    hide LengthField;
  }

  /** What the loader holds after a section of such units. */
  lemma {:induction false} SectionRead(file: File, l: Loader, pos: nat, ps: seq<Produced>)
    requires SectionPlaced(file, pos, ps) && pos <= |file.data| && Sound(l)
    ensures
      var r := ParseUnits(file, l, pos);
      && Sound(r)
      && Decls(r) == Decls(l) + SectionDecls(file, pos, ps)
      && r.registry == l.registry + SectionRegistry(file, pos, ps)
    decreases |ps|
  {
    hide ParseUnit, UnitPlaced, UnitForest, UnitSpan, ReadTree, Decls, Sound, UnitEnd, DeclsOf, RegistryOf;
    if ps != [] {
      var p := ps[0];
      var next := UnitEnd(pos, p);
      var f := UnitForest(file, pos, p);
      var after := ReadTree(l, TOP, f);
      UnitParsed(file, l, pos, p);
      TopDecls(l, f);
      SectionRead(file, after, next, ps[1..]);
      MapAssoc(l.registry, RegistryOf(f, ""), SectionRegistry(file, next, ps[1..]));
    } else {
      NoUnitLeft(file, l, pos);
      assert Decls(l) + [] == Decls(l);
    }
  }

  lemma NoUnitLeft(file: File, l: Loader, pos: nat)
    requires pos <= |file.data| && (pos < |file.data| ==> UnitSpan(file.data, pos).None?)
    ensures ParseUnits(file, l, pos) == l
  {
    hide UnitSpan, WalkOn, UnitAt;
  }

  lemma TopDecls(l: Loader, f: Forest)
    requires Sound(l)
    ensures
      var r := ReadTree(l, TOP, f);
      Sound(r) && Decls(r) == Decls(l) + DeclsOf(f, "") && r.registry == l.registry + RegistryOf(f, "")
  {
    hide Decls, Sound, ReadTree, DeclsOf, RegistryOf, MembersOf, BasesOf;
    DeclsSize(l);
    TreeDecls(l, TOP, f);
    TreeRegistry(l, TOP, f);
  }

  /**
    The whole way for a whole file: abbreviation tables and units as a producer writes them.  The
    loader ends with the structs that all the units declare, in order, every member and base with
    the name of its type, looked up over all units.
   */
  lemma SectionMeaning(file: File, abbrevData: seq<byte>, tables: seq<seq<(nat, AbbrevEntry)>>, ps: seq<Produced>)
    requires forall i :: 0 <= i < |tables| ==> OkEntries(tables[i])
    requires At(abbrevData, 0, WriteSection(tables)) && |WriteSection(tables)| == |abbrevData|
    requires file.abbrevs == ParseSection(abbrevData, 0, map[])
    requires SectionPlaced(file, 0, ps)
    ensures file.abbrevs == AddTables(map[], 0, tables)
    ensures
      var l := ParseUnits(file, EMPTY, 0);
      Sound(l) && ResolveFirst(l, |l.pending|) == AllResolved(SectionRegistry(file, 0, ps), SectionDecls(file, 0, ps))
  {
    hide At, ParseUnits, SectionPlaced, SectionDecls, SectionRegistry, ResolveFirst, AllResolved, Decls, ParseSection;
    hide AddTables, WriteSection, OkEntries;
    SectionRoundTrip(tables, abbrevData, 0, map[]);
    assert Sound(EMPTY);
    NoDecls();
    SectionRead(file, EMPTY, 0, ps);
    assert [] + SectionDecls(file, 0, ps) == SectionDecls(file, 0, ps);
    assert map[] + SectionRegistry(file, 0, ps) == SectionRegistry(file, 0, ps);
    FinalStructs(ParseUnits(file, EMPTY, 0));
  }

  // ---------------------------------------------------------------------------------------------
  // The base of the string offsets
  // ---------------------------------------------------------------------------------------------

  /** The number of the first attribute with a name; 0 if there is none. */
  function First(u: Unit, attrs: seq<AttrSpec>, values: seq<Payload>, name: nat): nat
    requires OkAttrs(u.format, attrs, values)
    decreases |attrs|
  {
    if attrs == [] then 0
    else if attrs[0].name == name then Seen(u, attrs[0], values[0]).0
    else First(u, attrs[1..], values[1..], name)
  }

  /** The peek pass finds the first string offsets base (attribute 0x72) that was written. */
  lemma {:induction false} PeekIs(u: Unit, pos: nat, attrs: seq<AttrSpec>, values: seq<Payload>)
    requires ValidUnit(u) && u.format.addrSize <= 8 && OkAttrs(u.format, attrs, values)
    requires At(u.data, pos, WriteAttrs(u.format, attrs, values))
    requires pos + |WriteAttrs(u.format, attrs, values)| <= u.end
    requires pos + |WriteAttrs(u.format, attrs, values)| < u.end || EndsFirm(u.format, attrs, values)
    ensures Peek(u, pos, attrs) == First(u, attrs, values, 0x72)
    decreases |attrs|
  {
    hide At, ReadAttr, FitsForm, WriteForm, FormValue, FormText, TakesBytes, AllImplicit;
    if attrs != [] {
      var spec, p := attrs[0], values[0];
      var f0 := u.format.(strOffsetsBase := 0);
      var here := pos + |WriteForm(spec.form, u.format, p)|;
      ImplicitParts(attrs);
      AtSplit(u.data, pos, WriteForm(spec.form, u.format, p), WriteAttrs(u.format, attrs[1..], values[1..]));
      if AllImplicit(attrs[1..]) {
        ImplicitText(u.format, attrs[1..], values[1..]);
      } else if EndsFirm(u.format, attrs[1..], values[1..]) {
        FirmText(u.format, attrs[1..], values[1..]);
      }
      if spec.form == FORM_IMPLICIT_CONST {
        ImplicitIsEmpty(u.format, p);
        ReadsWord(spec.implicitConst);
      } else {
        AttrRoundTrip(u.sec, u.data, pos, u.end, spec.form, u.format, p, true, true);
        var wanted := spec.name == AT_STR_OFFSETS_BASE;
        CursorIndependent(u.sec, u.sec, u.data, pos, u.end, spec.form, f0, u.format, wanted, true, false, true);
        if wanted {
          ValueIndependent(u.sec, u.data, pos, u.end, spec.form, f0, u.format, false, true);
        }
      }
      if spec.name != AT_STR_OFFSETS_BASE {
        PeekIs(u, here, attrs[1..], values[1..]);
      }
    }
  }

  /** Whatever base is assumed, the peek pass does not use it. */
  lemma {:induction false} PeekIgnoresBase(u: Unit, base: nat, pos: nat, attrs: seq<AttrSpec>)
    requires ValidUnit(u)
    ensures Peek(u.(format := u.format.(strOffsetsBase := base)), pos, attrs) == Peek(u, pos, attrs)
    decreases |attrs|
  {
    hide ReadAttr, FromSigned;
    if attrs != [] {
      var spec := attrs[0];
      var r := ReadAttr(u.sec, u.data, pos, u.end, spec.form, u.format.(strOffsetsBase := 0),
                        spec.name == AT_STR_OFFSETS_BASE, false);
      PeekIgnoresBase(u, base, if spec.form == FORM_IMPLICIT_CONST || r.Bad? then pos else r.next, attrs[1..]);
    }
  }

  /** A unit's strings are looked up with the base that its first entry was given. */
  lemma UnitBase(file: File, pos: nat, p: Produced)
    requires UnitPlaced(file, pos, p) && p.Produced? && p.source.Items?
    ensures
      var u := UnitAt(file, pos, HeaderOf(pos, p));
      OkItem(u, p.source.item)
      && u.format.strOffsetsBase ==
         First(u, u.table[p.source.item.code].attrs, p.source.item.values, 0x72)
  {
    hide At, WriteHeader, OkHeader, WriteSource, WriteBelow, Placed, Readable, WriteAttrs, OkAttrs, First, Peek;
    hide Unsigned, EncodeUnsigned, EndsFirm, Low, Pow2;
    var dies := HeaderEnd(pos, p);
    var h := HeaderOf(pos, p);
    var u := UnitAt(file, pos, h);
    var u0 := Unit(file.data, h.end, pos, Format(h.addrSize, h.dwarf64, 0), file.sec, file.abbrevs[h.abbrevOffset]);
    var it := p.source.item;
    PlacedInside(u, dies, p.source);
    FilledIsReadable(u, dies, p.source);
    SourceParts(u, dies, p.source);
    ReadableParts(u, dies, p.source);
    var code, rest := EncodeUnsigned(it.code), WriteAttrs(u.format, u.table[it.code].attrs, it.values);
    AtSplit(u.data, dies, code, rest);
    Small32(it.code);
    UnsignedRoundTrip(it.code, u.data, dies, u.end);
    PeekIs(u, dies + |code|, u.table[it.code].attrs, it.values);
    PeekIgnoresBase(u0, u.format.strOffsetsBase, dies + |code|, u.table[it.code].attrs);
    assert u0.(format := u0.format.(strOffsetsBase := u.format.strOffsetsBase)) == u;
  }
}
