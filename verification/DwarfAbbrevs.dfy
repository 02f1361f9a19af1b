/** Abbreviation tables (section 7.5.3 of the DWARF 5 standard). */
module DwarfAbbrevs {
  import opened Basics
  import opened Bits
  import opened Leb128
  import opened DwarfAttributes
  import opened DwarfDies

  /** Attribute specifications up to the pair of zeros that ends them. */
  function ParseSpecs(data: seq<byte>, pos: nat, acc: seq<AttrSpec>): (r: (seq<AttrSpec>, nat))
    requires pos <= |data|
    ensures pos <= r.1 <= |data|
    decreases |data| - pos
  {
    if pos == |data| then (acc, pos)
    else
      var (name, p1) := Unsigned(data, pos, |data|);
      var (form, p2) := Unsigned(data, p1, |data|);
      if Low(name, 32) == 0 && Low(form, 32) == 0 then (acc, p2)
      else if Low(form, 32) == FORM_IMPLICIT_CONST then
        var (k, p3) := Signed(data, p2, |data|);
        ParseSpecs(data, p3, acc + [AttrSpec(Low(name, 32), Low(form, 32), k)])
      else ParseSpecs(data, p2, acc + [AttrSpec(Low(name, 32), Low(form, 32), 0)])
  }

  /** One table: entries up to a zero code; a later entry with the same code replaces an earlier one. */
  function ParseTable(data: seq<byte>, pos: nat, table: AbbrevTable): (r: (AbbrevTable, nat))
    requires pos <= |data|
    ensures pos <= r.1 <= |data| && (pos < |data| ==> pos < r.1)
    decreases |data| - pos
  {
    if pos == |data| then (table, pos)
    else
      var (code, p1) := Unsigned(data, pos, |data|);
      if code == 0 then (table, p1)
      else
        var (tag, p2) := Unsigned(data, p1, |data|);
        if p2 >= |data| then (table, p2)
        else
          var (attrs, p3) := ParseSpecs(data, p2 + 1, []);
          ParseTable(data, p3, table[Low(code, 32) := AbbrevEntry(Low(tag, 32), data[p2] == 1, attrs)])
  }

  /** All tables of the section, each under the offset where it starts. */
  function ParseSection(data: seq<byte>, pos: nat, tables: map<nat, AbbrevTable>): map<nat, AbbrevTable>
    requires pos <= |data|
    decreases |data| - pos
  {
    if pos == |data| then tables
    else
      var (table, next) := ParseTable(data, pos, map[]);
      ParseSection(data, next, tables[pos := table])
  }

  // ---------------------------------------------------------------------------------------------
  // Parsing inverts writing
  // ---------------------------------------------------------------------------------------------

  /** Only an implicit constant (0x21) has its value in the table. */
  predicate OkSpec(s: AttrSpec)
  {
    && s.name < 0x1_0000_0000 && s.form < 0x1_0000_0000 && (s.name != 0 || s.form != 0)
    && -0x8000_0000_0000_0000 <= s.implicitConst < 0x8000_0000_0000_0000
    && (s.form != 0x21 ==> s.implicitConst == 0)
  }

  function WriteSpec(s: AttrSpec): seq<byte>
  {
    EncodeUnsigned(s.name) +
    (EncodeUnsigned(s.form) + (if s.form == 0x21 then EncodeSigned(s.implicitConst) else []))
  }

  function WriteSpecs(specs: seq<AttrSpec>): seq<byte>
  {
    if specs == [] then [0, 0] else WriteSpec(specs[0]) + WriteSpecs(specs[1..])
  }

  predicate OkEntry(code: nat, e: AbbrevEntry)
  {
    0 < code < 0x1_0000_0000 && e.tag < 0x1_0000_0000 && forall s <- e.attrs :: OkSpec(s)
  }

  function WriteEntry(code: nat, e: AbbrevEntry): seq<byte>
  {
    EncodeUnsigned(code) + (EncodeUnsigned(e.tag) + ([if e.hasChildren then 1 else 0] + WriteSpecs(e.attrs)))
  }

  function WriteTable(entries: seq<(nat, AbbrevEntry)>): seq<byte>
  {
    if entries == [] then [0] else WriteEntry(entries[0].0, entries[0].1) + WriteTable(entries[1..])
  }

  function AddAll(table: AbbrevTable, entries: seq<(nat, AbbrevEntry)>): AbbrevTable
    decreases |entries|
  {
    if entries == [] then table else AddAll(table[entries[0].0 := entries[0].1], entries[1..])
  }

  /** A 32-bit number that stands in the data is read back. */
  lemma ReadsSmall(v: nat, data: seq<byte>, pos: nat)
    requires v < U32 && At(data, pos, EncodeUnsigned(v))
    ensures Unsigned(data, pos, |data|) == (v, pos + |EncodeUnsigned(v)|) && Low(v, 32) == v
  {
    hide Unsigned, EncodeUnsigned, Low, Pow2;
    Small32(v);
    UnsignedRoundTrip(v, data, pos, |data|);
  }

  lemma {:induction false} ZeroSpecs(data: seq<byte>, pos: nat, acc: seq<AttrSpec>)
    requires At(data, pos, [0, 0])
    ensures ParseSpecs(data, pos, acc) == (acc, pos + 2)
  {
    hide Unsigned, Low, At;
    assert EncodeUnsigned(0) == [0];
    assert [0, 0] == EncodeUnsigned(0) + EncodeUnsigned(0);
    AtSplit(data, pos, EncodeUnsigned(0), EncodeUnsigned(0));
    AtHead(data, pos, [0, 0]);
    ReadsSmall(0, data, pos);
    ReadsSmall(0, data, pos + 1);
  }

  lemma {:induction false} SpecRoundTrip(s: AttrSpec, data: seq<byte>, pos: nat, acc: seq<AttrSpec>)
    requires OkSpec(s) && At(data, pos, WriteSpec(s))
    ensures pos + |WriteSpec(s)| <= |data|
    ensures ParseSpecs(data, pos, acc) == ParseSpecs(data, pos + |WriteSpec(s)|, acc + [s])
  {
    hide Unsigned, Signed, EncodeUnsigned, EncodeSigned, Low, Pow2, At;
    var a, b := EncodeUnsigned(s.name), EncodeUnsigned(s.form);
    var c := if s.form == FORM_IMPLICIT_CONST then EncodeSigned(s.implicitConst) else [];
    AtSplit(data, pos, a, b + c);
    AtSplit(data, pos + |a|, b, c);
    AtHead(data, pos, a);
    AtEnd(data, pos, WriteSpec(s));
    ReadsSmall(s.name, data, pos);
    ReadsSmall(s.form, data, pos + |a|);
    if s.form == FORM_IMPLICIT_CONST {
      WordIs();
      SignedRoundTrip(s.implicitConst, data, pos + |a| + |b|, |data|);
    }
    assert s == AttrSpec(s.name, s.form, s.implicitConst);
  }

  lemma {:induction false} SpecsRoundTrip(specs: seq<AttrSpec>, data: seq<byte>, pos: nat, acc: seq<AttrSpec>)
    requires (forall s <- specs :: OkSpec(s)) && At(data, pos, WriteSpecs(specs))
    ensures ParseSpecs(data, pos, acc) == (acc + specs, pos + |WriteSpecs(specs)|)
    decreases |specs|
  {
    hide ParseSpecs, WriteSpec, OkSpec, At;
    AtEnd(data, pos, WriteSpecs(specs));
    if specs == [] {
      ZeroSpecs(data, pos, acc);
      assert acc + specs == acc;
    } else {
      AtSplit(data, pos, WriteSpec(specs[0]), WriteSpecs(specs[1..]));
      SpecRoundTrip(specs[0], data, pos, acc);
      SpecsRoundTrip(specs[1..], data, pos + |WriteSpec(specs[0])|, acc + [specs[0]]);
      assert acc + [specs[0]] + specs[1..] == acc + specs;
    }
  }

  lemma {:induction false} EntryRoundTrip(code: nat, e: AbbrevEntry, data: seq<byte>, pos: nat, table: AbbrevTable)
    requires OkEntry(code, e) && At(data, pos, WriteEntry(code, e))
    ensures pos + |WriteEntry(code, e)| <= |data|
    ensures ParseTable(data, pos, table) == ParseTable(data, pos + |WriteEntry(code, e)|, table[code := e])
  {
    hide Unsigned, EncodeUnsigned, Low, ParseSpecs, WriteSpecs, At, ParseTable, OkSpec;
    var a, b := EncodeUnsigned(code), EncodeUnsigned(e.tag);
    var flag: seq<byte> := [if e.hasChildren then 1 else 0];
    AtEnd(data, pos, WriteEntry(code, e));
    AtHead(data, pos, a + (b + (flag + WriteSpecs(e.attrs))));
    AtSplit(data, pos, a, b + (flag + WriteSpecs(e.attrs)));
    AtSplit(data, pos + |a|, b, flag + WriteSpecs(e.attrs));
    AtSplit(data, pos + |a| + |b|, flag, WriteSpecs(e.attrs));
    AtHead(data, pos + |a| + |b|, flag);
    ReadsSmall(code, data, pos);
    ReadsSmall(e.tag, data, pos + |a|);
    SpecsRoundTrip(e.attrs, data, pos + |a| + |b| + 1, []);
    assert [] + e.attrs == e.attrs;
    assert e == AbbrevEntry(e.tag, e.hasChildren, e.attrs);
    TableParts(data, pos, table);
  }

  /** The definition one entry deep. */
  lemma TableParts(data: seq<byte>, pos: nat, table: AbbrevTable)
    requires pos < |data|
    ensures
      var (code, p1) := Unsigned(data, pos, |data|);
      var (tag, p2) := Unsigned(data, p1, |data|);
      code != 0 && p2 < |data| ==>
        var (attrs, p3) := ParseSpecs(data, p2 + 1, []);
        ParseTable(data, pos, table) ==
        ParseTable(data, p3, table[Low(code, 32) := AbbrevEntry(Low(tag, 32), data[p2] == 1, attrs)])
  {
    hide Unsigned, Low, ParseSpecs;
  }

  /** A written table is read back, and the cursor stops behind its final zero. */
  lemma {:induction false} TableRoundTrip(
    entries: seq<(nat, AbbrevEntry)>, data: seq<byte>, pos: nat, table: AbbrevTable)
    requires (forall e <- entries :: OkEntry(e.0, e.1)) && At(data, pos, WriteTable(entries))
    ensures ParseTable(data, pos, table) == (AddAll(table, entries), pos + |WriteTable(entries)|)
    decreases |entries|
  {
    hide WriteEntry, OkEntry, At, Unsigned, ParseSpecs;
    AtEnd(data, pos, WriteTable(entries));
    if entries == [] {
      assert EncodeUnsigned(0) == [0];
      AtHead(data, pos, [0]);
      ReadsSmall(0, data, pos);
    } else {
      var (code, e) := entries[0];
      AtSplit(data, pos, WriteEntry(code, e), WriteTable(entries[1..]));
      EntryRoundTrip(code, e, data, pos, table);
      TableRoundTrip(entries[1..], data, pos + |WriteEntry(code, e)|, table[code := e]);
    }
  }

  predicate OkEntries(t: seq<(nat, AbbrevEntry)>) { forall e <- t :: OkEntry(e.0, e.1) }

  /** Several tables, one behind the other. */
  function WriteSection(tables: seq<seq<(nat, AbbrevEntry)>>): seq<byte>
  {
    if tables == [] then [] else WriteTable(tables[0]) + WriteSection(tables[1..])
  }

  /** Each under the offset at which it starts. */
  function AddTables(all: map<nat, AbbrevTable>, pos: nat, tables: seq<seq<(nat, AbbrevEntry)>>): map<nat, AbbrevTable>
    decreases |tables|
  {
    if tables == [] then all
    else AddTables(all[pos := AddAll(map[], tables[0])], pos + |WriteTable(tables[0])|, tables[1..])
  }

  lemma {:induction false} SectionRoundTrip(
    tables: seq<seq<(nat, AbbrevEntry)>>, data: seq<byte>, pos: nat, all: map<nat, AbbrevTable>)
    requires forall i :: 0 <= i < |tables| ==> OkEntries(tables[i])
    requires At(data, pos, WriteSection(tables)) && pos + |WriteSection(tables)| == |data|
    ensures ParseSection(data, pos, all) == AddTables(all, pos, tables)
    decreases |tables|
  {
    hide WriteTable, OkEntry, At, ParseTable, AddAll;
    if tables != [] {
      var t := tables[0];
      AtSplit(data, pos, WriteTable(t), WriteSection(tables[1..]));
      TableRoundTrip(t, data, pos, map[]);
      TableNotEmpty(t);
      SectionRoundTrip(tables[1..], data, pos + |WriteTable(t)|, all[pos := AddAll(map[], t)]);
    }
  }

  lemma TableNotEmpty(t: seq<(nat, AbbrevEntry)>)
    ensures |WriteTable(t)| > 0
  {
  }
}
