/**
  The names of the types of members and bases, from the entries alone: which entry stands at an
  offset, what its tag makes of the type it refers to (table 7.3 of the DWARF 5 standard), and how
  the result is written.  The loader's registry, its qualifiers and its depth limit amount to that.
 */
module DwarfNames {
  import opened Basics
  import opened Bits
  import opened Leb128
  import opened DwarfAttributes
  import opened DwarfForms
  import opened DwarfAbbrevs
  import opened DwarfDies
  import opened DwarfTypes
  import opened DwarfMeaning
  import opened DwarfUnits
  import opened DwarfProducer
  import opened DwarfSections

  // ---------------------------------------------------------------------------------------------
  // The entries of a forest
  // ---------------------------------------------------------------------------------------------

  /** An entry with the namespaces around it. */
  datatype Scoped = Scoped(die: Head, ns: string)

  /** All entries in the order in which they stand. */
  function EntriesOf(f: Forest, ns: string): seq<Scoped>
    decreases f
  {
    match f
    case Nil => []
    case Cons(d, children, siblings) =>
      [Scoped(d, ns)] + ((if d.hasChildren then EntriesOf(children, Prefix(d, ns)) else []) + EntriesOf(siblings, ns))
  }

  /** The entry at an offset. */
  function Find(es: seq<Scoped>, offset: nat): Option<Scoped>
  {
    if es == [] then None else if es[0].die.offset == offset then Some(es[0]) else Find(es[1..], offset)
  }

  /** The outermost `n` levels of the type at an offset. */
  function TypeAt(es: seq<Scoped>, offset: nat, n: nat): CType
    decreases n
  {
    if n == 0 || offset == 0 then Unknown
    else
      match Find(es, offset)
      case None => Unknown
      case Some(Scoped(d, ns)) =>
        if d.tag == 0x0f then Pointer(TypeAt(es, d.typeOffset, n - 1))               // pointer_type
        else if d.tag == 0x42 then RvalueReference(TypeAt(es, d.typeOffset, n - 1))  // rvalue_reference_type
        else if d.tag == 0x10 then Reference(TypeAt(es, d.typeOffset, n - 1))        // reference_type
        else if d.tag == 0x26 then Const(TypeAt(es, d.typeOffset, n - 1))            // const_type
        else if d.tag == 0x35 then Volatile(TypeAt(es, d.typeOffset, n - 1))         // volatile_type
        else if d.tag == 0x01 then Array(TypeAt(es, d.typeOffset, n - 1))            // array_type
        else if d.tag in {0x02, 0x04, 0x13, 0x16, 0x17, 0x24} && d.info.name != "" then
          // class, enumeration, structure, typedef, union and base types
          Named(if ns == "" then d.info.name else ns + "::" + d.info.name)
        else Unknown
  }

  /** A type of at most eight levels is the whole type: looking further changes nothing. */
  lemma {:induction false} EightLevelsAreAll(es: seq<Scoped>, offset: nat, m: nat, n: nat)
    requires m <= n && Levels(TypeAt(es, offset, m)) < m
    ensures TypeAt(es, offset, n) == TypeAt(es, offset, m)
    decreases m
  {
    if offset != 0 && Find(es, offset).Some? {
      var d := Find(es, offset).value.die;
      if d.tag in {0x0f, 0x42, 0x10, 0x26, 0x35, 0x01} {
        EightLevelsAreAll(es, d.typeOffset, m - 1, n - 1);
      }
    }
  }

  // ---------------------------------------------------------------------------------------------
  // Entries stand at increasing offsets
  // ---------------------------------------------------------------------------------------------

  predicate Within(es: seq<Scoped>, low: nat, high: nat)
  {
    && (forall i :: 0 <= i < |es| ==> low <= es[i].die.offset < high)
    && (forall i, j :: 0 <= i < j < |es| ==> es[i].die.offset < es[j].die.offset)
  }

  lemma WithinAppend(a: seq<Scoped>, b: seq<Scoped>, low: nat, mid: nat, high: nat)
    requires low <= mid <= high && Within(a, low, mid) && Within(b, mid, high)
    ensures Within(a + b, low, high)
  {
  }

  /** The entries that bytes spell stand where the bytes are. */
  lemma {:induction false} SpelledWithin(u: Unit, pos: nat, f: Forest, ns: string)
    requires ValidUnit(u) && pos <= u.end && Spelled(u, pos, f).Some?
    ensures Within(EntriesOf(f, ns), pos, Spelled(u, pos, f).value)
    decreases f
  {
    hide NextToken, Prefix, Within;
    match f
    case Nil => NoneWithin(pos);
    case Cons(d, children, siblings) =>
      var next, q := NextToken(u, pos).next, Spelled(u, pos, f).value;
      TokenOffset(u, pos);
      OneWithin(d, ns, pos, next);
      if d.hasChildren {
        var closing := Spelled(u, next, children).value;
        var after := NextToken(u, closing).next;
        var below := EntriesOf(children, Prefix(d, ns));
        SpelledWithin(u, next, children, Prefix(d, ns));
        SpelledWithin(u, after, siblings, ns);
        WithinWider(below, next, closing, after);
        WithinAppend(below, EntriesOf(siblings, ns), next, after, q);
        WithinAppend([Scoped(d, ns)], below + EntriesOf(siblings, ns), pos, next, q);
      } else {
        SpelledWithin(u, next, siblings, ns);
        assert [] + EntriesOf(siblings, ns) == EntriesOf(siblings, ns);
        WithinAppend([Scoped(d, ns)], EntriesOf(siblings, ns), pos, next, q);
      }
  }

  lemma NoneWithin(pos: nat)
    ensures Within([], pos, pos)
  {
  }

  lemma OneWithin(d: Head, ns: string, pos: nat, next: nat)
    requires d.offset == pos < next
    ensures Within([Scoped(d, ns)], pos, next)
  {
  }

  lemma WithinWider(es: seq<Scoped>, low: nat, mid: nat, high: nat)
    requires Within(es, low, mid) && mid <= high
    ensures Within(es, low, high)
  {
  }

  lemma TokenOffset(u: Unit, pos: nat)
    requires ValidUnit(u) && pos < u.end
    ensures NextToken(u, pos).Entry? ==> NextToken(u, pos).die.offset == pos
  {
    hide ReadAttrs, Unsigned, Low;
  }

  // ---------------------------------------------------------------------------------------------
  // The registry
  // ---------------------------------------------------------------------------------------------

  function Registered(es: seq<Scoped>): map<nat, TypeEntry>
  {
    if es == [] then map[] else OwnEntry(es[0].die, es[0].ns) + Registered(es[1..])
  }

  lemma {:induction false} RegisteredAppend(a: seq<Scoped>, b: seq<Scoped>)
    ensures Registered(a + b) == Registered(a) + Registered(b)
  {
    hide OwnEntry;
    if a == [] {
      assert a + b == b;
    } else {
      assert (a + b)[1..] == a[1..] + b;
      RegisteredAppend(a[1..], b);
      MapAssoc(OwnEntry(a[0].die, a[0].ns), Registered(a[1..]), Registered(b));
    }
  }

  lemma {:induction false} RegistryIs(f: Forest, ns: string)
    ensures RegistryOf(f, ns) == Registered(EntriesOf(f, ns))
    decreases f
  {
    hide OwnEntry, Prefix;
    match f
    case Nil =>
    case Cons(d, children, siblings) =>
      var below := if d.hasChildren then EntriesOf(children, Prefix(d, ns)) else [];
      if d.hasChildren {
        RegistryIs(children, Prefix(d, ns));
      }
      RegistryIs(siblings, ns);
      RegisteredAppend(below, EntriesOf(siblings, ns));
      assert ([Scoped(d, ns)] + (below + EntriesOf(siblings, ns)))[1..] == below + EntriesOf(siblings, ns);
      MapAssoc(OwnEntry(d, ns), Registered(below), Registered(EntriesOf(siblings, ns)));
  }

  /** The registry has at an offset what the entry there registers. */
  lemma {:induction false} RegisteredAt(es: seq<Scoped>, offset: nat, low: nat, high: nat)
    requires Within(es, low, high)
    ensures
      var e := Find(es, offset);
      var known := if e.Some? then EntryOf(e.value.die, e.value.ns) else None;
      && (known.Some? ==> offset in Registered(es) && Registered(es)[offset] == known.value)
      && (known.None? ==> offset !in Registered(es))
    decreases |es|
  {
    hide EntryOf;
    if es != [] {
      RegisteredAt(es[1..], offset, low, high);
      if es[0].die.offset == offset {
        NotFound(es[1..], offset, offset);
        RegisteredAt(es[1..], offset, low, high);
      }
    }
  }

  lemma {:induction false} NotFound(es: seq<Scoped>, low: nat, offset: nat)
    requires forall i :: 0 <= i < |es| ==> low < es[i].die.offset
    requires offset <= low
    ensures Find(es, offset) == None
  {
    if es != [] {
      NotFound(es[1..], low, offset);
    }
  }

  /** The name that the loader resolves is that of the type at the offset, nine levels deep. */
  lemma {:induction false} ResolvesType(es: seq<Scoped>, offset: nat, depth: nat, low: nat, high: nat)
    requires Within(es, low, high) && depth <= 9
    ensures ResolveTypeName(Registered(es), offset, depth) == Spelling(TypeAt(es, offset, 9 - depth))
    decreases 9 - depth
  {
    hide Registered, Within, Find, EntryOf;
    RegisteredAt(es, offset, low, high);
    if depth < 9 && offset != 0 && Find(es, offset).Some? {
      var e := Find(es, offset).value;
      ResolvesType(es, e.die.typeOffset, depth + 1, low, high);
      if e.die.tag in {0x0f, 0x42, 0x10, 0x26, 0x35, 0x01} {
        LevelResolved(Registered(es), es, offset, e, depth);
      } else {
        NameResolved(Registered(es), es, offset, e, depth);
      }
    }
  }

  /** An entry that is built on another one. */
  lemma LevelResolved(registry: map<nat, TypeEntry>, es: seq<Scoped>, offset: nat, e: Scoped, depth: nat)
    requires depth < 9 && offset != 0 && Find(es, offset) == Some(e)
    requires e.die.tag in {0x0f, 0x42, 0x10, 0x26, 0x35, 0x01}
    requires EntryOf(e.die, e.ns).Some? ==> offset in registry && registry[offset] == EntryOf(e.die, e.ns).value
    requires
      ResolveTypeName(registry, e.die.typeOffset, depth + 1) == Spelling(TypeAt(es, e.die.typeOffset, 8 - depth))
    ensures ResolveTypeName(registry, offset, depth) == Spelling(TypeAt(es, offset, 9 - depth))
  {
    hide Find;
    var inner := TypeAt(es, e.die.typeOffset, 8 - depth);
    assert TypeAt(es, offset, 9 - depth) ==
      match e.die.tag
      case 0x0f => Pointer(inner)
      case 0x42 => RvalueReference(inner)
      case 0x10 => Reference(inner)
      case 0x26 => Const(inner)
      case 0x35 => Volatile(inner)
      case _ => Array(inner);
  }

  /** An entry with a name of its own, or one that is no type. */
  lemma NameResolved(registry: map<nat, TypeEntry>, es: seq<Scoped>, offset: nat, e: Scoped, depth: nat)
    requires depth < 9 && offset != 0 && Find(es, offset) == Some(e)
    requires e.die.tag !in {0x0f, 0x42, 0x10, 0x26, 0x35, 0x01}
    requires
      var known := EntryOf(e.die, e.ns);
      && (known.Some? ==> offset in registry && registry[offset] == known.value)
      && (known.None? ==> offset !in registry)
    ensures ResolveTypeName(registry, offset, depth) == Spelling(TypeAt(es, offset, 9 - depth))
  {
    hide Find;
  }

  // ---------------------------------------------------------------------------------------------
  // Members and bases
  // ---------------------------------------------------------------------------------------------

  /** What a name is before types are resolved. */
  lemma {:induction false} MembersUnnamed(f: Forest)
    ensures forall k :: 0 <= k < |MembersOf(f)| ==> MembersOf(f)[k].info.typeName == ""
    ensures forall k :: 0 <= k < |BasesOf(f)| ==> BasesOf(f)[k].info.typeName == ""
    decreases f
  {
    match f
    case Nil =>
    case Cons(d, children, siblings) =>
      MembersUnnamed(children);
      MembersUnnamed(siblings);
  }

  predicate BlankDecls(ds: seq<Decl>)
  {
    forall i :: 0 <= i < |ds| ==>
      && (forall k :: 0 <= k < |ds[i].members| ==> ds[i].members[k].info.typeName == "")
      && (forall k :: 0 <= k < |ds[i].bases| ==> ds[i].bases[k].info.typeName == "")
  }

  lemma {:induction false} DeclsBlank(f: Forest, ns: string)
    ensures BlankDecls(DeclsOf(f, ns))
    decreases f
  {
    hide Prefix;
    match f
    case Nil =>
    case Cons(d, children, siblings) =>
      MembersUnnamed(Below(d, children));
      DeclsBlank(children, Prefix(d, ns));
      DeclsBlank(siblings, ns);
  }

  /** The final structs carry the spelled types. */
  predicate TypesSpelled(structs: seq<StructInfo>, ds: seq<Decl>, es: seq<Scoped>)
  {
    && |structs| == |ds|
    && forall i :: 0 <= i < |ds| ==>
         && |structs[i].members| == |ds[i].members| && |structs[i].bases| == |ds[i].bases|
         && (forall k :: 0 <= k < |ds[i].members| ==>
               structs[i].members[k].typeName == Spelling(TypeAt(es, ds[i].members[k].typeOffset, 9)))
         && (forall k :: 0 <= k < |ds[i].bases| ==>
               structs[i].bases[k].typeName == Spelling(TypeAt(es, ds[i].bases[k].typeOffset, 9)))
  }

  lemma ResolvedSpelled(es: seq<Scoped>, ds: seq<Decl>, low: nat, high: nat)
    requires Within(es, low, high) && BlankDecls(ds)
    ensures TypesSpelled(AllResolved(Registered(es), ds), ds, es)
  {
    hide ResolveTypeName, Registered, TypeAt, Spelling, Within;
    var structs := AllResolved(Registered(es), ds);
    forall offset: nat
      ensures NameOf(Registered(es), "", offset) == Spelling(TypeAt(es, offset, 9))
    {
      ResolvesType(es, offset, 0, low, high);
      NoTypeSpelled(es, offset);
    }
  }

  lemma NoTypeSpelled(es: seq<Scoped>, offset: nat)
    ensures offset == 0 ==> Spelling(TypeAt(es, offset, 9)) == ""
  {
  }

  // ---------------------------------------------------------------------------------------------
  // A unit and a whole section
  // ---------------------------------------------------------------------------------------------

  /** The bytes of a unit that spell a forest: every member and base ends with its type spelled. */
  lemma UnitTypeNames(u: Unit, pos: nat, f: Forest)
    requires ValidUnit(u) && pos <= u.end && Spelled(u, pos, f).Some?
    requires
      var q := Spelled(u, pos, f).value;
      q < u.end ==> NextToken(u, q).Null?
    ensures
      var l := WalkOn(u, Walk(pos, TOP, [], EMPTY));
      Sound(l) && TypesSpelled(ResolveFirst(l, |l.pending|), DeclsOf(f, ""), EntriesOf(f, ""))
  {
    hide WalkOn, NextToken, Spelled, ResolveFirst, AllResolved, RegistryOf, TypesSpelled, Within, BlankDecls;
    UnitMeaning(u, pos, f);
    SpelledWithin(u, pos, f, "");
    RegistryIs(f, "");
    DeclsBlank(f, "");
    ResolvedSpelled(EntriesOf(f, ""), DeclsOf(f, ""), pos, Spelled(u, pos, f).value);
  }

  /** The entries of all units; references lead from one unit to another. */
  function SectionEntries(file: File, pos: nat, ps: seq<Produced>): seq<Scoped>
    requires SectionPlaced(file, pos, ps)
    decreases |ps|
  {
    hide UnitPlaced, UnitEnd;
    if ps == [] then []
    else EntriesOf(UnitForest(file, pos, ps[0]), "") + SectionEntries(file, UnitEnd(pos, ps[0]), ps[1..])
  }

  lemma UnitWithin(file: File, pos: nat, p: Produced)
    requires UnitPlaced(file, pos, p)
    ensures pos < UnitEnd(pos, p) && Within(EntriesOf(UnitForest(file, pos, p), ""), pos, UnitEnd(pos, p))
  {
    hide EntriesPlaced, EntriesOf, Within, HeaderEnd, HeaderOf, UnitAt, ForestOf;
    UnitParsed(file, EMPTY, pos, p);
    if p.Produced? {
      ProducedWithin(file, pos, p);
    } else {
      NoneWithin(pos);
      WithinWider([], pos, pos, UnitEnd(pos, p));
      NoEntries();
    }
  }

  lemma NoEntries()
    ensures EntriesOf(Nil, "") == []
  {
  }

  lemma ProducedWithin(file: File, pos: nat, p: Produced)
    requires p.Produced? && EntriesPlaced(file, pos, p)
    ensures Within(EntriesOf(UnitForest(file, pos, p), ""), pos, UnitEnd(pos, p))
  {
    hide EntriesOf, Within, Spelled, ForestOf, WriteHeader, OkHeader, At, Closed, WriteSource, PeekBase;
    var u, dies := UnitAt(file, pos, HeaderOf(pos, p)), HeaderEnd(pos, p);
    PlacedInside(u, dies, p.source);
    FilledIsReadable(u, dies, p.source);
    SourceSpelled(u, dies, p.source);
    SpelledWithin(u, dies, ForestOf(u, dies, p.source), "");
    WithinLower(EntriesOf(ForestOf(u, dies, p.source), ""), pos, dies, dies + |WriteSource(u, p.source)|);
    WithinWider(EntriesOf(ForestOf(u, dies, p.source), ""), pos, dies + |WriteSource(u, p.source)|, UnitEnd(pos, p));
  }

  lemma WithinLower(es: seq<Scoped>, lower: nat, low: nat, high: nat)
    requires Within(es, low, high) && lower <= low
    ensures Within(es, lower, high)
  {
  }

  lemma {:induction false} SectionWithin(file: File, pos: nat, ps: seq<Produced>) returns (high: nat)
    requires SectionPlaced(file, pos, ps)
    ensures pos <= high && Within(SectionEntries(file, pos, ps), pos, high)
    decreases |ps|
  {
    hide UnitPlaced, UnitEnd, UnitForest, EntriesOf, Within;
    if ps == [] {
      high := pos;
      NoneWithin(pos);
    } else {
      UnitWithin(file, pos, ps[0]);
      high := SectionWithin(file, UnitEnd(pos, ps[0]), ps[1..]);
      WithinAppend(EntriesOf(UnitForest(file, pos, ps[0]), ""), SectionEntries(file, UnitEnd(pos, ps[0]), ps[1..]),
                   pos, UnitEnd(pos, ps[0]), high);
    }
  }

  lemma {:induction false} SectionRegistryIs(file: File, pos: nat, ps: seq<Produced>)
    requires SectionPlaced(file, pos, ps)
    ensures SectionRegistry(file, pos, ps) == Registered(SectionEntries(file, pos, ps))
    decreases |ps|
  {
    hide UnitPlaced, UnitEnd, UnitForest, EntriesOf, RegistryOf, OwnEntry;
    if ps != [] {
      var f, next := UnitForest(file, pos, ps[0]), UnitEnd(pos, ps[0]);
      RegistryIs(f, "");
      SectionRegistryIs(file, next, ps[1..]);
      RegisteredAppend(EntriesOf(f, ""), SectionEntries(file, next, ps[1..]));
    }
  }

  lemma {:induction false} SectionBlank(file: File, pos: nat, ps: seq<Produced>)
    requires SectionPlaced(file, pos, ps)
    ensures BlankDecls(SectionDecls(file, pos, ps))
    decreases |ps|
  {
    hide UnitPlaced, UnitEnd, UnitForest, DeclsOf;
    if ps != [] {
      DeclsBlank(UnitForest(file, pos, ps[0]), "");
      SectionBlank(file, UnitEnd(pos, ps[0]), ps[1..]);
    }
  }

  /**
    A whole file: every member and base of every struct ends with the spelling of its type, nine
    levels deep, as the entries of all units give it.
   */
  lemma SectionTypeNames(file: File, abbrevData: seq<byte>, tables: seq<seq<(nat, AbbrevEntry)>>, ps: seq<Produced>)
    requires forall i :: 0 <= i < |tables| ==> OkEntries(tables[i])
    requires At(abbrevData, 0, WriteSection(tables)) && |WriteSection(tables)| == |abbrevData|
    requires file.abbrevs == ParseSection(abbrevData, 0, map[])
    requires SectionPlaced(file, 0, ps)
    ensures
      var l := ParseUnits(file, EMPTY, 0);
      Sound(l) &&
      TypesSpelled(ResolveFirst(l, |l.pending|), SectionDecls(file, 0, ps), SectionEntries(file, 0, ps))
  {
    hide At, ParseUnits, SectionPlaced, SectionDecls, SectionRegistry, SectionEntries, ResolveFirst, AllResolved;
    hide ParseSection, WriteSection, OkEntries, TypesSpelled, Within, BlankDecls, Registered;
    SectionMeaning(file, abbrevData, tables, ps);
    var high := SectionWithin(file, 0, ps);
    SectionRegistryIs(file, 0, ps);
    SectionBlank(file, 0, ps);
    ResolvedSpelled(SectionEntries(file, 0, ps), SectionDecls(file, 0, ps), 0, high);
  }
}
