/**
  The `DwarfLoader` class: the collections of the source, filled in place by its loops.  Each
  method is proved to leave the collections as the functions of the other modules say.
 */
module DwarfLoader {
  import opened Basics
  import opened Bits
  import opened Leb128
  import opened DwarfAttributes
  import opened DwarfDies
  import opened DwarfTypes
  import opened DwarfAbbrevs
  import opened DwarfUnits

  class DwarfLoader {
    const info: seq<byte>        // .debug_info
    const abbrevData: seq<byte>  // .debug_abbrev
    const sec: Sections
    var abbrevs: map<nat, AbbrevTable>
    var structs: seq<StructInfo>
    var registry: map<nat, TypeEntry>
    var pending: seq<PendingRef>

    constructor (info: seq<byte>, abbrevData: seq<byte>, sec: Sections)
      ensures this.info == info && this.abbrevData == abbrevData && this.sec == sec
      ensures abbrevs == map[] && State() == Loader([], map[], [])
    {
      this.info, this.abbrevData, this.sec := info, abbrevData, sec;
      abbrevs, structs, registry, pending := map[], [], map[], [];
    }

    function State(): Loader
      reads this
    {
      Loader(structs, registry, pending)
    }

    // -------------------------------------------------------------------------------------------
    // Abbreviations
    // -------------------------------------------------------------------------------------------

    /** The inner loop of `ParseAbbrevTable`. */
    method ReadSpecs(start: nat) returns (attrs: seq<AttrSpec>, pos: nat)
      requires start <= |abbrevData|
      ensures (attrs, pos) == ParseSpecs(abbrevData, start, [])
    {
      hide Unsigned, Signed, Low;
      attrs, pos := [], start;
      while pos < |abbrevData|
        invariant start <= pos <= |abbrevData|
        invariant ParseSpecs(abbrevData, pos, attrs) == ParseSpecs(abbrevData, start, [])
        decreases |abbrevData| - pos
      {
        var name, form;
        name, pos := ReadULEB128(abbrevData, pos, |abbrevData|);
        form, pos := ReadULEB128(abbrevData, pos, |abbrevData|);
        name, form := Low(name, 32), Low(form, 32);
        if name == 0 && form == 0 {
          break;
        }
        var k := 0;
        if form == FORM_IMPLICIT_CONST {
          k, pos := ReadSLEB128(abbrevData, pos, |abbrevData|);
        }
        attrs := attrs + [AttrSpec(name, form, k)];
      }
    }

    method ParseAbbrevTable(start: nat) returns (pos: nat)
      requires start <= |abbrevData|
      modifies this`abbrevs
      ensures pos == ParseTable(abbrevData, start, map[]).1
      ensures abbrevs == old(abbrevs)[start := ParseTable(abbrevData, start, map[]).0]
    {
      hide Unsigned, Low, ParseSpecs;
      var table: AbbrevTable := map[];
      pos := start;
      ghost var goal := ParseTable(abbrevData, start, map[]);
      while pos < |abbrevData|
        invariant start <= pos <= |abbrevData| && abbrevs == old(abbrevs)
        invariant ParseTable(abbrevData, pos, table) == goal
        decreases |abbrevData| - pos
      {
        var code, tag, attrs;
        code, pos := ReadULEB128(abbrevData, pos, |abbrevData|);
        if code == 0 {
          break;
        }
        tag, pos := ReadULEB128(abbrevData, pos, |abbrevData|);
        if pos >= |abbrevData| {
          break;
        }
        var hasChildren := abbrevData[pos] == 1;
        attrs, pos := ReadSpecs(pos + 1);
        table := table[Low(code, 32) := AbbrevEntry(Low(tag, 32), hasChildren, attrs)];
      }
      abbrevs := abbrevs[start := table];
    }

    method ParseAbbrevSection()
      modifies this`abbrevs
      ensures abbrevs == ParseSection(abbrevData, 0, old(abbrevs))
    {
      hide ParseTable;
      var pos := 0;
      while pos < |abbrevData|
        invariant pos <= |abbrevData|
        invariant ParseSection(abbrevData, pos, abbrevs) == ParseSection(abbrevData, 0, old(abbrevs))
      {
        var next := ParseAbbrevTable(pos);
        if next <= pos {
          break;
        }
        pos := next;
      }
    }

    // -------------------------------------------------------------------------------------------
    // Entries
    // -------------------------------------------------------------------------------------------

    /** The `switch` on the tag. */
    method VisitEntry(c: Context, d: Head)
      requires InScope(State(), c)
      modifies this`structs, this`registry, this`pending
      ensures State() == Visit(old(State()), c, d)
    {
      if IsStruct(d.tag) {
        if d.info.name != "" {
          var fullName := Qualify(c.ns, d.info.name);
          registry := registry[d.offset := TypeEntry(fullName, 0, 0)];
          structs := structs + [StructInfo(fullName, d.info.byteSize % U32, d.info.hasByteSize, [], [])];
        }
      } else if d.tag == TAG_MEMBER {
        if c.struct_ != NO_STRUCT && d.info.name != "" {
          var s := structs[c.struct_];
          var m := MemberInfo(d.info.name, "", d.info.memberLoc % U32, d.info.hasMemberLoc);
          structs := structs[c.struct_ := s.(members := s.members + [m])];
          if d.typeOffset != 0 {
            pending := pending + [PendingRef(c.struct_, false, |s.members|, d.typeOffset)];
          }
        }
      } else if d.tag == TAG_INHERITANCE {
        if c.struct_ != NO_STRUCT {
          var s := structs[c.struct_];
          var b := BaseInfo("", d.info.memberLoc % U32, d.info.hasMemberLoc);
          structs := structs[c.struct_ := s.(bases := s.bases + [b])];
          if d.typeOffset != 0 {
            pending := pending + [PendingRef(c.struct_, true, |s.bases|, d.typeOffset)];
          }
        }
      } else if IsNamedType(d.tag) {
        if d.info.name != "" {
          registry := registry[d.offset := TypeEntry(Qualify(c.ns, d.info.name), 0, 0)];
        }
      } else if d.tag == TAG_TYPEDEF {
        if d.info.name != "" {
          registry := registry[d.offset := TypeEntry(Qualify(c.ns, d.info.name), d.typeOffset, 5)];
        }
      } else if Qualifier(d.tag) != 0 {
        registry := registry[d.offset := TypeEntry("", d.typeOffset, Qualifier(d.tag))];
      }
    }

    /** The loop with the explicit stack; false when the unit is broken. */
    method ParseDIETree(u: Unit, start: nat) returns (ok: bool)
      requires ValidUnit(u) && start <= u.end
      modifies this`structs, this`registry, this`pending
      ensures State() == WalkOn(u, Walk(start, TOP, [], old(State())))
    {
      hide NextToken, Visit, Inside;
      var stack: seq<Context> := [];
      var current, pos := TOP, start;
      ghost var goal := WalkOn(u, Walk(start, TOP, [], State()));
      while pos < u.end
        invariant ValidWalk(u, Walk(pos, current, stack, State()))
        invariant WalkOn(u, Walk(pos, current, stack, State())) == goal
        decreases u.end - pos
      {
        var token := NextToken(u, pos);
        match token
        case Broken =>
          return false;
        case Null(next) =>
          if stack == [] {
            break;
          }
          current, stack, pos := stack[|stack| - 1], stack[..|stack| - 1], next;
        case Entry(next, d) =>
          VisitKeepsScope(State(), current, d);
          VisitEntry(current, d);
          pos := next;
          if d.hasChildren {
            stack := stack + [current];
            current := Inside(State(), current, d);
          }
      }
      return true;
    }

    // -------------------------------------------------------------------------------------------
    // Units
    // -------------------------------------------------------------------------------------------

    function ThisFile(): File
      reads this
    {
      File(info, sec, abbrevs)
    }

    method ParseCompileUnit(pos: nat) returns (next: Option<nat>)
      modifies this`structs, this`registry, this`pending
      ensures (next, State()) == ParseUnit(ThisFile(), old(State()), pos)
    {
      hide WalkOn;
      var h := ReadHeader(info, pos);
      match h
      case NoUnit => return None;
      case Skipped(end) => return Some(end);
      case Header(end, dies, _, _, abbrevOffset) =>
        if abbrevOffset !in abbrevs {
          return Some(end);
        }
        var _ := ParseDIETree(UnitAt(ThisFile(), pos, h), dies);
        return Some(end);
    }

    /** All units, then the type names; the pending references never leave the structs. */
    method ParseInfoSection()
      requires Sound(State())
      modifies this`structs, this`registry, this`pending
      ensures
        var l := ParseUnits(ThisFile(), old(State()), 0);
        Sound(l) && registry == l.registry && pending == l.pending && structs == ResolveFirst(l, |l.pending|)
    {
      hide ParseUnit, Sound;
      var pos := 0;
      UnitsKeepSound(ThisFile(), State(), 0);
      while pos < |info|
        invariant pos <= |info| && abbrevs == old(abbrevs)
        invariant ParseUnits(ThisFile(), State(), pos) == ParseUnits(ThisFile(), old(State()), 0)
      {
        NextUnitIsFurther(ThisFile(), State(), pos);
        var next := ParseCompileUnit(pos);
        if next.None? || next.value <= pos {
          break;
        }
        pos := next.value;
      }
      ResolveTypes();
    }

    method ResolveTypes()
      requires Sound(State())
      modifies this`structs
      ensures structs == ResolveFirst(old(State()), |pending|)
    {
      hide ResolveTypeName;
      for i := 0 to |pending|
        invariant registry == old(registry) && pending == old(pending)
        invariant structs == ResolveFirst(old(State()), i)
      {
        var p := pending[i];
        assert HasSlot(structs, SlotOf(p));
        if p.typeOffset != 0 {
          var name := ResolveTypeName(registry, p.typeOffset, 0);
          if name != "" {
            structs := SetTypeName(structs, SlotOf(p), name);
          }
        }
      }
    }
  }

  lemma NextUnitIsFurther(file: File, l: Loader, pos: nat)
    ensures
      var next := ParseUnit(file, l, pos).0;
      next.Some? ==> pos < next.value <= |file.data|
  {
    hide WalkOn, UnitAt;
  }
}
