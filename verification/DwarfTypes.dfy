/**
  Pending type references: they stay valid over any bytes, and `ResolveTypes` gives every slot the
  name of the type it refers to.
 */
module DwarfTypes {
  import opened Basics
  import opened Leb128
  import opened DwarfAttributes
  import opened DwarfDies

  // ---------------------------------------------------------------------------------------------
  // Slots
  // ---------------------------------------------------------------------------------------------

  /** A place for a type name: a base or a member of a struct. */
  datatype Slot = Slot(structIdx: nat, isBase: bool, itemIdx: nat)

  function SlotOf(p: PendingRef): Slot { Slot(p.structIdx, p.isBase, p.itemIdx) }

  predicate HasSlot(structs: seq<StructInfo>, s: Slot)
  {
    && s.structIdx < |structs|
    && s.itemIdx < if s.isBase then |structs[s.structIdx].bases| else |structs[s.structIdx].members|
  }

  function TypeName(structs: seq<StructInfo>, s: Slot): string
    requires HasSlot(structs, s)
  {
    if s.isBase then structs[s.structIdx].bases[s.itemIdx].typeName
    else structs[s.structIdx].members[s.itemIdx].typeName
  }

  /**
    Every pending reference points from an existing slot with an empty name to some type, and no
    two of them stand for the same slot.
   */
  ghost predicate Sound(l: Loader)
  {
    && (forall i :: 0 <= i < |l.pending| ==>
          && HasSlot(l.structs, SlotOf(l.pending[i])) && TypeName(l.structs, SlotOf(l.pending[i])) == ""
          && l.pending[i].typeOffset != 0)
    && (forall i, j :: 0 <= i < j < |l.pending| ==> SlotOf(l.pending[i]) != SlotOf(l.pending[j]))
  }

  /** Slots that exist keep their names while entries are visited. */
  ghost predicate Extends(a: seq<StructInfo>, b: seq<StructInfo>)
  {
    forall s: Slot {:trigger HasSlot(b, s)} :: HasSlot(a, s) ==> HasSlot(b, s) && TypeName(b, s) == TypeName(a, s)
  }

  lemma AddMemberExtends(l: Loader, i: nat, d: Head)
    requires i < |l.structs| && Sound(l)
    ensures Extends(l.structs, AddMember(l, i, d).structs) && Sound(AddMember(l, i, d))
  {
    var l' := AddMember(l, i, d);
    forall s: Slot | HasSlot(l.structs, s)
      ensures HasSlot(l'.structs, s) && TypeName(l'.structs, s) == TypeName(l.structs, s)
    {
    }
    assert !HasSlot(l.structs, Slot(i, false, |l.structs[i].members|));
  }

  lemma AddBaseExtends(l: Loader, i: nat, d: Head)
    requires i < |l.structs| && Sound(l)
    ensures Extends(l.structs, AddBase(l, i, d).structs) && Sound(AddBase(l, i, d))
  {
    var l' := AddBase(l, i, d);
    forall s: Slot | HasSlot(l.structs, s)
      ensures HasSlot(l'.structs, s) && TypeName(l'.structs, s) == TypeName(l.structs, s)
    {
    }
    assert !HasSlot(l.structs, Slot(i, true, |l.structs[i].bases|));
  }

  lemma AddStructExtends(l: Loader, c: Context, d: Head)
    requires Sound(l)
    ensures Extends(l.structs, AddStruct(l, c, d).structs) && Sound(AddStruct(l, c, d))
  {
    var l' := AddStruct(l, c, d);
    forall s: Slot | HasSlot(l.structs, s)
      ensures HasSlot(l'.structs, s) && TypeName(l'.structs, s) == TypeName(l.structs, s)
    {
    }
  }

  lemma VisitKeepsSound(l: Loader, c: Context, d: Head)
    requires InScope(l, c) && Sound(l)
    ensures Sound(Visit(l, c, d)) && Extends(l.structs, Visit(l, c, d).structs)
  {
    hide Sound, Extends, AddMember, AddBase, AddStruct;
    AddStructExtends(l, c, d);
    if c.struct_ != NO_STRUCT {
      AddMemberExtends(l, c.struct_, d);
      AddBaseExtends(l, c.struct_, d);
    }
    SoundOnly(l, Visit(l, c, d));
  }

  /** Soundness is about structs and pending references only. */
  lemma SoundOnly(l: Loader, m: Loader)
    requires Sound(l)
    ensures Extends(l.structs, l.structs)
    ensures m.structs == l.structs && m.pending == l.pending ==> Sound(m)
  {
  }

  /** Over any bytes, broken or not, the pending references stay valid. */
  lemma {:induction false} WalkKeepsSound(u: Unit, w: Walk)
    requires ValidWalk(u, w) && Sound(w.loader)
    ensures Sound(WalkOn(u, w))
    decreases u.end - w.pos
  {
    hide Sound, Visit, Inside, NextToken;
    if Step(u, w).Some? {
      var token := NextToken(u, w.pos);
      if token.Entry? {
        VisitKeepsSound(w.loader, w.context, token.die);
      }
      WalkKeepsSound(u, Step(u, w).value);
    }
  }

  // ---------------------------------------------------------------------------------------------
  // Names of types
  // ---------------------------------------------------------------------------------------------

  const MAX_DEPTH: nat := 8

  function Decorate(qualifier: nat, s: string): string
  {
    match qualifier
    case 1 => s + "*"
    case 2 => s + "&"
    case 3 => if s == "" then "const" else "const " + s
    case 4 => if s == "" then "volatile" else "volatile " + s
    case _ => s + "[]"
  }

  predicate IsDecoration(qualifier: nat) { 1 <= qualifier <= 4 || qualifier == 6 }

  /** `ResolveTypeName`. */
  function ResolveTypeName(registry: map<nat, TypeEntry>, offset: nat, depth: nat): string
    decreases if depth > MAX_DEPTH then 0 else MAX_DEPTH + 1 - depth
  {
    if depth > MAX_DEPTH || offset == 0 || offset !in registry then ""
    else
      var e := registry[offset];
      if IsDecoration(e.qualifier) then Decorate(e.qualifier, ResolveTypeName(registry, e.typeRef, depth + 1))
      else if e.qualifier == 5 && e.name == "" then ResolveTypeName(registry, e.typeRef, depth + 1)
      else e.name
  }

  // ---------------------------------------------------------------------------------------------
  // Types and how they are spelled
  // ---------------------------------------------------------------------------------------------

  /** A type as the program shows it; `Unknown` is `void` or a type that the loader does not know. */
  datatype CType =
    | Unknown
    | Named(name: string)
    | Pointer(to: CType)
    | RvalueReference(to: CType)
    | Reference(to: CType)
    | Const(of: CType)
    | Volatile(of: CType)
    | Array(of: CType)

  function Spelling(t: CType): string
  {
    match t
    case Unknown => ""
    case Named(name) => name
    case Pointer(to) => Spelling(to) + "*"
    case RvalueReference(to) => Spelling(to) + "*"
    case Reference(to) => Spelling(to) + "&"
    case Const(of) => if Spelling(of) == "" then "const" else "const " + Spelling(of)
    case Volatile(of) => if Spelling(of) == "" then "volatile" else "volatile " + Spelling(of)
    case Array(of) => Spelling(of) + "[]"
  }

  /** The outermost `n` levels of a type. */
  function Cut(t: CType, n: nat): CType
  {
    if n == 0 then Unknown
    else
      match t
      case Unknown => Unknown
      case Named(_) => t
      case Pointer(to) => Pointer(Cut(to, n - 1))
      case RvalueReference(to) => RvalueReference(Cut(to, n - 1))
      case Reference(to) => Reference(Cut(to, n - 1))
      case Const(of) => Const(Cut(of, n - 1))
      case Volatile(of) => Volatile(Cut(of, n - 1))
      case Array(of) => Array(Cut(of, n - 1))
  }

  /** How many levels stand above the innermost type. */
  function Levels(t: CType): nat
  {
    match t
    case Unknown => 0
    case Named(_) => 0
    case Pointer(to) => 1 + Levels(to)
    case RvalueReference(to) => 1 + Levels(to)
    case Reference(to) => 1 + Levels(to)
    case Const(of) => 1 + Levels(of)
    case Volatile(of) => 1 + Levels(of)
    case Array(of) => 1 + Levels(of)
  }

  lemma {:induction false} CutKeeps(t: CType, n: nat)
    requires Levels(t) < n
    ensures Cut(t, n) == t
    decreases t
  {
    match t
    case Unknown =>
    case Named(_) =>
    case Pointer(to) => CutKeeps(to, n - 1);
    case RvalueReference(to) => CutKeeps(to, n - 1);
    case Reference(to) => CutKeeps(to, n - 1);
    case Const(of) => CutKeeps(of, n - 1);
    case Volatile(of) => CutKeeps(of, n - 1);
    case Array(of) => CutKeeps(of, n - 1);
  }

  /** An entry of the registry that decorates another type. */
  predicate Decorates(registry: map<nat, TypeEntry>, offset: nat, qualifier: nat)
  {
    offset != 0 && offset in registry && registry[offset].qualifier == qualifier
  }

  /** The type that the registry has at an offset. */
  predicate Denotes(registry: map<nat, TypeEntry>, offset: nat, t: CType)
    decreases t
  {
    match t
    case Unknown => offset == 0 || offset !in registry
    case Named(name) =>
      && offset != 0 && offset in registry && registry[offset].qualifier in {0, 5}
      && registry[offset].name == name != ""
    case Pointer(to) => Decorates(registry, offset, 1) && Denotes(registry, registry[offset].typeRef, to)
    case RvalueReference(to) => Decorates(registry, offset, 1) && Denotes(registry, registry[offset].typeRef, to)
    case Reference(to) => Decorates(registry, offset, 2) && Denotes(registry, registry[offset].typeRef, to)
    case Const(of) => Decorates(registry, offset, 3) && Denotes(registry, registry[offset].typeRef, of)
    case Volatile(of) => Decorates(registry, offset, 4) && Denotes(registry, registry[offset].typeRef, of)
    case Array(of) => Decorates(registry, offset, 6) && Denotes(registry, registry[offset].typeRef, of)
  }

  /** What a level is built on. */
  function Inner(t: CType): CType
  {
    match t
    case Unknown => t
    case Named(_) => t
    case Pointer(to) => to
    case RvalueReference(to) => to
    case Reference(to) => to
    case Const(of) => of
    case Volatile(of) => of
    case Array(of) => of
  }

  /**
    A type is spelled out in full if it has at most eight levels; of a deeper one the outermost
    nine are spelled, as if they stood on nothing.
   */
  lemma {:induction false} ResolveSpells(registry: map<nat, TypeEntry>, offset: nat, t: CType, depth: nat)
    requires Denotes(registry, offset, t) && depth <= 9
    ensures ResolveTypeName(registry, offset, depth) == Spelling(Cut(t, 9 - depth))
    decreases t
  {
    if depth < 9 && !t.Unknown? && !t.Named? {
      ResolveSpells(registry, registry[offset].typeRef, Inner(t), depth + 1);
    }
  }

  /** `n` pointers, at the offsets from 1 on, to a named type. */
  function Pointers(n: nat, name: string): map<nat, TypeEntry>
  {
    map k | 1 <= k <= n + 1 :: PointerAt(n, name, k)
  }

  function PointerAt(n: nat, name: string, k: nat): TypeEntry
  {
    if k <= n then TypeEntry("", k + 1, 1) else TypeEntry(name, 0, 0)
  }

  function PointersTo(t: CType, n: nat): CType { if n == 0 then t else Pointer(PointersTo(t, n - 1)) }

  lemma {:induction false} PointersDenote(n: nat, name: string, k: nat)
    requires k <= n && name != ""
    ensures Denotes(Pointers(n, name), k + 1, PointersTo(Named(name), n - k))
    decreases n - k
  {
    if k < n {
      PointersDenote(n, name, k + 1);
    }
  }

  lemma {:induction false} CutPointers(t: CType, n: nat)
    ensures Cut(PointersTo(t, n), n) == PointersTo(Unknown, n)
  {
    if n > 0 {
      CutPointers(t, n - 1);
    }
  }

  lemma {:induction false} SpelledPointers(n: nat)
    ensures Spelling(PointersTo(Unknown, n)) == seq(n, _ => '*')
  {
    if n > 0 {
      SpelledPointers(n - 1);
    }
  }

  /** Nine pointers to `T` are spelled as nine stars, without `T`. */
  lemma NinePointersLoseName()
    ensures Denotes(Pointers(9, "T"), 1, PointersTo(Named("T"), 9))
    ensures ResolveTypeName(Pointers(9, "T"), 1, 0) == "*********"
  {
    hide ResolveTypeName, Pointers, PointersTo;
    PointersDenote(9, "T", 0);
    ResolveSpells(Pointers(9, "T"), 1, PointersTo(Named("T"), 9), 0);
    CutPointers(Named("T"), 9);
    SpelledPointers(9);
  }

  // ---------------------------------------------------------------------------------------------
  // Resolution
  // ---------------------------------------------------------------------------------------------

  function SetTypeName(structs: seq<StructInfo>, s: Slot, name: string): (r: seq<StructInfo>)
    requires HasSlot(structs, s)
    ensures |r| == |structs|
    ensures forall t: Slot {:trigger HasSlot(r, t)} :: HasSlot(r, t) <==> HasSlot(structs, t)
    ensures forall t: Slot {:trigger TypeName(r, t)} :: HasSlot(structs, t) ==>
      TypeName(r, t) == if t == s then name else TypeName(structs, t)
  {
    var info := structs[s.structIdx];
    if s.isBase then
      structs[s.structIdx := info.(bases := info.bases[s.itemIdx := info.bases[s.itemIdx].(typeName := name)])]
    else
      structs[s.structIdx := info.(members := info.members[s.itemIdx := info.members[s.itemIdx].(typeName := name)])]
  }

  /** The structs after the first `n` pending references are resolved. */
  ghost function ResolveFirst(l: Loader, n: nat): (r: seq<StructInfo>)
    requires Sound(l) && n <= |l.pending|
    ensures |r| == |l.structs|
    ensures forall t: Slot {:trigger HasSlot(r, t)} :: HasSlot(r, t) <==> HasSlot(l.structs, t)
  {
    if n == 0 then l.structs
    else
      var before := ResolveFirst(l, n - 1);
      var p := l.pending[n - 1];
      var name := ResolveTypeName(l.registry, p.typeOffset, 0);
      assert HasSlot(before, SlotOf(p));
      if p.typeOffset == 0 || name == "" then before else SetTypeName(before, SlotOf(p), name)
  }

  /** Each pending slot ends up with the name of its type; every other slot is as it was. */
  lemma {:induction false} ResolveFirstNames(l: Loader, n: nat, s: Slot)
    requires Sound(l) && n <= |l.pending| && HasSlot(l.structs, s)
    ensures forall i :: 0 <= i < n && SlotOf(l.pending[i]) == s && l.pending[i].typeOffset != 0 ==>
      TypeName(ResolveFirst(l, n), s) == ResolveTypeName(l.registry, l.pending[i].typeOffset, 0)
    ensures (forall i :: 0 <= i < n ==> SlotOf(l.pending[i]) != s) ==>
      TypeName(ResolveFirst(l, n), s) == TypeName(l.structs, s)
    decreases n
  {
    hide ResolveTypeName, TypeName;
    if n > 0 {
      ResolveFirstNames(l, n - 1, s);
      var p := l.pending[n - 1];
      assert HasSlot(ResolveFirst(l, n - 1), s);
      if SlotOf(p) == s {
        assert forall i :: 0 <= i < n - 1 ==> SlotOf(l.pending[i]) != s;
      }
    }
  }
}
