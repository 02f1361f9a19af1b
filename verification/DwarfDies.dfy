/**
  The type loader's walk over the entries of a unit (`DwarfLoader::ParseDIETree`).

  Entries with children are followed by their children and a null entry (section 2.3 of the DWARF 5
  standard).  The program walks the flat sequence with an explicit stack of contexts; the reference
  walks the tree.
 */
module DwarfDies {
  import opened Basics
  import opened Bits
  import opened Leb128
  import opened DwarfAttributes

  const U32: nat := 0x1_0000_0000
  const U64: nat := 0x1_0000_0000_0000_0000

  // ---------------------------------------------------------------------------------------------
  // Abbreviations and units
  // ---------------------------------------------------------------------------------------------

  datatype AttrSpec = AttrSpec(name: nat, form: nat, implicitConst: int)

  datatype AbbrevEntry = AbbrevEntry(tag: nat, hasChildren: bool, attrs: seq<AttrSpec>)

  type AbbrevTable = map<nat, AbbrevEntry>

  /** Everything that stays fixed while one unit is parsed. */
  datatype Unit = Unit(
    data: seq<byte>,  // .debug_info
    end: nat,         // where the unit ends
    base: nat,        // where the unit starts
    format: Format,
    sec: Sections,
    table: AbbrevTable)

  predicate ValidUnit(u: Unit) { u.end <= |u.data| }

  // ---------------------------------------------------------------------------------------------
  // One entry
  // ---------------------------------------------------------------------------------------------

  const AT_NAME: nat := 0x03
  const AT_BYTE_SIZE: nat := 0x0b
  const AT_DATA_MEMBER_LOCATION: nat := 0x38
  const AT_TYPE: nat := 0x49

  datatype Info = Info(
    name: string,
    memberLoc: nat, hasMemberLoc: bool,
    byteSize: nat, hasByteSize: bool,
    typeRef: nat, typeForm: nat)

  const NO_INFO: Info := Info("", 0, false, 0, false, 0, 0)

  /** The `switch` on the attribute name. */
  function Absorb(info: Info, spec: AttrSpec, v: nat, s: string): Info
  {
    if spec.name == AT_NAME then (if s != "" then info.(name := s) else info)
    else if spec.name == AT_DATA_MEMBER_LOCATION then info.(memberLoc := v, hasMemberLoc := true)
    else if spec.name == AT_BYTE_SIZE then info.(byteSize := v, hasByteSize := true)
    else if spec.name == AT_TYPE then info.(typeRef := v, typeForm := spec.form)
    else info
  }

  /** All attributes of an entry, in order; `None` on a parse error. */
  function ReadAttrs(u: Unit, pos: nat, attrs: seq<AttrSpec>, info: Info): (r: Option<(nat, Info)>)
    requires ValidUnit(u)
    ensures r.Some? && pos <= u.end ==> pos <= r.value.0 <= u.end
    decreases |attrs|
  {
    if attrs == [] then Some((pos, info))
    else
      var spec := attrs[0];
      if spec.form == FORM_IMPLICIT_CONST then
        ReadAttrs(u, pos, attrs[1..], Absorb(info, spec, FromSigned(spec.implicitConst), ""))
      else
        match ReadAttr(u.sec, u.data, pos, u.end, spec.form, u.format, true, true)
        case Bad => None
        case Attr(next, v, s) =>
          ReadAttrs(u, next, attrs[1..], Absorb(info, spec, Or0(v), OrEmpty(s)))
  }

  function Or0(v: Option<nat>): nat { match v case None => 0 case Some(x) => x }
  function OrEmpty(s: Option<string>): string { match s case None => "" case Some(x) => x }

  /** The absolute offset of the type an entry refers to; 0 if it has none. */
  function TypeOffset(u: Unit, info: Info): nat
  {
    if info.typeForm == 0 then 0
    else if IsRelRef(info.typeForm) then (u.base + info.typeRef) % U64
    else info.typeRef
  }

  /** What stands at a position of the unit. */
  datatype Token =
    | Broken
    | Null(next: nat)
    | Entry(next: nat, die: Head)

  /** An entry without its children. */
  datatype Head = Head(offset: nat, tag: nat, hasChildren: bool, info: Info, typeOffset: nat)

  function NextToken(u: Unit, pos: nat): (t: Token)
    requires ValidUnit(u) && pos < u.end
    ensures !t.Broken? ==> pos < t.next <= u.end
  {
    var (code, next) := Unsigned(u.data, pos, u.end);
    if code == 0 then Null(next)
    else if Low(code, 32) !in u.table then Broken
    else
      var entry := u.table[Low(code, 32)];
      match ReadAttrs(u, next, entry.attrs, NO_INFO)
      case None => Broken
      case Some((after, info)) =>
        Entry(after, Head(pos, entry.tag, entry.hasChildren, info, TypeOffset(u, info)))
  }

  // ---------------------------------------------------------------------------------------------
  // What the loader collects
  // ---------------------------------------------------------------------------------------------

  datatype BaseInfo = BaseInfo(typeName: string, offset: nat, hasOffset: bool)
  datatype MemberInfo = MemberInfo(name: string, typeName: string, offset: nat, hasOffset: bool)
  datatype StructInfo = StructInfo(
    name: string, byteSize: nat, hasSize: bool, bases: seq<BaseInfo>, members: seq<MemberInfo>)
  datatype TypeEntry = TypeEntry(name: string, typeRef: nat, qualifier: nat)
  datatype PendingRef = PendingRef(structIdx: nat, isBase: bool, itemIdx: nat, typeOffset: nat)

  datatype Loader = Loader(structs: seq<StructInfo>, registry: map<nat, TypeEntry>, pending: seq<PendingRef>)

  /** The namespace prefix and the struct whose members are being read (-1 if none). */
  datatype Context = Context(ns: string, struct_: int)

  const NO_STRUCT: int := -1

  /** Outside of every namespace and struct. */
  const TOP: Context := Context("", NO_STRUCT)

  const TAG_ARRAY: nat := 0x01
  const TAG_CLASS: nat := 0x02
  const TAG_ENUMERATION: nat := 0x04
  const TAG_MEMBER: nat := 0x0d
  const TAG_POINTER: nat := 0x0f
  const TAG_REFERENCE: nat := 0x10
  const TAG_STRUCTURE: nat := 0x13
  const TAG_TYPEDEF: nat := 0x16
  const TAG_UNION: nat := 0x17
  const TAG_INHERITANCE: nat := 0x1c
  const TAG_BASE: nat := 0x24
  const TAG_CONST: nat := 0x26
  const TAG_VOLATILE: nat := 0x35
  const TAG_NAMESPACE: nat := 0x39
  const TAG_RVALUE_REFERENCE: nat := 0x42

  function Qualify(ns: string, name: string): string
  {
    if ns == "" then name else ns + "::" + name
  }

  predicate IsStruct(tag: nat) { tag == TAG_STRUCTURE || tag == TAG_CLASS }

  predicate IsNamedType(tag: nat) { tag == TAG_BASE || tag == TAG_ENUMERATION || tag == TAG_UNION }

  /** The qualifier that pointer-like types are registered with; 0 for other tags. */
  function Qualifier(tag: nat): nat
  {
    if tag == TAG_POINTER || tag == TAG_RVALUE_REFERENCE then 1
    else if tag == TAG_REFERENCE then 2
    else if tag == TAG_CONST then 3
    else if tag == TAG_VOLATILE then 4
    else if tag == TAG_ARRAY then 6
    else 0
  }

  function AddStruct(l: Loader, c: Context, d: Head): Loader
  {
    var name := Qualify(c.ns, d.info.name);
    l.(registry := l.registry[d.offset := TypeEntry(name, 0, 0)],
       structs := l.structs + [StructInfo(name, d.info.byteSize % U32, d.info.hasByteSize, [], [])])
  }

  function Pend(l: Loader, p: PendingRef): Loader
  {
    if p.typeOffset == 0 then l else l.(pending := l.pending + [p])
  }

  function AddMember(l: Loader, i: nat, d: Head): Loader
    requires i < |l.structs|
  {
    var s := l.structs[i];
    var m := MemberInfo(d.info.name, "", d.info.memberLoc % U32, d.info.hasMemberLoc);
    Pend(l.(structs := l.structs[i := s.(members := s.members + [m])]),
         PendingRef(i, false, |s.members|, d.typeOffset))
  }

  function AddBase(l: Loader, i: nat, d: Head): Loader
    requires i < |l.structs|
  {
    var s := l.structs[i];
    var b := BaseInfo("", d.info.memberLoc % U32, d.info.hasMemberLoc);
    Pend(l.(structs := l.structs[i := s.(bases := s.bases + [b])]),
         PendingRef(i, true, |s.bases|, d.typeOffset))
  }

  /** A context whose struct exists. */
  predicate InScope(l: Loader, c: Context) { NO_STRUCT <= c.struct_ < |l.structs| }

  /** The `switch` on the tag: what an entry adds. */
  function Visit(l: Loader, c: Context, d: Head): Loader
    requires InScope(l, c)
  {
    if IsStruct(d.tag) then (if d.info.name != "" then AddStruct(l, c, d) else l)
    else if d.tag == TAG_MEMBER then
      (if c.struct_ != NO_STRUCT && d.info.name != "" then AddMember(l, c.struct_, d) else l)
    else if d.tag == TAG_INHERITANCE then
      (if c.struct_ != NO_STRUCT then AddBase(l, c.struct_, d) else l)
    else if IsNamedType(d.tag) then
      (if d.info.name != "" then l.(registry := l.registry[d.offset := TypeEntry(Qualify(c.ns, d.info.name), 0, 0)])
       else l)
    else if d.tag == TAG_TYPEDEF then
      (if d.info.name != "" then
         l.(registry := l.registry[d.offset := TypeEntry(Qualify(c.ns, d.info.name), d.typeOffset, 5)])
       else l)
    else if Qualifier(d.tag) != 0 then
      l.(registry := l.registry[d.offset := TypeEntry("", d.typeOffset, Qualifier(d.tag))])
    else l
  }

  /**
    The context of the children: a namespace extends the prefix and keeps the struct, a named
    struct becomes the struct (and leaves the prefix alone), everything else has no struct.
   */
  function Inside(after: Loader, c: Context, d: Head): Context
  {
    if d.tag == TAG_NAMESPACE then c.(ns := Qualify(c.ns, d.info.name))
    else if IsStruct(d.tag) && d.info.name != "" then c.(struct_ := |after.structs| - 1)
    else c.(struct_ := NO_STRUCT)
  }

  // ---------------------------------------------------------------------------------------------
  // The flat walk with a stack
  // ---------------------------------------------------------------------------------------------

  /** Structs are only ever appended, so every context of the stack stays in scope. */
  predicate StackInScope(l: Loader, stack: seq<Context>) { forall c <- stack :: InScope(l, c) }

  lemma VisitKeepsScope(l: Loader, c: Context, d: Head)
    requires InScope(l, c)
    ensures |l.structs| <= |Visit(l, c, d).structs|
    ensures InScope(Visit(l, c, d), Inside(Visit(l, c, d), c, d))
  {
  }

  /** Where the walk stands: the stack's last element is its top. */
  datatype Walk = Walk(pos: nat, context: Context, stack: seq<Context>, loader: Loader)

  predicate ValidWalk(u: Unit, w: Walk)
  {
    ValidUnit(u) && w.pos <= u.end && InScope(w.loader, w.context) && StackInScope(w.loader, w.stack)
  }

  /** One round of the loop; `None` when it stops. */
  function Step(u: Unit, w: Walk): (r: Option<Walk>)
    requires ValidWalk(u, w)
    ensures r.Some? ==> ValidWalk(u, r.value) && w.pos < r.value.pos
  {
    if w.pos == u.end then None
    else
      match NextToken(u, w.pos)
      case Broken => None
      case Null(next) =>
        if w.stack == [] then None
        else Some(Walk(next, w.stack[|w.stack| - 1], w.stack[..|w.stack| - 1], w.loader))
      case Entry(next, d) =>
        VisitKeepsScope(w.loader, w.context, d);
        var after := Visit(w.loader, w.context, d);
        if d.hasChildren then
          Some(Walk(next, Inside(after, w.context, d), w.stack + [w.context], after))
        else Some(w.(pos := next, loader := after))
  }

  /** What the loader holds when the loop ends, on any bytes. */
  function WalkOn(u: Unit, w: Walk): (l: Loader)
    requires ValidWalk(u, w)
    decreases u.end - w.pos
  {
    match Step(u, w)
    case None => w.loader
    case Some(next) => WalkOn(u, next)
  }

  // ---------------------------------------------------------------------------------------------
  // The tree
  // ---------------------------------------------------------------------------------------------

  datatype Forest = Nil | Cons(die: Head, children: Forest, siblings: Forest)

  /** The recursive reader: children under the context of their parent, siblings under the same. */
  function ReadTree(l: Loader, c: Context, f: Forest): (r: Loader)
    requires InScope(l, c)
    ensures |l.structs| <= |r.structs|
    decreases f
  {
    match f
    case Nil => l
    case Cons(d, children, siblings) =>
      VisitKeepsScope(l, c, d);
      var after := Visit(l, c, d);
      var below := if d.hasChildren then ReadTree(after, Inside(after, c, d), children) else after;
      ReadTree(below, c, siblings)
  }

  /** The forest is what the bytes from `pos` spell; the result is where it ends. */
  function Spelled(u: Unit, pos: nat, f: Forest): (r: Option<nat>)
    requires ValidUnit(u) && pos <= u.end
    ensures r.Some? ==> pos <= r.value <= u.end
    decreases f
  {
    match f
    case Nil => Some(pos)
    case Cons(d, children, siblings) =>
      if pos == u.end then None
      else
        match NextToken(u, pos)
        case Broken => None
        case Null(_) => None
        case Entry(next, d') =>
          if d' != d then None
          else if !d.hasChildren then (if children == Nil then Spelled(u, next, siblings) else None)
          else
            match Spelled(u, next, children)
            case None => None
            case Some(q) =>
              if q == u.end then None
              else
                match NextToken(u, q)
                case Null(after) => Spelled(u, after, siblings)
                case _ => None
  }

  /**
    The walk over a spelled forest: the loader is as after the recursive reader, and context and
    stack are as before, whatever is on the stack below.
   */
  lemma {:induction false} WalkReadsTree(u: Unit, w: Walk, f: Forest)
    requires ValidWalk(u, w) && Spelled(u, w.pos, f).Some?
    ensures
      var w' := w.(pos := Spelled(u, w.pos, f).value, loader := ReadTree(w.loader, w.context, f));
      ValidWalk(u, w') && WalkOn(u, w) == WalkOn(u, w')
    decreases f
  {
    hide NextToken, Visit, Inside;
    match f
    case Nil =>
    case Cons(d, children, siblings) =>
      var next := NextToken(u, w.pos).next;
      VisitKeepsScope(w.loader, w.context, d);
      var after := Visit(w.loader, w.context, d);
      var inner := Step(u, w).value;
      if d.hasChildren {
        WalkReadsTree(u, inner, children);
        var below :=
          inner.(pos := Spelled(u, next, children).value, loader := ReadTree(after, inner.context, children));
        var back := Step(u, below).value;
        assert back == w.(pos := back.pos, loader := below.loader);
        WalkReadsTree(u, back, siblings);
      } else {
        WalkReadsTree(u, inner, siblings);
      }
  }

  /**
    For every unit that spells a forest up to its end, or up to a null entry that closes the
    top level, the loop collects what the recursive reader collects.
   */
  lemma {:induction false} LoopRefinesTreeReader(u: Unit, pos: nat, c: Context, l: Loader, f: Forest)
    requires ValidUnit(u) && pos <= u.end && InScope(l, c)
    requires Spelled(u, pos, f).Some?
    requires
      var q := Spelled(u, pos, f).value;
      q < u.end ==> NextToken(u, q).Null?
    ensures WalkOn(u, Walk(pos, c, [], l)) == ReadTree(l, c, f)
  {
    hide NextToken, Visit, Inside, ReadTree, Spelled;
    WalkReadsTree(u, Walk(pos, c, [], l), f);
  }
}
