/**
  What a tree of debugging information entries means, without the loader's accumulators: which
  structs it declares, with which bases and members of which types.  The loader's lists, indices
  and pending references amount to exactly that.
 */
module DwarfMeaning {
  import opened Basics
  import opened DwarfAttributes
  import opened DwarfDies
  import opened DwarfTypes

  /** A base or a member together with the offset of its type (0: none). */
  datatype Typed<T> = Typed(info: T, typeOffset: nat)

  datatype Decl = Decl(
    name: string, byteSize: nat, hasSize: bool, bases: seq<Typed<BaseInfo>>, members: seq<Typed<MemberInfo>>)

  // ---------------------------------------------------------------------------------------------
  // The meaning of a forest
  // ---------------------------------------------------------------------------------------------

  /** An entry without the children flag has no children. */
  function Below(d: Head, children: Forest): (f: Forest)
    ensures f == children || f == Nil
  {
    if d.hasChildren then children else Nil
  }

  // Tags are those of table 7.3 of the DWARF 5 standard.

  /** A `structure_type` or `class_type` with a name. */
  predicate DeclaresStruct(d: Head) { d.tag in {0x13, 0x02} && d.info.name != "" }

  /** A `member` or an `inheritance`, and a `namespace`. */
  predicate IsMember(d: Head) { d.tag == 0x0d && d.info.name != "" }

  predicate IsBase(d: Head) { d.tag == 0x1c }

  predicate IsNamespace(d: Head) { d.tag == 0x39 }

  /** The name of something in a namespace. */
  function Qualified(ns: string, name: string): string
  {
    if ns == "" then name else ns + "::" + name
  }

  function OwnMembers(d: Head): seq<Typed<MemberInfo>>
  {
    if IsMember(d) then
      [Typed(MemberInfo(d.info.name, "", d.info.memberLoc % 0x1_0000_0000, d.info.hasMemberLoc), d.typeOffset)]
    else []
  }

  function OwnBases(d: Head): seq<Typed<BaseInfo>>
  {
    if IsBase(d) then
      [Typed(BaseInfo("", d.info.memberLoc % 0x1_0000_0000, d.info.hasMemberLoc), d.typeOffset)]
    else []
  }

  /** The members that a struct with these children has; only namespaces are looked through. */
  function MembersOf(f: Forest): seq<Typed<MemberInfo>>
  {
    match f
    case Nil => []
    case Cons(d, children, siblings) =>
      OwnMembers(d)
      + (if IsNamespace(d) && d.hasChildren then MembersOf(children) else [])
      + MembersOf(siblings)
  }

  function BasesOf(f: Forest): seq<Typed<BaseInfo>>
  {
    match f
    case Nil => []
    case Cons(d, children, siblings) =>
      OwnBases(d)
      + (if IsNamespace(d) && d.hasChildren then BasesOf(children) else [])
      + BasesOf(siblings)
  }

  /** The prefix for an entry's children: namespaces extend it, structs do not. */
  function Prefix(d: Head, ns: string): string
  {
    if IsNamespace(d) then Qualified(ns, d.info.name) else ns
  }

  /** The structs declared in a forest, at any depth, in the order of their entries. */
  function DeclsOf(f: Forest, ns: string): seq<Decl>
    decreases f
  {
    match f
    case Nil => []
    case Cons(d, children, siblings) =>
      (if DeclaresStruct(d) then
         var inner := Below(d, children);
         [Decl(Qualified(ns, d.info.name), d.info.byteSize % 0x1_0000_0000, d.info.hasByteSize, BasesOf(inner),
               MembersOf(inner))]
       else [])
      + (if d.hasChildren then DeclsOf(children, Prefix(d, ns)) else [])
      + DeclsOf(siblings, ns)
  }

  // ---------------------------------------------------------------------------------------------
  // What the loader's lists amount to
  // ---------------------------------------------------------------------------------------------

  /** The type that is pending for a slot. */
  function PendingType(pending: seq<PendingRef>, s: Slot): nat
  {
    if pending == [] then 0
    else
      var last := pending[|pending| - 1];
      if SlotOf(last) == s then last.typeOffset else PendingType(pending[..|pending| - 1], s)
  }

  function DeclAt(structs: seq<StructInfo>, pending: seq<PendingRef>, i: nat): Decl
    requires i < |structs|
  {
    var s := structs[i];
    Decl(s.name, s.byteSize, s.hasSize,
         seq(|s.bases|, k requires 0 <= k < |s.bases| => Typed(s.bases[k], PendingType(pending, Slot(i, true, k)))),
         seq(|s.members|, k requires 0 <= k < |s.members| =>
           Typed(s.members[k], PendingType(pending, Slot(i, false, k)))))
  }

  function Decls(l: Loader): (ds: seq<Decl>)
    ensures |ds| == |l.structs|
    ensures forall i :: 0 <= i < |ds| ==> ds[i] == DeclAt(l.structs, l.pending, i)
  {
    seq(|l.structs|, i requires 0 <= i < |l.structs| => DeclAt(l.structs, l.pending, i))
  }

  /** More bases and members for the struct `i`, if there is one. */
  function Attach(ds: seq<Decl>, i: int, ms: seq<Typed<MemberInfo>>, bs: seq<Typed<BaseInfo>>): (r: seq<Decl>)
    requires NO_STRUCT <= i < |ds|
    ensures |r| == |ds|
    ensures forall k :: 0 <= k < |ds| ==>
      r[k] == if k == i then ds[k].(bases := ds[k].bases + bs, members := ds[k].members + ms) else ds[k]
  {
    if i == NO_STRUCT then ds else ds[i := ds[i].(bases := ds[i].bases + bs, members := ds[i].members + ms)]
  }

  lemma AttachAppend(a: seq<Decl>, b: seq<Decl>, i: int, ms: seq<Typed<MemberInfo>>, bs: seq<Typed<BaseInfo>>)
    requires NO_STRUCT <= i < |a|
    ensures Attach(a + b, i, ms, bs) == Attach(a, i, ms, bs) + b
  {
  }

  lemma AttachTwice(a: seq<Decl>, i: int, ms: seq<Typed<MemberInfo>>, bs: seq<Typed<BaseInfo>>,
                    ms': seq<Typed<MemberInfo>>, bs': seq<Typed<BaseInfo>>)
    requires NO_STRUCT <= i < |a|
    ensures Attach(Attach(a, i, ms, bs), i, ms', bs') == Attach(a, i, ms + ms', bs + bs')
  {
    if i != NO_STRUCT {
      assert (a[i].bases + bs) + bs' == a[i].bases + (bs + bs');
      assert (a[i].members + ms) + ms' == a[i].members + (ms + ms');
    }
  }

  lemma AttachNothing(a: seq<Decl>, i: int)
    requires NO_STRUCT <= i < |a|
    ensures Attach(a, i, [], []) == a
  {
    if i != NO_STRUCT {
      assert a[i].bases + [] == a[i].bases && a[i].members + [] == a[i].members;
    }
  }

  /** The last struct is the one that was just declared. */
  lemma AttachLast(a: seq<Decl>, x: Decl, ms: seq<Typed<MemberInfo>>, bs: seq<Typed<BaseInfo>>)
    requires x.bases == [] && x.members == []
    ensures Attach(a + [x], |a|, ms, bs) == a + [x.(bases := bs, members := ms)]
  {
    assert [] + bs == bs && [] + ms == ms;
  }

  // ---------------------------------------------------------------------------------------------
  // One entry
  // ---------------------------------------------------------------------------------------------

  lemma {:induction false} NotPending(structs: seq<StructInfo>, pending: seq<PendingRef>, s: Slot)
    requires forall i :: 0 <= i < |pending| ==> HasSlot(structs, SlotOf(pending[i]))
    requires !HasSlot(structs, s)
    ensures PendingType(pending, s) == 0
    decreases |pending|
  {
    hide HasSlot;
    if pending != [] {
      NotPending(structs, pending[..|pending| - 1], s);
    }
  }

  lemma PendingSnoc(pending: seq<PendingRef>, p: PendingRef, s: Slot)
    ensures PendingType(pending + [p], s) == if SlotOf(p) == s then p.typeOffset else PendingType(pending, s)
  {
    assert (pending + [p])[..|pending|] == pending;
  }

  lemma AddMemberDecls(l: Loader, i: nat, d: Head)
    requires Sound(l) && i < |l.structs| && d.tag == TAG_MEMBER && d.info.name != ""
    ensures Decls(AddMember(l, i, d)) == Attach(Decls(l), i, OwnMembers(d), [])
  {
    hide PendingType;
    var l' := AddMember(l, i, d);
    var fresh_ := Slot(i, false, |l.structs[i].members|);
    NotPending(l.structs, l.pending, fresh_);
    forall s: Slot
      ensures PendingType(l'.pending, s) == if s == fresh_ then d.typeOffset else PendingType(l.pending, s)
    {
      PendingSnoc(l.pending, PendingRef(i, false, |l.structs[i].members|, d.typeOffset), s);
    }
    var was, now, want := Decls(l), Decls(l'), Attach(Decls(l), i, OwnMembers(d), []);
    forall k | 0 <= k < |now|
      ensures now[k] == want[k]
    {
      assert now[k].bases == want[k].bases;
      assert now[k].members == want[k].members;
    }
  }

  lemma AddBaseDecls(l: Loader, i: nat, d: Head)
    requires Sound(l) && i < |l.structs| && d.tag == TAG_INHERITANCE
    ensures Decls(AddBase(l, i, d)) == Attach(Decls(l), i, [], OwnBases(d))
  {
    hide PendingType;
    var l' := AddBase(l, i, d);
    var fresh_ := Slot(i, true, |l.structs[i].bases|);
    NotPending(l.structs, l.pending, fresh_);
    forall s: Slot
      ensures PendingType(l'.pending, s) == if s == fresh_ then d.typeOffset else PendingType(l.pending, s)
    {
      PendingSnoc(l.pending, PendingRef(i, true, |l.structs[i].bases|, d.typeOffset), s);
    }
    var was, now, want := Decls(l), Decls(l'), Attach(Decls(l), i, [], OwnBases(d));
    forall k | 0 <= k < |now|
      ensures now[k] == want[k]
    {
      assert now[k].bases == want[k].bases;
      assert now[k].members == want[k].members;
    }
  }

  /** What a struct entry alone declares. */
  function Fresh(d: Head, ns: string): seq<Decl>
  {
    if DeclaresStruct(d) then
      [Decl(Qualified(ns, d.info.name), d.info.byteSize % 0x1_0000_0000, d.info.hasByteSize, [], [])]
    else []
  }

  lemma AddStructDecls(l: Loader, c: Context, d: Head)
    requires DeclaresStruct(d)
    ensures Decls(AddStruct(l, c, d)) == Decls(l) + Fresh(d, c.ns)
  {
    var now, want := Decls(AddStruct(l, c, d)), Decls(l) + Fresh(d, c.ns);
    forall k | 0 <= k < |now|
      ensures now[k] == want[k]
    {
      assert now[k].bases == want[k].bases;
      assert now[k].members == want[k].members;
    }
  }

  /** The three ways an entry can add to the structs, and that no other entry does. */
  lemma VisitDecls(l: Loader, c: Context, d: Head)
    requires InScope(l, c) && Sound(l)
    ensures Decls(Visit(l, c, d)) == Attach(Decls(l), c.struct_, OwnMembers(d), OwnBases(d)) + Fresh(d, c.ns)
  {
    hide Decls, AddMember, AddBase, AddStruct, Attach, Sound;
    DeclsSize(l);
    AttachNothing(Decls(l), c.struct_);
    AttachNowhere(Decls(l), OwnMembers(d), OwnBases(d));
    if DeclaresStruct(d) {
      AddStructDecls(l, c, d);
    } else if d.tag == TAG_MEMBER && c.struct_ != NO_STRUCT && d.info.name != "" {
      AddMemberDecls(l, c.struct_, d);
      assert Attach(Decls(l), c.struct_, OwnMembers(d), []) + [] == Attach(Decls(l), c.struct_, OwnMembers(d), []);
    } else if d.tag == TAG_INHERITANCE && c.struct_ != NO_STRUCT {
      AddBaseDecls(l, c.struct_, d);
      assert Attach(Decls(l), c.struct_, [], OwnBases(d)) + [] == Attach(Decls(l), c.struct_, [], OwnBases(d));
    } else {
      DeclsOnly(l, Visit(l, c, d));
      assert Decls(l) + [] == Decls(l);
    }
  }

  lemma DeclsSize(l: Loader)
    ensures |Decls(l)| == |l.structs|
  {
  }

  lemma AttachNowhere(ds: seq<Decl>, ms: seq<Typed<MemberInfo>>, bs: seq<Typed<BaseInfo>>)
    ensures Attach(ds, NO_STRUCT, ms, bs) == ds
  {
  }

  /** Declarations depend on structs and pending references only. */
  lemma DeclsOnly(l: Loader, m: Loader)
    requires m.structs == l.structs && m.pending == l.pending
    ensures Decls(m) == Decls(l)
  {
  }

  // ---------------------------------------------------------------------------------------------
  // A whole tree
  // ---------------------------------------------------------------------------------------------

  /**
    Reading a forest adds its members and bases to the struct it stands in and appends the
    structs it declares.
   */
  lemma {:induction false} TreeDecls(l: Loader, c: Context, f: Forest)
    requires InScope(l, c) && Sound(l)
    ensures Sound(ReadTree(l, c, f))
    ensures Decls(ReadTree(l, c, f)) == Attach(Decls(l), c.struct_, MembersOf(f), BasesOf(f)) + DeclsOf(f, c.ns)
    decreases f
  {
    hide Decls, Visit, Inside, Attach, Sound, Fresh, OwnMembers, OwnBases;
    DeclsSize(l);
    match f {
      case Nil =>
        AttachNothing(Decls(l), c.struct_);
        assert Decls(l) + [] == Decls(l);
      case Cons(d, children, siblings) =>
        VisitKeepsScope(l, c, d);
        VisitKeepsSound(l, c, d);
        var after := Visit(l, c, d);
        var below := after;
        if d.hasChildren {
          TreeDecls(after, Inside(after, c, d), children);
          below := ReadTree(after, Inside(after, c, d), children);
        }
        EntryDecls(l, c, d, children);
        TreeDecls(below, c, siblings);
        DeclsSize(below);
        Siblings(Decls(l), c.struct_, ThroughMembers(d, children), ThroughBases(d, children),
                 Declared(d, children, c.ns), siblings, c.ns);
    }
  }

  /** An entry with its children, as one item of its level. */
  function ThroughMembers(d: Head, children: Forest): seq<Typed<MemberInfo>>
  {
    OwnMembers(d) + (if IsNamespace(d) && d.hasChildren then MembersOf(children) else [])
  }

  function ThroughBases(d: Head, children: Forest): seq<Typed<BaseInfo>>
  {
    OwnBases(d) + (if IsNamespace(d) && d.hasChildren then BasesOf(children) else [])
  }

  function Declared(d: Head, children: Forest, ns: string): seq<Decl>
  {
    (if DeclaresStruct(d) then
       var inner := Below(d, children);
       [Decl(Qualified(ns, d.info.name), d.info.byteSize % 0x1_0000_0000, d.info.hasByteSize, BasesOf(inner),
             MembersOf(inner))]
     else [])
    + (if d.hasChildren then DeclsOf(children, Prefix(d, ns)) else [])
  }

  lemma Siblings(ds: seq<Decl>, i: int, ms: seq<Typed<MemberInfo>>, bs: seq<Typed<BaseInfo>>, new_: seq<Decl>,
                 siblings: Forest, ns: string)
    requires NO_STRUCT <= i < |ds|
    ensures NO_STRUCT <= i < |Attach(ds, i, ms, bs) + new_|
    ensures
      Attach(Attach(ds, i, ms, bs) + new_, i, MembersOf(siblings), BasesOf(siblings)) + DeclsOf(siblings, ns) ==
      Attach(ds, i, ms + MembersOf(siblings), bs + BasesOf(siblings)) + (new_ + DeclsOf(siblings, ns))
  {
    hide MembersOf, BasesOf, DeclsOf;
    AttachAppend(Attach(ds, i, ms, bs), new_, i, MembersOf(siblings), BasesOf(siblings));
    AttachTwice(ds, i, ms, bs, MembersOf(siblings), BasesOf(siblings));
  }

  /** One entry with its children, by the kind of the entry. */
  lemma EntryDecls(l: Loader, c: Context, d: Head, children: Forest)
    requires InScope(l, c) && Sound(l)
    requires InScope(Visit(l, c, d), Inside(Visit(l, c, d), c, d))
    requires
      var after := Visit(l, c, d);
      var inner := Inside(after, c, d);
      d.hasChildren ==>
        && |Decls(after)| == |after.structs|
        && Decls(ReadTree(after, inner, children)) ==
           Attach(Decls(after), inner.struct_, MembersOf(children), BasesOf(children)) + DeclsOf(children, inner.ns)
    ensures |Decls(l)| == |l.structs|
    ensures
      var after := Visit(l, c, d);
      var below := if d.hasChildren then ReadTree(after, Inside(after, c, d), children) else after;
      Decls(below) ==
      Attach(Decls(l), c.struct_, ThroughMembers(d, children), ThroughBases(d, children)) + Declared(d, children, c.ns)
  {
    hide Decls, Visit, Attach, Sound, MembersOf, BasesOf, DeclsOf, ReadTree, Fresh, OwnMembers, OwnBases;
    hide ThroughMembers, ThroughBases, Declared;
    DeclsSize(l);
    VisitDecls(l, c, d);
    var after := Visit(l, c, d);
    DeclsSize(after);
    var ds := Decls(l);
    AttachSize(ds, c.struct_, OwnMembers(d), OwnBases(d));
    if !d.hasChildren {
      LeafDecls(ds, c.struct_, d, children, c.ns);
    } else if d.tag == TAG_NAMESPACE {
      NamespaceDecls(ds, c.struct_, d, children, c.ns);
    } else if DeclaresStruct(d) {
      FreshSize(d, c.ns);
      StructDecls(ds, c.struct_, d, children, c.ns);
    } else {
      OtherDecls(ds, c.struct_, d, children, c.ns);
    }
  }

  lemma FreshSize(d: Head, ns: string)
    ensures |Fresh(d, ns)| == if DeclaresStruct(d) then 1 else 0
  {
  }

  /** The four kinds of entries, on declarations alone. */
  lemma LeafDecls(ds: seq<Decl>, i: int, d: Head, children: Forest, ns: string)
    requires NO_STRUCT <= i < |ds| && !d.hasChildren
    ensures Attach(ds, i, OwnMembers(d), OwnBases(d)) + Fresh(d, ns) ==
            Attach(ds, i, ThroughMembers(d, children), ThroughBases(d, children)) + Declared(d, children, ns)
  {
    hide Attach, OwnMembers, OwnBases, MembersOf, BasesOf;
    NilMeaning();
    assert OwnMembers(d) + [] == OwnMembers(d) && OwnBases(d) + [] == OwnBases(d);
    assert Fresh(d, ns) + [] == Fresh(d, ns);
  }

  lemma NamespaceDecls(ds: seq<Decl>, i: int, d: Head, children: Forest, ns: string)
    requires NO_STRUCT <= i < |ds| && d.hasChildren && d.tag == TAG_NAMESPACE
    ensures |Attach(ds, i, OwnMembers(d), OwnBases(d))| == |ds|
    ensures
      Attach(Attach(ds, i, OwnMembers(d), OwnBases(d)) + Fresh(d, ns), i, MembersOf(children), BasesOf(children))
      + DeclsOf(children, Prefix(d, ns)) ==
      Attach(ds, i, ThroughMembers(d, children), ThroughBases(d, children)) + Declared(d, children, ns)
  {
    hide Attach, OwnMembers, OwnBases, MembersOf, BasesOf, DeclsOf;
    var own := Attach(ds, i, OwnMembers(d), OwnBases(d));
    AttachSize(ds, i, OwnMembers(d), OwnBases(d));
    assert own + [] == own;
    AttachTwice(ds, i, OwnMembers(d), OwnBases(d), MembersOf(children), BasesOf(children));
    assert [] + DeclsOf(children, Prefix(d, ns)) == DeclsOf(children, Prefix(d, ns));
  }

  lemma StructDecls(ds: seq<Decl>, i: int, d: Head, children: Forest, ns: string)
    requires NO_STRUCT <= i < |ds| && d.hasChildren && DeclaresStruct(d)
    ensures |Attach(ds, i, OwnMembers(d), OwnBases(d))| == |ds| && |Fresh(d, ns)| == 1
    ensures
      Attach(Attach(ds, i, OwnMembers(d), OwnBases(d)) + Fresh(d, ns), |ds|, MembersOf(children), BasesOf(children))
      + DeclsOf(children, ns) ==
      Attach(ds, i, ThroughMembers(d, children), ThroughBases(d, children)) + Declared(d, children, ns)
  {
    hide Attach, OwnMembers, OwnBases, MembersOf, BasesOf, DeclsOf;
    var own := Attach(ds, i, OwnMembers(d), OwnBases(d));
    var ms, bs := MembersOf(children), BasesOf(children);
    AttachSize(ds, i, OwnMembers(d), OwnBases(d));
    assert OwnMembers(d) + [] == OwnMembers(d) && OwnBases(d) + [] == OwnBases(d);
    var x := Fresh(d, ns)[0];
    assert Fresh(d, ns) == [x];
    AttachLast(own, x, ms, bs);
    assert (own + [x.(bases := bs, members := ms)]) + DeclsOf(children, ns) ==
           own + ([x.(bases := bs, members := ms)] + DeclsOf(children, ns));
  }

  lemma OtherDecls(ds: seq<Decl>, i: int, d: Head, children: Forest, ns: string)
    requires NO_STRUCT <= i < |ds| && d.hasChildren && d.tag != TAG_NAMESPACE && !DeclaresStruct(d)
    ensures
      Attach(Attach(ds, i, OwnMembers(d), OwnBases(d)) + Fresh(d, ns), NO_STRUCT, MembersOf(children),
             BasesOf(children))
      + DeclsOf(children, ns) ==
      Attach(ds, i, ThroughMembers(d, children), ThroughBases(d, children)) + Declared(d, children, ns)
  {
    hide Attach, OwnMembers, OwnBases, MembersOf, BasesOf, DeclsOf;
    var own := Attach(ds, i, OwnMembers(d), OwnBases(d));
    AttachNowhere(own + Fresh(d, ns), MembersOf(children), BasesOf(children));
    assert OwnMembers(d) + [] == OwnMembers(d) && OwnBases(d) + [] == OwnBases(d);
    assert own + [] == own && [] + DeclsOf(children, ns) == DeclsOf(children, ns);
  }

  lemma NilMeaning()
    ensures MembersOf(Nil) == [] && BasesOf(Nil) == []
  {
  }

  lemma AttachSize(ds: seq<Decl>, i: int, ms: seq<Typed<MemberInfo>>, bs: seq<Typed<BaseInfo>>)
    requires NO_STRUCT <= i < |ds|
    ensures |Attach(ds, i, ms, bs)| == |ds|
  {
  }

  // ---------------------------------------------------------------------------------------------
  // The types
  // ---------------------------------------------------------------------------------------------

  /** What an entry registers as a type. */
  function EntryOf(d: Head, ns: string): Option<TypeEntry>
  {
    var name, full := d.info.name, Qualified(ns, d.info.name);
    match d.tag
    case 0x13 => if name == "" then None else Some(TypeEntry(full, 0, 0))             // structure_type
    case 0x02 => if name == "" then None else Some(TypeEntry(full, 0, 0))             // class_type
    case 0x17 => if name == "" then None else Some(TypeEntry(full, 0, 0))             // union_type
    case 0x04 => if name == "" then None else Some(TypeEntry(full, 0, 0))             // enumeration_type
    case 0x24 => if name == "" then None else Some(TypeEntry(full, 0, 0))             // base_type
    case 0x16 => if name == "" then None else Some(TypeEntry(full, d.typeOffset, 5))  // typedef
    case 0x0f => Some(TypeEntry("", d.typeOffset, 1))                                 // pointer_type
    case 0x42 => Some(TypeEntry("", d.typeOffset, 1))                                 // rvalue_reference_type
    case 0x10 => Some(TypeEntry("", d.typeOffset, 2))                                 // reference_type
    case 0x26 => Some(TypeEntry("", d.typeOffset, 3))                                 // const_type
    case 0x35 => Some(TypeEntry("", d.typeOffset, 4))                                 // volatile_type
    case 0x01 => Some(TypeEntry("", d.typeOffset, 6))                                 // array_type
    case _ => None
  }

  function OwnEntry(d: Head, ns: string): map<nat, TypeEntry>
  {
    match EntryOf(d, ns) case None => map[] case Some(e) => map[d.offset := e]
  }

  function RegistryOf(f: Forest, ns: string): map<nat, TypeEntry>
    decreases f
  {
    match f
    case Nil => map[]
    case Cons(d, children, siblings) =>
      OwnEntry(d, ns)
      + (if d.hasChildren then RegistryOf(children, Prefix(d, ns)) else map[])
      + RegistryOf(siblings, ns)
  }

  lemma VisitRegistry(l: Loader, c: Context, d: Head)
    requires InScope(l, c)
    ensures Visit(l, c, d).registry == l.registry + OwnEntry(d, c.ns)
  {
  }

  lemma InsidePrefix(after: Loader, c: Context, d: Head)
    ensures Inside(after, c, d).ns == Prefix(d, c.ns)
  {
  }

  lemma MapAssoc(a: map<nat, TypeEntry>, b: map<nat, TypeEntry>, c: map<nat, TypeEntry>)
    ensures (a + b) + c == a + (b + c) && a + map[] == a
  {
  }

  /** Reading a forest registers its types; a later entry replaces one with the same offset. */
  lemma {:induction false} TreeRegistry(l: Loader, c: Context, f: Forest)
    requires InScope(l, c)
    ensures ReadTree(l, c, f).registry == l.registry + RegistryOf(f, c.ns)
    decreases f
  {
    hide Visit, Inside, OwnEntry, Prefix;
    match f {
      case Nil =>
      case Cons(d, children, siblings) =>
        VisitKeepsScope(l, c, d);
        VisitRegistry(l, c, d);
        var after := Visit(l, c, d);
        InsidePrefix(after, c, d);
        var below := after;
        if d.hasChildren {
          TreeRegistry(after, Inside(after, c, d), children);
          below := ReadTree(after, Inside(after, c, d), children);
        }
        TreeRegistry(below, c, siblings);
        var own := OwnEntry(d, c.ns);
        var inner := if d.hasChildren then RegistryOf(children, Prefix(d, c.ns)) else map[];
        MapAssoc(l.registry, own, inner);
        MapAssoc(l.registry, own + inner, RegistryOf(siblings, c.ns));
    }
  }

  // ---------------------------------------------------------------------------------------------
  // The structs with the names of their types
  // ---------------------------------------------------------------------------------------------

  function NameOf(registry: map<nat, TypeEntry>, was: string, typeOffset: nat): string
  {
    if typeOffset == 0 then was else ResolveTypeName(registry, typeOffset, 0)
  }

  function Resolved(registry: map<nat, TypeEntry>, d: Decl): StructInfo
  {
    StructInfo(
      d.name, d.byteSize, d.hasSize,
      seq(|d.bases|, k requires 0 <= k < |d.bases| =>
        d.bases[k].info.(typeName := NameOf(registry, d.bases[k].info.typeName, d.bases[k].typeOffset))),
      seq(|d.members|, k requires 0 <= k < |d.members| =>
        d.members[k].info.(typeName := NameOf(registry, d.members[k].info.typeName, d.members[k].typeOffset))))
  }

  function AllResolved(registry: map<nat, TypeEntry>, ds: seq<Decl>): (r: seq<StructInfo>)
    ensures |r| == |ds| && forall i :: 0 <= i < |ds| ==> r[i] == Resolved(registry, ds[i])
  {
    seq(|ds|, i requires 0 <= i < |ds| => Resolved(registry, ds[i]))
  }

  /** A struct without the names of its types. */
  function Blank(s: StructInfo): StructInfo
  {
    s.(bases := seq(|s.bases|, k requires 0 <= k < |s.bases| => s.bases[k].(typeName := "")),
       members := seq(|s.members|, k requires 0 <= k < |s.members| => s.members[k].(typeName := "")))
  }

  lemma SetTypeNameKeeps(structs: seq<StructInfo>, s: Slot, name: string, i: nat)
    requires HasSlot(structs, s) && i < |structs|
    ensures Blank(SetTypeName(structs, s, name)[i]) == Blank(structs[i])
  {
  }

  /** Resolution changes nothing but the names of types. */
  lemma {:induction false} ResolveKeeps(l: Loader, n: nat, i: nat)
    requires Sound(l) && n <= |l.pending| && i < |l.structs|
    ensures Blank(ResolveFirst(l, n)[i]) == Blank(l.structs[i])
    decreases n
  {
    hide Blank, SetTypeName, ResolveTypeName;
    if n > 0 {
      ResolveKeeps(l, n - 1, i);
      var before := ResolveFirst(l, n - 1);
      var p := l.pending[n - 1];
      assert HasSlot(before, SlotOf(p));
      SetTypeNameKeeps(before, SlotOf(p), ResolveTypeName(l.registry, p.typeOffset, 0), i);
    }
  }

  lemma {:induction false} PendingTypeFound(pending: seq<PendingRef>, s: Slot)
    ensures PendingType(pending, s) != 0 ==>
      exists i :: 0 <= i < |pending| && SlotOf(pending[i]) == s && pending[i].typeOffset == PendingType(pending, s)
    ensures PendingType(pending, s) == 0 ==>
      forall i :: 0 <= i < |pending| && SlotOf(pending[i]) == s ==>
        exists k :: 0 <= k < |pending| && pending[k].typeOffset == 0
    decreases |pending|
  {
    if pending != [] {
      var front, last := pending[..|pending| - 1], pending[|pending| - 1];
      PendingTypeFound(front, s);
      if SlotOf(last) == s {
        assert pending[|pending| - 1].typeOffset == last.typeOffset;
      } else if PendingType(pending, s) != 0 {
        var i :| 0 <= i < |front| && SlotOf(front[i]) == s && front[i].typeOffset == PendingType(front, s);
        assert pending[i] == front[i];
      } else {
        forall i | 0 <= i < |pending| && SlotOf(pending[i]) == s
          ensures exists k :: 0 <= k < |pending| && pending[k].typeOffset == 0
        {
          assert front[i] == pending[i];
          var k :| 0 <= k < |front| && front[k].typeOffset == 0;
          assert pending[k] == front[k];
        }
      }
    }
  }

  lemma SlotNamed(l: Loader, s: Slot)
    requires Sound(l) && HasSlot(l.structs, s)
    ensures HasSlot(ResolveFirst(l, |l.pending|), s)
    ensures TypeName(ResolveFirst(l, |l.pending|), s)
         == NameOf(l.registry, TypeName(l.structs, s), PendingType(l.pending, s))
  {
    hide ResolveTypeName, TypeName, ResolveFirst, PendingType;
    ResolveFirstNames(l, |l.pending|, s);
    PendingTypeFound(l.pending, s);
    assert HasSlot(ResolveFirst(l, |l.pending|), s);
  }

  /** Two structs that agree but for type names, and have those that the declaration says. */
  lemma SameStruct(r: StructInfo, s: StructInfo, registry: map<nat, TypeEntry>, d: Decl)
    requires Blank(r) == Blank(s)
    requires d.name == s.name && d.byteSize == s.byteSize && d.hasSize == s.hasSize
    requires |d.bases| == |s.bases| && |d.members| == |s.members|
    requires forall k :: 0 <= k < |s.bases| ==> d.bases[k].info == s.bases[k]
    requires forall k :: 0 <= k < |s.members| ==> d.members[k].info == s.members[k]
    requires |r.bases| == |s.bases| && |r.members| == |s.members|
    requires forall k :: 0 <= k < |s.bases| ==>
      r.bases[k].typeName == NameOf(registry, s.bases[k].typeName, d.bases[k].typeOffset)
    requires forall k :: 0 <= k < |s.members| ==>
      r.members[k].typeName == NameOf(registry, s.members[k].typeName, d.members[k].typeOffset)
    ensures r == Resolved(registry, d)
  {
    hide NameOf;
    var want := Resolved(registry, d);
    forall k | 0 <= k < |s.bases|
      ensures r.bases[k] == want.bases[k]
    {
      assert Blank(r).bases[k] == Blank(s).bases[k];
    }
    forall k | 0 <= k < |s.members|
      ensures r.members[k] == want.members[k]
    {
      assert Blank(r).members[k] == Blank(s).members[k];
    }
  }

  lemma BlankSizes(r: StructInfo, s: StructInfo)
    requires Blank(r) == Blank(s)
    ensures |r.bases| == |s.bases| && |r.members| == |s.members|
  {
    assert |Blank(r).bases| == |Blank(s).bases| && |Blank(r).members| == |Blank(s).members|;
  }

  /** After resolution the loader holds its declarations with every type spelled out. */
  lemma FinalStructs(l: Loader)
    requires Sound(l)
    ensures ResolveFirst(l, |l.pending|) == AllResolved(l.registry, Decls(l))
  {
    hide Sound, ResolveFirst, Resolved, Blank, NameOf, PendingType;
    var now, ds := ResolveFirst(l, |l.pending|), Decls(l);
    forall i | 0 <= i < |now|
      ensures now[i] == Resolved(l.registry, ds[i])
    {
      var r, s, d := now[i], l.structs[i], ds[i];
      ResolveKeeps(l, |l.pending|, i);
      BlankSizes(r, s);
      forall k | 0 <= k < |s.bases|
        ensures r.bases[k].typeName == NameOf(l.registry, s.bases[k].typeName, d.bases[k].typeOffset)
      {
        SlotNamed(l, Slot(i, true, k));
      }
      forall k | 0 <= k < |s.members|
        ensures r.members[k].typeName == NameOf(l.registry, s.members[k].typeName, d.members[k].typeOffset)
      {
        SlotNamed(l, Slot(i, false, k));
      }
      SameStruct(r, s, l.registry, d);
    }
  }

  const EMPTY: Loader := Loader([], map[], [])

  /**
    The whole way: the bytes of a unit that spell a forest are read by the flat loop and resolved
    to the structs which that forest declares, every member and base with the name of its type.
   */
  lemma UnitMeaning(u: Unit, pos: nat, f: Forest)
    requires ValidUnit(u) && pos <= u.end && Spelled(u, pos, f).Some?
    requires
      var q := Spelled(u, pos, f).value;
      q < u.end ==> NextToken(u, q).Null?
    ensures
      var l := WalkOn(u, Walk(pos, TOP, [], EMPTY));
      Sound(l) && ResolveFirst(l, |l.pending|) == AllResolved(RegistryOf(f, ""), DeclsOf(f, ""))
  {
    hide WalkOn, ReadTree, Decls, NextToken, Spelled, ResolveFirst, AllResolved, DeclsOf, RegistryOf, MembersOf;
    hide BasesOf;
    assert Sound(EMPTY);
    NoDecls();
    LoopRefinesTreeReader(u, pos, TOP, EMPTY, f);
    TreeDecls(EMPTY, TOP, f);
    TreeRegistry(EMPTY, TOP, f);
    assert [] + DeclsOf(f, "") == DeclsOf(f, "") && map[] + RegistryOf(f, "") == RegistryOf(f, "");
    FinalStructs(ReadTree(EMPTY, TOP, f));
  }

  lemma NoDecls()
    ensures Decls(EMPTY) == []
  {
  }
}
