/**
  From the bytes a producer writes for a tree of entries to what the loader collects: the entries
  with their attribute values are read back as written.
 */
module DwarfProducer {
  import opened Basics
  import opened Bits
  import opened Leb128
  import opened DwarfAttributes
  import opened DwarfForms
  import opened DwarfDies
  import opened DwarfTypes
  import opened DwarfMeaning

  /** An entry by its abbreviation code and the values of its attributes. */
  datatype Item = Item(code: nat, values: seq<Payload>)

  /** A forest of entries as a producer has it. */
  datatype Source = NoItem | Items(item: Item, children: Source, siblings: Source)

  // ---------------------------------------------------------------------------------------------
  // Attributes
  // ---------------------------------------------------------------------------------------------

  predicate OkAttrs(f: Format, attrs: seq<AttrSpec>, values: seq<Payload>)
    decreases |attrs|
  {
    && |attrs| == |values|
    && (attrs != [] ==> FitsForm(attrs[0].form, f, values[0]) && OkAttrs(f, attrs[1..], values[1..]))
  }

  function WriteAttrs(f: Format, attrs: seq<AttrSpec>, values: seq<Payload>): seq<byte>
    requires OkAttrs(f, attrs, values)
    decreases |attrs|
  {
    if attrs == [] then [] else WriteForm(attrs[0].form, f, values[0]) + WriteAttrs(f, attrs[1..], values[1..])
  }

  /** The number and the string that an attribute stands for; an implicit constant (0x21) has its own. */
  function Seen(u: Unit, spec: AttrSpec, p: Payload): (nat, string)
    requires FitsForm(spec.form, u.format, p)
  {
    if spec.form == 0x21 then (WordOf(spec.implicitConst), "")
    else (Or0(FormValue(spec.form, u.format, p)), OrEmpty(FormText(u.sec, spec.form, u.format, p)))
  }

  function AbsorbAll(u: Unit, attrs: seq<AttrSpec>, values: seq<Payload>, info: Info): Info
    requires OkAttrs(u.format, attrs, values)
    decreases |attrs|
  {
    if attrs == [] then info
    else
      var (v, s) := Seen(u, attrs[0], values[0]);
      AbsorbAll(u, attrs[1..], values[1..], Absorb(info, attrs[0], v, s))
  }

  /** Only implicit constants. */
  predicate AllImplicit(attrs: seq<AttrSpec>)
  {
    forall i :: 0 <= i < |attrs| ==> attrs[i].form == 0x21
  }

  /** The last attribute that is no implicit constant, if there is one, takes at least one byte. */
  predicate EndsFirm(f: Format, attrs: seq<AttrSpec>, values: seq<Payload>)
    requires OkAttrs(f, attrs, values)
    decreases |attrs|
  {
    if AllImplicit(attrs) then true
    else if AllImplicit(attrs[1..]) then TakesBytes(attrs[0].form, f, values[0])
    else EndsFirm(f, attrs[1..], values[1..])
  }

  /**
    The attributes of an entry, up to the very end of the unit: all are read back if and only if
    another byte of the unit follows or they end firm; otherwise the entry is a parse error.
   */
  lemma {:induction false} AttrsRoundTrip(u: Unit, pos: nat, attrs: seq<AttrSpec>, values: seq<Payload>, info: Info)
    requires ValidUnit(u) && u.format.addrSize <= 8 && OkAttrs(u.format, attrs, values)
    requires At(u.data, pos, WriteAttrs(u.format, attrs, values))
    requires pos + |WriteAttrs(u.format, attrs, values)| <= u.end
    ensures
      var next := pos + |WriteAttrs(u.format, attrs, values)|;
      ReadAttrs(u, pos, attrs, info) ==
      if next < u.end || EndsFirm(u.format, attrs, values) then Some((next, AbsorbAll(u, attrs, values, info)))
      else None
    decreases |attrs|
  {
    hide At, ReadAttr, FitsForm, WriteForm, Absorb, FormValue, FormText, TakesBytes, AllImplicit;
    if attrs != [] {
      var spec, p := attrs[0], values[0];
      var (v, s) := Seen(u, spec, p);
      var here := pos + |WriteForm(spec.form, u.format, p)|;
      ImplicitParts(attrs);
      AtSplit(u.data, pos, WriteForm(spec.form, u.format, p), WriteAttrs(u.format, attrs[1..], values[1..]));
      AttrsRoundTrip(u, here, attrs[1..], values[1..], Absorb(info, spec, v, s));
      if spec.form == FORM_IMPLICIT_CONST {
        ImplicitIsEmpty(u.format, p);
        ReadsWord(spec.implicitConst);
      } else {
        AttrRoundTrip(u.sec, u.data, pos, u.end, spec.form, u.format, p, true, true);
        if AllImplicit(attrs[1..]) {
          ImplicitText(u.format, attrs[1..], values[1..]);
        } else if EndsFirm(u.format, attrs[1..], values[1..]) {
          FirmText(u.format, attrs[1..], values[1..]);
        }
      }
    } else {
      NoneImplicit(attrs);
    }
  }

  lemma ImplicitParts(attrs: seq<AttrSpec>)
    requires attrs != []
    ensures AllImplicit(attrs) <==> attrs[0].form == 0x21 && AllImplicit(attrs[1..])
  {
  }

  lemma NoneImplicit(attrs: seq<AttrSpec>)
    requires attrs == []
    ensures AllImplicit(attrs)
  {
  }

  lemma ImplicitIsEmpty(f: Format, p: Payload)
    requires FitsForm(0x21, f, p)
    ensures WriteForm(0x21, f, p) == []
  {
  }

  lemma {:induction false} ImplicitText(f: Format, attrs: seq<AttrSpec>, values: seq<Payload>)
    requires OkAttrs(f, attrs, values) && AllImplicit(attrs)
    ensures WriteAttrs(f, attrs, values) == [] && EndsFirm(f, attrs, values)
    decreases |attrs|
  {
    hide WriteForm, FitsForm;
    if attrs != [] {
      ImplicitIsEmpty(f, values[0]);
      ImplicitText(f, attrs[1..], values[1..]);
    }
  }

  /** Attributes that end firm and are not all implicit have some text. */
  lemma {:induction false} FirmText(f: Format, attrs: seq<AttrSpec>, values: seq<Payload>)
    requires OkAttrs(f, attrs, values) && EndsFirm(f, attrs, values) && !AllImplicit(attrs)
    ensures WriteAttrs(f, attrs, values) != []
    decreases |attrs|
  {
    hide WriteForm, FitsForm, TakesBytes;
    if AllImplicit(attrs[1..]) {
      LeafText(attrs[0].form, f, values[0]);
    } else {
      FirmText(f, attrs[1..], values[1..]);
    }
  }

  lemma {:induction false} LeafText(form: nat, f: Format, p: Payload)
    requires FitsForm(form, f, p) && TakesBytes(form, f, p)
    ensures WriteForm(form, f, p) != []
  {
    hide ShapeOf, Fitting, Write, EncodeUnsigned;
    if form != FORM_INDIRECT {
      LeafItself(form, f, p);
    }
  }

  // ---------------------------------------------------------------------------------------------
  // What the attributes say
  // ---------------------------------------------------------------------------------------------

  /** The last attribute with a name, if there is one. */
  function Last(u: Unit, attrs: seq<AttrSpec>, values: seq<Payload>, name: nat): Option<(nat, nat)>
    requires OkAttrs(u.format, attrs, values)
    decreases |attrs|
  {
    if attrs == [] then None
    else
      var later := Last(u, attrs[1..], values[1..], name);
      if later.Some? then later
      else if attrs[0].name == name then Some((Seen(u, attrs[0], values[0]).0, attrs[0].form))
      else None
  }

  /** The last name (attribute 0x03) that is not empty. */
  function LastName(u: Unit, attrs: seq<AttrSpec>, values: seq<Payload>): string
    requires OkAttrs(u.format, attrs, values)
    decreases |attrs|
  {
    if attrs == [] then ""
    else
      var later := LastName(u, attrs[1..], values[1..]);
      if later != "" then later
      else if attrs[0].name == 0x03 then Seen(u, attrs[0], values[0]).1
      else ""
  }

  function Or(x: Option<(nat, nat)>, was: nat): nat { if x.Some? then x.value.0 else was }

  /**
    Name, location (0x38), size (0x0b) and type (0x49) are those of the last attribute of each kind.
   */
  lemma InfoIs(u: Unit, attrs: seq<AttrSpec>, values: seq<Payload>, info: Info)
    requires OkAttrs(u.format, attrs, values)
    ensures
      var r := AbsorbAll(u, attrs, values, info);
      var loc, size := Last(u, attrs, values, 0x38), Last(u, attrs, values, 0x0b);
      var ty, name := Last(u, attrs, values, 0x49), LastName(u, attrs, values);
      && r.name == (if name != "" then name else info.name)
      && r.memberLoc == Or(loc, info.memberLoc) && r.hasMemberLoc == (loc.Some? || info.hasMemberLoc)
      && r.byteSize == Or(size, info.byteSize) && r.hasByteSize == (size.Some? || info.hasByteSize)
      && r.typeRef == Or(ty, info.typeRef) && r.typeForm == (if ty.Some? then ty.value.1 else info.typeForm)
  {
    hide AbsorbAll, Last, LastName;
    InfoName(u, attrs, values, info);
    InfoLocation(u, attrs, values, info);
    InfoSize(u, attrs, values, info);
    InfoType(u, attrs, values, info);
  }

  lemma {:induction false} InfoName(u: Unit, attrs: seq<AttrSpec>, values: seq<Payload>, info: Info)
    requires OkAttrs(u.format, attrs, values)
    ensures
      var name := LastName(u, attrs, values);
      AbsorbAll(u, attrs, values, info).name == if name != "" then name else info.name
    decreases |attrs|
  {
    hide Seen, FitsForm;
    if attrs != [] {
      var (v, s) := Seen(u, attrs[0], values[0]);
      InfoName(u, attrs[1..], values[1..], Absorb(info, attrs[0], v, s));
    }
  }

  lemma {:induction false} InfoLocation(u: Unit, attrs: seq<AttrSpec>, values: seq<Payload>, info: Info)
    requires OkAttrs(u.format, attrs, values)
    ensures
      var loc, r := Last(u, attrs, values, 0x38), AbsorbAll(u, attrs, values, info);
      r.memberLoc == Or(loc, info.memberLoc) && r.hasMemberLoc == (loc.Some? || info.hasMemberLoc)
    decreases |attrs|
  {
    hide Seen, FitsForm;
    if attrs != [] {
      var (v, s) := Seen(u, attrs[0], values[0]);
      InfoLocation(u, attrs[1..], values[1..], Absorb(info, attrs[0], v, s));
    }
  }

  lemma {:induction false} InfoSize(u: Unit, attrs: seq<AttrSpec>, values: seq<Payload>, info: Info)
    requires OkAttrs(u.format, attrs, values)
    ensures
      var size, r := Last(u, attrs, values, 0x0b), AbsorbAll(u, attrs, values, info);
      r.byteSize == Or(size, info.byteSize) && r.hasByteSize == (size.Some? || info.hasByteSize)
    decreases |attrs|
  {
    hide Seen, FitsForm;
    if attrs != [] {
      var (v, s) := Seen(u, attrs[0], values[0]);
      InfoSize(u, attrs[1..], values[1..], Absorb(info, attrs[0], v, s));
    }
  }

  lemma {:induction false} InfoType(u: Unit, attrs: seq<AttrSpec>, values: seq<Payload>, info: Info)
    requires OkAttrs(u.format, attrs, values)
    ensures
      var ty, r := Last(u, attrs, values, 0x49), AbsorbAll(u, attrs, values, info);
      r.typeRef == Or(ty, info.typeRef) && r.typeForm == if ty.Some? then ty.value.1 else info.typeForm
    decreases |attrs|
  {
    hide Seen, FitsForm;
    if attrs != [] {
      var (v, s) := Seen(u, attrs[0], values[0]);
      InfoType(u, attrs[1..], values[1..], Absorb(info, attrs[0], v, s));
    }
  }

  // ---------------------------------------------------------------------------------------------
  // Entries
  // ---------------------------------------------------------------------------------------------

  predicate OkItem(u: Unit, it: Item)
  {
    0 < it.code < U32 && it.code in u.table && OkAttrs(u.format, u.table[it.code].attrs, it.values)
  }

  function WriteItem(u: Unit, it: Item): (s: seq<byte>)
    requires OkItem(u, it)
    ensures |s| > 0
  {
    EncodeUnsigned(it.code) + WriteAttrs(u.format, u.table[it.code].attrs, it.values)
  }

  function HeadOf(u: Unit, pos: nat, it: Item): Head
    requires OkItem(u, it)
  {
    var entry := u.table[it.code];
    var info := AbsorbAll(u, entry.attrs, it.values, NO_INFO);
    Head(pos, entry.tag, entry.hasChildren, info, TypeOffset(u, info))
  }

  /** An entry that can stand at the very end of a unit. */
  predicate Firm(u: Unit, it: Item)
    requires OkItem(u, it)
  {
    EndsFirm(u.format, u.table[it.code].attrs, it.values)
  }

  /**
    An entry is read back as written if and only if another byte of the unit follows or it is
    firm; otherwise the loader takes it for a parse error.
   */
  lemma ItemRoundTrip(u: Unit, pos: nat, it: Item)
    requires ValidUnit(u) && u.format.addrSize <= 8 && OkItem(u, it)
    requires At(u.data, pos, WriteItem(u, it)) && pos + |WriteItem(u, it)| <= u.end
    ensures pos < u.end
    ensures NextToken(u, pos) ==
            if pos + |WriteItem(u, it)| < u.end || Firm(u, it) then Entry(pos + |WriteItem(u, it)|, HeadOf(u, pos, it))
            else Broken
  {
    hide At, Unsigned, EncodeUnsigned, ReadAttrs, WriteAttrs, AbsorbAll, OkAttrs, EndsFirm, Low, Pow2;
    var code, rest := EncodeUnsigned(it.code), WriteAttrs(u.format, u.table[it.code].attrs, it.values);
    AtSplit(u.data, pos, code, rest);
    Small32(it.code);
    UnsignedRoundTrip(it.code, u.data, pos, u.end);
    AttrsRoundTrip(u, pos + |code|, u.table[it.code].attrs, it.values, NO_INFO);
  }

  /** A code that the table of abbreviations does not have is a parse error. */
  lemma UnknownCodeIsRefused(u: Unit, pos: nat, code: nat)
    requires ValidUnit(u) && 0 < code < 0x1_0000_0000 && code !in u.table
    requires At(u.data, pos, EncodeUnsigned(code)) && pos + |EncodeUnsigned(code)| <= u.end
    ensures pos < u.end && NextToken(u, pos) == Broken
  {
    hide At, Unsigned, ReadAttrs, Low, Pow2;
    Small32(code);
    UnsignedRoundTrip(code, u.data, pos, u.end);
  }

  /** A null entry. */
  lemma NullRoundTrip(u: Unit, pos: nat)
    requires ValidUnit(u) && pos < u.end && At(u.data, pos, [0])
    ensures NextToken(u, pos) == Null(pos + 1)
  {
    hide At, Unsigned, ReadAttrs, Low, Pow2;
    ZeroEncoded();
    UnsignedRoundTrip(0, u.data, pos, u.end);
  }

  lemma ZeroEncoded()
    ensures EncodeUnsigned(0) == [0]
  {
  }

  /** A flag as the last attribute of a unit's last entry: the loader gives up on the entry. */
  lemma FlagAtEndIsRefused(u: Unit, pos: nat, it: Item)
    requires ValidUnit(u) && u.format.addrSize <= 8 && OkItem(u, it)
    requires At(u.data, pos, WriteItem(u, it)) && pos + |WriteItem(u, it)| == u.end
    requires
      var attrs := u.table[it.code].attrs;
      attrs != [] && attrs[|attrs| - 1].form == 0x19
    ensures pos < u.end && NextToken(u, pos) == Broken
  {
    hide At, NextToken, WriteItem;
    ItemRoundTrip(u, pos, it);
    FlagIsNotFirm(u.format, u.table[it.code].attrs, it.values);
  }

  lemma {:induction false} FlagIsNotFirm(f: Format, attrs: seq<AttrSpec>, values: seq<Payload>)
    requires OkAttrs(f, attrs, values) && attrs != [] && attrs[|attrs| - 1].form == 0x19
    ensures !EndsFirm(f, attrs, values)
    decreases |attrs|
  {
    assert !AllImplicit(attrs);
    if |attrs| > 1 {
      assert attrs[1..][|attrs| - 2] == attrs[|attrs| - 1];
      assert !AllImplicit(attrs[1..]);
      FlagIsNotFirm(f, attrs[1..], values[1..]);
    }
  }

  // ---------------------------------------------------------------------------------------------
  // Trees
  // ---------------------------------------------------------------------------------------------

  predicate HasChildren(u: Unit, it: Item)
    requires OkItem(u, it)
  {
    u.table[it.code].hasChildren
  }

  predicate OkSource(u: Unit, s: Source)
  {
    match s
    case NoItem => true
    case Items(it, children, siblings) =>
      && OkItem(u, it) && OkSource(u, children) && OkSource(u, siblings)
      && (!HasChildren(u, it) ==> children == NoItem)
  }

  /** Children are closed by a null entry. */
  function WriteBelow(u: Unit, it: Item, children: Source): seq<byte>
    requires OkItem(u, it) && OkSource(u, children)
    decreases children, 1
  {
    if HasChildren(u, it) then WriteSource(u, children) + [0] else []
  }

  function WriteSource(u: Unit, s: Source): seq<byte>
    requires OkSource(u, s)
    decreases s, 0
  {
    match s
    case NoItem => []
    case Items(it, children, siblings) =>
      WriteItem(u, it) + (WriteBelow(u, it, children) + WriteSource(u, siblings))
  }

  function ForestOf(u: Unit, pos: nat, s: Source): Forest
    requires OkSource(u, s)
    decreases s
  {
    match s
    case NoItem => Nil
    case Items(it, children, siblings) =>
      var inner := pos + |WriteItem(u, it)|;
      Cons(HeadOf(u, pos, it), ForestOf(u, inner, children),
           ForestOf(u, inner + |WriteBelow(u, it, children)|, siblings))
  }

  /** The last entry of the level has a closing null behind it, or is firm. */
  predicate Closed(u: Unit, s: Source)
    requires OkSource(u, s)
    decreases s
  {
    match s
    case NoItem => true
    case Items(it, _, siblings) => if siblings == NoItem then HasChildren(u, it) || Firm(u, it) else Closed(u, siblings)
  }

  /** The bytes of a source stand in the unit. */
  predicate Placed(u: Unit, pos: nat, s: Source)
  {
    && ValidUnit(u) && u.format.addrSize <= 8 && OkSource(u, s)
    && At(u.data, pos, WriteSource(u, s)) && pos + |WriteSource(u, s)| <= u.end
  }

  /** Another byte of the unit follows, or the source can stand at its very end. */
  predicate Readable(u: Unit, pos: nat, s: Source)
    requires OkSource(u, s)
  {
    pos + |WriteSource(u, s)| < u.end || Closed(u, s)
  }

  lemma SourceParts(u: Unit, pos: nat, s: Source)
    requires Placed(u, pos, s) && s.Items?
    ensures
      var inner := pos + |WriteItem(u, s.item)|;
      var after := inner + |WriteBelow(u, s.item, s.children)|;
      && At(u.data, pos, WriteItem(u, s.item)) && inner <= u.end
      && (HasChildren(u, s.item) ==>
            && inner < u.end && Placed(u, inner, s.children) && Readable(u, inner, s.children)
            && after == inner + |WriteSource(u, s.children)| + 1 <= u.end
            && At(u.data, after - 1, [0]))
      && (!HasChildren(u, s.item) ==> after == inner)
      && Placed(u, after, s.siblings)
      && after + |WriteSource(u, s.siblings)| == pos + |WriteSource(u, s)|
  {
    hide At, WriteItem, OkItem, HasChildren, Closed, WriteBelow, WriteSource, Readable;
    PartsText(u, s);
    var a, b, c := WriteItem(u, s.item), WriteBelow(u, s.item, s.children), WriteSource(u, s.siblings);
    AtSplit(u.data, pos, a, b + c);
    AtSplit(u.data, pos + |a|, b, c);
    if HasChildren(u, s.item) {
      AtSplit(u.data, pos + |a|, WriteSource(u, s.children), [0]);
      StillReadable(u, pos + |a|, s.children);
    }
  }

  /** The definitions one entry deep. */
  lemma PartsText(u: Unit, s: Source)
    requires OkSource(u, s) && s.Items?
    ensures OkSource(u, s.children) && OkSource(u, s.siblings)
    ensures WriteSource(u, s) == WriteItem(u, s.item) + (WriteBelow(u, s.item, s.children) + WriteSource(u, s.siblings))
    ensures WriteBelow(u, s.item, s.children) == if HasChildren(u, s.item) then WriteSource(u, s.children) + [0] else []
  {
    hide WriteItem, OkItem, HasChildren;
  }

  lemma StillReadable(u: Unit, pos: nat, s: Source)
    requires OkSource(u, s) && pos + |WriteSource(u, s)| < u.end
    ensures Readable(u, pos, s)
  {
  }

  /** What decides whether an entry with its children and siblings can be read. */
  lemma ReadableParts(u: Unit, pos: nat, s: Source)
    requires Placed(u, pos, s) && s.Items?
    ensures
      var inner := pos + |WriteItem(u, s.item)|;
      var after := inner + |WriteBelow(u, s.item, s.children)|;
      && (s.siblings.Items? ==> inner < u.end && (Readable(u, after, s.siblings) <==> Readable(u, pos, s)))
      && (s.siblings.NoItem? ==>
            && Readable(u, after, s.siblings)
            && (Readable(u, pos, s) <==> HasChildren(u, s.item) || inner < u.end || Firm(u, s.item)))
  {
    hide At, WriteItem, OkItem, HasChildren, Firm;
    SourceNotEmpty(u, s.siblings);
  }

  lemma SourceNotEmpty(u: Unit, s: Source)
    requires OkSource(u, s)
    ensures s.Items? ==> |WriteSource(u, s)| > 0
  {
    hide OkItem;
  }

  /**
    The bytes of a source spell its forest if and only if they are followed by another byte of the
    unit or can stand at its very end; otherwise they spell nothing.
   */
  lemma {:induction false} SourceSpelled(u: Unit, pos: nat, s: Source)
    requires Placed(u, pos, s)
    ensures pos <= u.end
    ensures Spelled(u, pos, ForestOf(u, pos, s)) ==
            if Readable(u, pos, s) then Some(pos + |WriteSource(u, s)|) else None
    decreases s
  {
    hide Placed, Readable, WriteItem, WriteSource, WriteBelow, NextToken, HeadOf, Closed, At, Spelled, ForestOf, OkItem;
    hide HasChildren, Firm;
    PlacedInside(u, pos, s);
    match s {
      case NoItem =>
        SpelledNil(u, pos);
      case Items(it, children, siblings) =>
        ForestParts(u, pos, s);
        SourceParts(u, pos, s);
        ReadableParts(u, pos, s);
        var inner := pos + |WriteItem(u, it)|;
        var after := inner + |WriteBelow(u, it, children)|;
        ItemRoundTrip(u, pos, it);
        HeadFlag(u, pos, it);
        if HasChildren(u, it) {
          SourceSpelled(u, inner, children);
          NullRoundTrip(u, after - 1);
        }
        SourceSpelled(u, after, siblings);
        if inner < u.end || Firm(u, it) {
          SpelledCons(u, pos, HeadOf(u, pos, it), ForestOf(u, inner, children), ForestOf(u, after, siblings), after);
        } else {
          SpelledBroken(u, pos, ForestOf(u, pos, s));
        }
    }
  }

  lemma SpelledBroken(u: Unit, pos: nat, f: Forest)
    requires ValidUnit(u) && pos < u.end && NextToken(u, pos).Broken? && f.Cons?
    ensures Spelled(u, pos, f) == None
  {
    hide NextToken;
  }

  lemma SpelledNil(u: Unit, pos: nat)
    requires ValidUnit(u) && pos <= u.end
    ensures Spelled(u, pos, Nil) == Some(pos) && ForestOf(u, pos, NoItem) == Nil
  {
  }

  lemma ForestParts(u: Unit, pos: nat, s: Source)
    requires OkSource(u, s) && s.Items?
    ensures
      var inner := pos + |WriteItem(u, s.item)|;
      var after := inner + |WriteBelow(u, s.item, s.children)|;
      && OkItem(u, s.item) && OkSource(u, s.children) && OkSource(u, s.siblings)
      && (!HasChildren(u, s.item) ==> s.children == NoItem && ForestOf(u, inner, s.children) == Nil)
      && ForestOf(u, pos, s) ==
         Cons(HeadOf(u, pos, s.item), ForestOf(u, inner, s.children), ForestOf(u, after, s.siblings))
  {
    hide WriteItem, WriteBelow, HeadOf, OkItem;
  }

  /** One entry, its children up to their null entry, and the rest of the level. */
  lemma SpelledCons(u: Unit, pos: nat, d: Head, children: Forest, siblings: Forest, after: nat)
    requires ValidUnit(u) && pos < u.end && NextToken(u, pos).Entry? && NextToken(u, pos).die == d
    requires after <= u.end
    requires
      var next := NextToken(u, pos).next;
      if d.hasChildren then
        var q := Spelled(u, next, children);
        q.Some? && q.value < u.end && NextToken(u, q.value) == Null(after)
      else children == Nil && after == next
    ensures Spelled(u, pos, Cons(d, children, siblings)) == Spelled(u, after, siblings)
  {
    hide NextToken;
  }

  lemma HeadFlag(u: Unit, pos: nat, it: Item)
    requires OkItem(u, it)
    ensures HeadOf(u, pos, it).hasChildren == HasChildren(u, it)
  {
  }

  lemma PlacedInside(u: Unit, pos: nat, s: Source)
    requires Placed(u, pos, s)
    ensures pos <= u.end && ValidUnit(u) && u.format.addrSize <= 8 && OkSource(u, s)
    ensures s.NoItem? ==> WriteSource(u, s) == [] && Readable(u, pos, s)
  {
  }

  /**
    From a producer's tree to the loader's structs: a unit that holds the bytes of a forest, closed
    by its end, is loaded as the structs that the forest declares, with every type named.
   */
  lemma ProducedUnitMeaning(u: Unit, pos: nat, s: Source)
    requires Placed(u, pos, s) && pos + |WriteSource(u, s)| == u.end && Readable(u, pos, s)
    ensures
      var f := ForestOf(u, pos, s);
      var l := WalkOn(u, Walk(pos, TOP, [], EMPTY));
      Sound(l) && ResolveFirst(l, |l.pending|) == AllResolved(RegistryOf(f, ""), DeclsOf(f, ""))
  {
    hide Placed, Readable, WriteSource, WalkOn, Spelled, NextToken, ForestOf, ResolveFirst, AllResolved, RegistryOf;
    hide DeclsOf;
    PlacedInside(u, pos, s);
    SourceSpelled(u, pos, s);
    UnitMeaning(u, pos, ForestOf(u, pos, s));
  }

  // ---------------------------------------------------------------------------------------------
  // References to types
  // ---------------------------------------------------------------------------------------------

  /** What a reference is by section 7.5.5 of the DWARF 5 standard. */
  datatype Target =
    | InSection(offset: nat)      // an entry of `.debug_info`
    | Signature(signature: nat)   // the signature of a type unit
    | Supplementary(offset: nat)  // an entry of the supplementary file
    | NotAReference

  /** The real form says what kind of reference it is and what its number is relative to. */
  function StandardReference(u: Unit, spec: AttrSpec, p: Payload): Target
    requires FitsForm(spec.form, u.format, p)
  {
    var form, v := Leaf(spec.form, u.format, p).0, Seen(u, spec, p).0;
    if form in {0x11, 0x12, 0x13, 0x14, 0x15} then InSection(u.base + v)  // ref1, ref2, ref4, ref8, ref_udata
    else if form == 0x10 then InSection(v)                                // ref_addr
    else if form == 0x20 then Signature(v)                                // ref_sig8
    else if form in {0x1c, 0x24} then Supplementary(v)                    // ref_sup4, ref_sup8
    else NotAReference
  }

  /** The last type attribute of an entry decides. */
  predicate IsTypeAttr(attrs: seq<AttrSpec>, k: nat)
  {
    k < |attrs| && attrs[k].name == 0x49 && forall j :: k < j < |attrs| ==> attrs[j].name != 0x49
  }

  lemma {:induction false} AttrFits(f: Format, attrs: seq<AttrSpec>, values: seq<Payload>, k: nat)
    requires OkAttrs(f, attrs, values) && k < |attrs|
    ensures |values| == |attrs| && FitsForm(attrs[k].form, f, values[k])
    decreases k
  {
    hide FitsForm;
    if k > 0 {
      AttrFits(f, attrs[1..], values[1..], k - 1);
    }
  }

  lemma {:induction false} LastIsNone(u: Unit, attrs: seq<AttrSpec>, values: seq<Payload>, name: nat)
    requires OkAttrs(u.format, attrs, values) && forall j :: 0 <= j < |attrs| ==> attrs[j].name != name
    ensures Last(u, attrs, values, name) == None
    decreases |attrs|
  {
    hide FitsForm;
    if attrs != [] {
      LastIsNone(u, attrs[1..], values[1..], name);
    }
  }

  lemma {:induction false} LastIs(u: Unit, attrs: seq<AttrSpec>, values: seq<Payload>, k: nat)
    requires OkAttrs(u.format, attrs, values) && IsTypeAttr(attrs, k)
    requires |values| == |attrs| && FitsForm(attrs[k].form, u.format, values[k])
    ensures Last(u, attrs, values, 0x49) == Some((Seen(u, attrs[k], values[k]).0, attrs[k].form))
    decreases k
  {
    hide FitsForm, Seen;
    if k > 0 {
      assert attrs[1..][k - 1] == attrs[k] && values[1..][k - 1] == values[k];
      LastIs(u, attrs[1..], values[1..], k - 1);
    } else {
      LastIsNone(u, attrs[1..], values[1..], 0x49);
    }
  }

  /**
    The offset that the loader keeps for the type of an entry, against the standard.  The loader
    looks at the form in the abbreviation and takes every number for an offset in the section.  So
    it is right if and only if the real form is `ref_addr`, or it is relative to the unit and
    either the form is direct (and the sum fits a word) or the unit starts the section.
   */
  lemma ReferenceExact(u: Unit, pos: nat, it: Item, k: nat)
    requires OkItem(u, it) && IsTypeAttr(u.table[it.code].attrs, k)
    ensures
      var attrs := u.table[it.code].attrs;
      && |it.values| == |attrs| && FitsForm(attrs[k].form, u.format, it.values[k])
      && var v := Seen(u, attrs[k], it.values[k]).0;
      HeadOf(u, pos, it).typeOffset ==
      if attrs[k].form in {0x11, 0x12, 0x13, 0x14, 0x15} then (u.base + v) % 0x1_0000_0000_0000_0000 else v
    ensures
      var attrs := u.table[it.code].attrs;
      && |it.values| == |attrs| && FitsForm(attrs[k].form, u.format, it.values[k])
      && var form := Leaf(attrs[k].form, u.format, it.values[k]).0;
      && var v := Seen(u, attrs[k], it.values[k]).0;
      (StandardReference(u, attrs[k], it.values[k]) == InSection(HeadOf(u, pos, it).typeOffset) <==>
       || form == 0x10
       || (form in {0x11, 0x12, 0x13, 0x14, 0x15} &&
           if attrs[k].form == 0x16 then u.base == 0 else u.base + v < 0x1_0000_0000_0000_0000))
  {
    hide FitsForm, AbsorbAll, OkAttrs, Seen, Last, LastName;
    var attrs := u.table[it.code].attrs;
    AttrFits(u.format, attrs, it.values, k);
    LastIs(u, attrs, it.values, k);
    InfoType(u, attrs, it.values, NO_INFO);
    FormNotZero(attrs[k].form, u.format, it.values[k]);
    if attrs[k].form != 0x16 {
      LeafItself(attrs[k].form, u.format, it.values[k]);
    }
  }

  /** An entry without a type attribute has no type. */
  lemma NoTypeNoOffset(u: Unit, pos: nat, it: Item)
    requires OkItem(u, it) && forall k :: 0 <= k < |u.table[it.code].attrs| ==> u.table[it.code].attrs[k].name != 0x49
    ensures HeadOf(u, pos, it).typeOffset == 0
  {
    hide AbsorbAll, OkAttrs, Last, LastName;
    var attrs := u.table[it.code].attrs;
    LastIsNone(u, attrs, it.values, 0x49);
    InfoType(u, attrs, it.values, NO_INFO);
  }

  lemma FormNotZero(form: nat, f: Format, p: Payload)
    requires FitsForm(form, f, p)
    ensures form != 0
  {
  }

  /** An entry with one attribute, a type. */
  predicate OnlyType(u: Unit, it: Item, form: nat, p: Payload)
  {
    && 0 < it.code < U32 && it.code in u.table
    && u.table[it.code].attrs == [AttrSpec(0x49, form, 0)] && it.values == [p]
  }

  lemma OnlyTypeOk(u: Unit, it: Item, form: nat, p: Payload)
    requires OnlyType(u, it, form, p) && FitsForm(form, u.format, p)
    ensures OkItem(u, it) && IsTypeAttr(u.table[it.code].attrs, 0)
  {
    hide FitsForm;
    var attrs, values := u.table[it.code].attrs, it.values;
    assert attrs[1..] == [] && values[1..] == [] && attrs[0].form == form && values[0] == p;
    assert OkAttrs(u.format, attrs[1..], values[1..]);
    assert OkAttrs(u.format, attrs, values);
  }

  /** A type signature is looked up as if it were an offset. */
  lemma SignatureTakenForOffset(u: Unit, pos: nat, it: Item)
    requires OnlyType(u, it, 0x20, Numeric(0x1234))
    ensures OkItem(u, it) && HeadOf(u, pos, it).typeOffset == 0x1234
    ensures FitsForm(0x20, u.format, Numeric(0x1234))
    ensures StandardReference(u, AttrSpec(0x49, 0x20, 0), Numeric(0x1234)) == Signature(0x1234)
  {
    hide AbsorbAll, Last, OkAttrs, Pow2;
    var p := Numeric(0x1234);
    WordNumber(0x1234);
    assert FitsForm(0x20, u.format, p);
    OnlyTypeOk(u, it, 0x20, p);
    LastIs(u, u.table[it.code].attrs, it.values, 0);
    InfoType(u, u.table[it.code].attrs, it.values, NO_INFO);
  }

  /** An indirect reference relative to the unit loses the start of the unit. */
  lemma IndirectTakenForAbsolute(u: Unit, pos: nat, it: Item)
    requires u.base == 0x100 && OnlyType(u, it, 0x16, Indirect(0x13, Numeric(0x20)))
    ensures OkItem(u, it) && HeadOf(u, pos, it).typeOffset == 0x20
    ensures FitsForm(0x16, u.format, Indirect(0x13, Numeric(0x20)))
    ensures StandardReference(u, AttrSpec(0x49, 0x16, 0), Indirect(0x13, Numeric(0x20))) ==
      InSection(0x120)
  {
    hide AbsorbAll, Last, OkAttrs, Pow2;
    var p := Indirect(0x13, Numeric(0x20));
    WordNumber(0x20);
    assert FitsForm(0x13, u.format, p.inner);
    assert FitsForm(0x16, u.format, p);
    OnlyTypeOk(u, it, 0x16, p);
    LastIs(u, u.table[it.code].attrs, it.values, 0);
    InfoType(u, u.table[it.code].attrs, it.values, NO_INFO);
  }

  lemma WordNumber(v: nat)
    requires v < 0x1_0000
    ensures v < Pow2(8 * 4) && v < Pow2(8 * 8)
  {
    hide Pow2;
    Pow2Of32();
    Pow2Grows(32, 64);
  }
}
