/**
  How a producer writes attribute values (table 7.6 and section 7.5.6 of the DWARF 5 standard),
  and that `ReadAttrValue` reads every one of them back.
 */
module DwarfForms {
  import opened Basics
  import opened Bits
  import opened Leb128
  import opened DwarfAttributes

  /** The shapes a value can take in `.debug_info`. */
  datatype Shape =
    | Fixed(size: nat)
    | Leb
    | SignedLeb
    | Inline
    | Counted(size: nat)
    | LebBlock
    | Nothing

  /** What the loader makes of it. */
  datatype Use = Plain | Skipped | StringOffset | StringIndex | Expression | One

  /** The standard's table, for the forms the loader knows. */
  function ShapeOf(form: nat, f: Format): Option<(Shape, Use)>
  {
    match form
    case 0x01 => Some((Fixed(f.addrSize), Plain))        // addr
    case 0x03 => Some((Counted(2), Expression)) // block2
    case 0x04 => Some((Counted(4), Expression)) // block4
    case 0x05 => Some((Fixed(2), Plain))                 // data2
    case 0x06 => Some((Fixed(4), Plain))                 // data4
    case 0x07 => Some((Fixed(8), Plain))                 // data8
    case 0x08 => Some((Inline, Plain))                   // string
    case 0x09 => Some((LebBlock, Expression))            // block
    case 0x0a => Some((Counted(1), Expression)) // block1
    case 0x0b => Some((Fixed(1), Plain))                 // data1
    case 0x0c => Some((Fixed(1), Plain))                 // flag
    case 0x0d => Some((SignedLeb, Plain))                // sdata
    case 0x0e => Some((Fixed(OffsetSize(f)), StringOffset)) // strp
    case 0x0f => Some((Leb, Plain))                      // udata
    case 0x10 => Some((Fixed(OffsetSize(f)), Plain))     // ref_addr
    case 0x11 => Some((Fixed(1), Plain))                 // ref1
    case 0x12 => Some((Fixed(2), Plain))                 // ref2
    case 0x13 => Some((Fixed(4), Plain))                 // ref4
    case 0x14 => Some((Fixed(8), Plain))                 // ref8
    case 0x15 => Some((Leb, Plain))                      // ref_udata
    case 0x17 => Some((Fixed(OffsetSize(f)), Plain))     // sec_offset
    case 0x18 => Some((LebBlock, Expression))            // exprloc
    case 0x19 => Some((Nothing, One))                    // flag_present
    case 0x1a => Some((Leb, StringIndex))                // strx
    case 0x1b => Some((Leb, Skipped))                    // addrx
    case 0x1c => Some((Fixed(4), Plain))                 // ref_sup4
    case 0x1d => Some((Fixed(OffsetSize(f)), Skipped))   // strp_sup
    case 0x1e => Some((Fixed(16), Skipped))              // data16
    case 0x1f => Some((Fixed(OffsetSize(f)), Skipped))   // line_strp
    case 0x20 => Some((Fixed(8), Plain))                 // ref_sig8
    case 0x21 => Some((Nothing, Skipped))                // implicit_const
    case 0x22 => Some((Leb, Skipped))                    // loclistx
    case 0x23 => Some((Leb, Skipped))                    // rnglistx
    case 0x24 => Some((Fixed(8), Plain))                 // ref_sup8
    case 0x25 => Some((Fixed(1), StringIndex))           // strx1
    case 0x26 => Some((Fixed(2), StringIndex))           // strx2
    case 0x27 => Some((Fixed(3), StringIndex))           // strx3
    case 0x28 => Some((Fixed(4), StringIndex))           // strx4
    case 0x29 => Some((Fixed(1), Skipped))               // addrx1
    case 0x2a => Some((Fixed(2), Skipped))               // addrx2
    case 0x2b => Some((Fixed(3), Skipped))               // addrx3
    case 0x2c => Some((Fixed(4), Skipped))               // addrx4
    case _ => None
  }

  /**
    A value: a number, an inline string, a block of any bytes, or a value behind an indirect form
    that names its real form in the data.
   */
  datatype Payload =
    | Numeric(v: int)
    | Chars(bytes: seq<byte>)
    | Block(content: seq<byte>)
    | Indirect(form: nat, inner: Payload)

  function LittleEndianBytes(v: nat, n: nat): (s: seq<byte>)
    ensures |s| == n
    decreases n
  {
    if n == 0 then [] else [v % 256] + LittleEndianBytes(v / 256, n - 1)
  }

  /** What the loader makes of a block: the operand of a leading `plus_uconst` or `constu`. */
  function Operand(content: seq<byte>): Option<nat>
  {
    if |content| >= 2 && (content[0] == 0x23 || content[0] == 0x10) then Some(Unsigned(content, 1, |content|).0)
    else None
  }

  predicate NoZero(bytes: seq<byte>) { forall i :: 0 <= i < |bytes| ==> bytes[i] != 0 }

  /** Payloads that a shape can hold. */
  predicate Fitting(shape: Shape, p: Payload)
  {
    match shape
    case Fixed(n) => p.Numeric? && 0 <= p.v < Pow2(8 * n)
    case Leb => p.Numeric? && 0 <= p.v < 0x1_0000_0000_0000_0000
    case SignedLeb => p.Numeric? && -0x8000_0000_0000_0000 <= p.v < 0x8000_0000_0000_0000
    case Inline => p.Chars? && NoZero(p.bytes)
    case Counted(n) => p.Block? && |p.content| < Pow2(8 * n)
    case LebBlock => p.Block? && |p.content| < 0x1_0000_0000_0000_0000
    case Nothing => true
  }

  function Write(shape: Shape, p: Payload): seq<byte>
    requires Fitting(shape, p)
  {
    match shape
    case Fixed(n) => LittleEndianBytes(p.v, n)
    case Leb => EncodeUnsigned(p.v)
    case SignedLeb => EncodeSigned(p.v)
    case Inline => p.bytes + [0]
    case Counted(n) => LittleEndianBytes(|p.content|, n) + p.content
    case LebBlock => EncodeUnsigned(|p.content|) + p.content
    case Nothing => []
  }

  /** The 64-bit word with the bits of a number. */
  function WordOf(v: int): nat
  {
    if v >= 0 then v else if v + 0x1_0000_0000_0000_0000 >= 0 then v + 0x1_0000_0000_0000_0000 else 0
  }

  lemma ReadsWord(v: int)
    ensures FromSigned(v) == WordOf(v)
  {
    hide Pow2;
    WordIs();
  }

  /** The number the loader gets. */
  function ValueOf(shape: Shape, use: Use, p: Payload): Option<nat>
    requires Fitting(shape, p)
  {
    match use
    case Plain =>
      if !p.Numeric? || shape == Inline then None else Some(WordOf(p.v))
    case Expression =>
      if p.Block? then Operand(p.content) else None
    case One => Some(1)
    case _ => None
  }

  /** The string the loader gets. */
  function TextOf(sec: Sections, f: Format, use: Use, p: Payload): Option<string>
  {
    match use
    case StringOffset => if p.Numeric? && p.v >= 0 then DebugStr(sec, p.v) else None
    case StringIndex => if p.Numeric? && p.v >= 0 then DebugStrX(sec, p.v, f) else None
    case Plain => if p.Chars? then Some(ToText(p.bytes)) else None
    case _ => None
  }

  // ---------------------------------------------------------------------------------------------
  // Reading back, shape by shape
  // ---------------------------------------------------------------------------------------------

  lemma {:induction false} LittleEndianRoundTrip(v: nat, n: nat, data: seq<byte>, pos: nat)
    requires At(data, pos, LittleEndianBytes(v, n)) && v < Pow2(8 * n)
    ensures pos + n <= |data| && LittleEndian(data, pos, n) == v
    decreases n
  {
    hide At, Pow2;
    AtEnd(data, pos, LittleEndianBytes(v, n));
    if n > 0 {
      AtHead(data, pos, LittleEndianBytes(v, n));
      AtSplit(data, pos, [v % 256], LittleEndianBytes(v / 256, n - 1));
      Pow2Eight(8 * (n - 1));
      LittleEndianRoundTrip(v / 256, n - 1, data, pos + 1);
    } else {
      Pow2Zero();
    }
  }

  lemma Pow2Eight(k: nat)
    ensures Pow2(k + 8) == 256 * Pow2(k)
  {
    Pow2Seven(k);
  }

  lemma Pow2Zero()
    ensures Pow2(0) == 1
  {
  }

  /** A number of up to eight bytes fits a word. */
  lemma WordHolds(v: nat, n: nat)
    requires n <= 8 && v < Pow2(8 * n)
    ensures Low(v, WORD) == v
  {
    hide Pow2, Low;
    Pow2Grows(8 * n, WORD);
    LowId(v, WORD);
  }

  lemma {:induction false} StringRoundTrip(bytes: seq<byte>, data: seq<byte>, pos: nat, end: nat)
    requires NoZero(bytes) && At(data, pos, bytes + [0]) && pos + |bytes| + 1 <= end <= |data|
    ensures StringEnd(data, pos, end) == pos + |bytes| && data[pos..pos + |bytes|] == bytes
    decreases |bytes|
  {
    var text := bytes + [0];
    AtHead(data, pos, text);
    if bytes != [] {
      assert text == [bytes[0]] + (bytes[1..] + [0]);
      AtSplit(data, pos, [bytes[0]], bytes[1..] + [0]);
      StringRoundTrip(bytes[1..], data, pos + 1, end);
      assert data[pos..pos + |bytes|] == [data[pos]] + data[pos + 1..pos + |bytes|];
    }
  }

  /** A number inside a copied part of the data. */
  lemma {:induction false} CountLocal(data: seq<byte>, pos: nat, content: seq<byte>, k: nat, shift: nat)
    requires At(data, pos, content) && k <= |content|
    ensures pos + |content| <= |data|
    ensures Count(data, pos + k, pos + |content|, shift) == Count(content, k, |content|, shift)
    decreases |content| - k
  {
    if k < |content| {
      assert data[pos + k] == data[pos..pos + |content|][k];
      CountLocal(data, pos, content, k + 1, shift + 7);
    }
  }

  lemma {:induction false} GroupsLocal(data: seq<byte>, pos: nat, content: seq<byte>, k: nat, n: nat)
    requires At(data, pos, content) && k + n <= |content|
    ensures pos + |content| <= |data| && Groups(data, pos + k, n) == Groups(content, k, n)
    decreases n
  {
    if n > 0 {
      assert data[pos + k] == data[pos..pos + |content|][k];
      GroupsLocal(data, pos, content, k + 1, n - 1);
    }
  }

  /** A block, wherever it lies. */
  lemma BlockRoundTrip(content: seq<byte>, data: seq<byte>, pos: nat)
    requires At(data, pos, content)
    ensures pos + |content| <= |data| && Exprloc(data, pos, |content|) == Operand(content)
  {
    hide At, Count, Groups, Low;
    AtEnd(data, pos, content);
    if content != [] {
      AtHead(data, pos, content);
      CountLocal(data, pos, content, 1, 0);
      GroupsLocal(data, pos, content, 1, Count(content, 1, |content|, 0));
    }
  }

  /** A block that starts with one of the two operations and a number: the number is its value. */
  lemma OperandIs(op: byte, v: nat, rest: seq<byte>)
    requires (op == 0x23 || op == 0x10) && v < 0x1_0000_0000_0000_0000
    ensures Operand([op] + EncodeUnsigned(v) + rest) == Some(v)
  {
    hide Unsigned, EncodeUnsigned, Pow2;
    WordIs();
    var content := [op] + EncodeUnsigned(v) + rest;
    assert content[1..1 + |EncodeUnsigned(v)|] == EncodeUnsigned(v);
    UnsignedRoundTrip(v, content, 1, |content|);
  }

  /** Where the value lies, and what the loader must be given there. */
  predicate Written(shape: Shape, p: Payload, data: seq<byte>, pos: nat, end: nat)
  {
    Fitting(shape, p) && pos < end <= |data| && pos + |Write(shape, p)| <= end && At(data, pos, Write(shape, p))
  }

  function Result(
    sec: Sections, f: Format, shape: Shape, use: Use, p: Payload, pos: nat, wantValue: bool, wantText: bool): Attr
    requires Fitting(shape, p)
  {
    Attr(pos + |Write(shape, p)|, When(wantValue, ValueOf(shape, use, p)), When(wantText, TextOf(sec, f, use, p)))
  }

  lemma FixedForms(sec: Sections, data: seq<byte>, pos: nat, end: nat, form: nat, f: Format, p: Payload,
                   wantValue: bool, wantText: bool)
    requires ShapeOf(form, f).Some? && f.addrSize <= 8
    requires Written(ShapeOf(form, f).value.0, p, data, pos, end)
    requires ShapeOf(form, f).value.0.Fixed?
    ensures
      var (shape, use) := ShapeOf(form, f).value;
      ReadDirect(sec, data, pos, end, form, f, wantValue, wantText) ==
        Result(sec, f, shape, use, p, pos, wantValue, wantText)
  {
    hide At, Pow2, Low, Unsigned, Signed, EncodeUnsigned, EncodeSigned, LittleEndian, LittleEndianBytes, StringEnd;
    hide Exprloc, DebugStr, DebugStrX, NoZero;
    var n := ShapeOf(form, f).value.0.size;
    LittleEndianRoundTrip(p.v, n, data, pos);
    if n <= 8 {
      WordHolds(p.v, n);
    }
  }

  lemma LebForms(sec: Sections, data: seq<byte>, pos: nat, end: nat, form: nat, f: Format, p: Payload,
                 wantValue: bool, wantText: bool)
    requires ShapeOf(form, f).Some? && f.addrSize <= 8
    requires Written(ShapeOf(form, f).value.0, p, data, pos, end)
    requires ShapeOf(form, f).value.0.Leb? || ShapeOf(form, f).value.0.SignedLeb?
    ensures
      var (shape, use) := ShapeOf(form, f).value;
      ReadDirect(sec, data, pos, end, form, f, wantValue, wantText) ==
        Result(sec, f, shape, use, p, pos, wantValue, wantText)
  {
    hide At, Pow2, Low, Unsigned, Signed, EncodeUnsigned, EncodeSigned, LittleEndian, LittleEndianBytes, StringEnd;
    hide Exprloc, DebugStr, DebugStrX, NoZero;
    WordIs();
    ReadsWord(p.v);
    if ShapeOf(form, f).value.0.Leb? {
      UnsignedRoundTrip(p.v, data, pos, end);
    } else {
      SignedRoundTrip(p.v, data, pos, end);
    }
  }

  lemma BlockForms(sec: Sections, data: seq<byte>, pos: nat, end: nat, form: nat, f: Format, p: Payload,
                   wantValue: bool, wantText: bool)
    requires ShapeOf(form, f).Some? && f.addrSize <= 8
    requires Written(ShapeOf(form, f).value.0, p, data, pos, end)
    requires ShapeOf(form, f).value.0.Counted? || ShapeOf(form, f).value.0.LebBlock?
    ensures
      var (shape, use) := ShapeOf(form, f).value;
      ReadDirect(sec, data, pos, end, form, f, wantValue, wantText) ==
        Result(sec, f, shape, use, p, pos, wantValue, wantText)
  {
    hide At, Pow2, Low, Unsigned, Signed, EncodeUnsigned, EncodeSigned, LittleEndian, LittleEndianBytes, StringEnd;
    hide Exprloc, Operand, DebugStr, DebugStrX, NoZero;
    WordIs();
    var block := p.content;
    match ShapeOf(form, f).value.0 {
      case Counted(n) =>
        AtSplit(data, pos, LittleEndianBytes(|block|, n), block);
        LittleEndianRoundTrip(|block|, n, data, pos);
        BlockRoundTrip(block, data, pos + n);
      case LebBlock =>
        var len := EncodeUnsigned(|block|);
        AtSplit(data, pos, len, block);
        UnsignedRoundTrip(|block|, data, pos, end);
        BlockRoundTrip(block, data, pos + |len|);
    }
  }

  lemma OtherForms(sec: Sections, data: seq<byte>, pos: nat, end: nat, form: nat, f: Format, p: Payload,
                   wantValue: bool, wantText: bool)
    requires ShapeOf(form, f).Some? && f.addrSize <= 8
    requires Written(ShapeOf(form, f).value.0, p, data, pos, end)
    requires ShapeOf(form, f).value.0.Inline? || ShapeOf(form, f).value.0.Nothing?
    ensures
      var (shape, use) := ShapeOf(form, f).value;
      ReadDirect(sec, data, pos, end, form, f, wantValue, wantText) ==
        Result(sec, f, shape, use, p, pos, wantValue, wantText)
  {
    hide At, Pow2, Low, Unsigned, Signed, EncodeUnsigned, EncodeSigned, LittleEndian, LittleEndianBytes, StringEnd;
    hide Exprloc, DebugStr, DebugStrX, NoZero;
    if ShapeOf(form, f).value.0.Inline? {
      StringRoundTrip(p.bytes, data, pos, end);
    }
  }

  /** Every value of every form is read back, and the cursor ends right behind it. */
  lemma DirectRoundTrip(sec: Sections, data: seq<byte>, pos: nat, end: nat, form: nat, f: Format, p: Payload,
                        wantValue: bool, wantText: bool)
    requires ShapeOf(form, f).Some? && f.addrSize <= 8
    requires Written(ShapeOf(form, f).value.0, p, data, pos, end)
    ensures
      var (shape, use) := ShapeOf(form, f).value;
      ReadDirect(sec, data, pos, end, form, f, wantValue, wantText) ==
        Result(sec, f, shape, use, p, pos, wantValue, wantText)
  {
    hide Written, Result, ReadDirect, ShapeOf;
    match ShapeOf(form, f).value.0 {
      case Fixed(_) => FixedForms(sec, data, pos, end, form, f, p, wantValue, wantText);
      case Leb => LebForms(sec, data, pos, end, form, f, p, wantValue, wantText);
      case SignedLeb => LebForms(sec, data, pos, end, form, f, p, wantValue, wantText);
      case Inline => OtherForms(sec, data, pos, end, form, f, p, wantValue, wantText);
      case Counted(_) => BlockForms(sec, data, pos, end, form, f, p, wantValue, wantText);
      case LebBlock => BlockForms(sec, data, pos, end, form, f, p, wantValue, wantText);
      case Nothing => OtherForms(sec, data, pos, end, form, f, p, wantValue, wantText);
    }
  }

  // ---------------------------------------------------------------------------------------------
  // Any form
  // ---------------------------------------------------------------------------------------------

  /** Payloads of a form: an indirect form (0x16) has one that names another form. */
  predicate FitsForm(form: nat, f: Format, p: Payload)
    decreases p
  {
    if form == 0x16 then p.Indirect? && FitsForm(p.form, f, p.inner) && p.form < 0x1_0000_0000
    else ShapeOf(form, f).Some? && Fitting(ShapeOf(form, f).value.0, p)
  }

  function WriteForm(form: nat, f: Format, p: Payload): seq<byte>
    requires FitsForm(form, f, p)
    decreases p
  {
    if form == 0x16 then EncodeUnsigned(p.form) + WriteForm(p.form, f, p.inner)
    else Write(ShapeOf(form, f).value.0, p)
  }

  /** The real form and its payload, behind all indirections. */
  function Leaf(form: nat, f: Format, p: Payload): (r: (nat, Payload))
    requires FitsForm(form, f, p)
    ensures r.0 != 0x16 && FitsForm(r.0, f, r.1)
    decreases p
  {
    if form == 0x16 then Leaf(p.form, f, p.inner) else (form, p)
  }

  function FormValue(form: nat, f: Format, p: Payload): Option<nat>
    requires FitsForm(form, f, p)
  {
    var (leaf, q) := Leaf(form, f, p);
    ValueOf(ShapeOf(leaf, f).value.0, ShapeOf(leaf, f).value.1, q)
  }

  function FormText(sec: Sections, form: nat, f: Format, p: Payload): Option<string>
    requires FitsForm(form, f, p)
  {
    var (leaf, q) := Leaf(form, f, p);
    TextOf(sec, f, ShapeOf(leaf, f).value.1, q)
  }

  /** The value itself takes at least one byte, not counting the names of forms before it. */
  predicate TakesBytes(form: nat, f: Format, p: Payload)
    requires FitsForm(form, f, p)
  {
    var (leaf, q) := Leaf(form, f, p);
    WriteForm(leaf, f, q) != []
  }

  /**
    Every value of every form, indirect or not, at the very end of the unit or before it: it is
    read back if and only if it takes bytes or another byte of the unit follows.
   */
  lemma {:induction false} AttrRoundTrip(
    sec: Sections, data: seq<byte>, pos: nat, end: nat, form: nat, f: Format, p: Payload,
                      wantValue: bool, wantText: bool)
    requires FitsForm(form, f, p) && f.addrSize <= 8
    requires At(data, pos, WriteForm(form, f, p)) && pos + |WriteForm(form, f, p)| <= end <= |data|
    ensures
      var next := pos + |WriteForm(form, f, p)|;
      ReadAttr(sec, data, pos, end, form, f, wantValue, wantText) ==
      if next < end || TakesBytes(form, f, p) then
        Attr(next, When(wantValue, FormValue(form, f, p)), When(wantText, FormText(sec, form, f, p)))
      else Bad
    decreases p
  {
    hide At, ReadDirect, Unsigned, EncodeUnsigned, Pow2, Low, Write, Fitting, ShapeOf, ValueOf, TextOf, Leaf;
    if form == FORM_INDIRECT {
      var name := EncodeUnsigned(p.form);
      AtSplit(data, pos, name, WriteForm(p.form, f, p.inner));
      Small32(p.form);
      UnsignedRoundTrip(p.form, data, pos, end);
      IndirectParts(sec, form, f, p);
      AttrRoundTrip(sec, data, pos + |name|, end, p.form, f, p.inner, wantValue, wantText);
    } else {
      LeafItself(form, f, p);
      if pos < end {
        DirectRoundTrip(sec, data, pos, end, form, f, p, wantValue, wantText);
      }
    }
  }

  lemma IndirectParts(sec: Sections, form: nat, f: Format, p: Payload)
    requires FitsForm(form, f, p) && form == FORM_INDIRECT
    ensures FormValue(form, f, p) == FormValue(p.form, f, p.inner)
    ensures FormText(sec, form, f, p) == FormText(sec, p.form, f, p.inner)
    ensures TakesBytes(form, f, p) == TakesBytes(p.form, f, p.inner)
  {
    hide WriteForm, ShapeOf, ValueOf, TextOf, Fitting;
  }

  lemma LeafItself(form: nat, f: Format, p: Payload)
    requires FitsForm(form, f, p) && form != FORM_INDIRECT
    ensures Leaf(form, f, p) == (form, p)
  {
  }

  // ---------------------------------------------------------------------------------------------
  // What the loader refuses
  // ---------------------------------------------------------------------------------------------

  lemma {:induction false} StringEndExact(data: seq<byte>, pos: nat, end: nat)
    requires pos <= end <= |data|
    ensures StringEnd(data, pos, end) == end <==> forall k :: pos <= k < end ==> data[k] != 0
    decreases end - pos
  {
    if pos < end && data[pos] != 0 {
      StringEndExact(data, pos + 1, end);
    }
  }

  /** A value of this shape does not end inside the unit. */
  predicate Truncated(shape: Shape, data: seq<byte>, pos: nat, end: nat)
    requires pos < end <= |data|
  {
    match shape
    case Fixed(n) => pos + n > end
    case Inline => forall k :: pos <= k < end ==> data[k] != 0
    case Counted(n) => pos + n > end || pos + n + LittleEndian(data, pos, n) > end
    case LebBlock => Unsigned(data, pos, end).1 + Unsigned(data, pos, end).0 > end
    case _ => false
  }

  /**
    Forms that the standard's table does not have are refused; the others are refused exactly when
    the value does not end inside the unit: too few bytes, no zero byte behind a string, or a block
    that is longer than what is left.
   */
  lemma RefusedExactly(sec: Sections, data: seq<byte>, pos: nat, end: nat, form: nat, f: Format,
                       wantValue: bool, wantText: bool)
    requires pos < end <= |data| && form != 0x16
    ensures
      ReadDirect(sec, data, pos, end, form, f, wantValue, wantText).Bad? <==>
      ShapeOf(form, f).None? || Truncated(ShapeOf(form, f).value.0, data, pos, end)
  {
    hide Unsigned, Signed, LittleEndian, DebugStr, DebugStrX, Exprloc, StringEnd, ToText, FromSigned, Low;
    StringEndExact(data, pos, end);
  }

  // ---------------------------------------------------------------------------------------------
  // What the loader does not get
  // ---------------------------------------------------------------------------------------------

  /**
    The values of these forms, and of no others, are passed over, neither number nor string:
    data16, line_strp, strp_sup, loclistx, rnglistx, implicit_const, addrx and addrx1 to addrx4.
   */
  lemma SkippedForms(form: nat, f: Format, sec: Sections, p: Payload)
    requires ShapeOf(form, f).Some? && Fitting(ShapeOf(form, f).value.0, p)
    ensures
      ShapeOf(form, f).value.1 == Skipped <==>
      form in {0x1e, 0x1f, 0x1d, 0x22, 0x23, 0x21, 0x1b, 0x29, 0x2a, 0x2b, 0x2c}
    ensures ShapeOf(form, f).value.1 == Skipped ==>
      ValueOf(ShapeOf(form, f).value.0, Skipped, p) == None && TextOf(sec, f, Skipped, p) == None
  {
  }

  /**
    In version 2 of the standard, `ref_addr` has the size of an address.  The loader reads an
    offset in every version, so it stops behind such a value if and only if the sizes agree.
   */
  lemma AddressSizedReference(sec: Sections, data: seq<byte>, pos: nat, end: nat, f: Format, v: nat, want: bool)
    requires 0 < f.addrSize <= 8 && v < Pow2(8 * f.addrSize) && At(data, pos, LittleEndianBytes(v, f.addrSize))
    requires pos + f.addrSize <= end <= |data| && pos + OffsetSize(f) <= end
    ensures
      var r := ReadDirect(sec, data, pos, end, 0x10, f, want, want);
      && (End(r) == Some(pos + f.addrSize) <==> f.addrSize == OffsetSize(f))
      && (f.addrSize == OffsetSize(f) ==> r == Attr(pos + f.addrSize, When(want, Some(v)), None))
  {
    hide At, Pow2, Low, LittleEndian, LittleEndianBytes;
    LittleEndianRoundTrip(v, f.addrSize, data, pos);
    WordHolds(v, f.addrSize);
  }
}
