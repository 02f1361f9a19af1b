/**
  Reading, writing and translating addresses through the index of blocks (`CoreApi`), as one flat
  map from addresses to bytes.
 */
module CoreMemory {
  import opened Basics
  import opened LoadBlocks
  import opened AddressSpace

  /** The layers of every block. */
  ghost function Image(quick: seq<LoadBlock>): (image: seq<Layers>)
    reads quick
    ensures |image| == |quick| && forall i :: 0 <= i < |quick| ==> image[i] == quick[i].State()
  {
    if quick == [] then []
    else
      var rest := Image(quick[1..]);
      assert forall i :: 1 <= i < |quick| ==> quick[i] == quick[1..][i - 1];
      [quick[0].State()] + rest
  }

  /** What an address holds, if a block contains it. */
  function At(quick: seq<LoadBlock>, image: seq<Layers>, c: nat): Option<byte>
    requires |image| == |quick|
  {
    if quick == [] then None
    else if Contains(quick[0], c) then ByteOf(quick[0], image[0], c)
    else At(quick[1..], image[1..], c)
  }

  function ByteOf(b: LoadBlock, l: Layers, c: nat): Option<byte>
    requires Contains(b, c)
  {
    if l.Valid(b.memsz) then Some(l.Flat(OPT_READ_ALL, b.memsz)[c - b.vaddr]) else None
  }

  lemma {:induction false} AtBlock(quick: seq<LoadBlock>, image: seq<Layers>, i: nat, c: nat)
    requires Ordered(quick) && |image| == |quick| && i < |quick| && Contains(quick[i], c)
    ensures At(quick, image, c) == ByteOf(quick[i], image[i], c)
    decreases i
  {
    hide ByteOf, Wrap;
    if i > 0 {
      assert quick[0].vaddr + quick[0].memsz <= quick[i].vaddr;
      AtBlock(quick[1..], image[1..], i - 1, c);
    }
  }

  /** Addresses outside the i-th block do not see its layers. */
  lemma {:induction false} AtOther(quick: seq<LoadBlock>, image: seq<Layers>, i: nat, l: Layers, c: nat)
    requires |image| == |quick| && i < |quick| && !Contains(quick[i], c)
    ensures At(quick, image[i := l], c) == At(quick, image, c)
    decreases i
  {
    hide ByteOf, Wrap;
    if i > 0 {
      AtOther(quick[1..], image[1..], i - 1, l, c);
      assert image[i := l][1..] == image[1..][i - 1 := l];
    } else {
      assert image[i := l][1..] == image[1..];
    }
  }

  ghost predicate BlocksValid(loads: seq<LoadBlock>, span: nat)
    reads loads
  {
    forall i :: 0 <= i < |loads| ==>
      loads[i].Valid() && loads[i].span == span && (loads[i].fake ==> loads[i].overlay.Some?)
  }

  // ---------------------------------------------------------------------------------------------
  // Translation
  // ---------------------------------------------------------------------------------------------

  /** Virtual to real; None is the exception, 0 that the allowed layers hold nothing. */
  function V2R(quick: seq<LoadBlock>, span: nat, vaddr: nat, opt: set<Layer>): Option<nat>
    requires span > 0
    reads quick
  {
    var c := Masked(vaddr, span);
    var b := Scan(quick, c);
    if b == null || !b.IsValid() then None
    else Some(if b.State().Begin(opt) != 0 then Wrap(b.State().Begin(opt) + (c - b.vaddr)) else 0)
  }

  /** Real to virtual; None is the exception. */
  function R2V(quick: seq<LoadBlock>, raddr: nat): (r: Option<nat>)
    reads quick
  {
    if quick == [] then None
    else if quick[0].RealContains(raddr) then
      Some(Wrap(quick[0].vaddr + raddr - quick[0].State().Begin(OPT_READ_ALL)))
    else R2V(quick[1..], raddr)
  }

  /** The blocks' bytes lie apart in real memory. */
  ghost predicate Apart(quick: seq<LoadBlock>)
    reads quick
  {
    forall i, j, raddr: nat {:trigger quick[i].RealContains(raddr), quick[j].RealContains(raddr)} ::
      0 <= i < j < |quick| ==> !(quick[i].RealContains(raddr) && quick[j].RealContains(raddr))
  }

  lemma {:induction false} R2VFinds(quick: seq<LoadBlock>, raddr: nat, i: nat)
    requires i < |quick| && quick[i].RealContains(raddr)
    requires forall k :: 0 <= k < |quick| && k != i ==> !quick[k].RealContains(raddr)
    ensures R2V(quick, raddr) == Some(Wrap(quick[i].vaddr + raddr - quick[i].State().Begin(OPT_READ_ALL)))
    decreases i
  {
    hide Wrap;
    if i > 0 {
      R2VFinds(quick[1..], raddr, i - 1);
    }
  }

  lemma {:induction false} R2VFindsSome(quick: seq<LoadBlock>, raddr: nat)
    requires R2V(quick, raddr).Some?
    ensures exists i :: 0 <= i < |quick| && quick[i].RealContains(raddr)
                        && R2V(quick, raddr) ==
                           Some(Wrap(quick[i].vaddr + raddr - quick[i].State().Begin(OPT_READ_ALL)))
    decreases |quick|
  {
    hide Wrap;
    if !quick[0].RealContains(raddr) {
      R2VFindsSome(quick[1..], raddr);
      var i :| 0 <= i < |quick[1..]| && quick[1..][i].RealContains(raddr)
               && R2V(quick, raddr) ==
                  Some(Wrap(quick[1..][i].vaddr + raddr - quick[1..][i].State().Begin(OPT_READ_ALL)));
      assert quick[i + 1] == quick[1..][i];
    }
  }

  /**
    Translating there and back gives the address again (less its tag) if and only if the block
    has a byte there: a segment may be longer in memory than in the file.
   */
  lemma TranslationRoundTrip(quick: seq<LoadBlock>, span: nat, vaddr: nat)
    requires span > 0 && Ordered(quick) && BlocksValid(quick, span) && Apart(quick)
    requires V2R(quick, span, vaddr, OPT_READ_ALL).Some?
    requires var b := Scan(quick, Masked(vaddr, span)); b.State().Begin(OPT_READ_ALL) + b.memsz < U64
    ensures
      var c := Masked(vaddr, span);
      var b := Scan(quick, c);
      var r := V2R(quick, span, vaddr, OPT_READ_ALL).value;
      R2V(quick, r) == Some(c) <==> c - b.vaddr < |b.State().View(OPT_READ_ALL)|
  {
    hide Wrap, Masked, R2V, Scan, Apart;
    var c := Masked(vaddr, span);
    var b := Scan(quick, c);
    var i :| 0 <= i < |quick| && quick[i] == b;
    var l := b.State();
    var off := c - b.vaddr;
    var r := l.Begin(OPT_READ_ALL) + off;
    assert V2R(quick, span, vaddr, OPT_READ_ALL) == Some(r);
    if off < |l.View(OPT_READ_ALL)| {
      OnlyOne(quick, r, i);
      R2VFinds(quick, r, i);
    }
    if R2V(quick, r) == Some(c) {
      RealRoundTrip(quick, span, r);
    }
  }

  /** From a real address and back, whether or not the blocks lie apart. */
  lemma RealRoundTrip(quick: seq<LoadBlock>, span: nat, raddr: nat)
    requires span > 0 && Ordered(quick) && BlocksValid(quick, span) && R2V(quick, raddr).Some?
    ensures
      var c := R2V(quick, raddr).value;
      var b := Scan(quick, c);
      && b != null && b.RealContains(raddr) && raddr - b.State().Begin(OPT_READ_ALL) == c - b.vaddr
      && (c < span && raddr < U64 ==> V2R(quick, span, c, OPT_READ_ALL) == Some(raddr))
  {
    hide Wrap, Masked, R2V, Scan;
    R2VFindsSome(quick, raddr);
    var k :| 0 <= k < |quick| && quick[k].RealContains(raddr)
             && R2V(quick, raddr) == Some(Wrap(quick[k].vaddr + raddr - quick[k].State().Begin(OPT_READ_ALL)));
    ViewFits(quick[k]);
    ScanUnique(quick, R2V(quick, raddr).value, k);
  }

  lemma PickIs(loads: seq<LoadBlock>, begin: nat, i: nat)
    requires i < |loads| && (forall k :: 0 <= k < i ==> loads[k].vaddr <= begin)
    requires loads[i].vaddr > begin || i == |loads| - 1
    ensures Pick(loads, begin) == i
  {
    hide FirstAbove;
    if loads[i].vaddr > begin {
      FirstAboveUnique(loads, begin, i);
    }
  }

  lemma InsertValid(loads: seq<LoadBlock>, i: nat, b: LoadBlock, span: nat)
    requires BlocksValid(loads, span) && i <= |loads| && b.Valid() && b.span == span && (b.fake ==> b.overlay.Some?)
    ensures |Insert(loads, i, b)| == |loads| + 1 && Insert(loads, i, b)[i] == b
    ensures BlocksValid(Insert(loads, i, b), span)
  {
  }

  lemma InsertKeeps(s: seq<LoadBlock>, i: nat, b: LoadBlock)
    requires i <= |s|
    ensures forall k :: 0 <= k < |s| ==> s[k] in Insert(s, i, b)
  {
    forall k | 0 <= k < |s|
      ensures s[k] in Insert(s, i, b)
    {
      assert s[k] == Insert(s, i, b)[if k < i then k else k + 1];
    }
  }

  /** What fits before all blocks comes first in the filtered list too. */
  lemma FrontOfQuick(enabled: bool, loads: seq<LoadBlock>, begin: nat, size: nat)
    requires Ordered(loads) && 0 < size && Fits(loads, 0, begin, size)
    ensures FirstAbove(Selected(enabled, loads), begin) == 0
  {
    hide FirstAbove, Fits, Selected;
    Around(loads, 0, begin, size);
    var quick := Selected(enabled, loads);
    if quick != [] {
      assert quick[0] in loads;
    }
    FirstAboveUnique(quick, begin, 0);
  }

  lemma ViewFits(b: LoadBlock)
    requires b.Valid()
    ensures |b.State().View(OPT_READ_ALL)| <= b.memsz
  {
  }

  lemma OnlyOne(quick: seq<LoadBlock>, raddr: nat, i: nat)
    requires Apart(quick) && i < |quick| && quick[i].RealContains(raddr)
    ensures forall k :: 0 <= k < |quick| && k != i ==> !quick[k].RealContains(raddr)
  {
    forall k | 0 <= k < |quick| && k != i
      ensures !quick[k].RealContains(raddr)
    {
      if quick[k].RealContains(raddr) {
        assert false;
      }
    }
  }

  /** An address outside the first and last block's range is in no block. */
  lemma OutsideAll(loads: seq<LoadBlock>, c: nat)
    requires Ordered(loads) && loads != []
    requires c < loads[0].vaddr || c >= loads[|loads| - 1].End()
    ensures Scan(loads, c) == null
  {
    hide Scan, Wrap;
    forall i | 0 <= i < |loads|
      ensures !Contains(loads[i], c)
    {
      assert i > 0 ==> loads[0].vaddr + loads[0].memsz <= loads[i].vaddr;
      assert i < |loads| - 1 ==> loads[i].vaddr + loads[i].memsz <= loads[|loads| - 1].vaddr;
    }
  }

  // ---------------------------------------------------------------------------------------------
  // Reading
  // ---------------------------------------------------------------------------------------------

  datatype Outcome =
    | Copied(bytes: seq<byte>)
    | NoData
    | InvalidAddress
    | Overrun

  /** How many bytes `Read` copies. */
  function CopyLength(b: LoadBlock, vaddr: nat, size: nat): nat
    reads b
  {
    var end := Wrap(b.vaddr + |b.State().View(OPT_READ_ALL)|);
    if Wrap(vaddr + size) > end then Wrap(end - vaddr) else size
  }

  /** The copy, or Overrun if it leaves the mapping or the buffer. */
  function Copy(b: LoadBlock, span: nat, vaddr: nat, size: nat, opt: set<Layer>): Outcome
    requires span > 0 && Contains(b, Masked(vaddr, span))
    reads b
  {
    var off := Masked(vaddr, span) - b.vaddr;
    var n := CopyLength(b, vaddr, size);
    var view := b.State().View(opt);
    if n <= size && off + n <= |view| then Copied(view[off..off + n]) else Overrun
  }

  /** The exception, the missing layer or the copy. */
  function ReadResult(quick: seq<LoadBlock>, span: nat, vaddr: nat, size: nat, opt: set<Layer>): Outcome
    requires span > 0
    reads quick
  {
    var b := Scan(quick, Masked(vaddr, span));
    if b == null || !b.IsValid() then InvalidAddress
    else if V2R(quick, span, vaddr, opt) == Some(0) then NoData
    else Copy(b, span, vaddr, size, opt)
  }

  /**
    What a read through the layers `opt` should give: it takes its bytes from the topmost of these
    layers, but its length from the topmost of all layers.
   */
  function ReadLayers(l: Layers, off: nat, size: nat, opt: set<Layer>): Outcome
  {
    if l.Top(OPT_READ_ALL).None? then InvalidAddress
    else if l.Top(opt).None? then NoData
    else
      var all, view := |l.View(OPT_READ_ALL)|, l.View(opt);
      var n := if off + size <= all then size else all - off;
      if off <= all && off + n <= |view| then Copied(view[off..off + n]) else Overrun
  }

  lemma CopyExact(b: LoadBlock, span: nat, vaddr: nat, size: nat, opt: set<Layer>)
    requires 0 < span <= U64 && b.Valid() && Contains(b, Masked(vaddr, span))
    requires b.vaddr + b.memsz < span && vaddr + size < U64
    requires b.State().Top(opt).Some?
    ensures
      var o := ReadLayers(b.State(), Masked(vaddr, span) - b.vaddr, size, opt);
      Copy(b, span, vaddr, size, opt) == if vaddr < span then o else Overrun
  {
    hide Masked;
    ViewFits(b);
  }

  /**
    Reading, for every choice of layers and every block that ends inside the address space: an
    address with tag bits overruns as soon as there is something to copy, any other address gives
    what `ReadLayers` says.
   */
  lemma ReadExact(quick: seq<LoadBlock>, span: nat, vaddr: nat, size: nat, opt: set<Layer>)
    requires 0 < span <= U64 && Ordered(quick) && BlocksValid(quick, span)
    requires vaddr + size < U64 && Scan(quick, Masked(vaddr, span)) != null
    requires
      var b := Scan(quick, Masked(vaddr, span));
      b.vaddr + b.memsz < span && b.State().Begin(opt) + b.memsz < U64
    ensures
      var b := Scan(quick, Masked(vaddr, span));
      var o := ReadLayers(b.State(), Masked(vaddr, span) - b.vaddr, size, opt);
      ReadResult(quick, span, vaddr, size, opt) ==
      if vaddr < span || o.InvalidAddress? || o.NoData? then o else Overrun
  {
    hide Masked, Copy, Wrap, Scan, Ordered, Layers.View;
    var c := Masked(vaddr, span);
    var b := Scan(quick, c);
    assert b.Valid() && c - b.vaddr < b.memsz;
    if b.State().Top(opt).Some? {
      CopyExact(b, span, vaddr, size, opt);
    }
  }

  /**
    Through all layers a read stays in its memory if and only if it starts no later than behind
    the last byte, and it gives the flat map's bytes up to the end of the request or of the block.
   */
  lemma ReadAll(l: Layers, memsz: nat, off: nat, size: nat)
    requires l.Valid(memsz) && l.Top(OPT_READ_ALL).Some?
    ensures
      var all := |l.View(OPT_READ_ALL)|;
      var n := if off + size <= all then size else all - off;
      var o := ReadLayers(l, off, size, OPT_READ_ALL);
      && (o.Copied? <==> off <= all)
      && (o.Copied? ==> o.bytes == l.Flat(OPT_READ_ALL, memsz)[off..off + n])
      && (!o.Copied? ==> o == Overrun)
  {
  }

  /**
    Reads through the lower layers after any run of writes.  The bytes are the same, but the first
    overlay makes the block as long as its memory, and the length follows it: the outcome stays if
    and only if the block already had an overlay or a mapped file, or it has bytes of its own and
    either these are not read, or fill the memory, or reach to the end of the request, or end
    before its start.
   */
  lemma LowerReadsKept(l: Layers, memsz: nat, fake: bool, ops: seq<Op>, off: nat, size: nat, opt: set<Layer>)
    requires l.Valid(memsz) && ValidRun(memsz, ops) && OnlyWrites(ops) && ops != [] && off < memsz && Overlay !in opt
    requires l.overlay.Some? || (forall i :: 0 <= i < |ops| ==> ops[i].at.Some?)
    ensures
      var file := |l.View({Origin})|;
      ReadLayers(Run(l, memsz, fake, ops), off, size, opt) == ReadLayers(l, off, size, opt) <==>
      || l.overlay.Some? || l.mmap.Some?
      || (l.origin.Some? && (Origin !in opt || file == memsz || off + size <= file || off > file))
  {
    hide Run, Updates;
    WritesAreUpdates(l, memsz, fake, ops);
    LowerLayersKept(l, memsz, fake, ops);
    OverlayStays(l, memsz, fake, ops);
  }

  lemma {:induction false} OverlayStays(l: Layers, memsz: nat, fake: bool, ops: seq<Op>)
    requires l.Valid(memsz) && ValidRun(memsz, ops) && OnlyWrites(ops)
    requires l.overlay.Some? || (ops != [] && ops[0].at.Some?)
    ensures Run(l, memsz, fake, ops).overlay.Some?
    decreases |ops|
  {
    if ops != [] {
      OverlayStays(LoadBlocks.Step(l, memsz, fake, ops[0]), memsz, fake, ops[1..]);
    }
  }

  /** Four bytes at 0x1000: a read through a tagged address overruns, through the plain one it does not. */
  lemma TaggedReadOverruns(b: LoadBlock)
    requires b.vaddr == 0x1000 && b.memsz == 4 && b.span == 0x1_0000_0000 && !b.fake
    requires b.State() == Layers(Some(Mapping(0x5000, [1, 2, 3, 4], 4)), None, None)
    ensures ReadResult([b], b.span, 0x1000, 1, OPT_READ_ALL) == Copied([1])
    ensures ReadResult([b], b.span, 0x1_0000_1000, 1, OPT_READ_ALL) == Overrun
  {
    var quick := [b];
    assert quick[0] == b && b.Valid() && BlocksValid(quick, b.span) && Ordered(quick);
    assert Contains(b, 0x1000) && Scan(quick, 0x1000) == b;
    assert Masked(0x1_0000_1000, b.span) == 0x1000;
    ReadExact(quick, b.span, 0x1000, 1, OPT_READ_ALL);
    ReadExact(quick, b.span, 0x1_0000_1000, 1, OPT_READ_ALL);
    assert [1, 2, 3, 4][0..1] == [1];
  }

  /** One byte in the file, four in memory: a read that starts two bytes behind the first overruns. */
  lemma ReadBehindFile()
    ensures
      var l := Layers(Some(Mapping(0x5000, [7], 1)), None, None);
      l.Valid(4) && ReadLayers(l, 2, 1, OPT_READ_ALL) == Overrun
  {
    var l := Layers(Some(Mapping(0x5000, [7], 1)), None, None);
    ReadAll(l, 4, 2, 1);
  }

  /** One byte in the file, two in memory: the second address is translated, but not back. */
  lemma TranslatedOneWay(b: LoadBlock)
    requires b.vaddr == 0x1000 && b.memsz == 2 && b.span == 0x1_0000_0000 && !b.fake
    requires b.State() == Layers(Some(Mapping(0x5000, [7], 1)), None, None)
    ensures V2R([b], b.span, 0x1001, OPT_READ_ALL) == Some(0x5001) && R2V([b], 0x5001) == None
  {
    var quick := [b];
    assert Contains(b, 0x1001) && Scan(quick, 0x1001) == b;
    assert !b.RealContains(0x5001) && quick[1..] == [];
  }

  /** A byte at address 0 has a translation, which a pointer with address 0 does not use. */
  lemma ZeroIsTranslated(b: LoadBlock)
    requires b.vaddr == 0 && b.memsz == 1 && b.span == 0x1_0000_0000 && !b.fake
    requires b.State() == Layers(Some(Mapping(0x5000, [7], 1)), None, None)
    ensures V2R([b], b.span, 0, OPT_READ_ALL) == Some(0x5000)
  {
    assert Contains(b, 0) && Scan([b], 0) == b;
  }

  /** One byte in the file, two in memory: after a write, reading both from the file overruns. */
  lemma WriteBreaksOriginRead(at: nat)
    requires 0 < at && at + 2 < U64
    ensures
      var l := Layers(Some(Mapping(0x1000, [7], 1)), None, None);
      && l.Valid(2)
      && ReadLayers(l, 0, 2, {Origin}) == Copied([7])
      && ReadLayers(Written(l, 2, 0, [9], Some(at)), 0, 2, {Origin}) == Overrun
  {
    var l := Layers(Some(Mapping(0x1000, [7], 1)), None, None);
    var ops := [OpWrite(0, [9], Some(at))];
    LowerReadsKept(l, 2, false, ops, 0, 2, {Origin});
    assert ops[1..] == [];
    assert Run(l, 2, false, ops) == Written(l, 2, 0, [9], Some(at));
    assert [7][0..1] == [7];
  }

  // ---------------------------------------------------------------------------------------------
  // The address space
  // ---------------------------------------------------------------------------------------------

  /** A block of zero bytes that is in the overlay only; null if there is no memory for it. */
  method NewFake(flags: nat, vaddr: nat, memsz: nat, span: nat, at: Option<nat>) returns (b: LoadBlock?)
    requires span > 0 && (at.Some? ==> 0 < at.value && at.value + memsz < U64)
    ensures b == null <==> at.None?
    ensures b != null ==>
      && fresh(b) && b.Valid() && b.flags == flags && b.vaddr == vaddr && b.memsz == memsz && b.span == span && b.fake
      && b.State() == Layers(None, None, Some(Mapping(at.value, Zeros(memsz), memsz)))
  {
    b := new LoadBlock(flags, vaddr, memsz, true, span, None);
    var ok := b.NewOverlay(at);
    if !ok {
      return null;
    }
    OverlaidNothing(memsz, at.value);
  }

  class CoreApi {
    const span: nat
    const quickEnabled: bool
    var loads: seq<LoadBlock>
    var quick: seq<LoadBlock>

    ghost predicate Valid()
      reads this, loads
    {
      && 0 < span <= U64
      && Ordered(loads) && BlocksValid(loads, span)
      && quick == Selected(quickEnabled, loads)
    }

    constructor (span: nat, quickEnabled: bool)
      requires 0 < span <= U64
      ensures Valid() && loads == [] && this.span == span && this.quickEnabled == quickEnabled
    {
      this.span := span;
      this.quickEnabled := quickEnabled;
      this.loads := [];
      this.quick := [];
    }

    function Loads(useQuick: bool): seq<LoadBlock>
      reads this
    {
      if useQuick then quick else loads
    }

    /** Bisection finds what a scan finds. */
    method FindLoadBlock(vaddr: nat, useQuick: bool) returns (block: LoadBlock?)
      requires 0 < span && Ordered(Loads(useQuick))
      ensures block == Scan(Loads(useQuick), Masked(vaddr, span))
    {
      hide Scan, Wrap, Masked;
      var list := Loads(useQuick);
      if |list| == 0 {
        return null;
      }
      var left: nat, right: nat := 0, |list|;
      var c := Masked(vaddr, span);
      if c < list[left].vaddr || c >= list[right - 1].End() {
        OutsideAll(list, c);
        return null;
      }
      while left < right
        invariant left <= right <= |list|
        invariant forall k :: 0 <= k < left ==> list[k].End() <= c
        invariant forall k :: right <= k < |list| ==> c < list[k].vaddr
      {
        var mid := left + (right - left) / 2;
        block := list[mid];
        if block.vaddr > c {
          right := mid;
        } else {
          if c < block.End() {
            ScanUnique(list, c, mid);
            return block;
          }
          left := mid + 1;
        }
      }
      return null;
    }

    /** Appending keeps the index valid if and only if the block comes after all others. */
    method AddLoadBlock(block: LoadBlock)
      requires Valid() && block.Valid() && block.span == span && (block.fake ==> block.overlay.Some?)
      requires 0 < block.memsz
      modifies this
      ensures loads == old(loads) + [block]
      ensures quick == old(quick) + if IsQuick(quickEnabled, block) then [block] else []
      ensures Valid() <==> Fits(old(loads), |old(loads)|, block.vaddr, block.memsz)
    {
      hide Selected, IsQuick, Fits, Ordered;
      SelectedInsert(quickEnabled, loads, |loads|, block);
      InsertKeepsOrder(loads, |loads|, block);
      assert Insert(loads, |loads|, block) == loads + [block];
      assert loads[..|loads|] == loads && loads[|loads|..] == [];
      SelectedNone(quickEnabled);
      loads := loads + [block];
      if IsQuick(quickEnabled, block) {
        quick := quick + [block];
      }
    }

    /** The insertion point in the filtered list. */
    method IndexAbove(begin: nat) returns (i: nat)
      ensures i == FirstAbove(quick, begin)
    {
      i := 0;
      while i < |quick|
        invariant i <= |quick| && forall k :: 0 <= k < i ==> quick[k].vaddr <= begin
      {
        if quick[i].vaddr > begin {
          break;
        }
        i := i + 1;
      }
      FirstAboveUnique(quick, begin, i);
    }

    /** The search for an explicit address; None if the size does not fit under the bound. */
    method ExplicitIndex(begin: nat, size: nat) returns (index: Option<nat>)
      requires span > 0 && loads != []
      ensures
        var i := Pick(loads, begin);
        index == if Wrap(begin + size) > Bound(loads, span, i) then None else Some(i)
    {
      hide Wrap;
      var i: nat := 0;
      while true
        invariant i < |loads| && forall k :: 0 <= k < i ==> loads[k].vaddr <= begin
        decreases |loads| - i
      {
        if loads[i].vaddr > begin || i == |loads| - 1 {
          var end := loads[i].vaddr;
          if i == |loads| - 1 {
            end := span - 1;
          }
          PickIs(loads, begin, i);
          if Wrap(begin + size) > end {
            return None;
          }
          return Some(i);
        }
        i := i + 1;
      }
    }

    /** The search for a gap between two blocks. */
    method GapIndex(size: nat) returns (index: nat)
      requires loads != []
      ensures index == FirstGap(loads, size, 1)
    {
      hide Wrap;
      index := 1;
      while index < |loads|
        invariant 1 <= index <= |loads| && FirstGap(loads, size, index) == FirstGap(loads, size, 1)
      {
        if Gap(loads, index) >= size {
          return;
        }
        index := index + 1;
      }
    }

    /** Where the block goes, in both lists. */
    method ChoosePlace(asked: nat, size: nat) returns (slot: Option<Slot>, quickIndex: nat)
      requires Valid()
      ensures slot == Place(loads, span, asked, size)
      ensures slot.Some? ==>
        && quickIndex <= |quick|
        && (quickIndex == FirstAbove(quick, slot.value.begin) || (slot.value.index == 0 && quickIndex == 0))
    {
      hide Wrap, Masked, Scan, FirstGap, FirstAbove, Selected, Ordered, Fits, Insert, Pick, Bound, IsQuick;
      hide BlocksValid, Gap;
      slot, quickIndex := None, 0;
      var begin, index := asked, 0;
      if size == 0 {
        return;
      }
      if |loads| == 0 {
        if begin == 0 {
          begin := FAKE_LOAD_BEGIN;
        }
        if Wrap(begin + size) > span - 1 {
          return;
        }
      } else {
        var block := FindLoadBlock(begin, false);
        if block != null {
          return;
        }
        if begin != 0 {
          var found := ExplicitIndex(begin, size);
          if found.None? {
            return;
          }
          index := found.value;
          quickIndex := IndexAbove(begin);
        } else if Wrap(FAKE_LOAD_BEGIN + size) <= loads[0].vaddr {
          begin := FAKE_LOAD_BEGIN;
        } else {
          index := GapIndex(size);
          if index == |loads| || loads[index - 1].End() == 0 {
            return;
          }
          begin := loads[index - 1].End();
          quickIndex := IndexAbove(begin);
        }
      }
      slot := Some(Slot(begin, index));
    }

    /**
      A fake block of zero bytes; 0 is failure.  `at` is where memory for it is mapped.  The block
      holds the request in whole pages, at the next page if an address was asked for.  The index
      stays valid if and only if the block fits at the place that was chosen.
     */
    method NewLoadBlock(vaddr: nat, oldSize: nat, flags: nat, at: Option<nat>) returns (r: nat)
      requires Valid() && (at.Some? ==> 0 < at.value && at.value + Aligned(oldSize) < U64)
      modifies this
      ensures
        var size := Aligned(oldSize);
        var slot := Place(old(loads), span, Aligned(Masked(vaddr, span)), size);
        && (r == 0 <==> slot.None? || at.None?)
        && (r == 0 ==> loads == old(loads) && quick == old(quick) && Valid())
        && (r != 0 ==>
              var i := slot.value.index;
              && r == slot.value.begin && i < |loads|
              && var b := loads[i];
              && fresh(b) && b.vaddr == r && b.memsz == size && b.flags == flags && b.fake
              && (oldSize < 0x1_0000_0000_0000_0000 ==>
                    b.memsz % 0x1000 == 0 && oldSize <= b.memsz < oldSize + 0x1000)
              && b.State() == Layers(None, None, Some(Mapping(at.value, Zeros(size), size)))
              && loads == Insert(old(loads), i, b)
              && (Valid() <==> Fits(old(loads), i, r, size)))
      ensures
        var c := Masked(vaddr, span);
        r != 0 && 0 < c <= 0xFFFF_FFFF_FFFF_F000 ==> r % 0x1000 == 0 && c <= r < c + 0x1000
      ensures oldSize == 0 || 0xFFFF_FFFF_FFFF_F000 < oldSize < 0x1_0000_0000_0000_0000 ==> r == 0
      ensures forall k :: 0 <= k < |old(quick)| ==> old(quick)[k] in quick
    {
      hide Masked, Aligned, Selected, Ordered, Fits, Insert, IsQuick, BlocksValid, Zeros, Place;
      var begin := Aligned(Masked(vaddr, span));
      var size := Aligned(oldSize);
      RoundsUp(Masked(vaddr, span));
      if oldSize < 0x1_0000_0000_0000_0000 {
        RoundsUp(oldSize);
      }
      var slot, quickIndex := ChoosePlace(begin, size);
      if slot.None? {
        return 0;
      }
      PlacedSomewhere(loads, span, begin, size);
      if begin != 0 {
        PlacedWhereAsked(loads, span, begin, size);
      }
      r := Install(slot.value.begin, size, flags, at, slot.value.index, quickIndex);
    }

    /** The block itself, put into both lists. */
    method Install(begin: nat, size: nat, flags: nat, at: Option<nat>, index: nat, quickIndex: nat) returns (r: nat)
      requires Valid() && 0 < size && 0 < begin && index <= |loads| && quickIndex <= |quick|
      requires at.Some? ==> 0 < at.value && at.value + size < U64
      requires quickIndex == FirstAbove(quick, begin) || (index == 0 && quickIndex == 0)
      modifies this
      ensures r == if at.Some? then begin else 0
      ensures forall k :: 0 <= k < |old(quick)| ==> old(quick)[k] in quick
      ensures at.None? ==> loads == old(loads) && quick == old(quick) && Valid()
      ensures at.Some? ==>
        && index < |loads|
        && var b := loads[index];
        && fresh(b) && b.vaddr == begin && b.memsz == size && b.flags == flags && b.fake
        && b.State() == Layers(None, None, Some(Mapping(at.value, Zeros(size), size)))
        && loads == Insert(old(loads), index, b)
        && (Valid() <==> Fits(old(loads), index, begin, size))
    {
      hide Selected, Ordered, Fits, FirstAbove, IsQuick, Layers.Valid, Zeros, Insert, BlocksValid;
      var block := NewFake(flags, begin, size, span, at);
      if block == null {
        return 0;
      }
      InsertKeepsOrder(loads, index, block);
      if Fits(loads, index, begin, size) {
        QuickFollows(quickEnabled, loads, index, block);
        if index == 0 {
          FrontOfQuick(quickEnabled, loads, begin, size);
        }
      }
      InsertValid(loads, index, block, span);
      loads := Insert(loads, index, block);
      if IsQuick(quickEnabled, block) {
        InsertKeeps(quick, quickIndex, block);
        quick := Insert(quick, quickIndex, block);
      }
      r := begin;
    }

    method V2r(vaddr: nat, opt: set<Layer>) returns (r: Option<nat>)
      requires Valid()
      ensures r == V2R(quick, span, vaddr, opt)
    {
      hide Scan, Wrap, Masked, Selected, Ordered;
      SelectedOrdered(quickEnabled, loads);
      var block := FindLoadBlock(vaddr, true);
      if block != null && block.IsValid() {
        assert block in loads;
        var raddr := block.State().Begin(opt);
        if raddr != 0 {
          return Some(Wrap(raddr + (Masked(vaddr, block.span) - block.vaddr)));
        }
        return Some(0);
      }
      return None;
    }

    method R2v(raddr: nat) returns (r: Option<nat>)
      ensures r == R2V(quick, raddr)
    {
      hide Wrap;
      for i := 0 to |quick|
        invariant R2V(quick, raddr) == R2V(quick[i..], raddr)
      {
        var block := quick[i];
        assert quick[i..][1..] == quick[i + 1..];
        if block.RealContains(raddr) {
          return Some(Wrap(block.vaddr + raddr - block.State().Begin(OPT_READ_ALL)));
        }
      }
      return None;
    }

    method Read(vaddr: nat, size: nat, opt: set<Layer>) returns (r: Outcome)
      requires Valid()
      ensures r == ReadResult(quick, span, vaddr, size, opt)
    {
      hide Scan, Wrap, Masked, Selected, Ordered, Layers.Valid, Mapping.Valid;
      SelectedOrdered(quickEnabled, loads);
      var block := FindLoadBlock(vaddr, true);
      if block == null || !block.IsValid() {
        return InvalidAddress;
      }
      var raddr := V2r(vaddr, opt);
      if raddr == Some(0) {
        return NoData;
      }
      var n := size;
      var end := Wrap(block.vaddr + |block.State().View(OPT_READ_ALL)|);
      if Wrap(vaddr + size) > end {
        n := Wrap(end - vaddr);
      }
      var off := Masked(vaddr, span) - block.vaddr;
      var view := block.State().View(opt);
      r := if n <= size && off + n <= |view| then Copied(view[off..off + n]) else Overrun;
    }

    /** A write inside a block updates the flat map there and nowhere else. */
    method Write(vaddr: nat, buf: seq<byte>, at: Option<nat>) returns (ok: bool)
      requires Valid()
      requires
        var c := Masked(vaddr, span);
        var b := Scan(quick, c);
        b != null ==> OpWrite(c - b.vaddr, buf, at).Valid(b.memsz)
      modifies quick
      ensures Valid() && loads == old(loads) && quick == old(quick)
      ensures forall i :: 0 <= i < |loads| ==> loads[i].mmap == old(loads[i].mmap)
      ensures ok <==> Scan(quick, Masked(vaddr, span)) != null
      ensures
        var c := Masked(vaddr, span);
        var stored := ok && (old(HasOverlay(Scan(quick, c))) || at.Some?);
        forall x: nat ::
          At(quick, Image(quick), x) ==
          if stored && c <= x < c + |buf| then Some(buf[x - c]) else At(quick, old(Image(quick)), x)
    {
      hide Scan, Wrap, Masked, Selected, Ordered, Written, At, Image, IsQuick, Layers.Valid, Mapping.Valid, Contains;
      ghost var was := Image(quick);
      SelectedOrdered(quickEnabled, loads);
      var block := FindLoadBlock(vaddr, true);
      if block == null {
        return false;
      }
      ghost var i :| 0 <= i < |quick| && quick[i] == block;
      ghost var c := Masked(vaddr, span);
      Distinct(quick, i);
      InBlock(quick, i, span, vaddr);
      WrittenAt(quick, was, i, c, buf, at);
      block.SetOverlay(vaddr, buf, at);
      assert Image(quick) == was[i := Written(was[i], block.memsz, c - block.vaddr, buf, at)];
      return true;
    }
  }

  predicate HasOverlay(b: LoadBlock?)
    reads b
  {
    b != null && b.overlay.Some?
  }

  lemma InBlock(quick: seq<LoadBlock>, i: nat, span: nat, vaddr: nat)
    requires Ordered(quick) && i < |quick| && span > 0 && quick[i].span == span
    requires Contains(quick[i], Masked(vaddr, span))
    ensures quick[i].VirtualContains(vaddr) && quick[i].vaddr <= Masked(vaddr, span)
  {
    hide Masked;
  }

  lemma Distinct(quick: seq<LoadBlock>, i: nat)
    requires Ordered(quick) && i < |quick|
    ensures forall k :: 0 <= k < |quick| && k != i ==> quick[k] != quick[i]
  {
  }

  lemma WrittenAt(quick: seq<LoadBlock>, image: seq<Layers>, i: nat, c: nat, buf: seq<byte>, at: Option<nat>)
    requires Ordered(quick) && |image| == |quick| && i < |quick| && Contains(quick[i], c)
    requires image[i].Valid(quick[i].memsz) && OpWrite(c - quick[i].vaddr, buf, at).Valid(quick[i].memsz)
    ensures
      var after := image[i := Written(image[i], quick[i].memsz, c - quick[i].vaddr, buf, at)];
      var stored := image[i].overlay.Some? || at.Some?;
      forall x: nat ::
        At(quick, after, x) == if stored && c <= x < c + |buf| then Some(buf[x - c]) else At(quick, image, x)
  {
    hide At, Wrap, Written, Ordered, ByteOf;
    var b := quick[i];
    var l := Written(image[i], b.memsz, c - b.vaddr, buf, at);
    var after := image[i := l];
    var stored := image[i].overlay.Some? || at.Some?;
    forall x: nat
      ensures At(quick, after, x) == if stored && c <= x < c + |buf| then Some(buf[x - c]) else At(quick, image, x)
    {
      InsideBlock(quick, b, c, |buf|, x);
      if Contains(b, x) {
        AtBlock(quick, image, i, x);
        AtBlock(quick, after, i, x);
        WrittenByte(b, image[i], c, buf, at, x);
      } else {
        AtOther(quick, image, i, l, x);
      }
    }
  }

  lemma WrittenByte(b: LoadBlock, l: Layers, c: nat, buf: seq<byte>, at: Option<nat>, x: nat)
    requires Contains(b, c) && Contains(b, x)
    requires l.Valid(b.memsz) && OpWrite(c - b.vaddr, buf, at).Valid(b.memsz)
    ensures ByteOf(b, Written(l, b.memsz, c - b.vaddr, buf, at), x) ==
            if (l.overlay.Some? || at.Some?) && c <= x < c + |buf| then Some(buf[x - c]) else ByteOf(b, l, x)
  {
    hide Written, Wrap, Layers.Valid, Layers.Flat;
    WrittenBytes(l, b.memsz, c - b.vaddr, buf, at);
  }

  /** An address in the written range is in the written block. */
  lemma InsideBlock(quick: seq<LoadBlock>, b: LoadBlock, c: nat, size: nat, x: nat)
    requires Ordered(quick) && b in quick && Contains(b, c) && c - b.vaddr + size <= b.memsz
    ensures c <= x < c + size ==> Contains(b, x)
    ensures Contains(b, x) ==> x - b.vaddr < b.memsz
  {
  }
}
