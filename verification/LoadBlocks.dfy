/**
  A PT_LOAD segment of the core file (`LoadBlock`): the bytes of the core file at the bottom, an
  optional mapped file over them and an optional private copy ("overlay") on top, where writes go.

  A mapping is owned by one block alone, so it is a value here.  The calls that create mappings
  are parameters: the address they return, or None when they fail.
 */
module LoadBlocks {
  import opened Basics
  import opened Bits

  const U64: nat := 0x1_0000_0000_0000_0000

  /** 64-bit arithmetic. */
  function Wrap(x: int): (r: nat)
    ensures r < U64
    ensures 0 <= x < U64 ==> r == x
    ensures x >= 0 ==> r <= x
  {
    x % U64
  }

  /** `addr & mask`, for the mask of an address space of `span` bytes, a power of two. */
  function Masked(addr: nat, span: nat): (c: nat)
    requires span > 0
    ensures c < span
    ensures c <= addr && (addr < span ==> c == addr)
  {
    addr % span
  }

  lemma TimesGrows(a: nat, b: nat, p: nat)
    requires a <= b
    ensures a * p <= b * p
  {
  }

  lemma QuotientUnique(x: nat, q: nat, p: nat, r: nat)
    requires x == q * p + r && r < p
    ensures x % p == r
  {
    if q < x / p {
      TimesGrows(q + 1, x / p, p);
    } else if x / p < q {
      TimesGrows(x / p + 1, q, p);
    }
  }

  lemma DoubleRemainder(x: nat, p: nat)
    requires p > 0
    ensures x % (2 * p) == x % 2 + 2 * (x / 2 % p)
  {
    var q, r := x / 2 / p, x / 2 % p;
    assert x / 2 == q * p + r;
    assert x == q * (2 * p) + (2 * r + x % 2) by {
      assert q * (2 * p) == 2 * (q * p);
    }
    QuotientUnique(x, q, 2 * p, 2 * r + x % 2);
  }

  lemma {:induction false} RemainderIsLow(x: nat, n: nat)
    ensures x % Pow2(n) == Low(x, n)
  {
    if n > 0 {
      RemainderIsLow(x / 2, n - 1);
      DoubleRemainder(x, Pow2(n - 1));
    }
  }

  /** Masking an address keeps its low bits and clears the others. */
  lemma MaskKeepsLowBits(addr: nat, n: nat, k: nat)
    ensures Bit(Masked(addr, Pow2(n)), k) == (k < n && Bit(addr, k))
  {
    RemainderIsLow(addr, n);
    BitOfLow(addr, n, k);
  }

  /** The bits of a read option: which layers may be looked at. */
  datatype Layer = Origin | Mmap | Overlay

  const OPT_READ_ALL: set<Layer> := {Origin, Mmap, Overlay}

  /** Mapped memory at address `data`; the first `realSize` bytes come from what was mapped. */
  datatype Mapping = Mapping(data: nat, bytes: seq<byte>, realSize: nat) {
    predicate Valid()
    {
      && 0 < data && data + |bytes| < U64 && realSize <= |bytes|
      && forall k :: realSize <= k < |bytes| ==> bytes[k] == 0
    }
  }

  function Zeros(n: nat): (s: seq<byte>)
    ensures |s| == n && forall k :: 0 <= k < n ==> s[k] == 0
  {
    seq(n, _ => 0)
  }

  /** `s` filled up with zero bytes. */
  function Padded(s: seq<byte>, size: nat): (r: seq<byte>)
    requires |s| <= size
    ensures |r| == size
    ensures forall k :: 0 <= k < size ==> r[k] == if k < |s| then s[k] else 0
  {
    s + Zeros(size - |s|)
  }

  /** `buf` copied into `s` at `off`. */
  function Patch(s: seq<byte>, off: nat, buf: seq<byte>): (r: seq<byte>)
    requires off + |buf| <= |s|
    ensures |r| == |s|
    ensures forall k :: 0 <= k < |s| ==> r[k] == if off <= k < off + |buf| then buf[k - off] else s[k]
  {
    s[..off] + buf + s[off + |buf|..]
  }

  /** Anonymous memory of `size` bytes into which `src` has been copied. */
  function MmapMem(src: seq<byte>, size: nat, at: nat): Mapping
    requires |src| <= size
  {
    Mapping(at, Padded(src, size), size)
  }

  /** A file mapped from the wanted offset on, where it still has `content`. */
  function MmapFile(content: seq<byte>, size: nat, at: nat): Mapping
  {
    var count := if size < |content| then size else |content|;
    Mapping(at, Padded(content[..count], size), count)
  }

  datatype Layers = Layers(origin: Option<Mapping>, mmap: Option<Mapping>, overlay: Option<Mapping>) {

    predicate Valid(memsz: nat)
    {
      && (origin.Some? ==> origin.value.Valid() && 0 < |origin.value.bytes| <= memsz
                           && origin.value.realSize == |origin.value.bytes|)
      && (mmap.Some? ==> mmap.value.Valid() && |mmap.value.bytes| == memsz)
      && (overlay.Some? ==> overlay.value.Valid() && |overlay.value.bytes| == memsz
                            && overlay.value.realSize == memsz)
    }

    /** The topmost layer that is present and allowed. */
    function Top(opt: set<Layer>): Option<Mapping>
    {
      if overlay.Some? && Overlay in opt then overlay
      else if mmap.Some? && Mmap in opt then mmap
      else if origin.Some? && Origin in opt then origin
      else None
    }

    function Begin(opt: set<Layer>): nat
    {
      if Top(opt).Some? then Top(opt).value.data else 0
    }

    function View(opt: set<Layer>): seq<byte>
    {
      if Top(opt).Some? then Top(opt).value.bytes else []
    }

    /** What the block holds at each of its addresses, zero where nothing backs it. */
    function Flat(opt: set<Layer>, memsz: nat): seq<byte>
      requires Valid(memsz)
    {
      Padded(View(opt), memsz)
    }
  }

  // ---------------------------------------------------------------------------------------------
  // One operation on the layers
  // ---------------------------------------------------------------------------------------------

  /** The bytes a new overlay starts from. */
  function Source(l: Layers): seq<byte>
  {
    match l.Top(OPT_READ_ALL)
    case None => []
    case Some(m) => if m.realSize <= |m.bytes| then m.bytes[..m.realSize] else m.bytes
  }

  function Overlaid(l: Layers, memsz: nat, at: Option<nat>): (r: Layers)
    requires l.Valid(memsz) && (at.Some? ==> 0 < at.value && at.value + memsz < U64)
    ensures r.Valid(memsz)
  {
    if l.overlay.Some? || at.None? then l else l.(overlay := Some(MmapMem(Source(l), memsz, at.value)))
  }

  function Written(l: Layers, memsz: nat, off: nat, buf: seq<byte>, at: Option<nat>): (r: Layers)
    requires l.Valid(memsz) && off + |buf| <= memsz && (at.Some? ==> 0 < at.value && at.value + memsz < U64)
    ensures r.Valid(memsz)
    ensures l.overlay.Some? ==> r.overlay.Some?
  {
    var n := Overlaid(l, memsz, at);
    if n.overlay.None? then n
    else n.(overlay := Some(n.overlay.value.(bytes := Patch(n.overlay.value.bytes, off, buf))))
  }

  function WithoutOverlay(l: Layers, fake: bool): Layers
  {
    if fake then l else l.(overlay := None)
  }

  /** The file goes in as a layer, and into the overlay when there is one. */
  function WithFile(l: Layers, memsz: nat, m: Mapping): (r: Layers)
    requires l.Valid(memsz) && m.Valid() && |m.bytes| == memsz
    ensures r.Valid(memsz)
  {
    var overlay :=
      if l.overlay.None? then None
      else Some(l.overlay.value.(bytes := Patch(l.overlay.value.bytes, 0, m.bytes[..m.realSize])));
    l.(mmap := Some(m), overlay := overlay)
  }

  function WithoutFile(l: Layers): Layers
  {
    l.(mmap := None)
  }

  // ---------------------------------------------------------------------------------------------
  // Any run of operations refines plain byte arrays
  // ---------------------------------------------------------------------------------------------

  datatype Op =
    | OpWrite(off: nat, buf: seq<byte>, at: Option<nat>)
    | OpRemoveOverlay
    | OpSetMmap(m: Mapping)
    | OpRemoveMmap
  {
    predicate Valid(memsz: nat)
    {
      match this
      case OpWrite(off, buf, at) => off + |buf| <= memsz && (at.Some? ==> 0 < at.value && at.value + memsz < U64)
      case OpSetMmap(m) => m.Valid() && |m.bytes| == memsz
      case _ => true
    }
  }

  function Step(l: Layers, memsz: nat, fake: bool, op: Op): (r: Layers)
    requires l.Valid(memsz) && op.Valid(memsz)
    ensures r.Valid(memsz)
  {
    match op
    case OpWrite(off, buf, at) => Written(l, memsz, off, buf, at)
    case OpRemoveOverlay => WithoutOverlay(l, fake)
    case OpSetMmap(m) => WithFile(l, memsz, m)
    case OpRemoveMmap => WithoutFile(l)
  }

  ghost predicate ValidRun(memsz: nat, ops: seq<Op>) { forall i :: 0 <= i < |ops| ==> ops[i].Valid(memsz) }

  function Run(l: Layers, memsz: nat, fake: bool, ops: seq<Op>): (r: Layers)
    requires l.Valid(memsz) && ValidRun(memsz, ops)
    ensures r.Valid(memsz)
    decreases |ops|
  {
    if ops == [] then l else Run(Step(l, memsz, fake, ops[0]), memsz, fake, ops[1..])
  }

  /**
    The reference: three byte arrays of the block's size.  `now` is what a reader sees, `below`
    what he would see without the overlay, `file` what the core file says.
   */
  datatype Bytes = Bytes(now: seq<byte>, below: seq<byte>, file: seq<byte>, shadowed: bool)

  function Abs(l: Layers, memsz: nat): (b: Bytes)
    requires l.Valid(memsz)
    ensures |b.now| == |b.below| == |b.file| == memsz
  {
    Bytes(l.Flat(OPT_READ_ALL, memsz), l.Flat({Origin, Mmap}, memsz), l.Flat({Origin}, memsz), l.overlay.Some?)
  }

  function BytesStep(b: Bytes, fake: bool, op: Op): Bytes
    requires op.Valid(|b.now|) && |b.now| == |b.below| == |b.file|
  {
    match op
    case OpWrite(off, buf, at) =>
      if b.shadowed || at.Some? then b.(now := Patch(b.now, off, buf), shadowed := true) else b
    case OpRemoveOverlay => if fake then b else b.(now := b.below, shadowed := false)
    case OpSetMmap(m) =>
      b.(below := m.bytes, now := if b.shadowed then m.bytes[..m.realSize] + b.now[m.realSize..] else m.bytes)
    case OpRemoveMmap => b.(below := b.file, now := if b.shadowed then b.now else b.file)
  }

  function BytesRun(b: Bytes, fake: bool, ops: seq<Op>): Bytes
    requires ValidRun(|b.now|, ops) && |b.now| == |b.below| == |b.file|
    decreases |ops|
  {
    if ops == [] then b else BytesRun(BytesStep(b, fake, ops[0]), fake, ops[1..])
  }

  /** A fresh overlay shows what was there. */
  lemma NewOverlayShowsSame(l: Layers, memsz: nat, at: Option<nat>)
    requires l.Valid(memsz) && (at.Some? ==> 0 < at.value && at.value + memsz < U64)
    ensures Overlaid(l, memsz, at).Flat(OPT_READ_ALL, memsz) == l.Flat(OPT_READ_ALL, memsz)
  {
  }

  /** An overlay over nothing is all zero. */
  lemma OverlaidNothing(memsz: nat, at: nat)
    requires 0 < at && at + memsz < U64
    ensures Overlaid(Layers(None, None, None), memsz, Some(at)) ==
      Layers(None, None, Some(Mapping(at, Zeros(memsz), memsz)))
  {
    assert Padded([], memsz) == Zeros(memsz);
  }

  lemma StepRefines(l: Layers, memsz: nat, fake: bool, op: Op)
    requires l.Valid(memsz) && op.Valid(memsz)
    ensures Abs(Step(l, memsz, fake, op), memsz) == BytesStep(Abs(l, memsz), fake, op)
  {
    match op {
      case OpWrite(off, buf, at) => WriteRefines(l, memsz, off, buf, at);
      case OpRemoveOverlay =>
      case OpSetMmap(m) => SetMmapRefines(l, memsz, m);
      case OpRemoveMmap =>
    }
  }

  lemma WriteRefines(l: Layers, memsz: nat, off: nat, buf: seq<byte>, at: Option<nat>)
    requires l.Valid(memsz) && OpWrite(off, buf, at).Valid(memsz)
    ensures Abs(Written(l, memsz, off, buf, at), memsz) == BytesStep(Abs(l, memsz), false, OpWrite(off, buf, at))
  {
    hide Patch;
    NewOverlayShowsSame(l, memsz, at);
  }

  /** A write seen byte by byte. */
  lemma WrittenBytes(l: Layers, memsz: nat, off: nat, buf: seq<byte>, at: Option<nat>)
    requires l.Valid(memsz) && OpWrite(off, buf, at).Valid(memsz)
    ensures
      var now := Written(l, memsz, off, buf, at).Flat(OPT_READ_ALL, memsz);
      var was := l.Flat(OPT_READ_ALL, memsz);
      && |now| == |was| == memsz
      && (l.overlay.None? && at.None? ==> now == was)
      && (l.overlay.Some? || at.Some? ==>
            forall k :: 0 <= k < memsz ==> now[k] == if off <= k < off + |buf| then buf[k - off] else was[k])
  {
    hide Written, Patch;
    WriteRefines(l, memsz, off, buf, at);
  }

  lemma SetMmapRefines(l: Layers, memsz: nat, m: Mapping)
    requires l.Valid(memsz) && OpSetMmap(m).Valid(memsz)
    ensures Abs(WithFile(l, memsz, m), memsz) == BytesStep(Abs(l, memsz), false, OpSetMmap(m))
  {
  }

  /** Layered memory is a flat byte array under any run of operations. */
  lemma {:induction false} RunRefines(l: Layers, memsz: nat, fake: bool, ops: seq<Op>)
    requires l.Valid(memsz) && ValidRun(memsz, ops)
    ensures Abs(Run(l, memsz, fake, ops), memsz) == BytesRun(Abs(l, memsz), fake, ops)
    decreases |ops|
  {
    hide Abs, Step, BytesStep;
    if ops != [] {
      StepRefines(l, memsz, fake, ops[0]);
      RunRefines(Step(l, memsz, fake, ops[0]), memsz, fake, ops[1..]);
    }
  }

  ghost predicate OnlyWrites(ops: seq<Op>) { forall i :: 0 <= i < |ops| ==> ops[i].OpWrite? }

  /** Writes that find memory for the overlay, as updates of one byte array. */
  function Updates(s: seq<byte>, ops: seq<Op>): (r: seq<byte>)
    requires OnlyWrites(ops) && ValidRun(|s|, ops)
    ensures |r| == |s|
    decreases |ops|
  {
    if ops == [] then s else Updates(Patch(s, ops[0].off, ops[0].buf), ops[1..])
  }

  /**
    Writing: a reader of everything sees exactly the updates, readers of the lower layers see no
    change, and taking the overlay off a block that had none (and is not fake) brings back the
    block as it was.
   */
  lemma {:induction false} WritesAreUpdates(l: Layers, memsz: nat, fake: bool, ops: seq<Op>)
    requires l.Valid(memsz) && ValidRun(memsz, ops) && OnlyWrites(ops)
    requires l.overlay.Some? || (forall i :: 0 <= i < |ops| ==> ops[i].at.Some?)
    ensures
      var r := Run(l, memsz, fake, ops);
      && r.Flat(OPT_READ_ALL, memsz) == Updates(l.Flat(OPT_READ_ALL, memsz), ops)
      && (forall opt :: Overlay !in opt ==> r.View(opt) == l.View(opt) && r.Begin(opt) == l.Begin(opt))
      && (l.overlay.None? && !fake ==> WithoutOverlay(r, fake) == l)
      && (fake ==> WithoutOverlay(r, fake) == r)
  {
    hide Run, Updates, Step;
    ReaderSeesUpdates(l, memsz, fake, ops);
    LowerLayersKept(l, memsz, fake, ops);
  }

  lemma {:induction false} ReaderSeesUpdates(l: Layers, memsz: nat, fake: bool, ops: seq<Op>)
    requires l.Valid(memsz) && ValidRun(memsz, ops) && OnlyWrites(ops)
    requires l.overlay.Some? || (forall i :: 0 <= i < |ops| ==> ops[i].at.Some?)
    ensures Run(l, memsz, fake, ops).Flat(OPT_READ_ALL, memsz) == Updates(l.Flat(OPT_READ_ALL, memsz), ops)
    decreases |ops|
  {
    hide Patch, Step;
    if ops != [] {
      var n := Step(l, memsz, fake, ops[0]);
      StepRefines(l, memsz, fake, ops[0]);
      assert Abs(n, memsz).shadowed;
      ReaderSeesUpdates(n, memsz, fake, ops[1..]);
    }
  }

  lemma {:induction false} LowerLayersKept(l: Layers, memsz: nat, fake: bool, ops: seq<Op>)
    requires l.Valid(memsz) && ValidRun(memsz, ops)
    ensures Run(l, memsz, fake, ops).origin == l.origin
    ensures OnlyWrites(ops) ==> Run(l, memsz, fake, ops).mmap == l.mmap
    decreases |ops|
  {
    if ops != [] {
      LowerLayersKept(Step(l, memsz, fake, ops[0]), memsz, fake, ops[1..]);
    }
  }

  /**
    The file goes into an existing overlay too, so unmapping it does not undo mapping it: the
    block shows the file's bytes over what it showed before.  Without an overlay it does.
   */
  lemma UnmapKeepsFileInOverlay(l: Layers, memsz: nat, m: Mapping)
    requires l.Valid(memsz) && OpSetMmap(m).Valid(memsz)
    ensures
      var r := WithoutFile(WithFile(l, memsz, m));
      var was := l.Flat(OPT_READ_ALL, memsz);
      && (l.overlay.Some? ==> r.Flat(OPT_READ_ALL, memsz) == m.bytes[..m.realSize] + was[m.realSize..])
      && (l.overlay.None? ==> r == WithoutFile(l))
  {
    StepRefines(l, memsz, false, OpSetMmap(m));
    StepRefines(WithFile(l, memsz, m), memsz, false, OpRemoveMmap);
  }

  /** An overlay of zeros shows the file's bytes after the file has come and gone. */
  lemma UnmapLeavesFile()
    ensures
      var l := Layers(None, None, Some(Mapping(0x5000, [0, 0], 2)));
      var m := Mapping(0x6000, [5, 6], 2);
      && l.Valid(2) && m.Valid() && l.Flat(OPT_READ_ALL, 2) == [0, 0]
      && WithoutFile(WithFile(l, 2, m)).Flat(OPT_READ_ALL, 2) == [5, 6]
  {
    var l := Layers(None, None, Some(Mapping(0x5000, [0, 0], 2)));
    var m := Mapping(0x6000, [5, 6], 2);
    UnmapKeepsFileInOverlay(l, 2, m);
    assert [5, 6][..2] == [5, 6];
  }

  // ---------------------------------------------------------------------------------------------
  // The block
  // ---------------------------------------------------------------------------------------------

  function RoundUp(x: nat, n: nat): (r: nat)
    requires n > 0
    ensures r % n == 0 && x <= r < x + n
  {
    RoundsUpTo(x, n);
    (x + n - 1) / n * n
  }

  lemma RoundsUpTo(x: nat, n: nat)
    requires n > 0
    ensures
      var r := (x + n - 1) / n * n;
      r % n == 0 && x <= r < x + n
  {
    var q := (x + n - 1) / n;
    assert x + n - 1 == q * n + (x + n - 1) % n;
    QuotientUnique(q * n, q, n, 0);
  }

  class LoadBlock {
    const flags: nat
    const vaddr: nat
    const memsz: nat
    const fake: bool
    /** The address space's size; `& VabitsMask()` is the remainder by it. */
    const span: nat
    const origin: Option<Mapping>
    var mmap: Option<Mapping>
    var overlay: Option<Mapping>

    function State(): Layers
      reads this
    {
      Layers(origin, mmap, overlay)
    }

    ghost predicate Valid()
      reads this
    {
      span > 0 && State().Valid(memsz)
    }

    /** A block read from the core file (`origin` is None when it is truncated or has no bytes there). */
    constructor (flags: nat, vaddr: nat, memsz: nat, fake: bool, span: nat, origin: Option<Mapping>)
      requires span > 0 && Layers(origin, None, None).Valid(memsz)
      ensures Valid() && mmap == None && overlay == None
      ensures this.flags == flags && this.vaddr == vaddr && this.memsz == memsz
      ensures this.fake == fake && this.span == span && this.origin == origin
    {
      this.flags := flags;
      this.vaddr := vaddr;
      this.memsz := memsz;
      this.fake := fake;
      this.span := span;
      this.origin := origin;
      this.mmap := None;
      this.overlay := None;
    }

    predicate IsValid()
      reads this
    {
      origin.Some? || mmap.Some? || overlay.Some?
    }

    /** The end of the block in 64-bit arithmetic. */
    function End(): nat { Wrap(vaddr + memsz) }

    predicate VirtualContains(addr: nat)
      requires span > 0
    {
      vaddr <= Masked(addr, span) < End()
    }

    predicate RealContains(raddr: nat)
      reads this
    {
      var l := State();
      l.Top(OPT_READ_ALL).Some? && l.Begin(OPT_READ_ALL) <= raddr < l.Begin(OPT_READ_ALL) + |l.View(OPT_READ_ALL)|
    }

    method NewOverlay(at: Option<nat>) returns (ok: bool)
      requires Valid() && (at.Some? ==> 0 < at.value && at.value + memsz < U64)
      modifies this`overlay
      ensures Valid() && State() == Overlaid(old(State()), memsz, at)
      ensures ok == overlay.Some?
    {
      if overlay.None? && at.Some? {
        if IsValid() {
          var lower := if mmap.Some? then mmap.value else origin.value;
          overlay := Some(MmapMem(lower.bytes[..lower.realSize], memsz, at.value));
        } else {
          overlay := Some(Mapping(at.value, Zeros(memsz), memsz));
          assert Zeros(memsz) == Padded([], memsz);
        }
      }
      ok := overlay.Some?;
    }

    method SetOverlay(addr: nat, buf: seq<byte>, at: Option<nat>)
      requires Valid() && VirtualContains(addr) && Masked(addr, span) - vaddr + |buf| <= memsz
      requires at.Some? ==> 0 < at.value && at.value + memsz < U64
      modifies this`overlay
      ensures Valid() && State() == Written(old(State()), memsz, Masked(addr, span) - vaddr, buf, at)
    {
      var ok := NewOverlay(at);
      if ok {
        var off := Masked(addr, span) - vaddr;
        overlay := Some(overlay.value.(bytes := Patch(overlay.value.bytes, off, buf)));
      }
    }

    method RemoveOverlay()
      requires Valid()
      modifies this`overlay
      ensures Valid() && State() == WithoutOverlay(old(State()), fake)
    {
      if overlay.Some? && !fake {
        overlay := None;
      }
    }

    /** `at` and `anon` are where the file and, if it is tried, the copy of it are mapped. */
    method SetMmapFile(content: seq<byte>, at: Option<nat>, anon: Option<nat>, page: nat)
      requires Valid() && page > 0 && (fake ==> overlay.Some?)
      requires at.Some? ==> 0 < at.value && at.value + memsz < U64
      requires anon.Some? ==> 0 < anon.value && anon.value + memsz < U64
      modifies this`mmap, this`overlay
      ensures Valid()
      ensures at.None? ==> State() == old(State())
      ensures at.Some? ==>
        var file := MmapFile(content, memsz, at.value);
        var copied := RoundUp(file.realSize, page) < memsz && anon.Some?;
        var m := if copied then MmapMem(content[..file.realSize], memsz, anon.value) else file;
        State() == WithFile(old(State()), memsz, m)
    {
      if at.Some? {
        var file := MmapFile(content, memsz, at.value);
        if RoundUp(file.realSize, page) < memsz && anon.Some? {
          file := MmapMem(file.bytes[..file.realSize], memsz, anon.value);
        }
        if fake || overlay.Some? {
          overlay := Some(overlay.value.(bytes := Patch(overlay.value.bytes, 0, file.bytes[..file.realSize])));
        }
        mmap := Some(file);
      }
    }

    method RemoveMmap()
      requires Valid()
      modifies this`mmap
      ensures Valid() && State() == WithoutFile(old(State()))
    {
      if mmap.Some? {
        mmap := None;
      }
    }
  }
}
