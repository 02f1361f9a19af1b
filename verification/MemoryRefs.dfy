/**
  Pointers into the core file's address space (`api::MemoryRef`), which remember the block they
  were last found in.
 */
module MemoryRefs {
  import opened Basics
  import opened LoadBlocks
  import opened AddressSpace
  import opened CoreMemory

  datatype Ref = Ref(vaddr: nat, block: LoadBlock?)

  /** A remembered block is in the index and contains the address. */
  ghost predicate Coherent(quick: seq<LoadBlock>, span: nat, r: Ref)
  {
    && span > 0
    && (r.block != null ==> r.block in quick && r.block.span == span && r.block.VirtualContains(r.vaddr))
  }

  /** ... so in an ordered index it is the one that a search would find. */
  lemma CachedIsFound(quick: seq<LoadBlock>, span: nat, r: Ref)
    requires Ordered(quick) && Coherent(quick, span, r) && r.block != null
    ensures r.block == Scan(quick, Masked(r.vaddr, span))
  {
    hide Scan, Masked, Ordered;
    var i :| 0 <= i < |quick| && quick[i] == r.block;
    ScanUnique(quick, Masked(r.vaddr, span), i);
  }

  // ---------------------------------------------------------------------------------------------
  // One operation
  // ---------------------------------------------------------------------------------------------

  function CheckCopyBlock(r: Ref, b: LoadBlock?): Ref
    requires b != null ==> b.span > 0
  {
    if b != null && b.VirtualContains(r.vaddr) then r.(block := b) else r
  }

  /** `refused` says that the search was a checked one and threw. */
  function Prepare(quick: seq<LoadBlock>, span: nat, r: Ref, refused: bool): Ref
    requires span > 0
  {
    if r.block != null || r.vaddr == 0 || refused then r else r.(block := Scan(quick, Masked(r.vaddr, span)))
  }

  function MovePtr(quick: seq<LoadBlock>, span: nat, r: Ref, length: int, refused: bool): Ref
    requires span > 0 && (forall i :: 0 <= i < |quick| ==> quick[i].span > 0) && (r.block != null ==> r.block.span > 0)
  {
    var p := Prepare(quick, span, r, refused);
    if p.block == null && p.vaddr != 0 && refused then p
    else
      var to := Wrap(p.vaddr + length);
      Ref(to, if p.block != null && p.block.VirtualContains(to) then p.block else null)
  }

  // ---------------------------------------------------------------------------------------------
  // Every run
  // ---------------------------------------------------------------------------------------------

  datatype State = State(quick: seq<LoadBlock>, refs: seq<Ref>)

  datatype Op =
    | New(v: nat)
    | Copy(k: nat)
    | NewFrom(v: nat, k: nat)
    | NewIn(v: nat, known: LoadBlock?)
    | Ready(k: nat, refused: bool)
    | Move(k: nat, length: int, refused: bool)
    | Grow(i: nat, b: LoadBlock)

  ghost predicate Possible(s: State, span: nat, op: Op)
  {
    match op
    case New(_) => true
    case Copy(k) => k < |s.refs|
    case NewFrom(_, k) => k < |s.refs|
    case NewIn(_, b) => b != null ==> b in s.quick
    case Ready(k, _) => k < |s.refs|
    case Move(k, _, _) => k < |s.refs|
    case Grow(i, b) => i <= |s.quick| && b.span == span && Ordered(Insert(s.quick, i, b))
  }

  ghost predicate Good(s: State, span: nat)
  {
    && span > 0 && Ordered(s.quick)
    && (forall i :: 0 <= i < |s.quick| ==> s.quick[i].span == span)
    && (forall k :: 0 <= k < |s.refs| ==> Coherent(s.quick, span, s.refs[k]))
  }

  ghost function Step(s: State, span: nat, op: Op): State
    requires Good(s, span) && Possible(s, span, op)
  {
    match op
    case New(v) => s.(refs := s.refs + [Ref(v, null)])
    case Copy(k) => s.(refs := s.refs + [s.refs[k]])
    case NewFrom(v, k) => s.(refs := s.refs + [CheckCopyBlock(Ref(v, null), s.refs[k].block)])
    case NewIn(v, b) => s.(refs := s.refs + [CheckCopyBlock(Ref(v, null), b)])
    case Ready(k, refused) => s.(refs := s.refs[k := Prepare(s.quick, span, s.refs[k], refused)])
    case Move(k, length, refused) => s.(refs := s.refs[k := MovePtr(s.quick, span, s.refs[k], length, refused)])
    case Grow(i, b) => s.(quick := Insert(s.quick, i, b))
  }

  lemma CopyCoherent(quick: seq<LoadBlock>, span: nat, r: Ref, v: nat)
    requires Coherent(quick, span, r)
    ensures Coherent(quick, span, CheckCopyBlock(Ref(v, null), r.block))
  {
  }

  /** A pointer made with a block of the index at hand. */
  lemma InCoherent(quick: seq<LoadBlock>, span: nat, v: nat, b: LoadBlock?)
    requires span > 0 && (b != null ==> b in quick && b.span == span)
    ensures Coherent(quick, span, CheckCopyBlock(Ref(v, null), b))
  {
  }

  lemma PrepareCoherent(quick: seq<LoadBlock>, span: nat, r: Ref, refused: bool)
    requires Coherent(quick, span, r) && forall i :: 0 <= i < |quick| ==> quick[i].span == span
    ensures Coherent(quick, span, Prepare(quick, span, r, refused))
  {
  }

  lemma MoveCoherent(quick: seq<LoadBlock>, span: nat, r: Ref, length: int, refused: bool)
    requires Coherent(quick, span, r) && forall i :: 0 <= i < |quick| ==> quick[i].span == span
    ensures Coherent(quick, span, MovePtr(quick, span, r, length, refused))
  {
    hide Wrap, Masked, Scan;
    PrepareCoherent(quick, span, r, refused);
  }

  lemma GrowCoherent(quick: seq<LoadBlock>, span: nat, r: Ref, i: nat, b: LoadBlock)
    requires Coherent(quick, span, r) && i <= |quick|
    ensures Coherent(Insert(quick, i, b), span, r)
  {
    InsertKeeps(quick, i, b);
  }

  lemma StepKeepsGood(s: State, span: nat, op: Op)
    requires Good(s, span) && Possible(s, span, op)
    ensures Good(Step(s, span, op), span)
  {
    hide Coherent, CheckCopyBlock, Prepare, MovePtr, Ordered;
    match op {
      case New(v) => NewCoherent(s.quick, span, v);
      case Copy(k) =>
      case NewFrom(v, k) => CopyCoherent(s.quick, span, s.refs[k], v);
      case NewIn(v, b) => InCoherent(s.quick, span, v, b);
      case Ready(k, refused) => PrepareCoherent(s.quick, span, s.refs[k], refused);
      case Move(k, length, refused) => MoveCoherent(s.quick, span, s.refs[k], length, refused);
      case Grow(i, b) =>
        forall k | 0 <= k < |s.refs|
          ensures Coherent(Insert(s.quick, i, b), span, s.refs[k])
        {
          GrowCoherent(s.quick, span, s.refs[k], i, b);
        }
    }
  }

  lemma NewCoherent(quick: seq<LoadBlock>, span: nat, v: nat)
    requires span > 0
    ensures Coherent(quick, span, Ref(v, null))
  {
  }

  ghost predicate IsRun(states: seq<State>, ops: seq<Op>, span: nat)
  {
    && |states| == |ops| + 1
    && forall n :: 0 <= n < |ops| ==> Leads(states[n], ops[n], states[n + 1], span)
  }

  ghost predicate Leads(s: State, op: Op, t: State, span: nat)
  {
    Good(s, span) ==> Possible(s, span, op) && t == Step(s, span, op)
  }

  /**
    No remembered block is ever stale: over any sequence of construction (also from a block of the
    index), copying, moving, preparing and order-preserving growth of the index, every pointer's block is the one that a
    search for its address finds.
   */
  lemma {:induction false} CacheNeverStale(states: seq<State>, ops: seq<Op>, span: nat, n: nat, k: nat)
    requires IsRun(states, ops, span) && Good(states[0], span) && n < |states| && k < |states[n].refs|
    requires states[n].refs[k].block != null
    ensures states[n].refs[k].block == Scan(states[n].quick, Masked(states[n].refs[k].vaddr, span))
  {
    hide Scan, Masked, Coherent, Ordered;
    RunKeepsGood(states, ops, span, n);
    CachedIsFound(states[n].quick, span, states[n].refs[k]);
  }

  lemma {:induction false} RunKeepsGood(states: seq<State>, ops: seq<Op>, span: nat, n: nat)
    requires IsRun(states, ops, span) && Good(states[0], span) && n < |states|
    ensures Good(states[n], span)
    decreases n
  {
    hide Good, Possible, Step;
    if n > 0 {
      RunKeepsGood(states, ops, span, n - 1);
      assert Leads(states[n - 1], ops[n - 1], states[(n - 1) + 1], span);
      StepKeepsGood(states[n - 1], span, ops[n - 1]);
    }
  }

  // ---------------------------------------------------------------------------------------------
  // The pointer
  // ---------------------------------------------------------------------------------------------

  class MemoryRef {
    var vaddr: nat
    var block: LoadBlock?

    function Value(): Ref
      reads this
    {
      Ref(vaddr, block)
    }

    ghost predicate Valid(core: CoreApi)
      reads this, core
    {
      Coherent(core.quick, core.span, Value())
    }

    constructor (v: nat)
      ensures Value() == Ref(v, null)
    {
      vaddr, block := v, null;
    }

    constructor Copy(ref: MemoryRef)
      ensures Value() == ref.Value()
    {
      vaddr, block := ref.vaddr, ref.block;
    }

    constructor In(v: nat, b: LoadBlock?, ghost core: CoreApi)
      requires 0 < core.span && (b != null ==> b in core.quick && b.span == core.span)
      ensures Value() == CheckCopyBlock(Ref(v, null), b) && Valid(core)
    {
      vaddr, block := v, null;
      new;
      CheckCopy(b);
      InCoherent(core.quick, core.span, v, b);
    }

    constructor From(v: nat, ref: MemoryRef, ghost core: CoreApi)
      requires ref.Valid(core)
      ensures Value() == CheckCopyBlock(Ref(v, null), ref.block) && Valid(core)
    {
      vaddr, block := v, null;
      new;
      CheckCopy(ref.block);
      CopyCoherent(core.quick, core.span, ref.Value(), v);
    }

    method CheckCopy(b: LoadBlock?)
      requires b != null ==> b.span > 0
      modifies this
      ensures Value() == CheckCopyBlock(old(Value()), b)
    {
      if b != null && b.VirtualContains(vaddr) {
        block := b;
      }
    }

    /** false: the search was checked and threw. */
    method Ready(core: CoreApi, check: bool) returns (ok: bool)
      requires core.Valid() && Valid(core)
      modifies this
      ensures ok <==>
        !check || old(block) != null || vaddr == 0 || V2R(core.quick, core.span, vaddr, OPT_READ_ALL).Some?
      ensures Value() == Prepare(core.quick, core.span, old(Value()), !ok) && Valid(core)
    {
      hide Scan, Masked, Ordered, Selected, Wrap;
      if block != null || vaddr == 0 {
        return true;
      }
      SelectedOrdered(core.quickEnabled, core.loads);
      var found := core.FindLoadBlock(vaddr, true);
      SpanOfQuick(core);
      PrepareCoherent(core.quick, core.span, Value(), false);
      if check && (found == null || !found.IsValid()) {
        return false;
      }
      block := found;
      return true;
    }

    method Move(core: CoreApi, length: int) returns (ok: bool)
      requires core.Valid() && Valid(core)
      modifies this
      ensures ok <==>
        old(block) != null || old(vaddr) == 0 || old(V2R(core.quick, core.span, vaddr, OPT_READ_ALL)).Some?
      ensures Valid(core)
      ensures forall i :: 0 <= i < |core.quick| ==> core.quick[i].span > 0
      ensures old(block) != null ==> old(block).span > 0
      ensures Value() == MovePtr(core.quick, core.span, old(Value()), length, !ok)
      ensures ok && block != null ==> block == Scan(core.quick, Masked(vaddr, core.span))
    {
      hide Scan, Masked, Ordered, Selected, Wrap;
      SpanOfQuick(core);
      ok := Ready(core, true);
      if !ok {
        return;
      }
      var to := Wrap(vaddr + length);
      if block != null && block.VirtualContains(to) {
        vaddr := to;
        SelectedOrdered(core.quickEnabled, core.loads);
        CachedIsFound(core.quick, core.span, Value());
      } else {
        vaddr := to;
        block := null;
      }
    }

    /**
      The real address, None for an exception: what translation without the cache gives, except
      that a pointer with address 0 and no block is never looked up.
     */
    method Real(core: CoreApi) returns (r: Option<nat>)
      requires core.Valid() && Valid(core)
      modifies this
      ensures Valid(core) && vaddr == old(vaddr)
      ensures old(block) == null && vaddr == 0 ==> r == None
      ensures old(block) != null || vaddr != 0 ==> r == V2R(core.quick, core.span, vaddr, OPT_READ_ALL)
    {
      hide Scan, Masked, Ordered, Selected, Wrap;
      var ok := Ready(core, true);
      if !ok || block == null || !block.IsValid() {
        if block != null {
          SelectedOrdered(core.quickEnabled, core.loads);
          CachedIsFound(core.quick, core.span, Value());
        }
        return None;
      }
      SelectedOrdered(core.quickEnabled, core.loads);
      CachedIsFound(core.quick, core.span, Value());
      ValidHasBegin(core, block);
      return Some(Wrap(block.State().Begin(OPT_READ_ALL) + (Masked(vaddr, block.span) - block.vaddr)));
    }
  }

  lemma SpanOfQuick(core: CoreApi)
    requires core.Valid()
    ensures forall i :: 0 <= i < |core.quick| ==> core.quick[i].span == core.span
  {
    forall i | 0 <= i < |core.quick|
      ensures core.quick[i].span == core.span
    {
      assert core.quick[i] in core.loads;
    }
  }

  /** A block that counts as valid has bytes somewhere. */
  lemma ValidHasBegin(core: CoreApi, b: LoadBlock)
    requires core.Valid() && b in core.quick && b.IsValid()
    ensures b.State().Begin(OPT_READ_ALL) != 0
  {
    assert b in core.loads;
  }
}
