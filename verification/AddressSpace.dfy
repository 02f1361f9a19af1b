/**
  The address space of a core file (`CoreApi`): the blocks in address order, the filtered copy of
  that list which lookups use, the search in it, and the placement of fake blocks.
 */
module AddressSpace {
  import opened Basics
  import opened LoadBlocks

  const FAKE_LOAD_BEGIN: nat := 0x10_0000
  const PAGE: nat := 0x1000

  // ---------------------------------------------------------------------------------------------
  // The index
  // ---------------------------------------------------------------------------------------------

  predicate Contains(b: LoadBlock, c: nat) { b.vaddr <= c < b.End() }

  /** Ascending and disjoint, and no block reaches the end of the 64-bit address range. */
  ghost predicate Ordered(loads: seq<LoadBlock>)
  {
    && (forall i :: 0 <= i < |loads| ==> 0 < loads[i].memsz && loads[i].vaddr + loads[i].memsz < U64)
    && (forall i, j :: 0 <= i < j < |loads| ==> loads[i].vaddr + loads[i].memsz <= loads[j].vaddr)
  }

  /** The first block that contains `c`, looked for one by one. */
  function Scan(loads: seq<LoadBlock>, c: nat): (b: LoadBlock?)
    ensures b != null ==> b in loads && Contains(b, c)
    ensures b == null ==> forall i :: 0 <= i < |loads| ==> !Contains(loads[i], c)
  {
    if loads == [] then null
    else if Contains(loads[0], c) then loads[0]
    else
      var b := Scan(loads[1..], c);
      assert b == null ==> forall i :: 1 <= i < |loads| ==> loads[i] == loads[1..][i - 1];
      b
  }

  /** In an ordered list at most one block contains an address. */
  lemma ScanUnique(loads: seq<LoadBlock>, c: nat, i: nat)
    requires Ordered(loads) && i < |loads| && Contains(loads[i], c)
    ensures Scan(loads, c) == loads[i]
  {
    var b := Scan(loads, c);
    var j :| 0 <= j < |loads| && loads[j] == b;
    if j < i || i < j {
      assert false;
    }
  }

  predicate IsQuick(enabled: bool, b: LoadBlock) { !enabled || b.flags != 0 }

  /** The blocks that lookups consider. */
  function Selected(enabled: bool, loads: seq<LoadBlock>): (r: seq<LoadBlock>)
    ensures |r| <= |loads|
    ensures forall k :: 0 <= k < |r| ==> r[k] in loads && IsQuick(enabled, r[k])
    ensures forall k :: 0 <= k < |loads| && IsQuick(enabled, loads[k]) ==> loads[k] in r
  {
    if loads == [] then []
    else (if IsQuick(enabled, loads[0]) then [loads[0]] else []) + Selected(enabled, loads[1..])
  }

  /** A lookup that uses the list finds a block if and only if it has flags or the filter is off. */
  lemma {:induction false} QuickLookup(enabled: bool, loads: seq<LoadBlock>, c: nat)
    requires Ordered(loads)
    ensures
      var b := Scan(loads, c);
      Scan(Selected(enabled, loads), c) == if b != null && enabled && b.flags == 0 then null else b
  {
    hide Contains;
    var b, q := Scan(loads, c), Scan(Selected(enabled, loads), c);
    if b != null {
      var i :| 0 <= i < |loads| && loads[i] == b;
      ScanUnique(loads, c, i);
      if q != null {
        var j :| 0 <= j < |loads| && loads[j] == q;
        ScanUnique(loads, c, j);
      }
    }
  }

  lemma SelectedNone(enabled: bool)
    ensures Selected(enabled, []) == []
  {
  }

  lemma SelectedHead(enabled: bool, loads: seq<LoadBlock>)
    requires loads != []
    ensures Selected(enabled, loads)
         == (if IsQuick(enabled, loads[0]) then [loads[0]] else []) + Selected(enabled, loads[1..])
  {
  }

  lemma {:induction false} SelectedAppend(enabled: bool, a: seq<LoadBlock>, b: seq<LoadBlock>)
    ensures Selected(enabled, a + b) == Selected(enabled, a) + Selected(enabled, b)
    decreases |a|
  {
    hide Selected;
    if a == [] {
      SelectedNone(enabled);
      assert a + b == b;
    } else {
      SelectedAppend(enabled, a[1..], b);
      assert (a + b)[1..] == a[1..] + b && (a + b)[0] == a[0];
      SelectedHead(enabled, a);
      SelectedHead(enabled, a + b);
    }
  }

  lemma {:induction false} SelectedOrdered(enabled: bool, loads: seq<LoadBlock>)
    requires Ordered(loads)
    ensures Ordered(Selected(enabled, loads))
    decreases |loads|
  {
    hide Selected, Ordered;
    if loads != [] {
      TailOrdered(loads);
      SelectedOrdered(enabled, loads[1..]);
      SelectedHead(enabled, loads);
      HeadOrdered(loads, Selected(enabled, loads[1..]));
    } else {
      SelectedNone(enabled);
    }
  }

  lemma TailOrdered(loads: seq<LoadBlock>)
    requires Ordered(loads) && loads != []
    ensures Ordered(loads[1..])
  {
  }

  lemma HeadOrdered(loads: seq<LoadBlock>, quick: seq<LoadBlock>)
    requires Ordered(loads) && loads != [] && Ordered(quick) && forall k :: 0 <= k < |quick| ==> quick[k] in loads[1..]
    ensures Ordered([loads[0]] + quick) && Ordered([] + quick)
  {
    hide Ordered;
    forall k | 0 <= k < |quick|
      ensures loads[0].vaddr + loads[0].memsz <= quick[k].vaddr
    {
      AfterHead(loads, quick[k]);
    }
    PrependOrdered(loads, quick);
    assert [] + quick == quick;
  }

  lemma AfterHead(loads: seq<LoadBlock>, b: LoadBlock)
    requires Ordered(loads) && loads != [] && b in loads[1..]
    ensures loads[0].vaddr + loads[0].memsz <= b.vaddr
  {
    var i :| 0 <= i < |loads[1..]| && loads[1..][i] == b;
    assert loads[i + 1] == b;
  }

  lemma PrependOrdered(loads: seq<LoadBlock>, quick: seq<LoadBlock>)
    requires Ordered(loads) && loads != [] && Ordered(quick)
    requires forall k :: 0 <= k < |quick| ==> loads[0].vaddr + loads[0].memsz <= quick[k].vaddr
    ensures Ordered([loads[0]] + quick)
  {
  }

  function Insert(s: seq<LoadBlock>, i: nat, b: LoadBlock): (r: seq<LoadBlock>)
    requires i <= |s|
    ensures |r| == |s| + 1
    ensures forall k :: 0 <= k < |r| ==> r[k] == if k < i then s[k] else if k == i then b else s[k - 1]
  {
    s[..i] + [b] + s[i..]
  }

  /** How far an insertion point for `begin` is from the front. */
  function FirstAbove(s: seq<LoadBlock>, begin: nat): (i: nat)
    ensures i <= |s|
    ensures forall k :: 0 <= k < i ==> s[k].vaddr <= begin
    ensures i < |s| ==> s[i].vaddr > begin
  {
    if s == [] || s[0].vaddr > begin then 0 else 1 + FirstAbove(s[1..], begin)
  }

  lemma FirstAboveUnique(s: seq<LoadBlock>, begin: nat, i: nat)
    requires i <= |s| && (forall k :: 0 <= k < i ==> s[k].vaddr <= begin)
    requires i < |s| ==> s[i].vaddr > begin
    ensures FirstAbove(s, begin) == i
  {
  }

  /** Insertion keeps the order if and only if the new block fits between its neighbours. */
  lemma InsertKeepsOrder(loads: seq<LoadBlock>, i: nat, b: LoadBlock)
    requires Ordered(loads) && i <= |loads| && 0 < b.memsz
    ensures Ordered(Insert(loads, i, b)) <==> Fits(loads, i, b.vaddr, b.memsz)
  {
    if Fits(loads, i, b.vaddr, b.memsz) {
      FittingKeepsOrder(loads, i, b);
    }
    var r := Insert(loads, i, b);
    if Ordered(r) {
      assert r[i] == b;
      assert i > 0 ==> r[i - 1] == loads[i - 1];
      assert i < |loads| ==> r[i + 1] == loads[i];
    }
  }

  lemma FittingKeepsOrder(loads: seq<LoadBlock>, i: nat, b: LoadBlock)
    requires Ordered(loads) && i <= |loads| && 0 < b.memsz && Fits(loads, i, b.vaddr, b.memsz)
    ensures Ordered(Insert(loads, i, b))
  {
    hide Insert;
    var r := Insert(loads, i, b);
    InsertedAt(loads, i, b);
    forall j, k | 0 <= j < k < |r|
      ensures r[j].vaddr + r[j].memsz <= r[k].vaddr
    {
      assert j < i - 1 ==> loads[j].vaddr + loads[j].memsz <= loads[i - 1].vaddr;
      assert k > i + 1 ==> loads[i].vaddr + loads[i].memsz <= loads[k - 1].vaddr;
    }
  }

  lemma InsertedAt(loads: seq<LoadBlock>, i: nat, b: LoadBlock)
    requires i <= |loads|
    ensures
      var r := Insert(loads, i, b);
      && |r| == |loads| + 1 && r[i] == b
      && (forall j :: 0 <= j < i ==> r[j] == loads[j]) && (forall j :: i < j < |r| ==> r[j] == loads[j - 1])
  {
  }

  predicate Fits(loads: seq<LoadBlock>, i: nat, begin: nat, size: nat)
    requires i <= |loads|
  {
    && begin + size < U64
    && (i > 0 ==> loads[i - 1].vaddr + loads[i - 1].memsz <= begin)
    && (i < |loads| ==> begin + size <= loads[i].vaddr)
  }

  /** The same insertion in the filtered list, at the place found there. */
  lemma QuickFollows(enabled: bool, loads: seq<LoadBlock>, i: nat, b: LoadBlock)
    requires Ordered(loads) && i <= |loads| && 0 < b.memsz && Fits(loads, i, b.vaddr, b.memsz)
    ensures
      var quick := Selected(enabled, loads);
      var after := Selected(enabled, Insert(loads, i, b));
      after == if IsQuick(enabled, b) then Insert(quick, FirstAbove(quick, b.vaddr), b) else quick
  {
    hide FirstAbove, Ordered, Selected, Fits, IsQuick;
    var front, back := Selected(enabled, loads[..i]), Selected(enabled, loads[i..]);
    SelectedInsert(enabled, loads, i, b);
    Around(loads, i, b.vaddr, b.memsz);
    forall k | 0 <= k < |front|
      ensures front[k].vaddr <= b.vaddr
    {
      assert front[k] in loads[..i];
    }
    forall k | 0 <= k < |back|
      ensures back[k].vaddr > b.vaddr
    {
      assert back[k] in loads[i..];
    }
    FirstAboveUnique(front + back, b.vaddr, |front|);
    assert Insert(front + back, |front|, b) == front + [b] + back;
  }

  lemma SelectedInsert(enabled: bool, loads: seq<LoadBlock>, i: nat, b: LoadBlock)
    requires i <= |loads|
    ensures
      var front, back := Selected(enabled, loads[..i]), Selected(enabled, loads[i..]);
      && Selected(enabled, loads) == front + back
      && Selected(enabled, Insert(loads, i, b)) == if IsQuick(enabled, b) then front + [b] + back else front + back
  {
    hide Selected, IsQuick;
    var low, high := loads[..i], loads[i..];
    SelectedNone(enabled);
    SelectedHead(enabled, [b]);
    assert [b][1..] == [] && [b] + [] == [b] && loads == low + high;
    SelectedAppend(enabled, low, high);
    SelectedAppend(enabled, low + [b], high);
    SelectedAppend(enabled, low, [b]);
    assert Selected(enabled, low) + [] == Selected(enabled, low);
    assert Insert(loads, i, b) == low + [b] + high;
  }

  lemma Around(loads: seq<LoadBlock>, i: nat, begin: nat, size: nat)
    requires Ordered(loads) && i <= |loads| && 0 < size && Fits(loads, i, begin, size)
    ensures forall k :: 0 <= k < i ==> loads[k].vaddr <= begin
    ensures forall k :: i <= k < |loads| ==> loads[k].vaddr > begin
  {
    forall k | 0 <= k < |loads|
      ensures k < i ==> loads[k].vaddr <= begin
      ensures k >= i ==> loads[k].vaddr > begin
    {
      assert k < i - 1 ==> loads[k].vaddr + loads[k].memsz <= loads[i - 1].vaddr;
      assert k > i ==> loads[i].vaddr + loads[i].memsz <= loads[k].vaddr;
    }
  }

  // ---------------------------------------------------------------------------------------------
  // Placement of a fake block
  // ---------------------------------------------------------------------------------------------

  /** `RoundUp` to whole pages in 64-bit arithmetic. */
  function Aligned(x: nat): nat { Wrap(x + PAGE - 1) / PAGE * PAGE }

  /**
    Rounding gives the next whole page, and it gives nothing if and only if there was nothing to
    round or the sum wraps around, which takes more than 2^64 - 2^12.
   */
  lemma RoundsUp(x: nat)
    requires x < 0x1_0000_0000_0000_0000
    ensures Aligned(x) % 0x1000 == 0
    ensures Aligned(x) == 0 <==> x == 0 || x > 0xFFFF_FFFF_FFFF_F000
    ensures x <= 0xFFFF_FFFF_FFFF_F000 ==> x <= Aligned(x) < x + 0x1000
  {
    if x > 0xFFFF_FFFF_FFFF_F000 {
      assert Wrap(x + PAGE - 1) == x - 0xFFFF_FFFF_FFFF_F001;
    } else {
      assert Wrap(x + PAGE - 1) == x + PAGE - 1;
    }
  }

  /** A request of the largest size is rounded to nothing. */
  lemma LargestRoundsToNothing()
    ensures Aligned(0xFFFF_FFFF_FFFF_FFFF) == 0 && Aligned(0x1800) == 0x2000
  {
    RoundsUp(0xFFFF_FFFF_FFFF_FFFF);
  }

  lemma PlacedSomewhere(loads: seq<LoadBlock>, span: nat, begin: nat, size: nat)
    requires span > 0 && Place(loads, span, begin, size).Some?
    ensures Place(loads, span, begin, size).value.begin != 0 && size != 0
  {
    hide Wrap, Masked, Scan, Pick, Bound, FirstGap;
  }

  /** An address that was asked for is the one that is given. */
  lemma PlacedWhereAsked(loads: seq<LoadBlock>, span: nat, begin: nat, size: nat)
    requires span > 0 && begin != 0 && Place(loads, span, begin, size).Some?
    ensures Place(loads, span, begin, size).value.begin == begin && size != 0
  {
    hide Wrap, Masked, Scan, Pick, Bound;
  }

  function Gap(loads: seq<LoadBlock>, j: nat): nat
    requires 0 < j < |loads|
  {
    Wrap(loads[j].vaddr - loads[j - 1].End())
  }

  /** The first block from `j` on with `size` free bytes before it; |loads| if there is none. */
  function FirstGap(loads: seq<LoadBlock>, size: nat, j: nat): (r: nat)
    requires 0 < j <= |loads|
    ensures j <= r <= |loads|
    ensures r < |loads| ==> Gap(loads, r) >= size
    ensures forall k :: j <= k < r ==> Gap(loads, k) < size
    decreases |loads| - j
  {
    if j == |loads| || Gap(loads, j) >= size then j else FirstGap(loads, size, j + 1)
  }

  datatype Slot = Slot(begin: nat, index: nat)

  /** Where a block of `size` bytes goes, for an address that is rounded already. */
  function Place(loads: seq<LoadBlock>, span: nat, begin: nat, size: nat): (slot: Option<Slot>)
    requires span > 0
    ensures slot.Some? ==> slot.value.index <= |loads| && (loads != [] ==> slot.value.index < |loads|)
  {
    if size == 0 then None
    else if loads == [] then
      var b := if begin == 0 then FAKE_LOAD_BEGIN else begin;
      if Wrap(b + size) > span - 1 then None else Some(Slot(b, 0))
    else if Scan(loads, Masked(begin, span)) != null then None
    else if begin != 0 then
      var i := Pick(loads, begin);
      if Wrap(begin + size) > Bound(loads, span, i) then None else Some(Slot(begin, i))
    else if Wrap(FAKE_LOAD_BEGIN + size) <= loads[0].vaddr then Some(Slot(FAKE_LOAD_BEGIN, 0))
    else
      var j := FirstGap(loads, size, 1);
      if j == |loads| || loads[j - 1].End() == 0 then None else Some(Slot(loads[j - 1].End(), j))
  }

  lemma PlaceAutomatic(loads: seq<LoadBlock>, span: nat, size: nat)
    requires loads != [] && span > 0 && 0 < size && Scan(loads, 0) == null
    ensures
      var j := FirstGap(loads, size, 1);
      Place(loads, span, 0, size) ==
      if Wrap(FAKE_LOAD_BEGIN + size) <= loads[0].vaddr then Some(Slot(FAKE_LOAD_BEGIN, 0))
      else if j == |loads| || loads[j - 1].End() == 0 then None
      else Some(Slot(loads[j - 1].End(), j))
  {
    hide Wrap, Masked, Scan, FirstGap;
  }

  lemma PlaceExplicit(loads: seq<LoadBlock>, span: nat, begin: nat, size: nat)
    requires loads != [] && 0 < begin < span && 0 < size
    ensures
      var i := Pick(loads, begin);
      Place(loads, span, begin, size) ==
      if Scan(loads, begin) != null || Wrap(begin + size) > Bound(loads, span, i) then None else Some(Slot(begin, i))
  {
    hide Wrap, Masked, Scan, Pick, Bound;
  }

  /** The search for an explicit address stops at the last block at the latest. */
  function Pick(loads: seq<LoadBlock>, begin: nat): (i: nat)
    requires loads != []
    ensures i < |loads|
  {
    var i := FirstAbove(loads, begin);
    if i < |loads| - 1 then i else |loads| - 1
  }

  /** ... and at the last block it looks at the end of the address space, not at the block. */
  function Bound(loads: seq<LoadBlock>, span: nat, i: nat): nat
    requires span > 0 && i < |loads|
  {
    if i == |loads| - 1 then span - 1 else loads[i].vaddr
  }

  ghost predicate Free(loads: seq<LoadBlock>, begin: nat, size: nat)
  {
    forall i :: 0 <= i < |loads| ==> begin + size <= loads[i].vaddr || loads[i].vaddr + loads[i].memsz <= begin
  }

  /** A range is inside the address space's blocks when it lies between the first and the last one. */
  predicate Interior(loads: seq<LoadBlock>, begin: nat, size: nat)
  {
    loads != [] && loads[0].vaddr <= begin && begin + size <= loads[|loads| - 1].vaddr
  }

  lemma GapExact(loads: seq<LoadBlock>, j: nat)
    requires Ordered(loads) && 0 < j < |loads|
    ensures Gap(loads, j) == loads[j].vaddr - (loads[j - 1].vaddr + loads[j - 1].memsz)
  {
  }

  /** A free range between the first and the last block lies in one of the gaps. */
  lemma FreeLiesInGap(loads: seq<LoadBlock>, begin: nat, size: nat) returns (j: nat)
    requires Ordered(loads) && 0 < size && Free(loads, begin, size) && Interior(loads, begin, size)
    ensures 0 < j < |loads| && Gap(loads, j) >= size && loads[j - 1].vaddr + loads[j - 1].memsz <= begin
  {
    j := FirstAbove(loads, begin);
    assert begin < loads[|loads| - 1].vaddr;
    assert j > 0;
    assert loads[j - 1].vaddr <= begin < loads[j].vaddr;
    GapExact(loads, j);
  }

  /** The test for room at the low address, in 64-bit arithmetic. */
  predicate LowRoom(loads: seq<LoadBlock>, size: nat)
    requires loads != []
  {
    Wrap(FAKE_LOAD_BEGIN + size) <= loads[0].vaddr
  }

  /**
    Automatic placement.  It fails if and only if the size is zero (or rounds to zero), some block
    contains address 0, or there is room neither at the low address nor anywhere between the
    blocks; it takes the low address if the test there says so, and otherwise the lowest free range
    between the blocks.  The new block fits if and only if that test did not wrap around: a size of
    2^64 - 2^20 or more can seem to fit at the low address.
   */
  lemma AutomaticIsFirstFit(loads: seq<LoadBlock>, span: nat, size: nat)
    requires Ordered(loads) && loads != [] && span > 0 && size < U64
    ensures
      var slot := Place(loads, span, 0, size);
      var low := LowRoom(loads, size);
      && (slot.None? <==>
            || size == 0
            || Scan(loads, 0) != null
            || (!low && forall x: nat :: Interior(loads, x, size) ==> !Free(loads, x, size)))
      && (slot.Some? ==>
            && (Fits(loads, slot.value.index, slot.value.begin, size) <==>
               !low || 0x10_0000 + size < 0x1_0000_0000_0000_0000)
            && (Fits(loads, slot.value.index, slot.value.begin, size) ==> Free(loads, slot.value.begin, size))
            && (low ==> slot.value.begin == 0x10_0000)
            && (!low ==> Interior(loads, slot.value.begin, size))
            && (!low ==> forall x: nat :: Interior(loads, x, size) && Free(loads, x, size) ==> slot.value.begin <= x))
      && (0x10_0000 + size < 0x1_0000_0000_0000_0000 ==> (low <==> 0x10_0000 + size <= loads[0].vaddr))
  {
    hide Wrap, Place, FirstGap, Scan, Masked, Gap, Free, Ordered;
    var slot := Place(loads, span, 0, size);
    if size == 0 || Scan(loads, 0) != null {
      PlaceRefuses(loads, span, size);
    } else {
      PlaceAutomatic(loads, span, size);
      if LowRoom(loads, size) {
        if 0x10_0000 + size < 0x1_0000_0000_0000_0000 {
          FitsIsFree(loads, 0, FAKE_LOAD_BEGIN, size);
        }
      } else {
        LowestGap(loads, size);
      }
    }
  }

  lemma PlaceRefuses(loads: seq<LoadBlock>, span: nat, size: nat)
    requires span > 0 && loads != [] && (size == 0 || Scan(loads, 0) != null)
    ensures Place(loads, span, 0, size).None?
  {
    hide Scan, Masked, Wrap;
  }

  /** The first gap is the lowest free range between the blocks. */
  lemma LowestGap(loads: seq<LoadBlock>, size: nat)
    requires Ordered(loads) && loads != [] && 0 < size
    ensures
      var j := FirstGap(loads, size, 1);
      && (forall x: nat :: Interior(loads, x, size) && Free(loads, x, size) ==>
            j < |loads| && loads[j - 1].vaddr + loads[j - 1].memsz <= x)
      && (j < |loads| ==>
            var begin := loads[j - 1].End();
            && begin == loads[j - 1].vaddr + loads[j - 1].memsz > 0
            && Fits(loads, j, begin, size) && Free(loads, begin, size) && Interior(loads, begin, size))
  {
    hide Wrap, FirstGap, Gap, Free;
    var j := FirstGap(loads, size, 1);
    forall x: nat | Interior(loads, x, size) && Free(loads, x, size)
      ensures j < |loads| && loads[j - 1].vaddr + loads[j - 1].memsz <= x
    {
      var k := FreeLiesInGap(loads, x, size);
      assert j <= k;
      assert j < k ==> loads[j - 1].vaddr + loads[j - 1].memsz <= loads[k - 1].vaddr;
    }
    if j < |loads| {
      GapExact(loads, j);
      FitsIsFree(loads, j, loads[j - 1].End(), size);
      assert j - 1 > 0 ==> loads[0].vaddr + loads[0].memsz <= loads[j - 1].vaddr;
      assert j < |loads| - 1 ==> loads[j].vaddr + loads[j].memsz <= loads[|loads| - 1].vaddr;
    }
  }

  lemma FitsIsFree(loads: seq<LoadBlock>, i: nat, begin: nat, size: nat)
    requires Ordered(loads) && i <= |loads| && Fits(loads, i, begin, size)
    ensures Free(loads, begin, size)
  {
    forall k | 0 <= k < |loads|
      ensures begin + size <= loads[k].vaddr || loads[k].vaddr + loads[k].memsz <= begin
    {
      assert k < i - 1 ==> loads[k].vaddr + loads[k].memsz <= loads[i - 1].vaddr;
      assert k > i ==> loads[i].vaddr + loads[i].memsz <= loads[k].vaddr;
    }
  }

  /**
    Placement at an explicit address inside the address space: refused if a block contains it or
    the size reaches past the bound; otherwise it fits if and only if the sum does not wrap and,
    where the search stopped at the last block, the new block ends before that block.
   */
  lemma ExplicitFits(loads: seq<LoadBlock>, span: nat, begin: nat, size: nat)
    requires Ordered(loads) && loads != [] && 0 < begin < span && 0 < size
    requires Place(loads, span, begin, size).Some?
    ensures
      var slot := Place(loads, span, begin, size).value;
      && slot.begin == begin
      && (Fits(loads, slot.index, begin, size) <==>
            && begin + size < U64
            && (FirstAbove(loads, begin) >= |loads| - 1 ==> begin + size <= loads[|loads| - 1].vaddr))
  {
    hide Wrap, Place, FirstAbove, Scan, Masked;
    PlaceExplicit(loads, span, begin, size);
    var i := Pick(loads, begin);
    if i > 0 {
      assert loads[i - 1].vaddr <= begin;
      assert !Contains(loads[i - 1], begin);
    }
  }

  /** An address behind the last block: the new block goes in before it and the order is lost. */
  lemma BehindLastLosesOrder(last: LoadBlock, b: LoadBlock)
    requires last.vaddr == 0x1_0000 && last.memsz == 0x1000
    requires b.vaddr == 0x2_0000 && b.memsz == 0x1000
    ensures
      && Ordered([last])
      && Place([last], 0x1_0000_0000, 0x2_0000, 0x1000) == Some(Slot(0x2_0000, 0))
      && !Ordered(Insert([last], 0, b))
  {
    assert !Contains(last, 0x2_0000);
    assert Insert([last], 0, b) == [b, last];
    assert [b, last][0] == b && [b, last][1] == last;
  }

  /** An address right before the last block: the new block runs into it. */
  lemma BeforeLastOverlaps(last: LoadBlock, b: LoadBlock)
    requires last.vaddr == 0x1_0000 && last.memsz == 0x1000
    requires b.vaddr == 0xF000 && b.memsz == 0x2000
    ensures
      && Place([last], 0x1_0000_0000, 0xF000, 0x2000) == Some(Slot(0xF000, 0))
      && !Ordered(Insert([last], 0, b)) && Contains(b, 0x1_0000) && Contains(last, 0x1_0000)
  {
    assert !Contains(last, 0xF000);
    assert Insert([last], 0, b) == [b, last];
    assert [b, last][0] == b && [b, last][1] == last;
  }

  /** One page at address 0, and all the room above it: nothing is placed. */
  lemma ZeroBlockRefusesAll(first: LoadBlock, last: LoadBlock)
    requires first.vaddr == 0 && first.memsz == 0x1000
    requires last.vaddr == 0x1000_0000 && last.memsz == 0x1000
    ensures
      && Ordered([first, last]) && Free([first, last], 0x10_0000, 0x1000)
      && Place([first, last], 0x1_0000_0000, 0, 0x1000).None?
  {
    var loads := [first, last];
    assert loads[0] == first && loads[1] == last;
    assert Contains(first, 0);
    PlaceRefuses(loads, 0x1_0000_0000, 0x1000);
  }

  /** A size that wraps around to nothing is placed at the low address, over the block above it. */
  lemma WrappedSizeIsPlaced(last: LoadBlock)
    requires last.vaddr == 0x1000_0000 && last.memsz == 0x1000
    ensures
      var size := 0xFFFF_FFFF_FFF0_0000;
      && Ordered([last]) && Place([last], 0x1_0000_0000_0000_0000, 0, size) == Some(Slot(0x10_0000, 0))
      && !Fits([last], 0, 0x10_0000, size) && !Free([last], 0x10_0000, size)
  {
    var loads, size := [last], 0xFFFF_FFFF_FFF0_0000;
    assert loads[0] == last;
    assert !Contains(last, 0);
    PlaceAutomatic(loads, 0x1_0000_0000_0000_0000, size);
  }
}
