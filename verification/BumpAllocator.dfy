/**
  The demangler's arena (`BumpPointerAllocator`): blocks of 4096 bytes filled from the front, with
  larger requests in blocks of their own behind the first one.  The addresses that `malloc` returns
  are parameters; the program ends when it returns null, so they are addresses of new memory.
 */
module BumpAllocator {
  const META: nat := 16
  const ALLOC_SIZE: nat := 4096
  const USABLE: nat := ALLOC_SIZE - META
  const U32: nat := 0x1_0000_0000
  const U64: nat := 0x1_0000_0000_0000_0000

  /** A block of the list: its header's address, its size with the header, and how much is used. */
  datatype Block = Block(addr: nat, size: nat, current: nat)

  /** What a caller was given: `asked` bytes, with `reserved` set aside. */
  datatype Piece = Piece(at: nat, asked: nat, reserved: nat)

  /** `(N + 15u) & ~15u`: the mask has 32 bits, so it also clears everything above them. */
  function Rounded(n: nat): nat
  {
    (n + 15) % U32 / 16 * 16
  }

  /** Rounding gives enough room if and only if the request is below 2^32 - 15. */
  lemma RoundedEnough(n: nat)
    ensures Rounded(n) % 16 == 0 && Rounded(n) < 0x1_0000_0000
    ensures Rounded(n) >= n <==> n < 0xFFFF_FFF1
    ensures n < 0xFFFF_FFF1 ==> Rounded(n) < n + 16
  {
    if n < U32 - 15 {
      assert (n + 15) % U32 == n + 15;
    }
  }

  /** The smallest request that gets too little gets nothing at all. */
  lemma LargeRequestGetsNothing()
    ensures Rounded(0xFFFF_FFF1) == 0 && Rounded(0xFFFF_FFF0) == 0xFFFF_FFF0
  {
    RoundedEnough(U32 - 16);
    assert (U32 - 15 + 15) % U32 == 0;
  }

  // ---------------------------------------------------------------------------------------------
  // The state
  // ---------------------------------------------------------------------------------------------

  // A standard block has 4096 bytes, 16 of them for its header.

  predicate BlockValid(b: Block)
  {
    0 < b.addr && b.addr % 16 == 0 && 16 <= b.size && b.addr + b.size <= 0x1_0000_0000_0000_0000
  }

  /** `addr .. addr + size` overlaps no block. */
  ghost predicate Unused(blocks: seq<Block>, addr: nat, size: nat)
  {
    forall i :: 0 <= i < |blocks| ==> addr + size <= blocks[i].addr || blocks[i].addr + blocks[i].size <= addr
  }

  ghost predicate BlocksValid(blocks: seq<Block>)
  {
    && (forall i :: 0 <= i < |blocks| ==> BlockValid(blocks[i]))
    && (forall i, j :: 0 <= i < j < |blocks| ==>
          || blocks[i].addr + blocks[i].size <= blocks[j].addr
          || blocks[j].addr + blocks[j].size <= blocks[i].addr)
  }

  /** A piece lies behind a block's header, inside the block; in the first block, in its used part. */
  predicate Inside(p: Piece, b: Block, first: bool)
  {
    && b.addr + 16 <= p.at
    && p.at + p.reserved <= b.addr + (if first then 16 + b.current else b.size)
  }

  ghost predicate Placed(p: Piece, blocks: seq<Block>)
  {
    exists i :: 0 <= i < |blocks| && Inside(p, blocks[i], i == 0)
  }

  predicate Disjoint(p: Piece, q: Piece)
  {
    p.at + p.reserved <= q.at || q.at + q.reserved <= p.at
  }

  ghost predicate PiecesValid(live: seq<Piece>, blocks: seq<Block>)
  {
    && (forall k :: 0 <= k < |live| ==> Placed(live[k], blocks) && live[k].at % 16 == 0)
    && (forall k, l :: 0 <= k < l < |live| ==> Disjoint(live[k], live[l]))
  }

  /** The first block is a standard one and the initial buffer is in the list. */
  ghost predicate ListValid(blocks: seq<Block>, initial: nat)
  {
    && blocks != [] && blocks[0].size == 4096 && blocks[0].current <= 4080 && blocks[0].current % 16 == 0
    && exists i :: 0 <= i < |blocks| && blocks[i].addr == initial
  }

  // ---------------------------------------------------------------------------------------------
  // What keeps it
  // ---------------------------------------------------------------------------------------------

  function Bump(blocks: seq<Block>, n: nat): seq<Block>
    requires blocks != []
  {
    [blocks[0].(current := blocks[0].current + n)] + blocks[1..]
  }

  /** Moving the first block's pointer keeps every piece, and what it passes is new. */
  lemma BumpKeeps(blocks: seq<Block>, live: seq<Piece>, n: nat, asked: nat)
    requires blocks != [] && BlocksValid(blocks) && PiecesValid(live, blocks)
    requires blocks[0].size == ALLOC_SIZE && blocks[0].current + n <= USABLE && blocks[0].current % 16 == 0
    ensures
      var p := Piece(blocks[0].addr + META + blocks[0].current, asked, n);
      BlocksValid(Bump(blocks, n)) && PiecesValid(live + [p], Bump(blocks, n))
  {
    hide BlocksValid, Inside;
    BumpBlocks(blocks, n);
    var after := Bump(blocks, n);
    var p := Piece(blocks[0].addr + META + blocks[0].current, asked, n);
    forall k | 0 <= k < |live|
      ensures Placed(live[k], after) && Disjoint(live[k], p)
    {
      var i :| 0 <= i < |blocks| && Inside(live[k], blocks[i], i == 0);
      BumpPiece(blocks, n, i, live[k], p);
      assert Inside(live[k], after[i], i == 0);
    }
    InsideHead(blocks, n, p);
    assert Inside(p, after[0], true);
    assert blocks[0].addr % 16 == 0;
  }

  lemma BumpBlocks(blocks: seq<Block>, n: nat)
    requires blocks != [] && BlocksValid(blocks)
    ensures BlocksValid(Bump(blocks, n)) && BlockValid(blocks[0])
  {
  }

  lemma BumpPiece(blocks: seq<Block>, n: nat, i: nat, q: Piece, p: Piece)
    requires blocks != [] && BlocksValid(blocks) && i < |blocks| && Inside(q, blocks[i], i == 0)
    requires blocks[0].size == ALLOC_SIZE && blocks[0].current + n <= USABLE
    requires p.at == blocks[0].addr + META + blocks[0].current && p.reserved == n
    ensures Inside(q, Bump(blocks, n)[i], i == 0) && Disjoint(q, p)
  {
  }

  lemma InsideHead(blocks: seq<Block>, n: nat, p: Piece)
    requires blocks != [] && p.at == blocks[0].addr + META + blocks[0].current && p.reserved == n
    ensures Inside(p, Bump(blocks, n)[0], true)
  {
  }

  /** A new block in front. */
  lemma GrowKeeps(blocks: seq<Block>, live: seq<Piece>, b: Block)
    requires blocks != [] && BlocksValid(blocks) && PiecesValid(live, blocks) && BlockValid(b)
    requires Unused(blocks, b.addr, b.size)
    requires blocks[0].size == ALLOC_SIZE && blocks[0].current <= USABLE
    ensures BlocksValid([b] + blocks) && PiecesValid(live, [b] + blocks)
  {
    var after := [b] + blocks;
    forall k | 0 <= k < |live|
      ensures Placed(live[k], after)
    {
      var i :| 0 <= i < |blocks| && Inside(live[k], blocks[i], i == 0);
      assert Inside(live[k], after[i + 1], false);
    }
  }

  function Second(blocks: seq<Block>, b: Block): seq<Block>
    requires blocks != []
  {
    [blocks[0], b] + blocks[1..]
  }

  /** A new block behind the first one, filled by one piece. */
  lemma MassiveKeeps(blocks: seq<Block>, live: seq<Piece>, b: Block, asked: nat)
    requires blocks != [] && BlocksValid(blocks) && PiecesValid(live, blocks) && BlockValid(b)
    requires Unused(blocks, b.addr, b.size)
    requires blocks[0].size == ALLOC_SIZE && blocks[0].current <= USABLE
    ensures
      var p := Piece(b.addr + META, asked, b.size - META);
      BlocksValid(Second(blocks, b)) && PiecesValid(live + [p], Second(blocks, b))
  {
    hide BlocksValid, Inside, Unused;
    SecondBlocks(blocks, b);
    var after := Second(blocks, b);
    var p := Piece(b.addr + META, asked, b.size - META);
    forall k | 0 <= k < |live|
      ensures Placed(live[k], after) && Disjoint(live[k], p)
    {
      var i :| 0 <= i < |blocks| && Inside(live[k], blocks[i], i == 0);
      SecondPiece(blocks, b, i, live[k], p);
      assert Inside(live[k], after[if i == 0 then 0 else i + 1], i == 0);
    }
    InsideSecond(blocks, b, p);
    assert Inside(p, after[1], false);
  }

  lemma SecondBlocks(blocks: seq<Block>, b: Block)
    requires blocks != [] && BlocksValid(blocks) && BlockValid(b) && Unused(blocks, b.addr, b.size)
    ensures BlocksValid(Second(blocks, b))
  {
  }

  lemma SecondPiece(blocks: seq<Block>, b: Block, i: nat, q: Piece, p: Piece)
    requires blocks != [] && Unused(blocks, b.addr, b.size) && i < |blocks| && Inside(q, blocks[i], i == 0)
    requires blocks[0].size == ALLOC_SIZE && blocks[0].current <= USABLE
    requires META <= b.size && p.at == b.addr + META && p.reserved == b.size - META
    ensures Inside(q, Second(blocks, b)[if i == 0 then 0 else i + 1], i == 0) && Disjoint(q, p)
  {
  }

  lemma InsideSecond(blocks: seq<Block>, b: Block, p: Piece)
    requires blocks != [] && META <= b.size && p.at == b.addr + META && p.reserved == b.size - META
    ensures Inside(p, Second(blocks, b)[1], false)
  {
  }

  /** The addresses of the blocks that came from `malloc`. */
  function Malloced(blocks: seq<Block>, initial: nat): seq<nat>
  {
    if blocks == [] then []
    else (if blocks[0].addr != initial then [blocks[0].addr] else []) + Malloced(blocks[1..], initial)
  }

  lemma {:induction false} MallocedSnoc(blocks: seq<Block>, b: Block, initial: nat)
    ensures Malloced(blocks + [b], initial)
         == Malloced(blocks, initial) + if b.addr != initial then [b.addr] else []
    decreases |blocks|
  {
    if blocks == [] {
      assert blocks + [b] == [b] && [b][1..] == [];
    } else {
      MallocedSnoc(blocks[1..], b, initial);
      assert (blocks + [b])[1..] == blocks[1..] + [b];
    }
  }

  predicate HasAddr(blocks: seq<Block>, addr: nat) { exists k :: 0 <= k < |blocks| && blocks[k].addr == addr }

  lemma {:induction false} MallocedAre(blocks: seq<Block>, initial: nat, addr: nat)
    ensures addr in Malloced(blocks, initial) <==> HasAddr(blocks, addr) && addr != initial
    decreases |blocks|
  {
    if blocks != [] {
      var rest := blocks[1..];
      MallocedAre(rest, initial, addr);
      assert forall k :: 1 <= k < |blocks| ==> blocks[k] == rest[k - 1];
      if HasAddr(rest, addr) {
        var k :| 0 <= k < |rest| && rest[k].addr == addr;
        assert blocks[k + 1].addr == addr;
      }
    }
  }

  /** They are all different. */
  lemma {:induction false} MallocedOnce(blocks: seq<Block>, initial: nat)
    requires BlocksValid(blocks)
    ensures
      var m := Malloced(blocks, initial);
      forall i, j :: 0 <= i < j < |m| ==> m[i] != m[j]
    decreases |blocks|
  {
    hide HasAddr;
    if blocks != [] {
      var rest := blocks[1..];
      MallocedOnce(rest, initial);
      MallocedAre(rest, initial, blocks[0].addr);
      HeadApart(blocks);
    }
  }

  lemma HeadApart(blocks: seq<Block>)
    requires BlocksValid(blocks) && blocks != []
    ensures !HasAddr(blocks[1..], blocks[0].addr)
  {
    forall k | 0 <= k < |blocks[1..]|
      ensures blocks[1..][k].addr != blocks[0].addr
    {
      assert blocks[1..][k] == blocks[k + 1];
      assert BlockValid(blocks[0]) && BlockValid(blocks[k + 1]);
    }
  }

  // ---------------------------------------------------------------------------------------------
  // The allocator
  // ---------------------------------------------------------------------------------------------

  class BumpPointerAllocator {
    const initial: nat
    var blocks: seq<Block>
    /** What has been given out since the last reset. */
    ghost var live: seq<Piece>

    ghost predicate Valid()
      reads this
    {
      && 0 < initial && initial % 16 == 0 && initial + ALLOC_SIZE <= U64
      && BlocksValid(blocks) && ListValid(blocks, initial) && PiecesValid(live, blocks)
      && (forall k :: 0 <= k < |live| ==> live[k].reserved == Rounded(live[k].asked))
    }

    constructor (initial: nat)
      requires 0 < initial && initial % 16 == 0 && initial + ALLOC_SIZE <= U64
      ensures Valid() && this.initial == initial && live == [] && blocks == [Block(initial, ALLOC_SIZE, 0)]
    {
      this.initial := initial;
      this.blocks := [Block(initial, ALLOC_SIZE, 0)];
      this.live := [];
    }

    method Grow(fromMalloc: nat)
      requires Valid() && BlockValid(Block(fromMalloc, ALLOC_SIZE, 0)) && Unused(blocks, fromMalloc, ALLOC_SIZE)
      modifies this`blocks
      ensures Valid() && blocks == [Block(fromMalloc, ALLOC_SIZE, 0)] + old(blocks)
    {
      hide BlocksValid, PiecesValid, Rounded, Unused;
      var b := Block(fromMalloc, ALLOC_SIZE, 0);
      GrowKeeps(blocks, live, b);
      ghost var i :| 0 <= i < |blocks| && blocks[i].addr == initial;
      blocks := [b] + blocks;
      assert blocks[i + 1].addr == initial;
    }

    method AllocateMassive(n: nat, ghost asked: nat, fromMalloc: nat) returns (r: nat)
      requires Valid() && n == Rounded(asked)
      requires BlockValid(Block(fromMalloc, n + META, 0)) && Unused(blocks, fromMalloc, n + META)
      modifies this
      ensures Valid() && blocks == Second(old(blocks), Block(fromMalloc, n + META, 0))
      ensures live == old(live) + [Piece(r, asked, n)]
    {
      hide BlocksValid, PiecesValid, Rounded, Unused;
      var b := Block(fromMalloc, n + META, 0);
      MassiveKeeps(blocks, live, b, asked);
      ghost var i :| 0 <= i < |blocks| && blocks[i].addr == initial;
      r := fromMalloc + META;
      blocks := Second(blocks, b);
      live := live + [Piece(r, asked, n)];
      assert blocks[if i == 0 then 0 else i + 1].addr == initial;
    }

    /**
      `fromMalloc` is the new memory, if any is asked for.  The piece joins those given out before:
      Valid() says that they lie inside their blocks, apart from each other.
     */
    method Allocate(asked: nat, fromMalloc: nat) returns (r: nat)
      requires Valid()
      requires
        var n := Rounded(asked);
        var size := if n > USABLE then n + META else ALLOC_SIZE;
        n + blocks[0].current >= USABLE ==> BlockValid(Block(fromMalloc, size, 0)) && Unused(blocks, fromMalloc, size)
      modifies this
      ensures Valid()
      ensures live == old(live) + [Piece(r, asked, Rounded(asked))]
      ensures r % 16 == 0
      ensures
        var n := Rounded(asked);
        |blocks| == |old(blocks)| + if n + old(blocks)[0].current >= 4080 then 1 else 0
    {
      hide BlocksValid, PiecesValid, Rounded, Unused;
      RoundedEnough(asked);
      var n := Rounded(asked);
      if n + blocks[0].current >= USABLE {
        if n > USABLE {
          r := AllocateMassive(n, asked, fromMalloc);
          PieceAligned(live, blocks, |live| - 1);
          return;
        }
        Grow(fromMalloc);
      }
      BumpKeeps(blocks, live, n, asked);
      ghost var i :| 0 <= i < |blocks| && blocks[i].addr == initial;
      blocks := Bump(blocks, n);
      r := blocks[0].addr + META + blocks[0].current - n;
      live := live + [Piece(r, asked, n)];
      assert blocks[i].addr == initial;
      PieceAligned(live, blocks, |live| - 1);
    }

    /** Every block that came from `malloc` is freed, once; the initial buffer is not. */
    method Reset() returns (freed: seq<nat>)
      requires Valid()
      modifies this
      ensures Valid() && live == [] && blocks == [Block(initial, ALLOC_SIZE, 0)]
      ensures forall i, j :: 0 <= i < j < |freed| ==> freed[i] != freed[j]
      ensures forall addr: nat :: addr in freed <==> HasAddr(old(blocks), addr) && addr != initial
    {
      hide Malloced, Rounded, HasAddr;
      ghost var all := blocks;
      MallocedOnce(all, initial);
      forall addr: nat
        ensures addr in Malloced(all, initial) <==> HasAddr(all, addr) && addr != initial
      {
        MallocedAre(all, initial, addr);
      }
      freed := [];
      ghost var n: nat := 0;
      MallocedNone(initial);
      while |blocks| > 0
        invariant n <= |all| && blocks == all[n..] && freed == Malloced(all[..n], initial)
        decreases |blocks|
      {
        var tmp := blocks[0];
        blocks := blocks[1..];
        if tmp.addr != initial {
          freed := freed + [tmp.addr];
        }
        MallocedSnoc(all[..n], tmp, initial);
        assert all[..n + 1] == all[..n] + [tmp];
        n := n + 1;
      }
      assert all[..n] == all;
      blocks := [Block(initial, ALLOC_SIZE, 0)];
      live := [];
    }
  }

  lemma PieceAligned(live: seq<Piece>, blocks: seq<Block>, k: nat)
    requires PiecesValid(live, blocks) && k < |live|
    ensures live[k].at % 16 == 0
  {
  }

  lemma MallocedNone(initial: nat)
    ensures Malloced([], initial) == []
  {
  }

  /**
    The pieces given out since the last reset, seen by their requests: any two that asked for less
    than 2^32 - 15 bytes are apart, and each lies in memory that the allocator owns.
   */
  lemma RequestsApart(live: seq<Piece>, blocks: seq<Block>, k: nat, l: nat)
    requires PiecesValid(live, blocks) && k < l < |live|
    requires forall i :: 0 <= i < |live| ==> live[i].reserved == Rounded(live[i].asked)
    requires live[k].asked < 0xFFFF_FFF1 && live[l].asked < 0xFFFF_FFF1
    ensures live[k].at + live[k].asked <= live[l].at || live[l].at + live[l].asked <= live[k].at
  {
    hide Rounded;
    RoundedEnough(live[k].asked);
    RoundedEnough(live[l].asked);
    assert Disjoint(live[k], live[l]);
  }
}
