/**
  Android's property area (`PropArea`): a trie over dotted names whose levels are binary search
  trees, stored in memory as nodes that refer to each other by offsets.
 */
module PropArea {
  import opened Basics
  import opened BitRegion

  const DOT: byte := 46

  const PROP_AREA_MAGIC: nat := 0x504f5250
  const PROP_AREA_VERSION: nat := 0xfc6ed0ab

  // Offsets of the area's and a node's fields.
  const MAGIC: nat := 8
  const VERSION: nat := 12
  const DATA: nat := 128
  const NAMELEN: nat := 0
  const PROP: nat := 4
  const LEFT: nat := 8
  const RIGHT: nat := 12
  const CHILDREN: nat := 16
  const NAME: nat := 20

  /** Addresses count from the start of the area; 0 is the null pointer. */
  function Word(mem: Memory, a: nat): (w: nat)
    ensures w < 0x1_0000_0000
  {
    mem(a) + 0x100 * mem(a + 1) + 0x1_0000 * mem(a + 2) + 0x100_0000 * mem(a + 3)
  }

  function Bytes(mem: Memory, a: nat, n: nat): (s: seq<byte>)
    ensures |s| == n
  {
    seq(n, i requires 0 <= i < n => mem(a + i))
  }

  // ---------------------------------------------------------------------------------------------
  // Names
  // ---------------------------------------------------------------------------------------------

  /** `strncmp` of two strings of the same length, from position `i`. */
  function StrNCmp(a: seq<byte>, b: seq<byte>, i: nat): int
    requires |a| == |b| && i <= |a|
    decreases |a| - i
  {
    if i == |a| then 0
    else if a[i] != b[i] then a[i] - b[i]
    else if a[i] == 0 then 0
    else StrNCmp(a, b, i + 1)
  }

  function ComparePropName(a: seq<byte>, b: seq<byte>): int
  {
    if |a| < |b| then -1 else if |a| > |b| then 1 else StrNCmp(a, b, 0)
  }

  ghost predicate NoZero(s: seq<byte>) { forall i :: 0 <= i < |s| ==> s[i] != 0 }

  /** 46 is the dot. */
  ghost predicate NoDot(s: seq<byte>) { forall i :: 0 <= i < |s| ==> s[i] != 46 }

  /** The order of names: the shorter one first, and of equally long ones the one with the smaller byte. */
  ghost predicate Before(a: seq<byte>, b: seq<byte>)
  {
    || |a| < |b|
    || (|a| == |b| && exists i :: 0 <= i < |a| && a[..i] == b[..i] && a[i] < b[i])
  }

  /** It is a strict order, and any two names are equal or one comes before the other. */
  lemma BeforeTransitive(a: seq<byte>, b: seq<byte>, c: seq<byte>)
    requires Before(a, b) && Before(b, c)
    ensures Before(a, c)
  {
    if |a| == |b| == |c| {
      var i :| 0 <= i < |a| && a[..i] == b[..i] && a[i] < b[i];
      var j :| 0 <= j < |b| && b[..j] == c[..j] && b[j] < c[j];
      var k := if i < j then i else j;
      assert a[..k] == a[..i][..k] && b[..k] == b[..i][..k] && b[..k] == b[..j][..k] && c[..k] == c[..j][..k];
      assert i < j ==> b[i] == b[..j][i] && c[i] == c[..j][i];
      assert j < i ==> b[j] == b[..i][j] && a[j] == a[..i][j];
      assert a[..k] == c[..k] && a[k] < c[k];
    }
  }

  lemma BeforeStrict(a: seq<byte>, b: seq<byte>)
    requires Before(a, b)
    ensures !Before(b, a) && a != b
  {
    hide Before;
    NotBeforeItself(a);
    if Before(b, a) {
      BeforeTransitive(a, b, a);
    }
  }

  lemma NotBeforeItself(a: seq<byte>)
    ensures !Before(a, a)
  {
  }

  /** The sign of `strncmp` is that of the first difference. */
  lemma {:induction false} StrNCmpIs(a: seq<byte>, b: seq<byte>, i: nat)
    requires |a| == |b| && i <= |a| && NoZero(a) && a[..i] == b[..i]
    ensures StrNCmp(a, b, i) == 0 <==> a == b
    ensures StrNCmp(a, b, i) < 0 ==> Before(a, b)
    ensures StrNCmp(a, b, i) > 0 ==> Before(b, a)
    decreases |a| - i
  {
    if i == |a| {
      assert a == a[..i] && b == b[..i];
    } else if a[i] == b[i] {
      assert a[..i + 1] == a[..i] + [a[i]] && b[..i + 1] == b[..i] + [b[i]];
      StrNCmpIs(a, b, i + 1);
    }
  }

  /** The comparison is that of the order, and zero for equal names only. */
  lemma CompareIs(a: seq<byte>, b: seq<byte>)
    requires NoZero(a)
    ensures ComparePropName(a, b) == 0 <==> a == b
    ensures ComparePropName(a, b) < 0 <==> Before(a, b)
    ensures ComparePropName(a, b) > 0 <==> Before(b, a)
  {
    hide Before;
    LengthDecides(a, b);
    LengthDecides(b, a);
    if |a| == |b| {
      StrNCmpIs(a, b, 0);
    }
    if Before(a, b) {
      BeforeStrict(a, b);
    }
    if Before(b, a) {
      BeforeStrict(b, a);
    }
  }

  lemma {:induction false} StrNCmpNegates(a: seq<byte>, b: seq<byte>, i: nat)
    requires |a| == |b| && i <= |a|
    ensures StrNCmp(a, b, i) == -StrNCmp(b, a, i)
    decreases |a| - i
  {
    if i < |a| {
      StrNCmpNegates(a, b, i + 1);
    }
  }

  /** Comparing the other way round gives the opposite. */
  lemma CompareOrders(a: seq<byte>, b: seq<byte>)
    ensures ComparePropName(a, b) == -ComparePropName(b, a)
  {
    if |a| == |b| {
      StrNCmpNegates(a, b, 0);
    }
  }

  lemma LengthDecides(a: seq<byte>, b: seq<byte>)
    ensures |a| < |b| ==> Before(a, b) && !Before(b, a)
  {
  }

  /** Where the first dot is; the length if there is none. */
  function DotAt(s: seq<byte>): (n: nat)
    ensures n <= |s| && NoDot(s[..n])
    ensures n < |s| ==> s[n] == 46
  {
    if s == [] || s[0] == DOT then 0
    else
      var n := 1 + DotAt(s[1..]);
      assert s[..n] == [s[0]] + s[1..][..n - 1];
      n
  }

  lemma {:induction false} DotAtIs(s: seq<byte>, n: nat)
    requires n <= |s| && NoDot(s[..n]) && (n < |s| ==> s[n] == 46)
    ensures DotAt(s) == n
  {
    hide DotAt;
  }

  /** The first segment of a dotted name. */
  function Segment(q: seq<byte>): seq<byte> { q[..DotAt(q)] }

  // ---------------------------------------------------------------------------------------------
  // The trie and the map it stands for
  // ---------------------------------------------------------------------------------------------

  /** One level: a search tree of names, each with a property (0: none) and a level below it. */
  datatype Tree =
    | Empty
    | Node(name: seq<byte>, prop: nat, left: Tree, children: Tree, right: Tree)

  function Names(t: Tree): seq<seq<byte>>
  {
    if t.Empty? then [] else Names(t.left) + [t.name] + Names(t.right)
  }

  ghost predicate WellFormed(t: Tree)
  {
    t.Node? ==>
      && t.name != [] && NoZero(t.name) && NoDot(t.name)
      && (forall i :: 0 <= i < |Names(t.left)| ==> Before(Names(t.left)[i], t.name))
      && (forall i :: 0 <= i < |Names(t.right)| ==> Before(t.name, Names(t.right)[i]))
      && WellFormed(t.left) && WellFormed(t.children) && WellFormed(t.right)
  }

  type Entry = (seq<byte>, nat)

  function Prefixed(prefix: seq<byte>, es: seq<Entry>): (r: seq<Entry>)
    ensures |r| == |es|
    ensures forall i :: 0 <= i < |es| ==> r[i] == (prefix + es[i].0, es[i].1)
  {
    seq(|es|, i requires 0 <= i < |es| => (prefix + es[i].0, es[i].1))
  }

  /** The stored properties under their dotted names. */
  function Entries(t: Tree): seq<Entry>
    decreases t, 1
  {
    if t.Empty? then [] else Entries(t.left) + Own(t) + Entries(t.right)
  }

  /** Those at a node and below it. */
  function Own(t: Tree): seq<Entry>
    requires t.Node?
    decreases t, 0
  {
    (if t.prop != 0 then [(t.name, t.prop)] else []) + Prefixed(t.name + [46], Entries(t.children))
  }

  lemma OwnEntry(t: Tree, q: seq<byte>, p: nat)
    requires t.Node?
    ensures (q, p) in Own(t) <==>
      || (q == t.name && p == t.prop != 0)
      || (|q| > |t.name| && q[..|t.name|] == t.name && q[|t.name|] == 46 &&
         (q[|t.name| + 1..], p) in Entries(t.children))
  {
    hide Entries;
    var es := Entries(t.children);
    var prefix := t.name + [46];
    var n := |t.name|;
    if |q| > n && q[..n] == t.name && q[n] == 46 && (q[n + 1..], p) in es {
      var i :| 0 <= i < |es| && es[i] == (q[n + 1..], p);
      assert q == prefix + q[n + 1..];
      assert Prefixed(prefix, es)[i] == (q, p);
    }
    if (q, p) in Prefixed(prefix, es) {
      var i :| 0 <= i < |es| && Prefixed(prefix, es)[i] == (q, p);
      assert q == prefix + es[i].0;
      assert q[n + 1..] == es[i].0 && q[..n] == t.name && q[n] == 46;
    }
  }

  /** An entry at or below a node starts with the node's name. */
  lemma OwnSegment(t: Tree, q: seq<byte>, p: nat)
    requires t.Node? && NoDot(t.name) && (q, p) in Own(t)
    ensures Segment(q) == t.name
  {
    hide Own, DotAt;
    OwnEntry(t, q, p);
    assert q[..|t.name|] == t.name;
    DotAtIs(q, |t.name|);
  }

  lemma {:induction false} EntrySegment(t: Tree, q: seq<byte>, p: nat)
    requires WellFormed(t) && (q, p) in Entries(t)
    ensures Segment(q) in Names(t)
    decreases t
  {
    hide Own, Segment;
    if (q, p) in Own(t) {
      OwnSegment(t, q, p);
    } else if (q, p) in Entries(t.left) {
      EntrySegment(t.left, q, p);
    } else {
      EntrySegment(t.right, q, p);
    }
  }

  // ---------------------------------------------------------------------------------------------
  // Lookup
  // ---------------------------------------------------------------------------------------------

  /** The search in one level. */
  function FindBt(t: Tree, name: seq<byte>): (r: Tree)
    ensures r.Node? ==> r.children < t
  {
    if t.Empty? then Empty
    else
      var c := ComparePropName(name, t.name);
      if c == 0 then t else if c < 0 then FindBt(t.left, name) else FindBt(t.right, name)
  }

  /** The search from the level `t` down, segment by segment. */
  function Find(t: Tree, q: seq<byte>): Option<nat>
    decreases t
  {
    var n := DotAt(q);
    if n == 0 then None
    else
      var node := FindBt(t, q[..n]);
      if node.Empty? then None
      else if n < |q| then Find(node.children, q[n + 1..])
      else if node.prop != 0 then Some(node.prop)
      else None
  }

  /** The search in a level finds the only node whose entries can have the segment. */
  lemma {:induction false} FindBtEntries(t: Tree, q: seq<byte>, p: nat)
    requires WellFormed(t) && NoZero(q)
    ensures
      var node := FindBt(t, Segment(q));
      && (node.Node? ==> WellFormed(node) && node.name == Segment(q))
      && ((q, p) in Entries(t) <==> node.Node? && (q, p) in Own(node))
    decreases t
  {
    hide Own, ComparePropName, Before, Segment, DotAt;
    if t.Node? {
      var seg := Segment(q);
      SegmentNoZero(q);
      CompareIs(seg, t.name);
      SearchStrict(seg, t.name);
      if (q, p) in Own(t) {
        OwnSegment(t, q, p);
      }
      if (q, p) in Entries(t.left) {
        EntrySegment(t.left, q, p);
      }
      if (q, p) in Entries(t.right) {
        EntrySegment(t.right, q, p);
      }
      FindBtEntries(t.left, q, p);
      FindBtEntries(t.right, q, p);
    }
  }

  lemma SearchStrict(a: seq<byte>, b: seq<byte>)
    ensures Before(a, b) ==> !Before(b, a) && a != b
    ensures Before(b, a) ==> !Before(a, b) && a != b
  {
    hide Before;
    if Before(a, b) {
      BeforeStrict(a, b);
    }
    if Before(b, a) {
      BeforeStrict(b, a);
    }
  }

  lemma SegmentNoZero(q: seq<byte>)
    requires NoZero(q)
    ensures NoZero(Segment(q))
  {
  }

  /** Lookup is lookup in the map: it finds a property if and only if it is stored under that name. */
  lemma {:induction false} FindIsLookup(t: Tree, q: seq<byte>, p: nat)
    requires WellFormed(t) && NoZero(q)
    ensures Find(t, q) == Some(p) <==> (q, p) in Entries(t)
    decreases t
  {
    hide Entries, FindBt, DotAt, WellFormed, Own;
    var n := DotAt(q);
    var node := FindBt(t, q[..n]);
    FindBtEntries(t, q, p);
    if node.Node? {
      NodeNames(node);
      OwnEntry(node, q, p);
      if n > 0 && n < |q| {
        FindIsLookup(node.children, q[n + 1..], p);
      }
    }
  }

  lemma NodeNames(t: Tree)
    requires WellFormed(t) && t.Node?
    ensures t.name != [] && WellFormed(t.children)
  {
  }

  // ---------------------------------------------------------------------------------------------
  // No name is stored twice
  // ---------------------------------------------------------------------------------------------

  ghost predicate Distinct(es: seq<Entry>) { forall i, j :: 0 <= i < j < |es| ==> es[i].0 != es[j].0 }

  ghost predicate Apart(a: seq<Entry>, b: seq<Entry>)
  {
    forall i, j :: 0 <= i < |a| && 0 <= j < |b| ==> a[i].0 != b[j].0
  }

  lemma DistinctAppend(a: seq<Entry>, b: seq<Entry>)
    requires Distinct(a) && Distinct(b) && Apart(a, b)
    ensures Distinct(a + b)
  {
  }

  lemma OwnDistinct(t: Tree)
    requires t.Node? && Distinct(Entries(t.children))
    ensures Distinct(Own(t))
  {
    hide Entries;
    var prefix := t.name + [46];
    var es := Entries(t.children);
    var below := Prefixed(prefix, es);
    forall i, j | 0 <= i < j < |es|
      ensures below[i].0 != below[j].0
    {
      assert (prefix + es[i].0)[|prefix|..] == es[i].0 && (prefix + es[j].0)[|prefix|..] == es[j].0;
    }
    forall i | 0 <= i < |es|
      ensures below[i].0 != t.name
    {
      assert |below[i].0| > |t.name|;
    }
    DistinctAppend(if t.prop != 0 then [(t.name, t.prop)] else [], below);
  }

  lemma {:induction false} EntriesDistinct(t: Tree)
    requires WellFormed(t)
    ensures Distinct(Entries(t))
    decreases t
  {
    hide Own, Distinct, Apart;
    if t.Node? {
      EntriesDistinct(t.left);
      EntriesDistinct(t.children);
      EntriesDistinct(t.right);
      OwnDistinct(t);
      PartsApart(t);
      DistinctAppend(Entries(t.left), Own(t));
      DistinctAppend(Entries(t.left) + Own(t), Entries(t.right));
    } else {
      assert Distinct([]) by {
        NothingDistinct();
      }
    }
  }

  lemma NothingDistinct()
    ensures Distinct([])
  {
  }

  lemma PartsApart(t: Tree)
    requires WellFormed(t) && t.Node?
    ensures Apart(Entries(t.left), Own(t)) && Apart(Entries(t.left) + Own(t), Entries(t.right))
  {
    hide Entries, Own, Segment, Before, WellFormed;
    var l, o, r := Entries(t.left), Own(t), Entries(t.right);
    forall i | 0 <= i < |l|
      ensures Before(Segment(l[i].0), t.name) && Segment(l[i].0) != t.name
    {
      LeftLess(t, l[i].0, l[i].1);
      SearchStrict(Segment(l[i].0), t.name);
    }
    forall i | 0 <= i < |o|
      ensures Segment(o[i].0) == t.name
    {
      WellFormedName(t);
      OwnSegment(t, o[i].0, o[i].1);
    }
    forall i | 0 <= i < |r|
      ensures Before(t.name, Segment(r[i].0)) && Segment(r[i].0) != t.name
      ensures forall k :: 0 <= k < |l| ==> Segment(l[k].0) != Segment(r[i].0)
    {
      RightGreater(t, r[i].0, r[i].1);
      SearchStrict(Segment(r[i].0), t.name);
    }
  }

  lemma WellFormedName(t: Tree)
    requires WellFormed(t) && t.Node?
    ensures NoDot(t.name) && NoZero(t.name)
  {
  }

  lemma LeftLess(t: Tree, q: seq<byte>, p: nat)
    requires WellFormed(t) && t.Node? && (q, p) in Entries(t.left)
    ensures Before(Segment(q), t.name)
  {
    hide Entries, Segment, Before;
    EntrySegment(t.left, q, p);
  }

  lemma RightGreater(t: Tree, q: seq<byte>, p: nat)
    requires WellFormed(t) && t.Node? && (q, p) in Entries(t.right)
    ensures Before(t.name, Segment(q))
  {
    hide Entries, Segment, Before;
    EntrySegment(t.right, q, p);
  }

  // ---------------------------------------------------------------------------------------------
  // The trie in memory
  // ---------------------------------------------------------------------------------------------

  /** A 32-bit field: four bytes, the low one first. */
  function Field(mem: Memory, a: nat): nat
  {
    mem(a) + 256 * (mem(a + 1) + 256 * (mem(a + 2) + 256 * mem(a + 3)))
  }

  lemma ReadsFields(mem: Memory)
    ensures forall a: nat :: Word(mem, a) == Field(mem, a)
  {
  }

  /** A level that a field of a node refers to, by its offset in the data, which starts at 128. */
  ghost predicate LevelAt(mem: Memory, off: nat, t: Tree)
    decreases t, 1
  {
    if off == 0 then t.Empty? else NodeAt(mem, 128 + off, t)
  }

  /** A node: length of the name, property, left, right and lower node, and the name. */
  ghost predicate NodeAt(mem: Memory, a: nat, t: Tree)
    decreases t, 0
  {
    && t.Node?
    && Field(mem, a) == |t.name| && (forall i :: 0 <= i < |t.name| ==> mem(a + 20 + i) == t.name[i])
    && Field(mem, a + 4) == t.prop
    && LevelAt(mem, Field(mem, a + 8), t.left)
    && LevelAt(mem, Field(mem, a + 12), t.right)
    && LevelAt(mem, Field(mem, a + 16), t.children)
  }

  /** The bytes determine the trie. */
  lemma {:induction false} NodeAtUnique(mem: Memory, a: nat, t: Tree, u: Tree)
    requires NodeAt(mem, a, t) && NodeAt(mem, a, u)
    ensures t == u
    decreases t
  {
    hide Field;
    var left, right, children := Field(mem, a + 8), Field(mem, a + 12), Field(mem, a + 16);
    assert t.name == u.name;
    if left != 0 {
      NodeAtUnique(mem, 128 + left, t.left, u.left);
    }
    if right != 0 {
      NodeAtUnique(mem, 128 + right, t.right, u.right);
    }
    if children != 0 {
      NodeAtUnique(mem, 128 + children, t.children, u.children);
    }
  }

  /** The name of a node, as the program reads it. */
  lemma ReadsName(mem: Memory, a: nat, t: Tree)
    requires NodeAt(mem, a, t)
    ensures Bytes(mem, a + NAME, Word(mem, a + NAMELEN)) == t.name
  {
    hide Word, Field;
    ReadsFields(mem);
  }

  /** The search in one level, by following offsets. */
  method FindPropbt(mem: Memory, bt: nat, name: seq<byte>, ghost t: Tree) returns (r: nat, ghost node: Tree)
    requires bt != 0 ==> NodeAt(mem, bt, t)
    requires bt == 0 ==> t.Empty?
    ensures node == FindBt(t, name)
    ensures r == 0 <==> FindBt(t, name).Empty?
    ensures r != 0 ==> NodeAt(mem, r, FindBt(t, name))
  {
    hide Word, Field, Bytes, ComparePropName;
    ReadsFields(mem);
    var current: nat := bt;
    node := t;
    while true
      invariant if current == 0 then node.Empty? else NodeAt(mem, current, node)
      invariant FindBt(node, name) == FindBt(t, name)
      decreases node
    {
      if current == 0 {
        return 0, node;
      }
      ReadsName(mem, current, node);
      var c := ComparePropName(name, Bytes(mem, current + NAME, Word(mem, current + NAMELEN)));
      if c == 0 {
        return current, node;
      }
      if c < 0 {
        var left := Word(mem, current + LEFT);
        node := node.left;
        if left == 0 {
          return 0, node;
        }
        current := DATA + left;
      } else {
        var right := Word(mem, current + RIGHT);
        node := node.right;
        if right == 0 {
          return 0, node;
        }
        current := DATA + right;
      }
    }
  }

  /** The search for a dotted name; 0 if it is not there. */
  method FindProperty(mem: Memory, trie: nat, name: seq<byte>, ghost t: Tree) returns (r: nat)
    requires trie != 0 ==> NodeAt(mem, trie, t)
    ensures r == if trie != 0 && Find(t.children, name).Some? then 128 + Find(t.children, name).value else 0
  {
    hide Word, Field, Bytes, FindBt, DotAt;
    ReadsFields(mem);
    if trie == 0 {
      return 0;
    }
    var remaining := name;
    var current: nat := trie;
    ghost var node := t;
    while true
      invariant current != 0 && NodeAt(mem, current, node)
      invariant Find(node.children, remaining) == Find(t.children, name)
      decreases |remaining|
    {
      var size := DotAt(remaining);
      var wantSubtree := size < |remaining|;
      if size == 0 {
        return 0;
      }
      var root := 0;
      var children := Word(mem, current + CHILDREN);
      if children != 0 {
        root := DATA + children;
      }
      if root == 0 {
        EmptyLevel(node.children, remaining);
        return 0;
      }
      ghost var below := node.children;
      current, node := FindPropbt(mem, root, remaining[..size], below);
      if current == 0 {
        return 0;
      }
      if !wantSubtree {
        assert Find(below, remaining) == if node.prop != 0 then Some(node.prop) else None;
        break;
      }
      remaining := remaining[size + 1..];
    }
    var prop := Word(mem, current + PROP);
    r := if prop != 0 then DATA + prop else 0;
  }

  lemma EmptyLevel(t: Tree, q: seq<byte>)
    requires t.Empty?
    ensures Find(t, q) == None
  {
  }

  ghost predicate HeaderOk(mem: Memory)
  {
    Field(mem, 12) == 0xfc6ed0ab && Field(mem, 8) == 0x504f5250
  }

  /** A property is found if and only if the map has it under that name. */
  method FindName(mem: Memory, name: seq<byte>, ghost root: Tree) returns (r: nat)
    requires root.Node? && NodeAt(mem, 128, root) && WellFormed(root.children) && NoZero(name)
    ensures !HeaderOk(mem) ==> r == 0
    ensures HeaderOk(mem) ==> forall p: nat :: p != 0 && r == 128 + p <==> (name, p) in Entries(root.children)
    ensures HeaderOk(mem) && r != 0 ==> r > 128
  {
    hide Word, Field, Entries, WellFormed, NodeAt;
    ReadsFields(mem);
    if Word(mem, VERSION) != PROP_AREA_VERSION || Word(mem, MAGIC) != PROP_AREA_MAGIC {
      return 0;
    }
    r := FindProperty(mem, DATA, name, root);
    FoundIsProperty(root.children, name);
    forall p: nat
      ensures p != 0 && r == 128 + p <==> (name, p) in Entries(root.children)
    {
      FindIsLookup(root.children, name, p);
    }
  }

  lemma FoundIsProperty(t: Tree, q: seq<byte>)
    ensures Find(t, q).Some? ==> Find(t, q).value != 0
  {
  }

  // ---------------------------------------------------------------------------------------------
  // Traversal
  // ---------------------------------------------------------------------------------------------

  /** The addresses of the entries' properties, in order. */
  function Props(es: seq<Entry>): (r: seq<nat>)
    ensures |r| == |es|
  {
    seq(|es|, i requires 0 <= i < |es| => 128 + es[i].1)
  }

  lemma PropsAppend(a: seq<Entry>, b: seq<Entry>)
    ensures Props(a + b) == Props(a) + Props(b)
  {
  }

  lemma PropsPrefixed(prefix: seq<byte>, es: seq<Entry>)
    ensures Props(Prefixed(prefix, es)) == Props(es)
  {
  }

  lemma EntriesParts(t: Tree)
    requires t.Node?
    ensures Entries(t) == Entries(t.left) + Own(t) + Entries(t.right)
    ensures Own(t) == (if t.prop != 0 then [(t.name, t.prop)] else []) + Prefixed(t.name + [46], Entries(t.children))
  {
  }

  /** What a traversal of a node visits, part by part. */
  lemma NodeProps(t: Tree)
    requires t.Node?
    ensures Props(Entries(t)) ==
      Props(Entries(t.left)) + (if t.prop != 0 then [128 + t.prop] else []) + Props(Entries(t.children))
      + Props(Entries(t.right))
  {
    hide Props, Prefixed, Entries, Own;
    EntriesParts(t);
    var own := if t.prop != 0 then [(t.name, t.prop)] else [];
    var below := Prefixed(t.name + [46], Entries(t.children));
    PropsAppend(Entries(t.left) + Own(t), Entries(t.right));
    PropsAppend(Entries(t.left), Own(t));
    PropsAppend(own, below);
    PropsPrefixed(t.name + [46], Entries(t.children));
    PropsOne(t.name, t.prop);
  }

  lemma PropsOne(name: seq<byte>, p: nat)
    ensures Props([(name, p)]) == [128 + p] && Props([]) == []
  {
  }

  /** Every property in the subtree is visited once, in the order of the map's entries. */
  method ForeachProperty(mem: Memory, trie: nat, ghost t: Tree) returns (ok: bool, visited: seq<nat>)
    requires trie != 0 ==> NodeAt(mem, trie, t)
    ensures ok == (trie != 0)
    ensures visited == if ok then Props(Entries(t)) else []
    decreases t
  {
    hide Word, Field, Bytes, Entries, Props;
    ReadsFields(mem);
    visited := [];
    if trie == 0 {
      return false, [];
    }
    PropsOne([], 0);
    NoEntries();
    NodeProps(t);
    var left := Word(mem, trie + LEFT);
    if left != 0 {
      var _, more := ForeachProperty(mem, DATA + left, t.left);
      visited := visited + more;
    }
    var prop := Word(mem, trie + PROP);
    if prop != 0 {
      visited := visited + [DATA + prop];
    }
    var children := Word(mem, trie + CHILDREN);
    if children != 0 {
      var _, more := ForeachProperty(mem, DATA + children, t.children);
      visited := visited + more;
    }
    var right := Word(mem, trie + RIGHT);
    if right != 0 {
      var _, more := ForeachProperty(mem, DATA + right, t.right);
      visited := visited + more;
    }
    ok := true;
  }

  lemma NoEntries()
    ensures Entries(Empty) == []
  {
  }

  /**
    A traversal from the root visits exactly what lookup can find, each once, if and only if the
    root node has no property and no properties beside it.
   */
  lemma TraversalIsLookup(root: Tree)
    requires root.Node? && WellFormed(root.children)
    ensures
      var beside := root.prop != 0 || Entries(root.left) != [] || Entries(root.right) != [];
      && (Props(Entries(root)) == Props(Entries(root.children)) <==> !beside)
      && (beside ==> |Props(Entries(root))| > |Entries(root.children)|)
      && Distinct(Entries(root.children))
  {
    hide Entries, Own, Distinct, Props;
    NodeProps(root);
    PropsOne([], 0);
    EntriesDistinct(root.children);
  }

  /** A property at the root itself is visited, and no name finds it. */
  lemma RootPropertyUnseen(q: seq<byte>)
    ensures
      var root := Node([], 5, Empty, Empty, Empty);
      Props(Entries(root)) == [128 + 5] && Find(root.children, q) == None
  {
    hide Props, Entries;
    var root := Node([], 5, Empty, Empty, Empty);
    NodeProps(root);
    NoEntries();
    PropsOne([], 0);
  }
}
