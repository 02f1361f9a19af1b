/**
  The bitwise checksums `Utils::CRC32` and `Utils::CRC64`, with which mapped files are compared,
  and what they detect.  A machine word is the sequence of its bits, the highest first.
 */
module Crc {
  import opened Basics
  import opened Bits

  type Word = seq<bool>

  /** The low `width` bits of a number. */
  function Number(n: nat, width: nat): (w: Word)
    ensures |w| == width
  {
    if width == 0 then [] else Number(n / 2, width - 1) + [n % 2 == 1]
  }

  function Zeros(n: nat): (w: Word)
    ensures |w| == n && forall i :: 0 <= i < n ==> !w[i]
  {
    seq(n, _ => false)
  }

  function Xor(a: Word, b: Word): (c: Word)
    requires |a| == |b|
    ensures |c| == |a| && forall i :: 0 <= i < |c| ==> c[i] == (a[i] != b[i])
  {
    seq(|a|, i requires 0 <= i < |a| => a[i] != b[i])
  }

  /** c << 1. */
  function Shift(c: Word): (r: Word)
    requires c != []
    ensures |r| == |c| && forall i :: 0 <= i < |r| ==> r[i] == if i < |c| - 1 then c[i + 1] else false
  {
    c[1..] + [false]
  }

  /** A generator as the program's constants are: its lowest bit is set. */
  predicate IsPoly(poly: Word) { poly != [] && poly[|poly| - 1] }

  function Step(poly: Word, c: Word): (r: Word)
    requires |c| == |poly| > 0
    ensures |r| == |c|
  {
    if c[0] then Xor(Shift(c), poly) else Shift(c)
  }

  function Steps(poly: Word, c: Word, n: nat): (r: Word)
    requires |c| == |poly| > 0
    ensures |r| == |c|
  {
    if n == 0 then c else Step(poly, Steps(poly, c, n - 1))
  }

  /** A byte goes into the top of the register, and eight steps follow. */
  function Absorb(poly: Word, c: Word, d: byte): (r: Word)
    requires |c| == |poly| >= 8
    ensures |r| == |c|
  {
    Steps(poly, Xor(c, Number(d, 8) + Zeros(|poly| - 8)), 8)
  }

  function Checksum(poly: Word, c: Word, data: seq<byte>): (r: Word)
    requires |c| == |poly| >= 8
    ensures |r| == |c|
  {
    if data == [] then c else Absorb(poly, Checksum(poly, c, data[..|data| - 1]), data[|data| - 1])
  }

  method Run(poly: Word, start: Word, data: array<byte>, len: nat) returns (crc: Word)
    requires |start| == |poly| >= 8 && len <= data.Length
    ensures crc == Checksum(poly, start, data[..len])
  {
    hide Step, Xor, Shift;
    crc := start;
    for k := 0 to len
      invariant crc == Checksum(poly, start, data[..k])
    {
      ghost var c := Xor(crc, Number(data[k], 8) + Zeros(|poly| - 8));
      crc := Xor(crc, Number(data[k], 8) + Zeros(|poly| - 8));
      for i := 0 to 8
        invariant |crc| == |poly| && crc == Steps(poly, c, i)
      {
        crc := StepOnce(poly, crc);
      }
      assert data[..k + 1][..k] == data[..k];
    }
  }

  method StepOnce(poly: Word, c: Word) returns (crc: Word)
    requires |c| == |poly| > 0
    ensures crc == Step(poly, c)
  {
    crc := c;
    if crc[0] {
      crc := Xor(Shift(crc), poly);
    } else {
      crc := Shift(crc);
    }
  }

  const POLY32: nat := 0x04C1_1DB7
  const POLY64: nat := 0x42F0_E1EB_A9EA_3693

  /** All bits set. */
  function Ones(n: nat): (w: Word)
    ensures |w| == n
  {
    seq(n, _ => true)
  }

  method CRC32(data: array<byte>, len: nat) returns (crc: Word)
    requires len <= data.Length
    ensures crc == Checksum(Number(POLY32, 32), Ones(32), data[..len])
  {
    crc := Run(Number(POLY32, 32), Ones(32), data, len);
  }

  method CRC64(data: array<byte>, len: nat) returns (crc: Word)
    requires len <= data.Length
    ensures crc == Checksum(Number(POLY64, 64), Ones(64), data[..len])
  {
    crc := Run(Number(POLY64, 64), Ones(64), data, len);
  }

  lemma Polys()
    ensures IsPoly(Number(POLY32, 32)) && IsPoly(Number(POLY64, 64))
  {
    assert POLY32 % 2 == 1 && POLY64 % 2 == 1;
  }

  // ---------------------------------------------------------------------------------------------
  // A step loses nothing and is linear
  // ---------------------------------------------------------------------------------------------

  lemma StepInjective(poly: Word, a: Word, b: Word)
    requires IsPoly(poly) && |a| == |b| == |poly| && Step(poly, a) == Step(poly, b)
    ensures a == b
  {
    var n := |poly|;
    var sa, sb := Step(poly, a), Step(poly, b);
    assert sa[n - 1] == a[0] && sb[n - 1] == b[0];
    forall i | 0 < i < n
      ensures a[i] == b[i]
    {
      assert sa[i - 1] == (a[i] != (a[0] && poly[i - 1]));
      assert sb[i - 1] == (b[i] != (b[0] && poly[i - 1]));
    }
  }

  lemma StepLinear(poly: Word, a: Word, b: Word)
    requires |a| == |b| == |poly| > 0
    ensures Step(poly, Xor(a, b)) == Xor(Step(poly, a), Step(poly, b))
  {
  }

  lemma {:induction false} StepsInjective(poly: Word, a: Word, b: Word, n: nat)
    requires IsPoly(poly) && |a| == |b| == |poly| && Steps(poly, a, n) == Steps(poly, b, n)
    ensures a == b
    decreases n
  {
    hide Step;
    if n > 0 {
      StepInjective(poly, Steps(poly, a, n - 1), Steps(poly, b, n - 1));
      StepsInjective(poly, a, b, n - 1);
    }
  }

  lemma {:induction false} StepsLinear(poly: Word, a: Word, b: Word, n: nat)
    requires |a| == |b| == |poly| > 0
    ensures Steps(poly, Xor(a, b), n) == Xor(Steps(poly, a, n), Steps(poly, b, n))
    decreases n
  {
    hide Step, Xor;
    if n > 0 {
      StepsLinear(poly, a, b, n - 1);
      StepLinear(poly, Steps(poly, a, n - 1), Steps(poly, b, n - 1));
    }
  }

  /** One bit alone is only moved until it reaches the top. */
  lemma {:induction false} StepsMove(poly: Word, b: bool, k: nat, n: nat)
    requires n <= k < |poly|
    ensures Steps(poly, Zeros(k) + [b] + Zeros(|poly| - k - 1), n)
         == Zeros(k - n) + [b] + Zeros(|poly| - k - 1 + n)
    decreases n
  {
    if n > 0 {
      StepsMove(poly, b, k, n - 1);
      var c := Zeros(k - n + 1) + [b] + Zeros(|poly| - k - 2 + n);
      assert !c[0];
      assert Shift(c) == Zeros(k - n) + [b] + Zeros(|poly| - k - 1 + n);
    } else {
      assert Zeros(|poly| - k - 1 + n) == Zeros(|poly| - k - 1);
    }
  }

  // ---------------------------------------------------------------------------------------------
  // Bit by bit
  // ---------------------------------------------------------------------------------------------

  /** One bit of the message. */
  function Feed(poly: Word, c: Word, b: bool): (r: Word)
    requires |c| == |poly| > 0
    ensures |r| == |c|
  {
    Step(poly, Xor(c, [b] + Zeros(|poly| - 1)))
  }

  function FeedAll(poly: Word, c: Word, bits: seq<bool>): (r: Word)
    requires |c| == |poly| > 0
    ensures |r| == |c|
  {
    if bits == [] then c else Feed(poly, FeedAll(poly, c, bits[..|bits| - 1]), bits[|bits| - 1])
  }

  /** Up to a register's width, feeding bits one by one is putting them into it at once. */
  lemma {:induction false} FeedIsSteps(poly: Word, c: Word, bits: seq<bool>)
    requires |c| == |poly| > 0 && |bits| <= |poly|
    ensures FeedAll(poly, c, bits) == Steps(poly, Xor(c, bits + Zeros(|poly| - |bits|)), |bits|)
    decreases |bits|
  {
    hide Step;
    var w, n := |poly|, |bits|;
    if n == 0 {
      assert Xor(c, bits + Zeros(w)) == c;
    } else {
      var front, b := bits[..n - 1], bits[n - 1];
      FeedIsSteps(poly, c, front);
      var x := Xor(c, front + Zeros(w - n + 1));
      var e := Zeros(n - 1) + [b] + Zeros(w - (n - 1) - 1);
      StepsLinear(poly, x, e, n - 1);
      StepsMove(poly, b, n - 1, n - 1);
      assert Zeros(0) + [b] + Zeros(w - 1) == [b] + Zeros(w - 1);
      assert Xor(x, e) == Xor(c, bits + Zeros(w - n));
    }
  }

  lemma {:induction false} FeedAppend(poly: Word, c: Word, a: seq<bool>, b: seq<bool>)
    requires |c| == |poly| > 0
    ensures FeedAll(poly, c, a + b) == FeedAll(poly, FeedAll(poly, c, a), b)
    decreases |b|
  {
    hide Feed;
    if b == [] {
      assert a + b == a;
    } else {
      FeedAppend(poly, c, a, b[..|b| - 1]);
      assert (a + b)[..|a + b| - 1] == a + b[..|b| - 1];
    }
  }

  function BitsOf(data: seq<byte>): (bits: seq<bool>)
    ensures |bits| == 8 * |data|
  {
    if data == [] then [] else BitsOf(data[..|data| - 1]) + Number(data[|data| - 1], 8)
  }

  /** The checksum of bytes is that of their bits. */
  lemma {:induction false} ChecksumIsFeed(poly: Word, c: Word, data: seq<byte>)
    requires |c| == |poly| >= 8
    ensures Checksum(poly, c, data) == FeedAll(poly, c, BitsOf(data))
    decreases |data|
  {
    hide FeedAll, Steps, Number, Xor;
    if data != [] {
      var front, d := data[..|data| - 1], data[|data| - 1];
      ChecksumIsFeed(poly, c, front);
      FeedAppend(poly, c, BitsOf(front), Number(d, 8));
      FeedIsSteps(poly, Checksum(poly, c, front), Number(d, 8));
    } else {
      FeedNothing(poly, c);
    }
  }

  lemma FeedNothing(poly: Word, c: Word)
    requires |c| == |poly| > 0
    ensures FeedAll(poly, c, []) == c
  {
  }

  // ---------------------------------------------------------------------------------------------
  // The checksum as a remainder
  // ---------------------------------------------------------------------------------------------

  // A word is also a polynomial over the field of two elements, its highest coefficient first.

  function Product(q: Word, g: Word): (r: Word)
    requires g != []
    ensures |r| == |q| + |g| - 1
  {
    if q == [] then Zeros(|g| - 1)
    else Xor(if q[0] then g + Zeros(|q| - 1) else Zeros(|q| + |g| - 1), [false] + Product(q[1..], g))
  }

  /** What the highest coefficient contributes. */
  function Top(b: bool, n: nat, g: Word): (r: Word)
    requires g != []
    ensures |r| == n + |g|
  {
    if b then g + Zeros(n) else Zeros(n + |g|)
  }

  lemma ProductCons(q: Word, g: Word)
    requires g != [] && q != []
    ensures Product(q, g) == Xor(Top(q[0], |q| - 1, g), [false] + Product(q[1..], g))
  {
  }

  lemma ProductNone(g: Word)
    requires g != []
    ensures Product([], g) == Zeros(|g| - 1)
  {
  }

  lemma XorAssoc(a: Word, b: Word, c: Word)
    requires |a| == |b| == |c|
    ensures Xor(Xor(a, b), c) == Xor(a, Xor(b, c))
  {
  }

  lemma XorJoin(a: Word, b: Word, x: Word, y: Word)
    requires |a| == |b| && |x| == |y|
    ensures Xor(a + x, b + y) == Xor(a, b) + Xor(x, y)
  {
  }

  lemma XorNothing(n: nat, x: Word)
    requires |x| == n
    ensures Xor(Zeros(n), x) == x && Xor(x, Zeros(n)) == x
  {
  }

  lemma ZerosJoin(m: nat, n: nat)
    ensures Zeros(m) + Zeros(n) == Zeros(m + n)
    ensures n == 1 ==> Zeros(n) == [false]
  {
  }

  lemma WordAssoc(a: Word, b: Word, c: Word)
    ensures (a + b) + c == a + (b + c)
  {
  }

  /** The lowest coefficient's part of a product. */
  function Bottom(b: bool, n: nat, g: Word): (r: Word)
    requires g != []
    ensures |r| == n + |g|
  {
    if b then Zeros(n) + g else Zeros(n + |g|)
  }

  lemma TopWider(b: bool, n: nat, g: Word)
    requires g != []
    ensures Top(b, n + 1, g) == Top(b, n, g) + [false] && Bottom(b, n + 1, g) == [false] + Bottom(b, n, g)
  {
  }

  /** Multiplication from the other end. */
  lemma {:induction false} ProductSnoc(q: Word, b: bool, g: Word)
    requires g != []
    ensures Product(q + [b], g) == Xor(Product(q, g) + [false], Bottom(b, |q|, g))
    decreases |q|
  {
    hide Xor, Product, Top, Bottom, Zeros;
    ProductCons(q + [b], g);
    if q == [] {
      assert (q + [b])[1..] == [] && (q + [b])[0] == b;
      ProductNone(g);
      OneFactor(b, g);
    } else {
      var n, low := |q| - 1, Product(q[1..], g);
      assert (q + [b])[1..] == q[1..] + [b] && (q + [b])[0] == q[0];
      ProductSnoc(q[1..], b, g);
      ProductCons(q, g);
      TopWider(q[0], n, g);
      TopWider(b, n, g);
      WordAssoc([false], low, [false]);
      XorJoin([false], [false], low + [false], Bottom(b, n, g));
      XorJoin(Top(q[0], n, g), [false] + low, [false], [false]);
      XorAssoc(Top(q[0], n, g) + [false], [false] + low + [false], [false] + Bottom(b, n, g));
      FalseTwice();
    }
  }

  lemma FalseTwice()
    ensures Xor([false], [false]) == [false]
  {
  }

  lemma OneFactor(b: bool, g: Word)
    requires g != []
    ensures Xor(Top(b, 0, g), [false] + Zeros(|g| - 1)) == Xor(Zeros(|g| - 1) + [false], Bottom(b, 0, g))
  {
  }

  /** `r` is what is left of `x` when it is divided by `g`. */
  ghost predicate IsRemainder(x: Word, g: Word, r: Word)
  {
    && |g| == |r| + 1 && |r| <= |x|
    && exists q: Word :: |q| == |x| - |r| && x == Xor(Product(q, g), Zeros(|x| - |r|) + r)
  }

  /** There is only one remainder. */
  lemma OneRemainder(x: Word, g: Word, r: Word, s: Word)
    requires g != [] && g[0] && IsRemainder(x, g, r) && IsRemainder(x, g, s)
    ensures r == s
  {
    hide Product, Xor;
    var q :| |q| == |x| - |r| && x == Xor(Product(q, g), Zeros(|x| - |r|) + r);
    var p :| |p| == |x| - |s| && x == Xor(Product(p, g), Zeros(|x| - |s|) + s);
    SameQuotient(q, p, g, r, s);
  }

  lemma {:induction false} SameQuotient(q: Word, p: Word, g: Word, r: Word, s: Word)
    requires |q| == |p| && |r| == |s| == |g| - 1 && g != [] && g[0]
    requires Xor(Product(q, g), Zeros(|q|) + r) == Xor(Product(p, g), Zeros(|p|) + s)
    ensures r == s
    decreases |q|
  {
    hide Product, Top, Zeros, Xor;
    if q == [] {
      ProductNone(g);
      NoZeros(r);
      NoZeros(s);
      XorNothing(|g| - 1, r);
      XorNothing(|g| - 1, s);
      assert q == p;
    } else {
      var n := |q| - 1;
      var x, y := Xor(Product(q[1..], g), Zeros(n) + r), Xor(Product(p[1..], g), Zeros(n) + s);
      FirstFactor(q, g, r);
      FirstFactor(p, g, s);
      FirstBit(q[0], p[0], n, g, x, y);
      SameQuotient(q[1..], p[1..], g, r, s);
    }
  }

  lemma NoZeros(r: Word)
    ensures Zeros(0) + r == r
  {
  }

  lemma ZerosFirst(n: nat, r: Word)
    requires n > 0
    ensures Zeros(n) + r == [false] + (Zeros(n - 1) + r)
  {
  }

  lemma FirstFactor(q: Word, g: Word, r: Word)
    requires g != [] && q != [] && |r| == |g| - 1
    ensures Xor(Product(q, g), Zeros(|q|) + r) ==
      Xor(Top(q[0], |q| - 1, g), [false] + Xor(Product(q[1..], g), Zeros(|q| - 1) + r))
  {
    hide Product, Top, Xor, Zeros;
    var low := Product(q[1..], g);
    ProductCons(q, g);
    ZerosFirst(|q|, r);
    XorAssoc(Top(q[0], |q| - 1, g), [false] + low, [false] + (Zeros(|q| - 1) + r));
    XorJoin([false], [false], low, Zeros(|q| - 1) + r);
    FalseTwice();
  }

  /** The leading coefficient of the generator shows the leading coefficient of the quotient. */
  lemma FirstBit(a: bool, b: bool, n: nat, g: Word, x: Word, y: Word)
    requires g != [] && g[0] && |x| == |y| == n + |g| - 1
    requires Xor(Top(a, n, g), [false] + x) == Xor(Top(b, n, g), [false] + y)
    ensures a == b && x == y
  {
    hide Xor;
    var u, v := Xor(Top(a, n, g), [false] + x), Xor(Top(b, n, g), [false] + y);
    TopBit(a, n, g);
    TopBit(b, n, g);
    XorFirst(Top(a, n, g), [false] + x);
    XorFirst(Top(b, n, g), [false] + y);
    XorTurned(Top(a, n, g), [false] + x);
    XorTurned(Top(a, n, g), [false] + y);
    XorCancels([false] + x, [false] + y, Top(a, n, g));
    assert ([false] + x)[1..] == x && ([false] + y)[1..] == y;
  }

  lemma TopBit(b: bool, n: nat, g: Word)
    requires g != [] && g[0]
    ensures Top(b, n, g)[0] == b
  {
  }

  lemma XorFirst(a: Word, b: Word)
    requires |a| == |b| > 0
    ensures Xor(a, b)[0] == (a[0] != b[0])
  {
  }

  lemma XorTurned(a: Word, b: Word)
    requires |a| == |b|
    ensures Xor(a, b) == Xor(b, a)
  {
  }

  /** One bit more of the message is one step more of the division. */
  lemma StepDivides(poly: Word, c: Word)
    requires |c| == |poly| > 0
    ensures c + [false] == Xor(Bottom(c[0], 0, [true] + poly), [false] + Step(poly, c))
  {
  }

  /**
    Feeding bits divides: the register is the remainder of the start value and the message, both
    shifted, by the generator, which is `poly` below a leading one.
   */
  lemma {:induction false} FeedDivides(poly: Word, c: Word, bits: seq<bool>)
    requires |c| == |poly| > 0
    ensures
      IsRemainder(Xor(c + Zeros(|bits|), bits + Zeros(|poly|)), [true] + poly, FeedAll(poly, c, bits))
  {
    hide Product, Xor, Step;
    var q := FeedQuotient(poly, c, bits);
    assert |q| == |bits|;
  }

  lemma {:induction false} FeedQuotient(poly: Word, c: Word, bits: seq<bool>) returns (q: Word)
    requires |c| == |poly| > 0
    ensures |q| == |bits|
    ensures Xor(c + Zeros(|bits|), bits + Zeros(|poly|)) ==
      Xor(Product(q, [true] + poly), Zeros(|bits|) + FeedAll(poly, c, bits))
    decreases |bits|
  {
    hide Product, Step, Xor;
    var n, w, g := |bits|, |poly|, [true] + poly;
    if n == 0 {
      q := [];
      NothingDivided(poly, c);
    } else {
      var front, b := bits[..n - 1], bits[n - 1];
      var q' := FeedQuotient(poly, c, front);
      var r := FeedAll(poly, c, front);
      var x := Xor(r, [b] + Zeros(w - 1));
      q := q' + [x[0]];
      ProductSnoc(q', x[0], g);
      StepDivides(poly, x);
      DividedOn(Product(q', g), c, front, b, r, poly);
      assert bits == front + [b];
    }
  }

  lemma NothingDivided(poly: Word, c: Word)
    requires |c| == |poly| > 0
    ensures Xor(c + Zeros(0), [] + Zeros(|poly|)) == Xor(Product([], [true] + poly), Zeros(0) + FeedAll(poly, c, []))
  {
    assert c + Zeros(0) == c && [] + Zeros(|poly|) == Zeros(|poly|) && Zeros(0) + c == c;
  }

  lemma DividedOn(product: Word, c: Word, front: Word, b: bool, r: Word, poly: Word)
    requires |c| == |poly| == |r| > 0 && |product| == |front| + |poly|
    requires Xor(c + Zeros(|front|), front + Zeros(|poly|)) == Xor(product, Zeros(|front|) + r)
    ensures
      var x := Xor(r, [b] + Zeros(|poly| - 1));
      Xor(c + Zeros(|front| + 1), front + [b] + Zeros(|poly|)) ==
      Xor(Xor(product + [false], Bottom(x[0], |front|, [true] + poly)), Zeros(|front| + 1) + Step(poly, x))
  {
    hide Xor, Step, Bottom;
    var m, w, x, g := |front|, |poly|, Xor(r, [b] + Zeros(|poly| - 1)), [true] + poly;
    var low := product + [false];
    NextBit(c, front, b, w);
    assert Xor(c + Zeros(m), front + Zeros(w)) + [false] == Xor(product, Zeros(m) + r) + [false];
    Widened(product, m, r);
    XorAssoc(low, Zeros(m) + (r + [false]), Zeros(m) + ([b] + Zeros(w)));
    XorJoin(Zeros(m), Zeros(m), r + [false], [b] + Zeros(w));
    XorNothing(m, Zeros(m));
    BitAdded(r, b);
    StepDivides(poly, x);
    StepMoved(m, x[0], g, Step(poly, x));
    XorAssoc(low, Bottom(x[0], m, g), Zeros(m + 1) + Step(poly, x));
  }

  lemma NextBit(c: Word, front: Word, b: bool, w: nat)
    requires |c| == w
    ensures Xor(c + Zeros(|front| + 1), front + [b] + Zeros(w)) ==
      Xor(Xor(c + Zeros(|front|), front + Zeros(w)) + [false], Zeros(|front|) + ([b] + Zeros(w)))
  {
  }

  lemma Widened(product: Word, m: nat, r: Word)
    requires |product| == m + |r|
    ensures Xor(product, Zeros(m) + r) + [false] == Xor(product + [false], Zeros(m) + (r + [false]))
  {
  }

  lemma BitAdded(r: Word, b: bool)
    requires r != []
    ensures Xor(r + [false], [b] + Zeros(|r|)) == Xor(r, [b] + Zeros(|r| - 1)) + [false]
  {
  }

  lemma StepMoved(m: nat, b: bool, g: Word, step: Word)
    requires |g| == |step| + 1
    ensures Zeros(m) + Xor(Bottom(b, 0, g), [false] + step) == Xor(Bottom(b, m, g), Zeros(m + 1) + step)
  {
  }

  /** The bits of a message, the high bit of each byte first. */
  function Message(data: seq<byte>): (bits: Word)
    ensures |bits| == 8 * |data|
  {
    seq(8 * |data|, i requires 0 <= i < 8 * |data| => Bit(data[i / 8], 7 - i % 8))
  }

  lemma {:induction false} NumberBit(n: nat, width: nat, i: nat)
    requires i < width
    ensures Number(n, width)[i] == Bit(n, width - 1 - i)
  {
    if i < width - 1 {
      NumberBit(n / 2, width - 1, i);
    }
  }

  lemma MessageIs(data: seq<byte>)
    ensures BitsOf(data) == Message(data)
  {
    hide Number, BitsOf, Bit;
    forall i | 0 <= i < 8 * |data|
      ensures BitsOf(data)[i] == Message(data)[i]
    {
      BitOfByte(data, i);
      NumberBit(data[i / 8], 8, i % 8);
    }
  }

  /**
    CRC32: the remainder that the message, shifted by 32 and with its first 32 bits inverted, has
    when it is divided by the generator 0x1_04C1_1DB7.
   */
  lemma Crc32IsRemainder(data: seq<byte>)
    ensures
      IsRemainder(Xor(seq(32, _ => true) + Zeros(8 * |data|), Message(data) + Zeros(32)),
                  [true] + Number(0x04C1_1DB7, 32), Checksum(Number(POLY32, 32), Ones(32), data))
  {
    hide IsRemainder, Checksum, FeedAll, Number, Message, BitsOf, Xor;
    ChecksumIsFeed(Number(POLY32, 32), Ones(32), data);
    FeedDivides(Number(POLY32, 32), Ones(32), BitsOf(data));
    MessageIs(data);
    assert Ones(32) == seq(32, _ => true);
  }

  /** CRC64: the same with 64 bits and the generator 0x1_42F0_E1EB_A9EA_3693. */
  lemma Crc64IsRemainder(data: seq<byte>)
    ensures
      IsRemainder(Xor(seq(64, _ => true) + Zeros(8 * |data|), Message(data) + Zeros(64)),
                  [true] + Number(0x42F0_E1EB_A9EA_3693, 64), Checksum(Number(POLY64, 64), Ones(64), data))
  {
    hide IsRemainder, Checksum, FeedAll, Number, Message, BitsOf, Xor;
    ChecksumIsFeed(Number(POLY64, 64), Ones(64), data);
    FeedDivides(Number(POLY64, 64), Ones(64), BitsOf(data));
    MessageIs(data);
    assert Ones(64) == seq(64, _ => true);
  }

  /** Bytes of ones, the last bit of the last one cleared. */
  function AlmostOnes(n: nat): seq<byte> { seq(n, i requires 0 <= i < n => if i == n - 1 then 254 else 255) }

  lemma AlmostOnesBits(n: nat)
    requires n > 0
    ensures Message(AlmostOnes(n)) == Ones(8 * n - 1) + [false]
  {
    hide Bit;
    BitsOfLast();
    var m := Message(AlmostOnes(n));
    forall i | 0 <= i < 8 * n
      ensures m[i] == (Ones(8 * n - 1) + [false])[i]
    {
      assert i / 8 < n && (i / 8 == n - 1 && i % 8 == 7 <==> i == 8 * n - 1);
    }
  }

  lemma BitsOfLast()
    ensures forall k :: 0 <= k < 8 ==> Bit(255, k) && (Bit(254, k) <==> k != 0)
  {
    assert Bit(255, 0) && Bit(255, 1) && Bit(255, 2) && Bit(255, 3);
    assert Bit(255, 4) && Bit(255, 5) && Bit(255, 6) && Bit(255, 7);
    assert !Bit(254, 0) && Bit(254, 1) && Bit(254, 2) && Bit(254, 3);
    assert Bit(254, 4) && Bit(254, 5) && Bit(254, 6) && Bit(254, 7);
  }

  /** A register that ends up with one bit, after as many bytes as it holds. */
  lemma LastBitGivesPoly(poly: Word, n: nat)
    requires |poly| == 8 * n > 0
    ensures Checksum(poly, Ones(8 * n), AlmostOnes(n)) == poly
  {
    hide Checksum, FeedAll, Message, BitsOf, Xor, Shift;
    var w, data := 8 * n, AlmostOnes(n);
    ChecksumIsFeed(poly, Ones(w), data);
    MessageIs(data);
    AlmostOnesBits(n);
    FeedIsSteps(poly, Ones(w), Message(data));
    var c := Xor(Ones(w), Message(data) + Zeros(0));
    assert c == Zeros(w - 1) + [true] + Zeros(0);
    StepsMove(poly, true, w - 1, w - 1);
    OneStep(poly);
    assert Zeros(0) + [true] + Zeros(w - 1) == [true] + Zeros(w - 1);
  }

  lemma OneStep(poly: Word)
    requires poly != []
    ensures Step(poly, [true] + Zeros(|poly| - 1)) == poly
  {
  }

  /** Check values: FF FF FF FE has the checksum 04C11DB7, and the same with eight bytes. */
  lemma CheckValues()
    ensures Checksum(Number(POLY32, 32), Ones(32), [0xFF, 0xFF, 0xFF, 0xFE]) == Number(0x04C1_1DB7, 32)
    ensures
      Checksum(Number(POLY64, 64), Ones(64), [0xFF, 0xFF, 0xFF, 0xFF, 0xFF, 0xFF, 0xFF, 0xFE]) ==
      Number(0x42F0_E1EB_A9EA_3693, 64)
  {
    hide Checksum, Number, Ones;
    assert AlmostOnes(4) == [0xFF, 0xFF, 0xFF, 0xFE];
    assert AlmostOnes(8) == [0xFF, 0xFF, 0xFF, 0xFF, 0xFF, 0xFF, 0xFF, 0xFE];
    LastBitGivesPoly(Number(POLY32, 32), 4);
    LastBitGivesPoly(Number(POLY64, 64), 8);
  }

  // ---------------------------------------------------------------------------------------------
  // What is detected
  // ---------------------------------------------------------------------------------------------

  /** The same bits after it do not hide a difference. */
  lemma {:induction false} FeedInjective(poly: Word, a: Word, b: Word, bits: seq<bool>)
    requires IsPoly(poly) && |a| == |b| == |poly| && FeedAll(poly, a, bits) == FeedAll(poly, b, bits)
    ensures a == b
    decreases |bits|
  {
    hide Step;
    if bits != [] {
      var n := |bits| - 1;
      var x, y := FeedAll(poly, a, bits[..n]), FeedAll(poly, b, bits[..n]);
      var e := [bits[n]] + Zeros(|poly| - 1);
      StepInjective(poly, Xor(x, e), Xor(y, e));
      XorCancels(x, y, e);
      FeedInjective(poly, a, b, bits[..n]);
    }
  }

  lemma XorCancels(x: Word, y: Word, e: Word)
    requires |x| == |y| == |e| && Xor(x, e) == Xor(y, e)
    ensures x == y
  {
    forall i | 0 <= i < |x|
      ensures x[i] == y[i]
    {
      assert Xor(x, e)[i] == Xor(y, e)[i];
    }
  }

  /** From the same state, different bits up to a register's width lead to different states. */
  lemma WindowInjective(poly: Word, c: Word, u: seq<bool>, v: seq<bool>)
    requires IsPoly(poly) && |c| == |poly| && |u| == |v| <= |poly|
    requires FeedAll(poly, c, u) == FeedAll(poly, c, v)
    ensures u == v
  {
    hide FeedAll, Steps;
    var z := Zeros(|poly| - |u|);
    FeedIsSteps(poly, c, u);
    FeedIsSteps(poly, c, v);
    StepsInjective(poly, Xor(c, u + z), Xor(c, v + z), |u|);
    assert Xor(c, u + z) == Xor(u + z, c) && Xor(c, v + z) == Xor(v + z, c);
    XorCancels(u + z, v + z, c);
    assert (u + z)[..|u|] == u && (v + z)[..|u|] == v;
  }

  /** Everything at which two messages differ lies in `width` consecutive bits from `k`. */
  ghost predicate DifferWithin(a: seq<bool>, b: seq<bool>, k: nat, width: nat)
  {
    |a| == |b| && forall i :: 0 <= i < |a| && a[i] != b[i] ==> k <= i < k + width
  }

  lemma DifferSize(a: seq<bool>, b: seq<bool>, k: nat, width: nat)
    requires DifferWithin(a, b, k, width)
    ensures |a| == |b|
  {
  }

  lemma Cut(a: seq<bool>, lo: nat, hi: nat)
    requires lo <= hi <= |a|
    ensures a == a[..lo] + (a[lo..hi] + a[hi..])
  {
  }

  lemma SameOutside(a: seq<bool>, b: seq<bool>, k: nat, width: nat, lo: nat, hi: nat)
    requires DifferWithin(a, b, k, width) && lo <= hi <= |a|
    requires (lo == k || lo == |a| < k) && (hi == k + width || hi == |a| <= k + width)
    ensures a[..lo] == b[..lo] && a[hi..] == b[hi..]
  {
  }

  lemma BurstDetected(poly: Word, c: Word, a: seq<bool>, b: seq<bool>, k: nat)
    requires IsPoly(poly) && |c| == |poly| && DifferWithin(a, b, k, |poly|)
    ensures FeedAll(poly, c, a) == FeedAll(poly, c, b) <==> a == b
  {
    hide FeedAll, DifferWithin;
    DifferSize(a, b, k, |poly|);
    var n := |a|;
    var lo := if k < n then k else n;
    var hi := if k + |poly| < n then k + |poly| else n;
    var (a0, a1, a2) := (a[..lo], a[lo..hi], a[hi..]);
    var (b0, b1, b2) := (b[..lo], b[lo..hi], b[hi..]);
    Cut(a, lo, hi);
    Cut(b, lo, hi);
    SameOutside(a, b, k, |poly|, lo, hi);
    if FeedAll(poly, c, a) == FeedAll(poly, c, b) {
      var m := FeedAll(poly, c, a0);
      FeedAppend(poly, c, a0, a1 + a2);
      FeedAppend(poly, m, a1, a2);
      FeedAppend(poly, c, b0, b1 + b2);
      FeedAppend(poly, m, b1, b2);
      FeedInjective(poly, FeedAll(poly, m, a1), FeedAll(poly, m, b1), a2);
      WindowInjective(poly, m, a1, b1);
    }
  }

  lemma {:induction false} NumberInjective(x: nat, y: nat, width: nat, bound: nat)
    requires x < bound && y < bound && bound <= Pow2(width) && Number(x, width) == Number(y, width)
    ensures x == y
    decreases width
  {
    if width > 0 {
      var a, b := Number(x, width), Number(y, width);
      assert a[width - 1] == (x % 2 == 1) && b[width - 1] == (y % 2 == 1);
      assert a[..width - 1] == Number(x / 2, width - 1) && b[..width - 1] == Number(y / 2, width - 1);
      NumberInjective(x / 2, y / 2, width - 1, Pow2(width - 1));
    }
  }

  lemma {:induction false} BitsInjective(a: seq<byte>, b: seq<byte>)
    requires |a| == |b| && BitsOf(a) == BitsOf(b)
    ensures a == b
    decreases |a|
  {
    if a != [] {
      var n := |a| - 1;
      var x, y := BitsOf(a), BitsOf(b);
      assert x[..8 * n] == BitsOf(a[..n]) && y[..8 * n] == BitsOf(b[..n]);
      assert x[8 * n..] == Number(a[n], 8) && y[8 * n..] == Number(b[n], 8);
      BitsInjective(a[..n], b[..n]);
      assert Pow2(8) == 256;
      NumberInjective(a[n], b[n], 8, 256);
    }
  }

  /** The i-th byte's bits. */
  lemma {:induction false} BitOfByte(data: seq<byte>, i: nat)
    requires i < 8 * |data|
    ensures BitsOf(data)[i] == Number(data[i / 8], 8)[i % 8]
    decreases |data|
  {
    var n := |data| - 1;
    if i < 8 * n {
      BitOfByte(data[..n], i);
    }
  }

  /**
    Two buffers of one length that differ only inside `bytes` consecutive bytes, no more than fit
    into the register, have the same checksum only if they are equal.
   */
  lemma BytesDetected(poly: Word, c: Word, a: seq<byte>, b: seq<byte>, k: nat, bytes: nat)
    requires IsPoly(poly) && |c| == |poly| >= 8 && 8 * bytes <= |poly| && |a| == |b|
    requires forall i :: 0 <= i < |a| && a[i] != b[i] ==> k <= i < k + bytes
    ensures Checksum(poly, c, a) == Checksum(poly, c, b) <==> a == b
  {
    hide FeedAll, Checksum, Number, BitsOf;
    var x, y := BitsOf(a), BitsOf(b);
    forall i | 0 <= i < |x| && x[i] != y[i]
      ensures 8 * k <= i < 8 * k + |poly|
    {
      BitOfByte(a, i);
      BitOfByte(b, i);
    }
    BurstDetected(poly, c, x, y, 8 * k);
    ChecksumIsFeed(poly, c, a);
    ChecksumIsFeed(poly, c, b);
    if x == y {
      BitsInjective(a, b);
    }
  }

  /** CRC32 detects every change of up to four consecutive bytes, CRC64 of up to eight. */
  lemma ChangesDetected(a: seq<byte>, b: seq<byte>, k: nat)
    requires |a| == |b|
    ensures (forall i :: 0 <= i < |a| && a[i] != b[i] ==> k <= i < k + 4) ==>
      (Checksum(Number(POLY32, 32), Ones(32), a) == Checksum(Number(POLY32, 32), Ones(32), b) <==> a == b)
    ensures (forall i :: 0 <= i < |a| && a[i] != b[i] ==> k <= i < k + 8) ==>
      (Checksum(Number(POLY64, 64), Ones(64), a) == Checksum(Number(POLY64, 64), Ones(64), b) <==> a == b)
  {
    hide Checksum, Number, IsPoly;
    Polys();
    if forall i :: 0 <= i < |a| && a[i] != b[i] ==> k <= i < k + 4 {
      BytesDetected(Number(POLY32, 32), Ones(32), a, b, k, 4);
    }
    if forall i :: 0 <= i < |a| && a[i] != b[i] ==> k <= i < k + 8 {
      BytesDetected(Number(POLY64, 64), Ones(64), a, b, k, 8);
    }
  }

  /** A mapping's checksum: the length is cut to 32 bits on the way. */
  function MappingChecksum(data: seq<byte>): Word
  {
    Checksum(Number(POLY32, 32), Ones(32), data[..|data| % 0x1_0000_0000])
  }

  /**
    So in mappings of 4 GiB or more a change behind that length is never seen; one of up to four
    consecutive bytes is seen if and only if it reaches into the part before it.
   */
  lemma MappingChangesDetected(a: seq<byte>, b: seq<byte>, k: nat)
    requires |a| == |b| && forall i :: 0 <= i < |a| && a[i] != b[i] ==> k <= i < k + 4
    ensures MappingChecksum(a) == MappingChecksum(b) <==>
            forall i :: 0 <= i < |a| % 0x1_0000_0000 ==> a[i] == b[i]
  {
    hide Checksum, Number;
    var n := |a| % 0x1_0000_0000;
    var x, y := a[..n], b[..n];
    ChangesDetected(x, y, k);
    assert x == y <==> forall i :: 0 <= i < n ==> a[i] == b[i];
  }

  /** In a mapping of 4 GiB nothing is covered. */
  lemma LongMappingUncovered(a: seq<byte>, b: seq<byte>)
    requires |a| == |b| == 0x1_0000_0000
    ensures MappingChecksum(a) == MappingChecksum(b)
  {
    hide Checksum, Number;
    assert a[..0] == b[..0];
  }
}
