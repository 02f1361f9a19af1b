/**
  `decodePunycode`, `encodeUTF8` and `removeNullBytes`.

  The program works on 64-bit words and on an output buffer of four-byte slots, and strips the
  padding at the end.  `Decode` is what it computes, as a function on lists of code points.
  `StandardDecode` is section 6.2 of RFC 3492 to the letter, over unbounded integers and with `_`
  as the delimiter; the two differ on names that the program treats in its own way, which
  `ProgramVersusStandard` tells apart.
 */
module Punycode {
  import opened Basics
  import opened RustLexer

  const BASE: nat := 36
  const SKEW: nat := 38
  const TMIN: nat := 1
  const TMAX: nat := 26
  const DAMP: nat := 700

  // ---------------------------------------------------------------------------------------------
  // UTF-8 (RFC 3629, section 3)
  // ---------------------------------------------------------------------------------------------

  predicate IsScalar(cp: nat) { cp <= 0x10FFFF && !(0xD800 <= cp <= 0xDFFF) }

  /** What can end up in the output: a scalar value whose encoding holds no zero byte. */
  predicate IsLetter(cp: nat) { IsScalar(cp) && cp != 0 }

  predicate AllLetters(codes: seq<nat>) { forall j :: 0 <= j < |codes| ==> IsLetter(codes[j]) }

  /** The bytes `encodeUTF8` stores, without the padding; each byte is a char below 256. */
  function EncodeUtf8(cp: nat): (bytes: string)
    requires IsScalar(cp)
    ensures 1 <= |bytes| <= 4
    ensures cp != 0 ==> '\0' !in bytes
  {
    if cp <= 0x7F then [cp as char]
    else if cp <= 0x7FF then [(0xC0 + cp / 64) as char, (0x80 + cp % 64) as char]
    else if cp <= 0xFFFF then
      [(0xE0 + cp / 4096) as char, (0x80 + cp / 64 % 64) as char, (0x80 + cp % 64) as char]
    else
      [(0xF0 + cp / 262144) as char, (0x80 + cp / 4096 % 64) as char,
       (0x80 + cp / 64 % 64) as char, (0x80 + cp % 64) as char]
  }

  function EncodeAll(codes: seq<nat>): string
    requires AllLetters(codes)
  {
    if codes == [] then "" else EncodeUtf8(codes[0]) + EncodeAll(codes[1..])
  }

  /** A byte in a range. */
  predicate In(c: char, low: nat, high: nat) { low <= c as int <= high }

  /** The `UTF8-tail` of section 4: a byte that only continues a character. */
  predicate Tail(c: char) { In(c, 0x80, 0xBF) }

  function Bits(c: char): nat { c as int % 64 }

  /**
    The first code point of a byte string and how many bytes it takes, by the grammar in section 4
    of RFC 3629: only shortest forms, no surrogates, nothing above 0x10FFFF.
   */
  function DecodeFirst(bytes: string): Option<(nat, nat)>
  {
    if |bytes| >= 1 && In(bytes[0], 0x00, 0x7F) then Some((bytes[0] as int, 1))
    else if |bytes| >= 2 && In(bytes[0], 0xC2, 0xDF) && Tail(bytes[1]) then
      Some(((bytes[0] as int - 0xC0) * 64 + Bits(bytes[1]), 2))
    else if |bytes| >= 3 && ThreeBytes(bytes[0], bytes[1]) && Tail(bytes[2]) then
      Some(((bytes[0] as int - 0xE0) * 4096 + Bits(bytes[1]) * 64 + Bits(bytes[2]), 3))
    else if |bytes| >= 4 && FourBytes(bytes[0], bytes[1]) && Tail(bytes[2]) && Tail(bytes[3]) then
      Some(((bytes[0] as int - 0xF0) * 262144 + Bits(bytes[1]) * 4096 + Bits(bytes[2]) * 64 + Bits(bytes[3]), 4))
    else None
  }

  /** `UTF8-3`, its first two bytes. */
  predicate ThreeBytes(a: char, b: char)
  {
    || (In(a, 0xE0, 0xE0) && In(b, 0xA0, 0xBF))
    || (In(a, 0xE1, 0xEC) && Tail(b))
    || (In(a, 0xED, 0xED) && In(b, 0x80, 0x9F))
    || (In(a, 0xEE, 0xEF) && Tail(b))
  }

  /** `UTF8-4`, its first two bytes. */
  predicate FourBytes(a: char, b: char)
  {
    || (In(a, 0xF0, 0xF0) && In(b, 0x90, 0xBF))
    || (In(a, 0xF1, 0xF3) && Tail(b))
    || (In(a, 0xF4, 0xF4) && In(b, 0x80, 0x8F))
  }

  function DecodeUtf8(bytes: string): Option<seq<nat>>
  {
    if bytes == "" then Some([])
    else
      match DecodeFirst(bytes)
      case None => None
      case Some((cp, n)) =>
        match DecodeUtf8(bytes[n..])
        case None => None
        case Some(rest) => Some([cp] + rest)
  }

  lemma DecodeFirstOfEncoded(cp: nat, rest: string)
    requires IsScalar(cp)
    ensures DecodeFirst(EncodeUtf8(cp) + rest) == Some((cp, |EncodeUtf8(cp)|))
  {
    if cp > 0xFFFF {
      DecodeFour(cp, rest);
    } else if cp > 0x7FF {
      DecodeThree(cp, rest);
    } else {
      DecodeTwo(cp, rest);
    }
  }

  lemma DecodeTwo(cp: nat, rest: string)
    requires cp <= 0x7FF
    ensures DecodeFirst(EncodeUtf8(cp) + rest) == Some((cp, |EncodeUtf8(cp)|))
  {
    var bytes := EncodeUtf8(cp) + rest;
    if 0x7F < cp {
      assert Bits(bytes[1]) == cp % 64;
    }
  }

  lemma DecodeThree(cp: nat, rest: string)
    requires 0x7FF < cp <= 0xFFFF && IsScalar(cp)
    ensures DecodeFirst(EncodeUtf8(cp) + rest) == Some((cp, |EncodeUtf8(cp)|))
  {
    var bytes := EncodeUtf8(cp) + rest;
    assert Bits(bytes[1]) == cp / 64 % 64 && Bits(bytes[2]) == cp % 64;
    assert cp / 64 == cp / 4096 * 64 + cp / 64 % 64;
  }

  lemma DecodeFour(cp: nat, rest: string)
    requires 0xFFFF < cp && IsScalar(cp)
    ensures DecodeFirst(EncodeUtf8(cp) + rest) == Some((cp, |EncodeUtf8(cp)|))
  {
    var bytes := EncodeUtf8(cp) + rest;
    assert Bits(bytes[1]) == cp / 4096 % 64;
    assert Bits(bytes[2]) == cp / 64 % 64 && Bits(bytes[3]) == cp % 64;
    assert cp / 64 == cp / 4096 * 64 + cp / 64 % 64;
    assert cp / 4096 == cp / 262144 * 64 + cp / 4096 % 64;
  }

  /** What is accepted is the encoding of a scalar value. */
  lemma DecodedIsEncoded(bytes: string)
    requires DecodeFirst(bytes).Some?
    ensures
      var (cp, n) := DecodeFirst(bytes).value;
      && IsScalar(cp) && 0 < n <= |bytes| && EncodeUtf8(cp) == bytes[..n]
  {
    hide EncodeUtf8, IsScalar;
    var (cp, n) := DecodeFirst(bytes).value;
    if n <= 2 {
      TwoEncoded(bytes);
    } else if n == 3 {
      ThreeEncoded(bytes);
    } else {
      FourEncoded(bytes);
    }
  }

  lemma TwoEncoded(bytes: string)
    requires DecodeFirst(bytes).Some? && DecodeFirst(bytes).value.1 <= 2
    ensures var (cp, n) := DecodeFirst(bytes).value; IsScalar(cp) && EncodeUtf8(cp) == bytes[..n]
  {
    if DecodeFirst(bytes).value.1 == 2 {
      TwoDigits(bytes[0] as int - 0xC0, Bits(bytes[1]));
    }
  }

  lemma ThreeEncoded(bytes: string)
    requires DecodeFirst(bytes).Some? && DecodeFirst(bytes).value.1 == 3
    ensures IsScalar(DecodeFirst(bytes).value.0) && EncodeUtf8(DecodeFirst(bytes).value.0) == bytes[..3]
  {
    var a, b, c := bytes[0] as int - 0xE0, Bits(bytes[1]), Bits(bytes[2]);
    assert 0 <= a < 16 && b == bytes[1] as int - 0x80 && c == bytes[2] as int - 0x80;
    ThreeDigits(a, b, c);
    assert DecodeFirst(bytes).value.0 == a * 4096 + b * 64 + c;
  }

  lemma FourEncoded(bytes: string)
    requires DecodeFirst(bytes).Some? && DecodeFirst(bytes).value.1 == 4
    ensures IsScalar(DecodeFirst(bytes).value.0) && EncodeUtf8(DecodeFirst(bytes).value.0) == bytes[..4]
  {
    hide EncodeUtf8;
    var a, b, c, d := bytes[0] as int - 0xF0, Bits(bytes[1]), Bits(bytes[2]), Bits(bytes[3]);
    assert 0 <= a <= 4 && b == bytes[1] as int - 0x80 && c == bytes[2] as int - 0x80 && d == bytes[3] as int - 0x80;
    assert DecodeFirst(bytes).value.0 == a * 262144 + b * 4096 + c * 64 + d;
    EncodeFour(a, b, c, d);
  }

  lemma EncodeFour(a: nat, b: nat, c: nat, d: nat)
    requires b < 64 && c < 64 && d < 64 && 0xFFFF < a * 262144 + b * 4096 + c * 64 + d <= 0x10FFFF
    ensures
      EncodeUtf8(a * 262144 + b * 4096 + c * 64 + d) ==
      [(0xF0 + a) as char, (0x80 + b) as char, (0x80 + c) as char, (0x80 + d) as char]
  {
    FourDigits(a, b, c, d);
  }

  /** Numbers in base 64 have the digits they are made of. */
  lemma TwoDigits(a: nat, b: nat)
    requires b < 64
    ensures var x := a * 64 + b; x / 64 == a && x % 64 == b
  {
  }

  lemma ThreeDigits(a: nat, b: nat, c: nat)
    requires b < 64 && c < 64
    ensures var x := a * 4096 + b * 64 + c; x / 4096 == a && x / 64 % 64 == b && x % 64 == c
  {
    TwoDigits(a * 64 + b, c);
    TwoDigits(a, b);
  }

  lemma FourDigits(a: nat, b: nat, c: nat, d: nat)
    requires b < 64 && c < 64 && d < 64
    ensures
      var x := a * 262144 + b * 4096 + c * 64 + d;
      x / 262144 == a && x / 4096 % 64 == b && x / 64 % 64 == c && x % 64 == d
  {
    TwoDigits(a * 4096 + b * 64 + c, d);
    ThreeDigits(a, b, c);
  }

  /** The appended bytes read back as UTF-8 give the code points. */
  lemma {:induction false} Utf8RoundTrip(codes: seq<nat>)
    requires AllLetters(codes)
    ensures DecodeUtf8(EncodeAll(codes)) == Some(codes)
  {
    if codes != [] {
      var head, rest := EncodeUtf8(codes[0]), EncodeAll(codes[1..]);
      DecodeFirstOfEncoded(codes[0], rest);
      assert (head + rest)[|head|..] == rest;
      Utf8RoundTrip(codes[1..]);
      assert [codes[0]] + codes[1..] == codes;
    }
  }

  /** Conversely, every accepted text without null bytes is the encoding of its code points. */
  lemma {:induction false} Utf8Converse(bytes: string)
    requires DecodeUtf8(bytes).Some? && '\0' !in bytes
    ensures AllLetters(DecodeUtf8(bytes).value) && EncodeAll(DecodeUtf8(bytes).value) == bytes
  {
    hide EncodeUtf8, DecodeFirst, IsScalar;
    if bytes != "" {
      var (cp, n) := DecodeFirst(bytes).value;
      DecodedIsEncoded(bytes);
      ZeroEncoded();
      Utf8Converse(bytes[n..]);
      var rest := DecodeUtf8(bytes[n..]).value;
      assert ([cp] + rest)[1..] == rest;
      assert bytes[..n] + bytes[n..] == bytes;
    }
  }

  lemma ZeroEncoded()
    ensures EncodeUtf8(0) == ['\0']
  {
  }

  // ---------------------------------------------------------------------------------------------
  // The program's decoder on lists of code points (after RFC 3492, sections 3.3, 6.1 and 6.2)
  // ---------------------------------------------------------------------------------------------

  /** The last delimiter, or -1. */
  function LastDelimiter(name: string): (i: int)
    ensures -1 <= i < |name|
    ensures i >= 0 ==> name[i] == '_'
    ensures forall j :: i < j < |name| ==> name[j] != '_'
  {
    if name == "" then -1
    else if name[|name| - 1] == '_' then |name| - 1
    else LastDelimiter(name[..|name| - 1])
  }

  function DigitValue(c: char): Option<nat>
  {
    if IsLower(c) then Some(c as int - 'a' as int)
    else if IsDigit(c) then Some(26 + (c as int - '0' as int))
    else None
  }

  function Threshold(k: nat, bias: nat): (t: nat)
    ensures TMIN <= t <= TMAX
  {
    if k <= bias then TMIN else if k >= bias + TMAX then TMAX else k - bias
  }

  function Quot(x: nat, m: nat): nat
    requires m > 0
  {
    x / m
  }

  function Rem(x: nat, m: nat): (r: nat)
    requires m > 0
    ensures r < m
  {
    x % m
  }

  function Shrink(delta: nat, k: nat): (nat, nat)
  {
    if delta > (BASE - TMIN) * TMAX / 2 then Shrink(delta / (BASE - TMIN), k + BASE) else (delta, k)
  }

  /** Bias adaptation, section 6.1. */
  function Adapt(delta: nat, numPoints: nat, firstTime: bool): nat
    requires numPoints > 0
  {
    hide Quot, Shrink;
    var d := if firstTime then delta / DAMP else delta / 2;
    var (final, k) := Shrink(d + Quot(d, numPoints), 0);
    k + Quot((BASE - TMIN + 1) * final, final + SKEW)
  }

  /** `limit` is the largest integer that can be represented; `None` is unbounded arithmetic. */
  predicate Exceeds(x: nat, limit: Option<nat>) { limit.Some? && x > limit.value }

  /** A product of naturals; separate, so that proofs can leave the multiplication alone. */
  function Product(a: nat, b: nat): nat { a * b }

  /** One variable-length integer: where it ends and the new value of `i`. */
  function ReadDelta(name: string, idx: nat, i: nat, w: nat, k: nat, bias: nat, limit: Option<nat>)
    : (r: Option<(nat, nat)>)
    requires idx <= |name|
    ensures r.Some? ==> idx < r.value.0 <= |name| && i <= r.value.1
    ensures r.Some? ==> !Exceeds(r.value.1, limit)
    decreases |name| - idx
  {
    hide Threshold, Exceeds, Product;
    if idx == |name| || DigitValue(name[idx]).None? then None
    else
      var digit := DigitValue(name[idx]).value;
      var i' := i + Product(digit, w);
      var t := Threshold(k, bias);
      if Exceeds(i', limit) then None
      else if digit < t then Some((idx + 1, i'))
      else if Exceeds(Product(w, BASE - t), limit) then None
      else ReadDelta(name, idx + 1, i', Product(w, BASE - t), k + BASE, bias, limit)
  }

  function Insert(codes: seq<nat>, at: nat, cp: nat): (r: seq<nat>)
    requires at <= |codes| && AllLetters(codes) && IsLetter(cp)
    ensures AllLetters(r) && |r| == |codes| + 1
  {
    codes[..at] + [cp] + codes[at..]
  }

  /** The main loop of section 6.2: inserts the remaining code points. */
  function Extend(name: string, idx: nat, n: nat, i: nat, bias: nat, codes: seq<nat>, limit: Option<nat>)
    : (r: Option<seq<nat>>)
    requires idx <= |name| && n >= 0x80
    requires AllLetters(codes)
    ensures r.Some? ==> AllLetters(r.value)
    decreases |name| - idx
  {
    hide Adapt, Quot, Rem;
    if idx == |name| then Some(codes)
    else
      match ReadDelta(name, idx, i, 1, BASE, bias, limit)
      case None => None
      case Some((next, i')) =>
        var numPoints := |codes| + 1;
        var n' := n + Quot(i', numPoints);
        var at := Rem(i', numPoints);
        if Exceeds(n', limit) || !IsScalar(n') then None
        else
          Extend(name, next, n', at + 1, Adapt(i' - i, numPoints, i == 0),
                 Insert(codes, at, n'), limit)
  }

  function BasicCodes(text: string): (codes: seq<nat>)
    requires forall c <- text :: IsValid(c)
    ensures |codes| == |text|
    ensures AllLetters(codes)
  {
    if text == "" then []
    else
      assert IsValid(text[0]);
      [text[0] as int] + BasicCodes(text[1..])
  }

  function Decode(name: string, limit: Option<nat>): (r: Option<seq<nat>>)
    ensures r.Some? ==> AllLetters(r.value)
  {
    var d := LastDelimiter(name);
    var basic := if d < 0 then "" else name[..d];
    if forall c <- basic :: IsValid(c) then Extend(name, d + 1, 0x80, 0, 72, BasicCodes(basic), limit)
    else None
  }

  // ---------------------------------------------------------------------------------------------
  // 64 bits are enough
  // ---------------------------------------------------------------------------------------------

  /**
    If 64-bit arithmetic gives up on a delta that unbounded arithmetic accepts, then that delta is
    enormous: an overflowing weight was reached through a nonzero digit of weight above 2^64 / 35.
   */
  lemma {:induction false} OverflowMeansHuge(name: string, idx: nat, i: nat, w: nat, k: nat, bias: nat)
    requires idx <= |name|
    ensures
      var exact := ReadDelta(name, idx, i, w, k, bias, None);
      var bounded := ReadDelta(name, idx, i, w, k, bias, Some(U64_MAX));
      bounded == exact || (bounded == None && exact.value.1 > U64_MAX / 35)
    decreases |name| - idx
  {
    if idx < |name| && DigitValue(name[idx]).Some? {
      var digit := DigitValue(name[idx]).value;
      var t := Threshold(k, bias);
      var i' := i + digit * w;
      if digit >= t {
        OverflowMeansHuge(name, idx + 1, i', w * (BASE - t), k + BASE, bias);
        MulMonotone(w, BASE - t, 35);
        MulMonotone(w, 1, digit);
      }
    }
  }

  /** In names up to this length, no delta that 64 bits cannot hold leads to a scalar value. */
  const LONGEST: nat := (U64_MAX / 35 + 1) / 0x11_0000

  lemma {:induction false} ExtendNeeds64Bits(name: string, idx: nat, n: nat, i: nat, bias: nat, codes: seq<nat>)
    requires idx <= |name| <= LONGEST && 0x80 <= n
    requires AllLetters(codes)
    requires |codes| <= idx
    ensures Extend(name, idx, n, i, bias, codes, Some(U64_MAX)) ==
            Extend(name, idx, n, i, bias, codes, None)
    decreases |name| - idx
  {
    hide Adapt, ReadDelta, Quot, Rem;
    OverflowMeansHuge(name, idx, i, 1, BASE, bias);
    if idx < |name| && ReadDelta(name, idx, i, 1, BASE, bias, None).Some? {
      var (next, i') := ReadDelta(name, idx, i, 1, BASE, bias, None).value;
      var numPoints := |codes| + 1;
      if i' > U64_MAX / 35 {
        HugeQuotient(i', numPoints);
      } else {
        var n', at := n + Quot(i', numPoints), Rem(i', numPoints);
        if IsScalar(n') {
          ExtendNeeds64Bits(name, next, n', at + 1, Adapt(i' - i, numPoints, i == 0),
                            Insert(codes, at, n'));
        }
      }
    }
  }

  lemma MulMonotone(m: nat, a: nat, b: nat)
    requires a <= b
    ensures m * a <= m * b
  {
  }

  lemma HugeQuotient(x: nat, m: nat)
    requires x > U64_MAX / 35 && 0 < m <= LONGEST
    ensures Quot(x, m) > 0x10FFFF
  {
    assert x == m * (x / m) + x % m;
    if x / m <= 0x10FFFF {
      MulMonotone(m, x / m, 0x10FFFF);
      assert false;
    }
  }

  /**
    The overflow tests never change the outcome: up to LONGEST characters (more than 2^38), the
    64-bit decoder accepts exactly the names that the unbounded decoder accepts, with the same
    code points.
   */
  lemma {:induction false} SixtyFourBitsSuffice(name: string)
    requires |name| <= LONGEST
    ensures Decode(name, Some(U64_MAX)) == Decode(name, None)
  {
    var d := LastDelimiter(name);
    var basic := if d < 0 then "" else name[..d];
    if forall c <- basic :: IsValid(c) {
      ExtendNeeds64Bits(name, d + 1, 0x80, 0, 72, BasicCodes(basic));
    }
  }

  // ---------------------------------------------------------------------------------------------
  // Four-byte slots
  // ---------------------------------------------------------------------------------------------

  /** A code point as it is kept while decoding is in progress: padded with zeros to four bytes. */
  function Slot(cp: nat): (slot: string)
    requires IsScalar(cp)
    ensures |slot| == 4
  {
    var bytes := EncodeUtf8(cp);
    bytes + seq(4 - |bytes|, _ => '\0')
  }

  function Slots(codes: seq<nat>): (r: string)
    requires AllLetters(codes)
    ensures |r| == 4 * |codes|
  {
    if codes == [] then "" else Slot(codes[0]) + Slots(codes[1..])
  }

  function NonNull(s: string): string
  {
    if s == "" then "" else (if s[0] == '\0' then "" else [s[0]]) + NonNull(s[1..])
  }

  lemma {:induction false} NonNullConcat(a: string, b: string)
    ensures NonNull(a + b) == NonNull(a) + NonNull(b)
  {
    if a == "" {
      assert a + b == b;
    } else {
      NonNullConcat(a[1..], b);
      assert (a + b)[1..] == a[1..] + b && (a + b)[0] == a[0];
      var first := if a[0] == '\0' then "" else [a[0]];
      assert first + (NonNull(a[1..]) + NonNull(b)) == (first + NonNull(a[1..])) + NonNull(b);
    }
  }

  lemma {:induction false} NonNullId(s: string)
    requires '\0' !in s
    ensures NonNull(s) == s
  {
    if s != "" {
      NonNullId(s[1..]);
    }
  }

  lemma {:induction false} NonNullPadding(n: nat)
    ensures NonNull(seq(n, _ => '\0')) == ""
  {
    if n > 0 {
      NonNullPadding(n - 1);
      assert seq(n, _ => '\0')[1..] == seq(n - 1, _ => '\0');
    }
  }

  /** Removing the null bytes removes the padding of the slots and nothing else. */
  lemma {:induction false} StripSlots(codes: seq<nat>)
    requires AllLetters(codes)
    ensures NonNull(Slots(codes)) == EncodeAll(codes)
  {
    hide EncodeUtf8, NonNull;
    if codes != [] {
      var bytes := EncodeUtf8(codes[0]);
      var padding := seq(4 - |bytes|, _ => '\0');
      NonNullConcat(bytes + padding, Slots(codes[1..]));
      NonNullConcat(bytes, padding);
      NonNullId(bytes);
      NonNullPadding(4 - |bytes|);
      StripSlots(codes[1..]);
    } else {
      NonNullId("");
    }
  }

  lemma {:induction false} SlotsConcat(a: seq<nat>, b: seq<nat>)
    requires AllLetters(a) && AllLetters(b) && AllLetters(a + b)
    ensures Slots(a + b) == Slots(a) + Slots(b)
  {
    if a == [] {
      assert a + b == b;
    } else {
      SlotsConcat(a[1..], b);
      assert (a + b)[1..] == a[1..] + b;
    }
  }

  lemma SlotsSplit(codes: seq<nat>, at: nat)
    requires at <= |codes| && AllLetters(codes)
    ensures Slots(codes)[..4 * at] == Slots(codes[..at])
    ensures Slots(codes)[4 * at..] == Slots(codes[at..])
  {
    hide Slot, Slots;
    var a, b := Slots(codes[..at]), Slots(codes[at..]);
    SlotsConcat(codes[..at], codes[at..]);
    assert codes[..at] + codes[at..] == codes;
    Cut(a, b);
  }

  lemma Cut(a: string, b: string)
    ensures (a + b)[..|a|] == a && (a + b)[|a|..] == b
  {
  }

  lemma LettersParts(codes: seq<nat>, at: nat, cp: nat)
    requires at <= |codes| && AllLetters(codes) && IsLetter(cp)
    ensures AllLetters(codes[..at]) && AllLetters(codes[at..]) && AllLetters([cp]) && AllLetters(codes[..at] + [cp])
  {
  }

  /** Inserting a slot in the buffer inserts the code point in the list. */
  lemma SlotsInsert(codes: seq<nat>, at: nat, cp: nat)
    requires at <= |codes| && AllLetters(codes) && IsLetter(cp)
    ensures Slots(codes)[..4 * at] + Slot(cp) + Slots(codes)[4 * at..] == Slots(Insert(codes, at, cp))
  {
    hide Slot, Slots, AllLetters, IsLetter;
    LettersParts(codes, at, cp);
    SlotsSplit(codes, at);
    SlotsConcat(codes[..at] + [cp], codes[at..]);
    SlotsConcat(codes[..at], [cp]);
    SlotsOne(cp);
  }

  lemma SlotsOne(cp: nat)
    requires IsLetter(cp) && AllLetters([cp])
    ensures Slots([cp]) == Slot(cp)
  {
    assert [cp][1..] == [];
    assert Slots([]) == "";
  }

  // ---------------------------------------------------------------------------------------------
  // The program
  // ---------------------------------------------------------------------------------------------

  /** `encodeUTF8`: fills a zeroed slot, or reports that the code point is no scalar value. */
  method EncodeSlot(cp: nat) returns (ok: bool, slot: string)
    ensures ok <==> IsScalar(cp)
    ensures ok ==> slot == Slot(cp)
  {
    slot := seq(4, _ => '\0');
    if 0xD800 <= cp <= 0xDFFF {
      return false, slot;
    }
    if cp <= 0x7F {
      slot := slot[0 := cp as char];
      return true, slot;
    }
    if cp <= 0x7FF {
      slot := slot[0 := (0xC0 + cp / 64 % 64) as char][1 := (0x80 + cp % 64) as char];
      return true, slot;
    }
    if cp <= 0xFFFF {
      slot := slot[0 := (0xE0 + cp / 4096) as char]
                  [1 := (0x80 + cp / 64 % 64) as char][2 := (0x80 + cp % 64) as char];
      return true, slot;
    }
    if cp <= 0x10FFFF {
      slot := slot[0 := (0xF0 + cp / 262144) as char][1 := (0x80 + cp / 4096 % 64) as char]
                  [2 := (0x80 + cp / 64 % 64) as char][3 := (0x80 + cp % 64) as char];
      return true, slot;
    }
    return false, slot;
  }

  /** `removeNullBytes`. */
  method RemoveNullBytes(buffer: string, start: nat) returns (r: string)
    requires start <= |buffer|
    ensures r == buffer[..start] + NonNull(buffer[start..])
  {
    r := buffer[..start];
    for j := start to |buffer|
      invariant r == buffer[..start] + NonNull(buffer[start..j])
    {
      assert buffer[start..j + 1] == buffer[start..j] + [buffer[j]];
      NonNullConcat(buffer[start..j], [buffer[j]]);
      assert NonNull([buffer[j]]) == if buffer[j] == '\0' then "" else [buffer[j]];
      if buffer[j] != '\0' {
        r := r + [buffer[j]];
      }
    }
    assert buffer[start..] == buffer[start..|buffer|];
  }

  /** The `Adapt` closure; `damp` is 700 on the first call and 2 afterwards. */
  method AdaptBias(delta0: nat, numPoints: nat, damp: nat) returns (bias: nat)
    requires numPoints > 0 && (damp == DAMP || damp == 2)
    ensures bias == Adapt(delta0, numPoints, damp == DAMP)
  {
    hide Quot;
    var delta: nat := delta0 / damp;
    delta := delta + Quot(delta, numPoints);
    ghost var start := Shrink(delta, 0);
    var k: nat := 0;
    while delta > (BASE - TMIN) * TMAX / 2
      invariant Shrink(delta, k) == start
    {
      delta := delta / (BASE - TMIN);
      k := k + BASE;
    }
    bias := k + Quot((BASE - TMIN + 1) * delta, delta + SKEW);
  }

  /** The overflow tests divide instead of multiplying; they test the exact product. */
  method ProductExceeds(a: nat, w: nat, room: nat) returns (b: bool)
    requires w > 0
    ensures b <==> a * w > room
  {
    b := a > room / w;
    var q := room / w;
    assert room == w * q + room % w;
    if b {
      MulMonotone(w, q + 1, a);
    } else {
      MulMonotone(w, a, q);
    }
  }

  /** The inner loop of `decodePunycode`, with its two overflow tests. */
  method ReadInteger(name: string, idx0: nat, i0: nat, bias: nat) returns (ok: bool, idx: nat, i: nat)
    requires idx0 <= |name| && i0 <= U64_MAX
    ensures
      var r := ReadDelta(name, idx0, i0, 1, BASE, bias, Some(U64_MAX));
      (ok <==> r.Some?) && (ok ==> r.value == (idx, i))
  {
    idx, i := idx0, i0;
    var w: nat, k: nat := 1, BASE;
    while true
      invariant idx <= |name| && i <= U64_MAX && 1 <= w <= U64_MAX
      invariant ReadDelta(name, idx, i, w, k, bias, Some(U64_MAX)) ==
                ReadDelta(name, idx0, i0, 1, BASE, bias, Some(U64_MAX))
      decreases |name| - idx
    {
      if idx == |name| {
        return false, idx, i;
      }
      var c := DigitValue(name[idx]);
      if c.None? {
        return false, idx, i;
      }
      var digit := c.value;
      idx := idx + 1;
      var overflow := ProductExceeds(digit, w, U64_MAX - i);
      if overflow {
        return false, idx, i;
      }
      i := i + digit * w;
      var t := Threshold(k, bias);
      if digit < t {
        return true, idx, i;
      }
      overflow := ProductExceeds(w, BASE - t, U64_MAX);
      if overflow {
        return false, idx, i;
      }
      MulMonotone(w, 1, BASE - t);
      w := w * (BASE - t);
      k := k + BASE;
    }
  }

  method FindDelimiter(name: string) returns (delimiter: int)
    ensures delimiter == LastDelimiter(name)
  {
    delimiter := -1;
    for j := 0 to |name|
      invariant delimiter == LastDelimiter(name[..j])
    {
      assert name[..j + 1][..j] == name[..j];
      if name[j] == '_' {
        delimiter := j;
      }
    }
    assert name[..|name|] == name;
  }

  /** Copies the basic code points before the last delimiter; stops at a character that is not valid. */
  method CopyBasic(name: string, end: nat, output: string) returns (ok: bool, result: string)
    requires end <= |name|
    ensures ok <==> forall c <- name[..end] :: IsValid(c)
    ensures ok ==> result == output + Slots(BasicCodes(name[..end]))
    ensures output <= result
  {
    hide BasicCodes, Slots;
    NoSlots();
    assert name[..0] == "";
    result := output;
    for j := 0 to end
      invariant forall c <- name[..j] :: IsValid(c)
      invariant result == output + Slots(BasicCodes(name[..j]))
    {
      assert name[..end][j] == name[j];
      if !IsValid(name[j]) {
        return false, result;
      }
      assert name[..j + 1] == name[..j] + [name[j]];
      BasicSnoc(name[..j], name[j]);
      result := result + [name[j], '\0', '\0', '\0'];
    }
    ok := true;
  }

  lemma NoSlots()
    ensures BasicCodes("") == [] && Slots([]) == ""
  {
  }

  lemma {:induction false} BasicConcat(text: string, c: char)
    requires IsValid(c) && forall d <- text :: IsValid(d)
    ensures forall d <- text + [c] :: IsValid(d)
    ensures BasicCodes(text + [c]) == BasicCodes(text) + [c as int]
  {
    if text == "" {
      assert text + [c] == [c] && [c][1..] == "";
    } else {
      BasicConcat(text[1..], c);
      assert (text + [c])[1..] == text[1..] + [c];
    }
  }

  lemma BasicSnoc(text: string, c: char)
    requires IsValid(c) && forall d <- text :: IsValid(d)
    ensures forall d <- text + [c] :: IsValid(d)
    ensures Slots(BasicCodes(text + [c])) == Slots(BasicCodes(text)) + [c, '\0', '\0', '\0']
  {
    BasicConcat(text, c);
    SlotsConcat(BasicCodes(text), [c as int]);
    SlotsOne(c as int);
    assert Slot(c as int) == [c, '\0', '\0', '\0'];
  }

  /** Inserts code point `n` at place `i` of the slots that start at `start`. */
  method InsertSlot(buffer: string, start: nat, i: nat, n: nat, ghost codes: seq<nat>)
    returns (ok: bool, result: string)
    requires start <= |buffer| && n != 0 && i <= |codes|
    requires AllLetters(codes) && buffer[start..] == Slots(codes)
    ensures ok <==> IsScalar(n)
    ensures ok ==> result == buffer[..start] + Slots(Insert(codes, i, n))
    ensures !ok ==> result == buffer
  {
    hide Slot, Slots, Insert;
    var slot;
    ok, slot := EncodeSlot(n);
    if !ok {
      return false, buffer;
    }
    SlotsInsert(codes, i, n);
    var at := start + i * 4;
    result := buffer[..at] + slot + buffer[at..];
    assert buffer[..at] == buffer[..start] + Slots(codes)[..4 * i];
    assert buffer[at..] == Slots(codes)[4 * i..];
  }

  /**
    `decodePunycode`: appends the UTF-8 of exactly the code points of the reference decoder, or
    reports failure exactly when that decoder fails within 64-bit integers.
   */
  method DecodePunycode(name: string, output: string) returns (ok: bool, result: string)
    requires |name| <= U64_MAX
    ensures ok <==> Decode(name, Some(U64_MAX)).Some?
    ensures ok ==> result == output + EncodeAll(Decode(name, Some(U64_MAX)).value)
    ensures output <= result
  {
    hide Slot, Slots, EncodeAll, Adapt, Quot, Rem, ReadDelta, Insert, BasicCodes, LastDelimiter, NonNull;
    var delimiter := FindDelimiter(name);
    var idx := 0;
    result := output;
    ghost var codes: seq<nat> := [];
    if delimiter >= 0 {
      ok, result := CopyBasic(name, delimiter, output);
      if !ok {
        return false, result;
      }
      codes := BasicCodes(name[..delimiter]);
      idx := delimiter + 1;
    }
    assert idx == 0 ==> codes == BasicCodes("");
    assert Slots(codes) == "" || idx != 0;
    var bias: nat, n: nat, damp: nat, i: nat := 72, 0x80, DAMP, 0;
    while idx != |name|
      invariant i <= |codes| <= idx <= |name| && n >= 0x80
      invariant damp == if i == 0 then DAMP else 2
      invariant AllLetters(codes) && result == output + Slots(codes)
      invariant n <= 0x10FFFF
      invariant Extend(name, idx, n, i, bias, codes, Some(U64_MAX)) == Decode(name, Some(U64_MAX))
      decreases |name| - idx
    {
      var oldI := i;
      ok, idx, i := ReadInteger(name, idx, i, bias);
      if !ok {
        return false, result;
      }
      var numPoints := (|result| - |output|) / 4 + 1;
      bias := AdaptBias(i - oldI, numPoints, damp);
      damp := 2;
      if Quot(i, numPoints) > U64_MAX - n {
        return false, result;
      }
      n := n + Quot(i, numPoints);
      i := Rem(i, numPoints);
      ok, result := InsertSlot(result, |output|, i, n, codes);
      if !ok {
        return false, result;
      }
      codes := Insert(codes, i, n);
      i := i + 1;
    }
    StripSlots(codes);
    result := RemoveNullBytes(result, |output|);
    return true, result;
  }

  // ---------------------------------------------------------------------------------------------
  // The standard
  // ---------------------------------------------------------------------------------------------

  /** Section 5: letters stand for 0 to 25 in either case, digits for 26 to 35. */
  function StandardDigit(c: char): Option<nat>
  {
    if 'A' <= c <= 'Z' then Some(c as int - 'A' as int)
    else if 'a' <= c <= 'z' then Some(c as int - 'a' as int)
    else if '0' <= c <= '9' then Some(c as int - '0' as int + 26)
    else None
  }

  /** Section 6.2, for the parameters of section 5: base 36, tmin 1, tmax 26. */
  function StandardThreshold(k: nat, bias: nat): nat
  {
    if k <= bias + 1 then 1 else if k >= bias + 26 then 26 else k - bias
  }

  /** The loop of section 6.1: while delta > ((base - tmin) * tmax) / 2. */
  function StandardShrink(delta: nat, k: nat): (nat, nat)
  {
    if delta > 455 then StandardShrink(delta / 35, k + 36) else (delta, k)
  }

  /** Where the next code point goes: how many code points on, and at what place. */
  function StandardPlace(i: nat, numPoints: nat): (r: (nat, nat))
    requires numPoints > 0
    ensures r.1 < numPoints
  {
    (i / numPoints, i % numPoints)
  }

  function StandardTimes(a: nat, b: nat): nat { a * b }

  /** The operators of the two decoders. */
  lemma SameOperators(a: nat, b: nat)
    ensures Product(a, b) == StandardTimes(a, b)
    ensures b > 0 ==> StandardPlace(a, b) == (Quot(a, b), Rem(a, b))
  {
  }

  /** Section 6.1: damp 700, skew 38. */
  function StandardAdapt(delta: nat, numPoints: nat, firstTime: bool): nat
    requires numPoints > 0
  {
    hide StandardShrink, StandardPlace;
    var d := if firstTime then delta / 700 else delta / 2;
    var (final, k) := StandardShrink(d + StandardPlace(d, numPoints).0, 0);
    k + StandardPlace(36 * final, final + 38).0
  }

  lemma {:induction false} SameShrink(delta: nat, k: nat)
    ensures Shrink(delta, k) == StandardShrink(delta, k)
  {
    if delta > 455 {
      SameShrink(delta / 35, k + 36);
    }
  }

  lemma SameAdapt(delta: nat, numPoints: nat, firstTime: bool)
    requires numPoints > 0
    ensures Adapt(delta, numPoints, firstTime) == StandardAdapt(delta, numPoints, firstTime)
  {
    hide Shrink, StandardShrink, StandardPlace, Quot, Rem, Product, StandardTimes;
    var d := if firstTime then delta / 700 else delta / 2;
    SameOperators(d, numPoints);
    SameShrink(d + Quot(d, numPoints), 0);
    var final := Shrink(d + Quot(d, numPoints), 0).0;
    SameOperators(36 * final, final + 38);
  }

  lemma SameThreshold(k: nat, bias: nat)
    ensures Threshold(k, bias) == StandardThreshold(k, bias)
  {
  }

  function StandardDelta(name: string, idx: nat, i: nat, w: nat, k: nat, bias: nat): (r: Option<(nat, nat)>)
    requires idx <= |name|
    ensures r.Some? ==> idx < r.value.0 <= |name| && i <= r.value.1
    decreases |name| - idx
  {
    hide StandardTimes;
    if idx == |name| || StandardDigit(name[idx]).None? then None
    else
      var digit := StandardDigit(name[idx]).value;
      var t := StandardThreshold(k, bias);
      var i' := i + StandardTimes(digit, w);
      if digit < t then Some((idx + 1, i'))
      else StandardDelta(name, idx + 1, i', StandardTimes(w, 36 - t), k + 36, bias)
  }

  /** The main loop; it inserts any number, whether or not it is a scalar value. */
  function StandardExtend(name: string, idx: nat, n: nat, i: nat, bias: nat, codes: seq<nat>): Option<seq<nat>>
    requires idx <= |name|
    decreases |name| - idx
  {
    hide StandardAdapt, StandardDelta, StandardPlace;
    if idx == |name| then Some(codes)
    else
      match StandardDelta(name, idx, i, 1, 36, bias)
      case None => None
      case Some((next, i')) =>
        var numPoints := |codes| + 1;
        var (more, at) := StandardPlace(i', numPoints);
        StandardExtend(name, next, n + more, at + 1, StandardAdapt(i' - i, numPoints, i == 0),
                       codes[..at] + [n + more] + codes[at..])
  }

  predicate IsBasic(c: char) { c as int < 0x80 }

  function CodesOf(text: string): seq<nat> { seq(|text|, j requires 0 <= j < |text| => text[j] as int) }

  /** The delimiter is consumed only if something was consumed before it. */
  function StandardDecode(name: string): Option<seq<nat>>
  {
    var d := LastDelimiter(name);
    var basic := if d < 0 then "" else name[..d];
    if forall c <- basic :: IsBasic(c) then
      StandardExtend(name, if d > 0 then d + 1 else 0, 0x80, 0, 72, CodesOf(basic))
    else None
  }

  /** A sequence that has a UTF-8 encoding. */
  function Scalars(r: Option<seq<nat>>): Option<seq<nat>>
  {
    match r
    case None => None
    case Some(codes) => if forall j :: 0 <= j < |codes| ==> IsScalar(codes[j]) then r else None
  }

  predicate NoUpper(s: string) { forall j :: 0 <= j < |s| ==> !IsUpper(s[j]) }

  lemma {:induction false} SameDelta(name: string, idx: nat, i: nat, w: nat, k: nat, bias: nat)
    requires idx <= |name| && NoUpper(name[idx..])
    ensures ReadDelta(name, idx, i, w, k, bias, None) == StandardDelta(name, idx, i, w, k, bias)
    decreases |name| - idx
  {
    hide Threshold, StandardThreshold, Product, StandardTimes, Quot, Rem, StandardPlace;
    if idx < |name| {
      SameThreshold(k, bias);
      assert !IsUpper(name[idx..][0]);
      assert NoUpper(name[idx + 1..]) by {
        assert name[idx + 1..] == name[idx..][1..];
      }
      if StandardDigit(name[idx]).Some? {
        var digit := StandardDigit(name[idx]).value;
        SameOperators(digit, w);
        SameOperators(w, 36 - StandardThreshold(k, bias));
        SameDelta(name, idx + 1, i + Product(digit, w), Product(w, 36 - Threshold(k, bias)), k + 36, bias);
      }
    }
  }

  /** What is in the list stays in it. */
  lemma {:induction false} StandardKeeps(name: string, idx: nat, n: nat, i: nat, bias: nat, codes: seq<nat>, x: nat)
    requires idx <= |name| && x in codes
    ensures var r := StandardExtend(name, idx, n, i, bias, codes); r.Some? ==> x in r.value
    decreases |name| - idx
  {
    hide StandardAdapt, StandardDelta, StandardPlace;
    if idx < |name| && StandardDelta(name, idx, i, 1, 36, bias).Some? {
      var (next, i') := StandardDelta(name, idx, i, 1, 36, bias).value;
      var numPoints := |codes| + 1;
      var n', at := n + StandardPlace(i', numPoints).0, StandardPlace(i', numPoints).1;
      assert codes == codes[..at] + codes[at..];
      StandardKeeps(name, next, n', at + 1, StandardAdapt(i' - i, numPoints, i == 0), codes[..at] + [n'] + codes[at..],
                    x);
    }
  }

  lemma {:induction false} SameExtend(name: string, idx: nat, n: nat, i: nat, bias: nat, codes: seq<nat>)
    requires idx <= |name| && 0x80 <= n && AllLetters(codes) && NoUpper(name[idx..])
    ensures Extend(name, idx, n, i, bias, codes, None) == Scalars(StandardExtend(name, idx, n, i, bias, codes))
    decreases |name| - idx
  {
    hide Adapt, StandardAdapt, StandardDelta, StandardPlace, Quot, Rem, Product, StandardTimes, ReadDelta, NoUpper;
    hide IsScalar;
    SameDelta(name, idx, i, 1, 36, bias);
    if idx < |name| && StandardDelta(name, idx, i, 1, 36, bias).Some? {
      var (next, i') := StandardDelta(name, idx, i, 1, 36, bias).value;
      var numPoints := |codes| + 1;
      var n', at := n + StandardPlace(i', numPoints).0, StandardPlace(i', numPoints).1;
      var bias' := StandardAdapt(i' - i, numPoints, i == 0);
      var more := codes[..at] + [n'] + codes[at..];
      SameAdapt(i' - i, numPoints, i == 0);
      SameOperators(i', numPoints);
      if IsScalar(n') {
        NoUpperLater(name, idx, next);
        SameExtend(name, next, n', at + 1, bias', Insert(codes, at, n'));
      } else {
        assert more[at] == n';
        StandardKeeps(name, next, n', at + 1, bias', more, n');
      }
    }
  }

  lemma NoUpperLater(name: string, idx: nat, next: nat)
    requires idx <= next <= |name| && NoUpper(name[idx..])
    ensures NoUpper(name[next..])
  {
    assert name[next..] == name[idx..][next - idx..];
  }

  lemma {:induction false} SameBasic(text: string)
    requires forall c <- text :: IsValid(c)
    ensures BasicCodes(text) == CodesOf(text)
  {
    if text != "" {
      SameBasic(text[1..]);
    }
  }

  /** Decoding from a place on looks at nothing before it. */
  lemma {:induction false} DeltaShifted(name: string, idx: nat, i: nat, w: nat, k: nat, bias: nat)
    requires name != "" && idx < |name|
    ensures
      var far := ReadDelta(name, idx + 1, i, w, k, bias, None);
      var near := ReadDelta(name[1..], idx, i, w, k, bias, None);
      far == if near.None? then None else Some((near.value.0 + 1, near.value.1))
    decreases |name| - idx
  {
    hide Threshold, Product;
    if idx + 1 < |name| && DigitValue(name[idx + 1]).Some? {
      var digit := DigitValue(name[idx + 1]).value;
      DeltaShifted(name, idx + 1, i + Product(digit, w), Product(w, BASE - Threshold(k, bias)), k + BASE, bias);
    }
  }

  lemma {:induction false} ExtendShifted(name: string, idx: nat, n: nat, i: nat, bias: nat, codes: seq<nat>)
    requires name != "" && idx < |name| && 0x80 <= n && AllLetters(codes)
    ensures Extend(name, idx + 1, n, i, bias, codes, None) == Extend(name[1..], idx, n, i, bias, codes, None)
    decreases |name| - idx
  {
    hide Adapt, Quot, Rem, ReadDelta, Insert;
    DeltaShifted(name, idx, i, 1, BASE, bias);
    if idx + 1 < |name| && ReadDelta(name[1..], idx, i, 1, BASE, bias, None).Some? {
      var (next, i') := ReadDelta(name[1..], idx, i, 1, BASE, bias, None).value;
      var numPoints := |codes| + 1;
      var n', at := n + Quot(i', numPoints), Rem(i', numPoints);
      if IsScalar(n') {
        ExtendShifted(name, next, n', at + 1, Adapt(i' - i, numPoints, i == 0), Insert(codes, at, n'));
      }
    }
  }

  /** A capital letter behind the delimiter is no digit to the program. */
  lemma {:induction false} UpperRefused(name: string, idx: nat, n: nat, i: nat, bias: nat, codes: seq<nat>)
    requires idx <= |name| && 0x80 <= n && AllLetters(codes) && !NoUpper(name[idx..])
    ensures Extend(name, idx, n, i, bias, codes, None) == None
    decreases |name| - idx
  {
    hide Adapt, Quot, Rem, ReadDelta, Insert;
    DeltaNoUpper(name, idx, i, 1, BASE, bias);
    if ReadDelta(name, idx, i, 1, BASE, bias, None).Some? {
      var (next, i') := ReadDelta(name, idx, i, 1, BASE, bias, None).value;
      var numPoints := |codes| + 1;
      var n', at := n + Quot(i', numPoints), Rem(i', numPoints);
      if IsScalar(n') {
        StillUpper(name, idx, next);
        UpperRefused(name, next, n', at + 1, Adapt(i' - i, numPoints, i == 0), Insert(codes, at, n'));
      }
    }
  }

  lemma StillUpper(name: string, idx: nat, next: nat)
    requires idx <= next <= |name|
    ensures NoUpper(name[idx..next]) && NoUpper(name[next..]) ==> NoUpper(name[idx..])
  {
    assert name[idx..] == name[idx..next] + name[next..];
  }

  lemma {:induction false} DeltaNoUpper(name: string, idx: nat, i: nat, w: nat, k: nat, bias: nat)
    requires idx <= |name|
    ensures
      var r := ReadDelta(name, idx, i, w, k, bias, None);
      r.Some? ==> NoUpper(name[idx..r.value.0])
    decreases |name| - idx
  {
    hide Threshold, Product;
    if idx < |name| && DigitValue(name[idx]).Some? {
      var digit := DigitValue(name[idx]).value;
      DeltaNoUpper(name, idx + 1, i + Product(digit, w), Product(w, BASE - Threshold(k, bias)), k + BASE, bias);
      var r := ReadDelta(name, idx, i, w, k, bias, None);
      if r.Some? {
        assert name[idx..r.value.0] == [name[idx]] + name[idx + 1..r.value.0];
      }
    }
  }

  /** What decides how a name is treated: the delimiter, the part before it and the part behind it. */
  function Front(name: string): string { var d := LastDelimiter(name); if d < 0 then "" else name[..d] }

  function Back(name: string): string { name[LastDelimiter(name) + 1..] }

  predicate AllSymbolic(s: string) { forall c <- s :: IsValid(c) }

  predicate AllBasic(s: string) { forall c <- s :: IsBasic(c) }

  /**
    The program against the standard, for every name.  They agree (up to sequences that have no
    UTF-8) unless the only delimiter comes first, the part before the delimiter is ASCII with some
    character that no symbol has, or a capital letter stands behind the delimiter.  A leading
    delimiter is skipped, where the standard fails on it; in the other two cases the program fails.
   */
  lemma ProgramVersusStandard(name: string)
    ensures LastDelimiter(name) == 0 ==> StandardDecode(name) == None && Decode(name, None) == Decode(name[1..], None)
    ensures !AllSymbolic(Front(name)) || !NoUpper(Back(name)) ==> Decode(name, None) == None
    ensures
      LastDelimiter(name) != 0 && (AllBasic(Front(name)) ==> AllSymbolic(Front(name))) && NoUpper(Back(name))
      ==> Decode(name, None) == Scalars(StandardDecode(name))
  {
    hide Decode, StandardDecode, LastDelimiter, AllSymbolic, AllBasic, NoUpper;
    if LastDelimiter(name) == 0 {
      LeadingDelimiter(name);
    }
    if !AllSymbolic(Front(name)) {
      FrontRefused(name);
    } else if !NoUpper(Back(name)) {
      BackRefused(name);
    } else if LastDelimiter(name) != 0 {
      PlainAgrees(name);
    }
  }

  lemma FrontRefused(name: string)
    requires !AllSymbolic(Front(name))
    ensures Decode(name, None) == None && (!AllBasic(Front(name)) ==> StandardDecode(name) == None)
  {
    hide Extend, StandardExtend, LastDelimiter;
  }

  lemma BackRefused(name: string)
    requires AllSymbolic(Front(name)) && !NoUpper(Back(name))
    ensures Decode(name, None) == None
  {
    hide Extend, LastDelimiter, NoUpper;
    UpperRefused(name, LastDelimiter(name) + 1, 0x80, 0, 72, BasicCodes(Front(name)));
  }

  lemma PlainAgrees(name: string)
    requires LastDelimiter(name) != 0 && AllSymbolic(Front(name)) && NoUpper(Back(name))
    ensures Decode(name, None) == Scalars(StandardDecode(name))
  {
    hide Extend, StandardExtend, LastDelimiter, NoUpper, Scalars, BasicCodes, CodesOf;
    SymbolicIsBasic(Front(name));
    SameBasic(Front(name));
    SameExtend(name, LastDelimiter(name) + 1, 0x80, 0, 72, BasicCodes(Front(name)));
  }

  lemma SymbolicIsBasic(s: string)
    requires AllSymbolic(s)
    ensures AllBasic(s)
  {
    forall c | c in s
      ensures IsBasic(c)
    {
      assert IsValid(c);
    }
  }

  lemma LeadingDelimiter(name: string)
    requires LastDelimiter(name) == 0
    ensures StandardDecode(name) == None && Decode(name, None) == Decode(name[1..], None)
  {
    hide Extend;
    var rest := name[1..];
    assert forall j :: 0 <= j < |rest| ==> rest[j] == name[j + 1];
    assert LastDelimiter(rest) == -1;
    ExtendShifted(name, 0, 0x80, 0, 72, []);
    assert StandardDigit(name[0]) == None;
  }

  /** A lone delimiter is the empty name to the program, and a lone capital letter is nothing. */
  lemma ProgramDiffers()
    ensures Decode("_", None) == Some([]) && StandardDecode("_") == None
    ensures Decode("A", None) == None && StandardDecode("A") == Some([0x80])
  {
    ProgramVersusStandard("_");
    assert "_"[1..] == "";
    assert Decode("", None) == Some([]);
    CapitalA();
  }

  lemma CapitalA()
    ensures Decode("A", None) == None && StandardDecode("A") == Some([0x80])
  {
    assert "A"[..0] == "" && LastDelimiter("A") == -1;
    assert DigitValue('A') == None;
    assert ReadDelta("A", 0, 0, 1, BASE, 72, None) == None;
    assert StandardDelta("A", 0, 0, 1, 36, 72) == Some((1, 0));
    assert Quot(0, 1) == 0 && Rem(0, 1) == 0;
    var codes: seq<nat> := CodesOf("");
    assert codes[..0] + [0x80] + codes[0..] == [0x80];
  }
}
