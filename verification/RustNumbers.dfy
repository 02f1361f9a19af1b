/**
  The number parsers of the Rust demangler are exact: positional notation over unbounded integers
  is the reference, and the parsers agree with it on every input, 64-bit overflow included.
 */
module RustNumbers {
  import opened RustLexer

  // ---------------------------------------------------------------------------------------------
  // Positional notation
  // ---------------------------------------------------------------------------------------------

  /** The number written by `s`, most significant digit first. */
  function Value(s: string, base: nat, digit: char -> nat): nat
  {
    if s == "" then 0 else Value(s[..|s| - 1], base, digit) * base + digit(s[|s| - 1])
  }

  function Quot(n: nat, base: nat): (q: nat)
    requires base >= 2
    ensures n > 0 ==> q < n
  {
    QuotSmaller(n, base);
    n / base
  }

  lemma QuotSmaller(n: nat, base: nat)
    requires base >= 2
    ensures n > 0 ==> n / base < n
  {
    var q := n / base;
    assert n == q * base + n % base;
    assert q * 2 <= q * base;
  }

  function Rem(n: nat, base: nat): (r: nat)
    requires base >= 2
    ensures r < base
  {
    n % base
  }

  lemma QuotRem(n: nat, base: nat)
    requires base >= 2
    ensures n == Quot(n, base) * base + Rem(n, base)
    ensures n >= base ==> Quot(n, base) > 0
  {
  }

  /** The digits of `n`, most significant first and without leading zeros. */
  function Text(n: nat, base: nat, letter: nat -> char): (s: string)
    requires base >= 2
    ensures |s| > 0
  {
    hide Quot, Rem;
    if n < base then [letter(n)] else Text(Quot(n, base), base, letter) + [letter(Rem(n, base))]
  }

  lemma {:induction false} ValueOfText(n: nat, base: nat, letter: nat -> char, digit: char -> nat)
    requires base >= 2
    requires forall d: nat {:trigger letter(d)} :: d < base ==> digit(letter(d)) == d
    ensures Value(Text(n, base, letter), base, digit) == n
  {
    hide Quot, Rem;
    var s := Text(n, base, letter);
    if n < base {
      assert s[..|s| - 1] == "";
    } else {
      QuotRem(n, base);
      ValueOfText(Quot(n, base), base, letter, digit);
      assert s[..|s| - 1] == Text(Quot(n, base), base, letter);
      assert letter(Rem(n, base)) == s[|s| - 1];
    }
  }

  lemma {:induction false} TextLetters(n: nat, base: nat, letter: nat -> char, ok: char -> bool)
    requires base >= 2
    requires forall d: nat {:trigger letter(d)} :: d < base ==> ok(letter(d))
    ensures forall c <- Text(n, base, letter) :: ok(c)
  {
    hide Quot, Rem;
    if n >= base {
      TextLetters(Quot(n, base), base, letter, ok);
    }
  }

  /** Only zero is written with a leading zero. */
  lemma {:induction false} TextHead(n: nat, base: nat, letter: nat -> char, digit: char -> nat)
    requires base >= 2
    requires forall d: nat {:trigger letter(d)} :: d < base ==> digit(letter(d)) == d
    ensures n > 0 ==> digit(Text(n, base, letter)[0]) > 0
  {
    hide Quot, Rem;
    if n >= base {
      QuotRem(n, base);
      TextHead(Quot(n, base), base, letter, digit);
    } else {
      assert letter(n) == Text(n, base, letter)[0];
    }
  }

  /** Two numbers with the same digits are the same number. */
  lemma {:induction false} TextInjective(m: nat, n: nat, base: nat, letter: nat -> char, digit: char -> nat)
    requires base >= 2
    requires forall d: nat {:trigger letter(d)} :: d < base ==> digit(letter(d)) == d
    requires Text(m, base, letter) == Text(n, base, letter)
    ensures m == n
  {
    ValueOfText(m, base, letter, digit);
    ValueOfText(n, base, letter, digit);
  }

  /** Reading on: the digits of `input[pos..end]` appended to a number already read. */
  function Fold(value: nat, input: string, pos: nat, end: nat, base: nat, digit: char -> nat): nat
    requires pos <= end <= |input|
    decreases end - pos
  {
    if pos == end then value
    else Fold(value * base + digit(input[pos]), input, pos + 1, end, base, digit)
  }

  lemma {:induction false} FoldGrows(value: nat, input: string, pos: nat, end: nat, base: nat, digit: char -> nat)
    requires pos <= end <= |input| && base >= 1
    ensures value <= Fold(value, input, pos, end, base, digit)
    decreases end - pos
  {
    if pos < end {
      assert value <= value * base;
      FoldGrows(value * base + digit(input[pos]), input, pos + 1, end, base, digit);
    }
  }

  lemma {:induction false} FoldIsValue(input: string, start: nat, pos: nat, end: nat, base: nat, digit: char -> nat)
    requires start <= pos <= end <= |input|
    ensures Fold(Value(input[start..pos], base, digit), input, pos, end, base, digit) ==
            Value(input[start..end], base, digit)
    decreases end - pos
  {
    if pos < end {
      var s := input[start..pos + 1];
      assert s[..|s| - 1] == input[start..pos];
      FoldIsValue(input, start, pos + 1, end, base, digit);
    }
  }

  lemma FoldFromStart(input: string, pos: nat, end: nat, base: nat, digit: char -> nat)
    requires pos <= end <= |input|
    ensures Fold(0, input, pos, end, base, digit) == Value(input[pos..end], base, digit)
  {
    assert input[pos..pos] == "";
    FoldIsValue(input, pos, pos, end, base, digit);
  }

  /** The first place at or after `pos` that does not hold one of the digits. */
  function RunEnd(input: string, pos: nat, ok: char -> bool): (q: nat)
    requires pos <= |input|
    ensures pos <= q <= |input|
    ensures forall i :: pos <= i < q ==> ok(input[i])
    ensures q < |input| ==> !ok(input[q])
    decreases |input| - pos
  {
    if pos < |input| && ok(input[pos]) then RunEnd(input, pos + 1, ok) else pos
  }

  /** The definitions one character deep. */
  lemma RunParts(value: nat, input: string, pos: nat, ok: char -> bool, base: nat, digit: char -> nat)
    requires pos <= |input|
    ensures
      var q := RunEnd(input, pos, ok);
      if pos < |input| && ok(input[pos]) then
        && q == RunEnd(input, pos + 1, ok) && pos < q
        && Fold(value, input, pos, q, base, digit) ==
           Fold(value * base + digit(input[pos]), input, pos + 1, q, base, digit)
      else q == pos && Fold(value, input, pos, q, base, digit) == value
  {
  }

  // ---------------------------------------------------------------------------------------------
  // Base 62
  // ---------------------------------------------------------------------------------------------

  function Base62Letter(d: nat): char
  {
    if d < 10 then '0' + d as char
    else if d < 36 then 'a' + (d - 10) as char
    else if d < 62 then 'A' + (d - 36) as char
    else '_'
  }

  /** The number denoted by the digits between `pos` and the closing underscore at `end`. */
  function Base62Number(input: string, pos: nat, end: nat): nat
    requires pos <= end <= |input|
  {
    if pos == end then 0 else Value(input[pos..end], 62, Base62Digit) + 1
  }

  /** How a number is written in a mangled name. */
  function Base62Text(n: nat): string
  {
    if n == 0 then "_" else Text(n - 1, 62, Base62Letter) + "_"
  }

  /** The two overflow tests of one round together test the exact next value. */
  lemma Base62Step(e: Env, s: St, value: nat)
    requires Wf(e, s) && !s.error && value <= U64_MAX
    requires s.pos < |e.input| && IsBase62(e.input[s.pos])
    ensures
      var next := value * 62 + Base62Digit(e.input[s.pos]);
      var t := s.(pos := s.pos + 1);
      Base62Loop(e, s, value) == if next <= U64_MAX then Base62Loop(e, t, next) else (Fail(t), 0)
  {
  }

  lemma Base62Stop(e: Env, s: St, value: nat)
    requires Wf(e, s) && !s.error && value <= U64_MAX
    requires s.pos < |e.input| ==> !IsBase62(e.input[s.pos])
    ensures
      var t := s.(pos := s.pos + 1);
      Base62Loop(e, s, value) ==
      if s.pos == |e.input| then (Fail(s), 0)
      else if e.input[s.pos] == '_' && value < U64_MAX then (t, value + 1)
      else (Fail(t), 0)
  {
  }

  lemma {:induction false} Base62LoopExact(e: Env, s: St, value: nat)
    requires Wf(e, s) && !s.error && value <= U64_MAX
    ensures
      var q := RunEnd(e.input, s.pos, IsBase62);
      var total := Fold(value, e.input, s.pos, q, 62, Base62Digit) + 1;
      var (t, n) := Base62Loop(e, s, value);
      && (!t.error <==> q < |e.input| && e.input[q] == '_' && total <= U64_MAX)
      && (!t.error ==> n == total && t == s.(pos := q + 1))
    decreases |e.input| - s.pos
  {
    hide RunEnd, Fold, Base62Loop;
    RunParts(value, e.input, s.pos, IsBase62, 62, Base62Digit);
    if s.pos < |e.input| && IsBase62(e.input[s.pos]) {
      var next := value * 62 + Base62Digit(e.input[s.pos]);
      Base62Step(e, s, value);
      if next <= U64_MAX {
        Base62LoopExact(e, s.(pos := s.pos + 1), next);
      } else {
        FoldGrows(next, e.input, s.pos + 1, RunEnd(e.input, s.pos, IsBase62), 62, Base62Digit);
      }
    } else {
      Base62Stop(e, s, value);
    }
  }

  /**
    `parseBase62Number` returns the mathematical value and stops just behind the underscore, or
    sets the error exactly when the digits are not closed by an underscore or the value needs more
    than 64 bits.
   */
  lemma {:induction false} ParseBase62Exact(e: Env, s: St)
    requires Wf(e, s) && !s.error
    ensures
      var q := RunEnd(e.input, s.pos, IsBase62);
      var (t, n) := ParseBase62(e, s);
      && (!t.error <==> q < |e.input| && e.input[q] == '_' && Base62Number(e.input, s.pos, q) < 0x1_0000_0000_0000_0000)
      && (!t.error ==> n == Base62Number(e.input, s.pos, q) && t == s.(pos := q + 1))
  {
    Base62LoopExact(e, s, 0);
    FoldFromStart(e.input, s.pos, RunEnd(e.input, s.pos, IsBase62), 62, Base62Digit);
  }

  // ---------------------------------------------------------------------------------------------
  // Decimal and hexadecimal
  // ---------------------------------------------------------------------------------------------

  function DecimalLetter(d: nat): char { if d < 10 then '0' + d as char else '_' }

  function HexLetter(d: nat): char
  {
    if d < 10 then '0' + d as char else if d < 16 then 'a' + (d - 10) as char else '_'
  }

  /** What `Output << N` appends. */
  function DecimalText(n: nat): (s: string) { Text(n, 10, DecimalLetter) }

  lemma DecimalStep(e: Env, s: St, value: nat)
    requires Wf(e, s) && !s.error && value <= U64_MAX
    requires s.pos < |e.input| && IsDigit(e.input[s.pos])
    ensures
      var next := value * 10 + DecimalDigit(e.input[s.pos]);
      var t := s.(pos := s.pos + 1);
      var r := DecimalLoop(e, s, value);
      if next <= U64_MAX then r == DecimalLoop(e, t, next) else r.0.error
  {
  }

  lemma DecimalStop(e: Env, s: St, value: nat)
    requires Wf(e, s) && value <= U64_MAX && !(s.pos < |e.input| && IsDigit(e.input[s.pos]))
    ensures DecimalLoop(e, s, value) == (s, value)
  {
  }

  lemma {:induction false} DecimalLoopExact(e: Env, s: St, value: nat)
    requires Wf(e, s) && !s.error && value <= U64_MAX
    ensures
      var q := RunEnd(e.input, s.pos, IsDigit);
      var total := Fold(value, e.input, s.pos, q, 10, DecimalDigit);
      var (t, n) := DecimalLoop(e, s, value);
      && (!t.error <==> total <= U64_MAX)
      && (!t.error ==> n == total && t == s.(pos := q))
    decreases |e.input| - s.pos
  {
    hide RunEnd, Fold, DecimalLoop;
    RunParts(value, e.input, s.pos, IsDigit, 10, DecimalDigit);
    if s.pos < |e.input| && IsDigit(e.input[s.pos]) {
      var next := value * 10 + DecimalDigit(e.input[s.pos]);
      DecimalStep(e, s, value);
      if next <= U64_MAX {
        DecimalLoopExact(e, s.(pos := s.pos + 1), next);
      } else {
        FoldGrows(next, e.input, s.pos + 1, RunEnd(e.input, s.pos, IsDigit), 10, DecimalDigit);
      }
    } else {
      DecimalStop(e, s, value);
    }
  }

  /** A decimal number is read up to its last digit, except that a leading `0` stands alone. */
  lemma {:induction false} ParseDecimalExact(e: Env, s: St)
    requires Wf(e, s) && !s.error
    ensures
      var q := RunEnd(e.input, s.pos, IsDigit);
      var end := if s.pos < q && e.input[s.pos] == '0' then s.pos + 1 else q;
      var (t, n) := ParseDecimal(e, s);
      && (!t.error <==> s.pos < q && Value(e.input[s.pos..end], 10, DecimalDigit) < 0x1_0000_0000_0000_0000)
      && (!t.error ==> n == Value(e.input[s.pos..end], 10, DecimalDigit) && t == s.(pos := end))
  {
    var q := RunEnd(e.input, s.pos, IsDigit);
    if s.pos < q && e.input[s.pos] == '0' {
      FoldFromStart(e.input, s.pos, s.pos + 1, 10, DecimalDigit);
    } else {
      DecimalLoopExact(e, s, 0);
      FoldFromStart(e.input, s.pos, q, 10, DecimalDigit);
    }
  }

  /** The value modulo 2^64 does not depend on when the wrap-around happens. */
  lemma WrapStep(v: nat, d: nat)
    ensures HexShift(v % (U64_MAX + 1), d) == (v * 16 + d) % (U64_MAX + 1)
  {
  }

  lemma {:induction false} HexLoopExact(e: Env, s: St, value: nat, exact: nat)
    requires Wf(e, s) && !s.error && value == exact % (U64_MAX + 1)
    ensures
      var q := RunEnd(e.input, s.pos, IsHexDigit);
      var total := Fold(exact, e.input, s.pos, q, 16, HexDigit);
      var (t, n) := HexLoop(e, s, value);
      && (!t.error <==> q < |e.input| && e.input[q] == '_')
      && (!t.error ==> n == total % (U64_MAX + 1) && t == s.(pos := q + 1))
    decreases |e.input| - s.pos
  {
    hide HexShift, RunEnd, Fold;
    RunParts(exact, e.input, s.pos, IsHexDigit, 16, HexDigit);
    if s.pos < |e.input| && IsHexDigit(e.input[s.pos]) {
      var d := HexDigit(e.input[s.pos]);
      var next := HexShift(value, d);
      WrapStep(exact, d);
      HexLoopExact(e, s.(pos := s.pos + 1), next, exact * 16 + d);
      assert HexLoop(e, s, value) == HexLoop(e, s.(pos := s.pos + 1), next);
    }
  }

  /**
    A hexadecimal number is `0_`, or a nonzero digit with more digits, closed by an underscore.
    The digits come back as written; the value is exact modulo 2^64.
   */
  lemma {:induction false} ParseHexExact(e: Env, s: St)
    requires Wf(e, s) && !s.error
    ensures
      var q := RunEnd(e.input, s.pos, IsHexDigit);
      var (t, n, digits) := ParseHex(e, s);
      && (!t.error <==>
            s.pos < q < |e.input| && e.input[q] == '_' && (e.input[s.pos] == '0' ==> q == s.pos + 1))
      && (!t.error ==>
            && t == s.(pos := q + 1) && digits == e.input[s.pos..q]
            && n == Value(digits, 16, HexDigit) % 0x1_0000_0000_0000_0000)
  {
    hide RunEnd, Fold, Value, HexLoop;
    var q := RunEnd(e.input, s.pos, IsHexDigit);
    FoldFromStart(e.input, s.pos, q, 16, HexDigit);
    RunParts(0, e.input, s.pos, IsHexDigit, 16, HexDigit);
    if s.pos < |e.input| && e.input[s.pos] == '0' {
      RunParts(0, e.input, s.pos + 1, IsHexDigit, 16, HexDigit);
    } else {
      HexLoopExact(e, s, 0, 0);
    }
  }

  /** Up to sixteen hexadecimal digits fit in 64 bits, so their value did not wrap. */
  lemma {:induction false} HexFits(digits: string)
    requires |digits| <= 16
    ensures Value(digits, 16, HexDigit) < Power16(|digits|) <= U64_MAX + 1
  {
    if digits != "" {
      HexFits(digits[..|digits| - 1]);
    }
    Power16Bound(|digits|, 16);
    assert Power16(8) == 0x1_0000_0000;
    assert Power16(16) == 0x1_0000_0000_0000_0000;
  }

  function Power16(k: nat): nat { if k == 0 then 1 else 16 * Power16(k - 1) }

  lemma {:induction false} Power16Bound(j: nat, k: nat)
    requires j <= k
    ensures Power16(j) <= Power16(k)
  {
    if j < k {
      Power16Bound(j, k - 1);
    }
  }
}
