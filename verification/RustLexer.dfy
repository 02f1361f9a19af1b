/**
  The cursor, the error flag and the number parsers of the Rust v0 demangler: what
  `look`, `consume`, `consumeIf`, `print` and the `parse...` methods do to the demangler's fields,
  as functions on the values of those fields.  `RustDemangler` implements them on a mutable object.
 */
module RustLexer {

  const U64_MAX: nat := 0xFFFF_FFFF_FFFF_FFFF

  /** What stays fixed during one call of `demangle`. */
  datatype Env = Env(input: string, maxLevel: nat)

  /** The mutable fields of the demangler. */
  datatype St = St(pos: nat, error: bool, printing: bool, level: nat, bound: nat, out: string)

  datatype Identifier = Identifier(name: string, punycode: bool)

  /** What holds of the fields between any two operations. */
  predicate Wf(e: Env, s: St)
  {
    s.pos <= |e.input| && s.bound <= |e.input| && s.level <= e.maxLevel
  }

  /**
    What every operation of the demangler does to the fields: it never clears the error flag (and
    does nothing at all once it is set), leaves the budget, the binder depth and the print mode as
    it found them, only appends to the output, appends nothing while printing is off, and never
    ends before the place where it started.
   */
  predicate Follows(e: Env, s: St, t: St)
  {
    && Wf(e, t)
    && t.level == s.level && t.bound == s.bound && t.printing == s.printing
    && (s.error ==> t == s)
    && s.out <= t.out
    && (!s.printing ==> t.out == s.out)
    && (!t.error ==> s.pos <= t.pos)
  }

  /** An operation that also consumes something whenever it succeeds. */
  predicate Advances(e: Env, s: St, t: St)
  {
    Follows(e, s, t) && (!t.error ==> s.pos < t.pos)
  }

  // ---------------------------------------------------------------------------------------------
  // Characters, cursor, output
  // ---------------------------------------------------------------------------------------------

  predicate IsDigit(c: char) { '0' <= c <= '9' }
  predicate IsHexDigit(c: char) { '0' <= c <= '9' || 'a' <= c <= 'f' }
  predicate IsLower(c: char) { 'a' <= c <= 'z' }
  predicate IsUpper(c: char) { 'A' <= c <= 'Z' }
  predicate IsValid(c: char) { IsDigit(c) || IsLower(c) || IsUpper(c) || c == '_' }

  predicate AllValid(name: string) { forall c <- name :: IsValid(c) }

  function Fail(s: St): St { s.(error := true) }

  function Look(e: Env, s: St): char
  {
    if s.error || s.pos >= |e.input| then '\0' else e.input[s.pos]
  }

  function Consume(e: Env, s: St): (r: (St, char))
    requires Wf(e, s)
    ensures Advances(e, s, r.0)
    ensures r.0.out == s.out
    ensures r.1 != '\0' ==> !r.0.error && s.pos < |e.input|
  {
    if s.error || s.pos >= |e.input| then (Fail(s), '\0') else (s.(pos := s.pos + 1), e.input[s.pos])
  }

  function ConsumeIf(e: Env, s: St, c: char): (r: (St, bool))
    requires Wf(e, s)
    ensures Follows(e, s, r.0)
    ensures r.0.error == s.error && r.0.out == s.out
    ensures r.1 ==> !s.error && s.pos < r.0.pos
    ensures !r.1 ==> r.0 == s
  {
    if s.error || s.pos >= |e.input| || e.input[s.pos] != c then (s, false)
    else (s.(pos := s.pos + 1), true)
  }

  function Print(s: St, text: string): (t: St)
  {
    if s.error || !s.printing then s else s.(out := s.out + text)
  }

  // ---------------------------------------------------------------------------------------------
  // Numbers
  // ---------------------------------------------------------------------------------------------

  predicate IsBase62(c: char) { IsDigit(c) || IsLower(c) || IsUpper(c) }

  function Base62Digit(c: char): (d: nat)
    ensures d < 62
  {
    if IsDigit(c) then c as int - '0' as int
    else if IsLower(c) then 10 + (c as int - 'a' as int)
    else if IsUpper(c) then 36 + (c as int - 'A' as int)
    else 0
  }

  function DecimalDigit(c: char): (d: nat)
    ensures d < 10
  {
    if IsDigit(c) then c as int - '0' as int else 0
  }

  function HexDigit(c: char): (d: nat)
    ensures d < 16
  {
    if IsDigit(c) then c as int - '0' as int
    else if 'a' <= c <= 'f' then 10 + (c as int - 'a' as int)
    else 0
  }

  /** The loop of `parseBase62Number`, with both 64-bit overflow tests. */
  function Base62Loop(e: Env, s: St, value: nat): (r: (St, nat))
    requires Wf(e, s) && value <= U64_MAX
    ensures Advances(e, s, r.0) && r.0.out == s.out
    ensures r.1 <= U64_MAX
    decreases |e.input| - s.pos
  {
    var (t, c) := Consume(e, s);
    if c == '_' then
      if value > U64_MAX - 1 then (Fail(t), 0) else (t, value + 1)
    else if IsBase62(c) then
      if value > U64_MAX / 62 then (Fail(t), 0)
      else if value * 62 > U64_MAX - Base62Digit(c) then (Fail(t), 0)
      else Base62Loop(e, t, value * 62 + Base62Digit(c))
    else (Fail(t), 0)
  }

  function ParseBase62(e: Env, s: St): (r: (St, nat))
    requires Wf(e, s)
    ensures Advances(e, s, r.0) && r.0.out == s.out
    ensures r.1 <= U64_MAX
  {
    var (t, empty) := ConsumeIf(e, s, '_');
    if empty then (t, 0) else Base62Loop(e, t, 0)
  }

  /** 0 when the tag is absent, otherwise the number plus one. */
  function ParseOptionalBase62(e: Env, s: St, tag: char): (r: (St, nat))
    requires Wf(e, s)
    ensures Follows(e, s, r.0) && r.0.out == s.out
    ensures r.1 <= U64_MAX
  {
    var (t, present) := ConsumeIf(e, s, tag);
    if !present then (t, 0)
    else
      var (u, n) := ParseBase62(e, t);
      if u.error then (u, 0)
      else if n > U64_MAX - 1 then (Fail(u), 0)
      else (u, n + 1)
  }

  function DecimalLoop(e: Env, s: St, value: nat): (r: (St, nat))
    requires Wf(e, s) && value <= U64_MAX
    ensures Follows(e, s, r.0) && r.0.out == s.out
    ensures !s.error && IsDigit(Look(e, s)) && !r.0.error ==> s.pos < r.0.pos
    ensures r.1 <= U64_MAX
    decreases |e.input| - s.pos
  {
    if !IsDigit(Look(e, s)) then (s, value)
    else if value > U64_MAX / 10 then (Fail(s), 0)
    else
      var (t, c) := Consume(e, s);
      if value * 10 > U64_MAX - DecimalDigit(c) then (Fail(t), 0)
      else DecimalLoop(e, t, value * 10 + DecimalDigit(c))
  }

  function ParseDecimal(e: Env, s: St): (r: (St, nat))
    requires Wf(e, s)
    ensures Advances(e, s, r.0) && r.0.out == s.out
    ensures r.1 <= U64_MAX
  {
    if !IsDigit(Look(e, s)) then (Fail(s), 0)
    else if Look(e, s) == '0' then (Consume(e, s).0, 0)
    else DecimalLoop(e, s, 0)
  }

  /** `Value *= 16; Value += digit`, in 64-bit arithmetic. */
  function HexShift(value: nat, digit: nat): nat
  {
    (value * 16 % (U64_MAX + 1) + digit) % (U64_MAX + 1)
  }

  /** The loop of `parseHexNumber`; the value wraps at 64 bits. */
  function HexLoop(e: Env, s: St, value: nat): (r: (St, nat))
    requires Wf(e, s)
    ensures Follows(e, s, r.0) && r.0.out == s.out
    ensures !r.0.error ==> s.pos < r.0.pos
    decreases |e.input| - s.pos
  {
    if s.error then (s, value)
    else
      var (t, done) := ConsumeIf(e, s, '_');
      if done then (t, value)
      else
        var (u, c) := Consume(e, t);
        if IsHexDigit(c) then HexLoop(e, u, HexShift(value, HexDigit(c))) else (Fail(u), 0)
  }

  /** The value and the digits, without the `_` that ends them. */
  function ParseHex(e: Env, s: St): (r: (St, nat, string))
    requires Wf(e, s)
    ensures Advances(e, s, r.0) && r.0.out == s.out
    ensures !r.0.error ==> s.pos < r.0.pos - 1 && r.2 == e.input[s.pos .. r.0.pos - 1]
  {
    if !IsHexDigit(Look(e, s)) then (Fail(s), 0, "")
    else
      var (t, zero) := ConsumeIf(e, s, '0');
      if zero then
        var (u, done) := ConsumeIf(e, t, '_');
        if done then (u, 0, e.input[s.pos .. u.pos - 1]) else (Fail(u), 0, "")
      else
        var (u, value) := HexLoop(e, s, 0);
        if u.error then (u, 0, "") else (u, value, e.input[s.pos .. u.pos - 1])
  }

  function ParseIdentifier(e: Env, s: St): (r: (St, Identifier))
    requires Wf(e, s)
    ensures Advances(e, s, r.0) && r.0.out == s.out
    ensures !r.0.error ==> |r.1.name| <= r.0.pos && r.1.name == e.input[r.0.pos - |r.1.name| .. r.0.pos]
    ensures |r.1.name| <= |e.input|
    ensures AllValid(r.1.name)
  {
    var (s1, punycode) := ConsumeIf(e, s, 'u');
    var (s2, bytes) := ParseDecimal(e, s1);
    var (s3, _) := ConsumeIf(e, s2, '_');
    if s3.error || bytes > |e.input| - s3.pos then (Fail(s3), Identifier("", false))
    else
      var name := e.input[s3.pos .. s3.pos + bytes];
      var s4 := s3.(pos := s3.pos + bytes);
      if AllValid(name) then (s4, Identifier(name, punycode))
      else (Fail(s4), Identifier("", false))
  }
}
