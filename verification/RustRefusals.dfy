/**
  What the demangler refuses: the characters that RFC 2603 allows at each place, written out, and
  that nothing else gets through.
 */
module RustRefusals {
  import opened Basics
  import opened RustLexer
  import opened RustNumbers
  import opened RustGrammar
  import opened RustRoundTrip
  import opened RustRoundTripProof

  predicate Letter(c: char) { 'a' <= c <= 'z' || 'A' <= c <= 'Z' }

  predicate Decimal(c: char) { '0' <= c <= '9' }

  predicate IsPathLetter(c: char) { c == 'C' || c == 'M' || c == 'X' || c == 'Y' || c == 'N' || c == 'I' || c == 'B' }

  /** A path starts with the letter of its kind. */
  lemma PathLetters(e: Env, s: St, inType: bool, leaveOpen: bool)
    requires Wf(e, s) && !PathBody(e, s, inType, leaveOpen).0.error
    ensures s.pos < |e.input| && IsPathLetter(e.input[s.pos])
  {
    hide CratePath, InherentPath, TraitPath, ImplPath, NestedPath, GenericPath, BackrefPath;
  }

  /** Basic types that no constant has. */
  predicate NoConstLetter(c: char) { c == 'f' || c == 'd' || c == 'e' || c == 'u' || c == 'z' || c == 'v' }

  /** A type that constants can have. */
  predicate ConstType(t: BasicType) { IsInteger(t) || t == Bool || t == Char || t == Placeholder }

  lemma BasicLetters(c: char)
    ensures ParseBasicType(c).Some? <==> LetterText(c).Some?
    ensures ParseBasicType(c).Some? && !ConstType(ParseBasicType(c).value) <==> NoConstLetter(c)
    ensures ParseBasicType('\0').None?
  {
  }

  predicate StructuralLetter(c: char)
  {
    c == 'A' || c == 'S' || c == 'T' || c == 'R' || c == 'Q' || c == 'P' || c == 'O' || c == 'F' || c == 'D' || c == 'B'
  }

  lemma FirstLetter(e: Env, s: St)
    requires Wf(e, s)
    ensures Consume(e, s).0.error <==> s.error || s.pos >= |e.input|
    ensures Consume(e, s).0.error ==> Consume(e, s).1 == '\0'
    ensures !Consume(e, s).0.error ==> Consume(e, s).1 == e.input[s.pos]
  {
  }

  /** A path that was read starts with one of its letters. */
  lemma PathStart(e: Env, s: St)
    requires Wf(e, s) && !Path(e, s, true, false).0.error
    ensures s.pos < |e.input| && IsPathLetter(e.input[s.pos])
  {
    hide PathBody;
    PathLetters(e, Deeper(s), true, false);
  }

  /** A letter that is neither that of a basic type nor structural belongs to a path. */
  lemma OtherLetters(e: Env, s: St)
    requires Wf(e, s)
    requires ParseBasicType(Consume(e, s).1).None? && !StructuralLetter(Consume(e, s).1)
    ensures TypeBody(e, s) == if Consume(e, s).0.error then Consume(e, s).0 else Path(e, s, true, false).0
  {
    hide ParseBasicType, Consume, ArrayType, TupleType, RefLifetime, FnSig, DynType, BackrefType, Path, Type;
  }

  /** A type starts with the letter of a basic type, with that of its kind, or with a path. */
  lemma TypeLetters(e: Env, s: St)
    requires Wf(e, s) && !TypeBody(e, s).error
    ensures s.pos < |e.input|
    ensures
      var c := e.input[s.pos];
      LetterText(c).Some? || StructuralLetter(c) || IsPathLetter(c)
  {
    hide ParseBasicType, LetterText, StructuralLetter, IsPathLetter, TypeBody, Path, Consume;
    var c := Consume(e, s).1;
    FirstLetter(e, s);
    BasicLetters(c);
    NoLetter();
    if ParseBasicType(c).None? && !StructuralLetter(c) {
      OtherLetters(e, s);
      if !Consume(e, s).0.error {
        PathStart(e, s);
      }
    }
  }

  lemma NoLetter()
    ensures !StructuralLetter('\0')
  {
  }

  /** Any other letter is refused. */
  lemma OtherConstants(e: Env, s: St)
    requires Wf(e, s) && Consume(e, s).1 != 'B'
    requires
      var t := ParseBasicType(Consume(e, s).1);
      t.Some? ==> !ConstType(t.value)
    ensures ConstBody(e, s).error
  {
    hide ParseBasicType, IsInteger, Consume, ConstInt, ConstBool, ConstChar, BackrefConst;
  }

  /** A constant starts with the letter of an integer type, `bool` or `char`, a placeholder or a reference. */
  lemma ConstLetters(e: Env, s: St)
    requires Wf(e, s) && !ConstBody(e, s).error
    ensures s.pos < |e.input|
    ensures
      var c := e.input[s.pos];
      (LetterText(c).Some? && !NoConstLetter(c)) || c == 'B'
  {
    hide ParseBasicType, ConstType, LetterText, NoConstLetter, Consume, ConstBody;
    var c := Consume(e, s).1;
    FirstLetter(e, s);
    BasicLetters(c);
    if c != 'B' && (ParseBasicType(c).None? || !ConstType(ParseBasicType(c).value)) {
      OtherConstants(e, s);
    }
  }

  /** A namespace is a letter. */
  lemma NamespaceLetters(e: Env, s: St, inType: bool)
    requires Wf(e, s) && !NestedPath(e, s, inType).error
    ensures s.pos < |e.input| && Letter(e.input[s.pos])
  {
    hide Path, ParseOptionalBase62, ParseIdentifier, NestedName;
  }

  /** Identifiers hold letters, digits and underscores. */
  lemma IdentifierLetters(e: Env, s: St)
    requires Wf(e, s) && !ParseIdentifier(e, s).0.error
    ensures forall c <- ParseIdentifier(e, s).1.name :: Letter(c) || Decimal(c) || c == '_'
  {
    hide ParseDecimal;
    var name := ParseIdentifier(e, s).1.name;
    forall c | c in name
      ensures Letter(c) || Decimal(c) || c == '_'
    {
      assert IsValid(c);
    }
  }

  /** Numbers in base 62 are letters and digits up to an underscore. */
  lemma Base62Letters(e: Env, s: St)
    requires Wf(e, s) && !s.error && !ParseBase62(e, s).0.error
    ensures
      var q := ParseBase62(e, s).0.pos;
      && s.pos < q <= |e.input| && e.input[q - 1] == '_'
      && forall i :: s.pos <= i < q - 1 ==> Letter(e.input[i]) || Decimal(e.input[i])
  {
    hide ParseBase62, Value;
    ParseBase62Exact(e, s);
  }

  /** Decimal numbers are digits, hexadecimal ones digits and `a` to `f` up to an underscore. */
  lemma NumberLetters(e: Env, s: St)
    requires Wf(e, s) && !s.error
    ensures
      var (t, _) := ParseDecimal(e, s);
      !t.error ==> s.pos < t.pos && forall i :: s.pos <= i < t.pos ==> Decimal(e.input[i])
    ensures
      var (t, _, digits) := ParseHex(e, s);
      !t.error ==>
        && digits != "" && t.pos <= |e.input| && t.pos == s.pos + |digits| + 1 && e.input[t.pos - 1] == '_'
        && forall i :: s.pos <= i < t.pos - 1 ==> Decimal(e.input[i]) || 'a' <= e.input[i] <= 'f'
  {
    hide ParseDecimal, ParseHex, Value;
    ParseDecimalExact(e, s);
    ParseHexExact(e, s);
  }
}
