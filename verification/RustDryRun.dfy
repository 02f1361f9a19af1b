/**
  The mode that parses without printing.  It is used to skip the impl path of an `impl` and the
  instantiating crate, and it does not even visit the targets of backreferences; still it ends
  where a printing parse would end.
 */
module RustDryRun {
  import opened Basics
  import opened RustLexer
  import opened RustNumbers
  import opened RustGrammar

  /** The same fields with printing off and some other output. */
  function Hush(s: St, o: string): St { s.(printing := false, out := o) }

  // ---------------------------------------------------------------------------------------------
  // The lexer does not look at the print mode or the output
  // ---------------------------------------------------------------------------------------------

  lemma {:induction false} DryBase62Loop(e: Env, s: St, value: nat, o: string)
    requires Wf(e, s) && value <= U64_MAX
    ensures
      var (t, n) := Base62Loop(e, s, value);
      Base62Loop(e, Hush(s, o), value) == (Hush(t, o), n)
    decreases |e.input| - s.pos
  {
    var (t, c) := Consume(e, s);
    if IsBase62(c) && value * 62 + Base62Digit(c) <= U64_MAX {
      DryBase62Loop(e, t, value * 62 + Base62Digit(c), o);
    }
  }

  lemma {:induction false} DryBase62(e: Env, s: St, o: string)
    requires Wf(e, s)
    ensures
      var (t, n) := ParseBase62(e, s);
      ParseBase62(e, Hush(s, o)) == (Hush(t, o), n)
  {
    DryBase62Loop(e, s, 0, o);
  }

  lemma {:induction false} DryOptionalBase62(e: Env, s: St, tag: char, o: string)
    requires Wf(e, s)
    ensures
      var (t, n) := ParseOptionalBase62(e, s, tag);
      ParseOptionalBase62(e, Hush(s, o), tag) == (Hush(t, o), n)
  {
    DryBase62(e, ConsumeIf(e, s, tag).0, o);
  }

  lemma {:induction false} DryDecimalLoop(e: Env, s: St, value: nat, o: string)
    requires Wf(e, s) && value <= U64_MAX
    ensures
      var (t, n) := DecimalLoop(e, s, value);
      DecimalLoop(e, Hush(s, o), value) == (Hush(t, o), n)
    decreases |e.input| - s.pos
  {
    if IsDigit(Look(e, s)) {
      var (t, c) := Consume(e, s);
      if value * 10 + DecimalDigit(c) <= U64_MAX {
        DryDecimalLoop(e, t, value * 10 + DecimalDigit(c), o);
      }
    }
  }

  lemma {:induction false} DryDecimal(e: Env, s: St, o: string)
    requires Wf(e, s)
    ensures
      var (t, n) := ParseDecimal(e, s);
      ParseDecimal(e, Hush(s, o)) == (Hush(t, o), n)
  {
    hide DecimalLoop;
    DryDecimalLoop(e, s, 0, o);
  }

  lemma {:induction false} DryHexLoop(e: Env, s: St, value: nat, o: string)
    requires Wf(e, s)
    ensures
      var (t, n) := HexLoop(e, s, value);
      HexLoop(e, Hush(s, o), value) == (Hush(t, o), n)
    decreases |e.input| - s.pos
  {
    hide HexShift;
    if !s.error && !ConsumeIf(e, s, '_').1 {
      var (t, c) := Consume(e, s);
      if IsHexDigit(c) {
        DryHexLoop(e, t, HexShift(value, HexDigit(c)), o);
      }
    }
  }

  lemma {:induction false} DryHex(e: Env, s: St, o: string)
    requires Wf(e, s)
    ensures
      var (t, n, digits) := ParseHex(e, s);
      ParseHex(e, Hush(s, o)) == (Hush(t, o), n, digits)
  {
    hide HexLoop;
    DryHexLoop(e, s, 0, o);
  }

  lemma {:induction false} DryIdentifier(e: Env, s: St, o: string)
    requires Wf(e, s)
    ensures
      var (t, ident) := ParseIdentifier(e, s);
      ParseIdentifier(e, Hush(s, o)) == (Hush(t, o), ident)
  {
    hide ParseDecimal, AllValid;
    DryDecimal(e, ConsumeIf(e, s, 'u').0, o);
  }

  // ---------------------------------------------------------------------------------------------
  // Binders and constants
  // ---------------------------------------------------------------------------------------------

  lemma {:induction false} DryBindLifetimes(e: Env, s: St, i: nat, n: nat, o: string)
    requires Wf(e, s) && !s.error && i <= n && s.bound + (n - i) <= |e.input|
    ensures BindLifetimes(e, Hush(s, o), i, n) == Hush(BindLifetimes(e, s, i, n), o)
    decreases n - i
  {
    hide LifetimeName;
    if i < n {
      var s1 := s.(bound := s.bound + 1);
      var s2 := if i > 0 then Print(s1, ", ") else s1;
      DryBindLifetimes(e, PrintLifetime(e, s2, 1), i + 1, n, o);
    }
  }

  lemma {:induction false} DryOptionalBinder(e: Env, s: St, o: string)
    requires Wf(e, s)
    ensures OptionalBinder(e, Hush(s, o)) == Hush(OptionalBinder(e, s), o)
  {
    hide BindLifetimes, ParseOptionalBase62;
    DryOptionalBase62(e, s, 'G', o);
    var (s1, binder) := ParseOptionalBase62(e, s, 'G');
    if !s1.error && 0 < binder < |e.input| - s1.bound {
      DryBindLifetimes(e, Print(s1, "for<"), 0, binder, o);
    }
  }

  lemma {:induction false} DryConst(e: Env, s: St, o: string)
    requires Wf(e, s) && !Const(e, s).error
    ensures Const(e, Hush(s, o)) == Hush(Const(e, s), o)
    decreases Budget(e, s), 0, 0
  {
    hide ConstBody;
    DryConstBody(e, Deeper(s), o);
  }

  lemma {:induction false} DryConstBody(e: Env, s: St, o: string)
    requires Wf(e, s) && !ConstBody(e, s).error
    ensures ConstBody(e, Hush(s, o)) == Hush(ConstBody(e, s), o)
    decreases Budget(e, s), 9, 0
  {
    hide ConstInt, ConstBool, ConstChar, BackrefConst, ParseBasicType;
    var (s1, c) := Consume(e, s);
    DryConstInt(e, s1, o);
    DryConstBool(e, s1, o);
    DryConstChar(e, s1, o);
    if ParseBasicType(c).None? {
      DryBackrefConst(e, s1, o);
    }
  }

  lemma {:induction false} DryConstInt(e: Env, s: St, o: string)
    requires Wf(e, s)
    ensures ConstInt(e, Hush(s, o)) == Hush(ConstInt(e, s), o)
  {
    hide ParseHex, DecimalText;
    var (s1, negative) := ConsumeIf(e, s, 'n');
    DryHex(e, if negative then Print(s1, "-") else s1, o);
  }

  lemma {:induction false} DryConstBool(e: Env, s: St, o: string)
    requires Wf(e, s)
    ensures ConstBool(e, Hush(s, o)) == Hush(ConstBool(e, s), o)
  {
    hide ParseHex;
    DryHex(e, s, o);
  }

  lemma {:induction false} DryConstChar(e: Env, s: St, o: string)
    requires Wf(e, s)
    ensures ConstChar(e, Hush(s, o)) == Hush(ConstChar(e, s), o)
  {
    hide ParseHex, CharText;
    DryHex(e, s, o);
  }

  lemma {:induction false} DryBackrefConst(e: Env, s: St, o: string)
    requires Wf(e, s) && !BackrefConst(e, s).error
    ensures BackrefConst(e, Hush(s, o)) == Hush(BackrefConst(e, s), o)
  {
    hide Const, ParseBase62;
    DryBase62(e, s, o);
  }

  // ---------------------------------------------------------------------------------------------
  // Paths
  // ---------------------------------------------------------------------------------------------

  /**
    The simulation: if a parse with printing on succeeds, the same parse with printing off
    succeeds as well, at the same position, with the same binder depth, and leaves the output
    alone.
   */
  lemma {:induction false} DryPath(e: Env, s: St, inType: bool, leaveOpen: bool, o: string)
    requires Wf(e, s) && !Path(e, s, inType, leaveOpen).0.error
    ensures Path(e, Hush(s, o), inType, leaveOpen).0 == Hush(Path(e, s, inType, leaveOpen).0, o)
    decreases Budget(e, s), 0, 0
  {
    hide PathBody;
    DryPathBody(e, Deeper(s), inType, leaveOpen, o);
  }

  lemma {:induction false} DryPathBody(e: Env, s: St, inType: bool, leaveOpen: bool, o: string)
    requires Wf(e, s) && !PathBody(e, s, inType, leaveOpen).0.error
    ensures PathBody(e, Hush(s, o), inType, leaveOpen).0 == Hush(PathBody(e, s, inType, leaveOpen).0, o)
    decreases Budget(e, s), 9, 0
  {
    hide CratePath, InherentPath, ImplPath, TraitPath, NestedPath, GenericPath, BackrefPath;
    var (s1, c) := Consume(e, s);
    match c
    case 'C' => DryCratePath(e, s1, o);
    case 'M' => DryInherentPath(e, s1, inType, o);
    case 'X' =>
      DryImplPath(e, s1, inType, o);
      DryTraitPath(e, ImplPath(e, s1, inType), o);
    case 'Y' => DryTraitPath(e, s1, o);
    case 'N' => DryNestedPath(e, s1, inType, o);
    case 'I' => DryGenericPath(e, s1, inType, leaveOpen, o);
    case 'B' => DryBackrefPath(e, s1, inType, leaveOpen, o);
    case _ =>
  }

  lemma {:induction false} DryCratePath(e: Env, s: St, o: string)
    requires Wf(e, s) && !CratePath(e, s).error
    ensures CratePath(e, Hush(s, o)) == Hush(CratePath(e, s), o)
  {
    hide ParseOptionalBase62, ParseIdentifier, IdentifierText;
    DryOptionalBase62(e, s, 's', o);
    DryIdentifier(e, ParseOptionalBase62(e, s, 's').0, o);
  }

  lemma {:induction false} DryInherentPath(e: Env, s: St, inType: bool, o: string)
    requires Wf(e, s) && !InherentPath(e, s, inType).error
    ensures InherentPath(e, Hush(s, o), inType) == Hush(InherentPath(e, s, inType), o)
    decreases Budget(e, s), 8, 0
  {
    hide ImplPath, Type;
    DryImplPath(e, s, inType, o);
    DryType(e, Print(ImplPath(e, s, inType), "<"), o);
  }

  lemma {:induction false} DryTraitPath(e: Env, s: St, o: string)
    requires Wf(e, s) && !TraitPath(e, s).error
    ensures TraitPath(e, Hush(s, o)) == Hush(TraitPath(e, s), o)
    decreases Budget(e, s), 8, 0
  {
    hide Type, Path;
    var s1 := Type(e, Print(s, "<"));
    DryType(e, Print(s, "<"), o);
    DryPath(e, Print(s1, " as "), true, false, o);
  }

  lemma {:induction false} DryImplPath(e: Env, s: St, inType: bool, o: string)
    requires Wf(e, s) && !ImplPath(e, s, inType).error
    ensures ImplPath(e, Hush(s, o), inType) == Hush(ImplPath(e, s, inType), o)
    decreases Budget(e, s), 1, 0
  {
    hide Path, ParseOptionalBase62;
    DryOptionalBase62(e, s.(printing := false), 's', o);
    DryPath(e, ParseOptionalBase62(e, s.(printing := false), 's').0, inType, false, o);
  }

  lemma {:induction false} DryNestedPath(e: Env, s: St, inType: bool, o: string)
    requires Wf(e, s) && !NestedPath(e, s, inType).error
    ensures NestedPath(e, Hush(s, o), inType) == Hush(NestedPath(e, s, inType), o)
    decreases Budget(e, s), 8, 0
  {
    hide Path, ParseOptionalBase62, ParseIdentifier, NestedName;
    var (s1, ns) := Consume(e, s);
    var s2 := Path(e, s1, inType, false).0;
    var (s3, disambiguator) := ParseOptionalBase62(e, s2, 's');
    var (s4, ident) := ParseIdentifier(e, s3);
    DryPath(e, s1, inType, false, o);
    DryOptionalBase62(e, s2, 's', o);
    DryIdentifier(e, s3, o);
    DryNestedName(e, s4, ns, disambiguator, ident, o);
  }

  lemma {:induction false} DryNestedName(e: Env, s: St, ns: char, disambiguator: nat, ident: Identifier, o: string)
    requires Wf(e, s) && !NestedName(e, s, ns, disambiguator, ident).error
    ensures NestedName(e, Hush(s, o), ns, disambiguator, ident) ==
            Hush(NestedName(e, s, ns, disambiguator, ident), o)
  {
    hide IdentifierText, DecimalText, SpecialName;
  }

  lemma {:induction false} DryGenericPath(e: Env, s: St, inType: bool, leaveOpen: bool, o: string)
    requires Wf(e, s) && !GenericPath(e, s, inType, leaveOpen).0.error
    ensures GenericPath(e, Hush(s, o), inType, leaveOpen).0 == Hush(GenericPath(e, s, inType, leaveOpen).0, o)
    decreases Budget(e, s), 8, 0
  {
    hide Path, GenericArgs;
    var s1 := Path(e, s, inType, false).0;
    var s2 := if inType then s1 else Print(s1, "::");
    DryPath(e, s, inType, false, o);
    DryGenericArgs(e, Print(s2, "<"), 0, o);
  }

  lemma {:induction false} DryGenericArgs(e: Env, s: St, i: nat, o: string)
    requires Wf(e, s) && !GenericArgs(e, s, i).error
    ensures GenericArgs(e, Hush(s, o), i) == Hush(GenericArgs(e, s, i), o)
    decreases Budget(e, s), 2, |e.input| - s.pos
  {
    hide GenericArg;
    if !ConsumeIf(e, s, 'E').1 {
      var s1 := if i > 0 then Print(s, ", ") else s;
      DryGenericArg(e, s1, o);
      DryGenericArgs(e, GenericArg(e, s1), i + 1, o);
    }
  }

  lemma {:induction false} DryGenericArg(e: Env, s: St, o: string)
    requires Wf(e, s) && !GenericArg(e, s).error
    ensures GenericArg(e, Hush(s, o)) == Hush(GenericArg(e, s), o)
    decreases Budget(e, s), 1, 0
  {
    hide Type, Const, ParseBase62, LifetimeName;
    var (s1, lifetime) := ConsumeIf(e, s, 'L');
    if lifetime {
      DryBase62(e, s1, o);
    } else {
      var (s2, isConst) := ConsumeIf(e, s, 'K');
      if isConst {
        DryConst(e, s2, o);
      } else {
        DryType(e, s, o);
      }
    }
  }

  lemma {:induction false} DryBackrefPath(e: Env, s: St, inType: bool, leaveOpen: bool, o: string)
    requires Wf(e, s) && !BackrefPath(e, s, inType, leaveOpen).0.error
    ensures BackrefPath(e, Hush(s, o), inType, leaveOpen).0 == Hush(BackrefPath(e, s, inType, leaveOpen).0, o)
  {
    hide Path, ParseBase62;
    DryBase62(e, s, o);
  }

  // ---------------------------------------------------------------------------------------------
  // Types
  // ---------------------------------------------------------------------------------------------

  lemma {:induction false} DryType(e: Env, s: St, o: string)
    requires Wf(e, s) && !Type(e, s).error
    ensures Type(e, Hush(s, o)) == Hush(Type(e, s), o)
    decreases Budget(e, s), 0, 0
  {
    hide TypeBody;
    DryTypeBody(e, Deeper(s), o);
  }

  lemma {:induction false} DryTypeBody(e: Env, s: St, o: string)
    requires Wf(e, s) && !TypeBody(e, s).error
    ensures TypeBody(e, Hush(s, o)) == Hush(TypeBody(e, s), o)
    decreases Budget(e, s), 9, 0
  {
    hide Type, Path, ArrayType, TupleType, RefLifetime, FnSig, DynType, BackrefType, ParseBasicType, BasicTypeName;
    var (s1, c) := Consume(e, s);
    if ParseBasicType(c).None? {
      match c
      case 'A' => DryArrayType(e, s1, o);
      case 'S' => DryType(e, Print(s1, "["), o);
      case 'T' => DryTupleType(e, s1, o);
      case 'R' =>
        DryRefLifetime(e, Print(s1, "&"), o);
        DryType(e, RefLifetime(e, Print(s1, "&")), o);
      case 'Q' =>
        DryRefLifetime(e, Print(s1, "&"), o);
        DryType(e, Print(RefLifetime(e, Print(s1, "&")), "mut "), o);
      case 'P' => DryType(e, Print(s1, "*const "), o);
      case 'O' => DryType(e, Print(s1, "*mut "), o);
      case 'F' => DryFnSig(e, s1, o);
      case 'D' => DryDynType(e, s1, o);
      case 'B' => DryBackrefType(e, s1, o);
      case _ => DryPath(e, s, true, false, o);
    }
  }

  lemma {:induction false} DryArrayType(e: Env, s: St, o: string)
    requires Wf(e, s) && !ArrayType(e, s).error
    ensures ArrayType(e, Hush(s, o)) == Hush(ArrayType(e, s), o)
    decreases Budget(e, s), 8, 0
  {
    hide Type, Const;
    DryType(e, Print(s, "["), o);
    DryConst(e, Print(Type(e, Print(s, "[")), "; "), o);
  }

  lemma {:induction false} DryTupleType(e: Env, s: St, o: string)
    requires Wf(e, s) && !TupleType(e, s).error
    ensures TupleType(e, Hush(s, o)) == Hush(TupleType(e, s), o)
    decreases Budget(e, s), 8, 0
  {
    hide TypeList;
    DryTypeList(e, Print(s, "("), 0, o);
  }

  lemma {:induction false} DryTypeList(e: Env, s: St, i: nat, o: string)
    requires Wf(e, s) && !TypeList(e, s, i).0.error
    ensures
      var (t, n) := TypeList(e, s, i);
      TypeList(e, Hush(s, o), i) == (Hush(t, o), n)
    decreases Budget(e, s), 2, |e.input| - s.pos
  {
    hide Type;
    if !ConsumeIf(e, s, 'E').1 {
      var s1 := if i > 0 then Print(s, ", ") else s;
      DryType(e, s1, o);
      DryTypeList(e, Type(e, s1), i + 1, o);
    }
  }

  lemma {:induction false} DryRefLifetime(e: Env, s: St, o: string)
    requires Wf(e, s)
    ensures RefLifetime(e, Hush(s, o)) == Hush(RefLifetime(e, s), o)
  {
    hide ParseBase62, LifetimeName;
    DryBase62(e, ConsumeIf(e, s, 'L').0, o);
  }

  lemma {:induction false} DryFnSig(e: Env, s: St, o: string)
    requires Wf(e, s) && !FnSig(e, s).error
    ensures FnSig(e, Hush(s, o)) == Hush(FnSig(e, s), o)
    decreases Budget(e, s), 8, 0
  {
    hide OptionalBinder, FnQualifiers, TypeList, ReturnType;
    var s0 := OptionalBinder(e, s);
    var s1 := FnQualifiers(e, s0);
    var s2 := TypeList(e, Print(s1, "fn("), 0).0;
    DryOptionalBinder(e, s, o);
    DryFnQualifiers(e, s0, o);
    DryTypeList(e, Print(s1, "fn("), 0, o);
    DryReturnType(e, Print(s2, ")"), o);
  }

  lemma {:induction false} DryFnQualifiers(e: Env, s: St, o: string)
    requires Wf(e, s)
    ensures FnQualifiers(e, Hush(s, o)) == Hush(FnQualifiers(e, s), o)
  {
    hide Abi;
    var (s1, isUnsafe) := ConsumeIf(e, s, 'U');
    var s2 := if isUnsafe then Print(s1, "unsafe ") else s1;
    DryAbi(e, ConsumeIf(e, s2, 'K').0, o);
  }

  lemma {:induction false} DryAbi(e: Env, s: St, o: string)
    requires Wf(e, s)
    ensures Abi(e, Hush(s, o)) == Hush(Abi(e, s), o)
  {
    hide ParseIdentifier, AbiText;
    DryIdentifier(e, ConsumeIf(e, Print(s, "extern \""), 'C').0, o);
  }

  lemma {:induction false} DryReturnType(e: Env, s: St, o: string)
    requires Wf(e, s) && !ReturnType(e, s).error
    ensures ReturnType(e, Hush(s, o)) == Hush(ReturnType(e, s), o)
    decreases Budget(e, s), 1, 0
  {
    hide Type;
    if !ConsumeIf(e, s, 'u').1 {
      DryType(e, Print(s, " -> "), o);
    }
  }

  lemma {:induction false} DryDynType(e: Env, s: St, o: string)
    requires Wf(e, s) && !DynType(e, s).error
    ensures DynType(e, Hush(s, o)) == Hush(DynType(e, s), o)
    decreases Budget(e, s), 8, 0
  {
    hide DynBounds, ParseBase62, LifetimeName;
    DryDynBounds(e, s, o);
    DryBase62(e, ConsumeIf(e, DynBounds(e, s), 'L').0, o);
  }

  lemma {:induction false} DryDynBounds(e: Env, s: St, o: string)
    requires Wf(e, s) && !DynBounds(e, s).error
    ensures DynBounds(e, Hush(s, o)) == Hush(DynBounds(e, s), o)
    decreases Budget(e, s), 7, 0
  {
    hide OptionalBinder, DynTraits;
    DryOptionalBinder(e, Print(s, "dyn "), o);
    DryDynTraits(e, OptionalBinder(e, Print(s, "dyn ")), 0, o);
  }

  lemma {:induction false} DryDynTraits(e: Env, s: St, i: nat, o: string)
    requires Wf(e, s) && !DynTraits(e, s, i).error
    ensures DynTraits(e, Hush(s, o), i) == Hush(DynTraits(e, s, i), o)
    decreases Budget(e, s), 4, |e.input| - s.pos
  {
    hide DynTrait;
    if !ConsumeIf(e, s, 'E').1 {
      var s1 := if i > 0 then Print(s, " + ") else s;
      DryDynTrait(e, s1, o);
      DryDynTraits(e, DynTrait(e, s1), i + 1, o);
    }
  }

  lemma {:induction false} DryDynTrait(e: Env, s: St, o: string)
    requires Wf(e, s) && !DynTrait(e, s).error
    ensures DynTrait(e, Hush(s, o)) == Hush(DynTrait(e, s), o)
    decreases Budget(e, s), 3, 0
  {
    hide Path, AssocBindings;
    var (s1, open) := Path(e, s, true, true);
    DryPath(e, s, true, true, o);
    DryAssocBindings(e, s1, open, Path(e, Hush(s, o), true, true).1, o);
  }

  /** A dry run may not know whether an angle bracket is open; only the printed text depends on it. */
  lemma {:induction false} DryAssocBindings(e: Env, s: St, open: bool, dryOpen: bool, o: string)
    requires Wf(e, s) && !AssocBindings(e, s, open).0.error
    ensures AssocBindings(e, Hush(s, o), dryOpen).0 == Hush(AssocBindings(e, s, open).0, o)
    decreases Budget(e, s), 2, |e.input| - s.pos
  {
    hide AssocBinding;
    var (s1, present) := ConsumeIf(e, s, 'p');
    if present {
      DryAssocBinding(e, s1, open, dryOpen, o);
      DryAssocBindings(e, AssocBinding(e, s1, open), true, true, o);
    }
  }

  lemma {:induction false} DryAssocBinding(e: Env, s: St, open: bool, dryOpen: bool, o: string)
    requires Wf(e, s) && !AssocBinding(e, s, open).error
    ensures AssocBinding(e, Hush(s, o), dryOpen) == Hush(AssocBinding(e, s, open), o)
    decreases Budget(e, s), 1, 0
  {
    hide Type, ParseIdentifier;
    var s1 := Print(s, if open then ", " else "<");
    var (s2, ident) := ParseIdentifier(e, s1);
    DryIdentifier(e, s1, o);
    DryType(e, Print(Print(s2, ident.name), " = "), o);
  }

  lemma {:induction false} DryBackrefType(e: Env, s: St, o: string)
    requires Wf(e, s) && !BackrefType(e, s).error
    ensures BackrefType(e, Hush(s, o)) == Hush(BackrefType(e, s), o)
  {
    hide Type, ParseBase62;
    DryBase62(e, s, o);
  }

  // ---------------------------------------------------------------------------------------------
  // Lifetimes
  // ---------------------------------------------------------------------------------------------

  /** The name of the lifetime that was bound after `depth` others: the alphabet, then z1, z2, ... */
  function BoundName(depth: nat): string
  {
    if depth < 26 then "'" + ["abcdefghijklmnopqrstuvwxyz"[depth]] else "'z" + DecimalText(depth - 25)
  }

  lemma PrintsBoundName(depth: nat)
    ensures LifetimeName(depth) == BoundName(depth)
  {
    hide DecimalText;
    var letters := "abcdefghijklmnopqrstuvwxyz";
    if depth < 26 {
      assert letters[depth] == 'a' + depth as char;
    }
  }

  /** The names in scope, outermost binder first. */
  function Scope(bound: nat): (names: seq<string>)
    ensures |names| == bound
  {
    seq(bound, i requires 0 <= i => BoundName(i))
  }

  /** What a binder prints between `for<` and `> `. */
  function Join(names: seq<string>, i: nat): string
  {
    if names == [] then "" else (if i > 0 then ", " else "") + names[0] + Join(names[1..], i + 1)
  }

  lemma {:induction false} DecimalInjective(m: nat, n: nat)
    requires DecimalText(m) == DecimalText(n)
    ensures m == n
  {
    TextInjective(m, n, 10, DecimalLetter, DecimalDigit);
  }

  /** Distinct lifetimes in scope have distinct names. */
  lemma {:induction false} LifetimeNamesDistinct(d1: nat, d2: nat)
    requires d1 != d2
    ensures LifetimeName(d1) != LifetimeName(d2)
  {
    hide Text;
    if d1 >= 26 && d2 >= 26 && LifetimeName(d1) == LifetimeName(d2) {
      assert DecimalText(d1 - 25) == LifetimeName(d1)[2..];
      assert DecimalText(d2 - 25) == LifetimeName(d2)[2..];
      DecimalInjective(d1 - 25, d2 - 25);
    } else if d1 < 26 && d2 < 26 {
      assert LifetimeName(d1)[1] != LifetimeName(d2)[1];
    } else {
      var d := if d1 >= 26 then d1 else d2;
      assert |LifetimeName(d)| == 2 + |DecimalText(d - 25)|;
    }
  }

  lemma {:induction false} BindersPrintNewNames(e: Env, s: St, i: nat, n: nat)
    requires Wf(e, s) && !s.error && s.printing && i <= n && s.bound + (n - i) <= |e.input|
    ensures
      var t := BindLifetimes(e, s, i, n);
      t.out == s.out + Join(Scope(t.bound)[s.bound..], i)
    decreases n - i
  {
    hide LifetimeName, BoundName;
    if i < n {
      var s1 := s.(bound := s.bound + 1);
      var s2 := if i > 0 then Print(s1, ", ") else s1;
      var s3 := PrintLifetime(e, s2, 1);
      PrintsBoundName(s.bound);
      BindersPrintNewNames(e, s3, i + 1, n);
      var t := BindLifetimes(e, s, i, n);
      assert t == BindLifetimes(e, s3, i + 1, n);
      var names := Scope(t.bound)[s.bound..];
      assert names[1..] == Scope(t.bound)[s3.bound..];
      assert names[0] == BoundName(s.bound);
    }
  }

  /**
    A binder of n lifetimes prints their n names and puts them innermost in scope; a lifetime
    reference with De Bruijn index i prints the i-th innermost name in scope, and fails exactly
    when there is none.
   */
  lemma {:induction false} LifetimesPrintTheirBinders(e: Env, s: St, n: nat, index: nat)
    requires Wf(e, s) && !s.error && s.printing && s.bound + n <= |e.input| && index > 0
    ensures
      var t := BindLifetimes(e, s, 0, n);
      var r := PrintLifetime(e, t, index);
      && Scope(s.bound) <= Scope(t.bound) && |Scope(t.bound)| == s.bound + n
      && t.out == s.out + Join(Scope(t.bound)[s.bound..], 0)
      && (r.error <==> index > |Scope(t.bound)|)
      && (!r.error ==> r.out == t.out + Scope(t.bound)[|Scope(t.bound)| - index])
  {
    hide LifetimeName, BoundName;
    BindersPrintNewNames(e, s, 0, n);
    if index <= s.bound + n {
      PrintsBoundName(s.bound + n - index);
    }
  }
}
