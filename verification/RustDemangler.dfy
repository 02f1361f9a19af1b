/**
  The `Demangler` class: the fields of the source, updated in place by mutually recursive methods.
  Each method is proved to leave the fields as the function of `RustGrammar` says.
 */
module RustDemangler {
  import opened Basics
  import opened RustLexer
  import opened RustNumbers
  import opened RustGrammar
  import Punycode

  /**
    Equal, except that the output of a failed demangling is not specified (the program discards
    it; a failed Punycode decoding leaves unfinished slots in it).
   */
  ghost predicate Same(a: St, b: St)
  {
    a == b || (a.error && b.error && a == b.(out := a.out))
  }

  class Demangler {
    const maxLevel: nat
    var level: nat
    var bound: nat
    var input: string
    var pos: nat
    var printing: bool
    var error: bool
    var output: string

    constructor (maxLevel: nat)
      ensures this.maxLevel == maxLevel && output == ""
    {
      this.maxLevel := maxLevel;
      level, bound, input, pos, printing, error, output := 0, 0, "", 0, true, false, "";
    }

    function E(): Env
      reads this
    {
      Env(input, maxLevel)
    }

    function State(): St
      reads this
    {
      St(pos, error, printing, level, bound, output)
    }

    ghost predicate Valid()
      reads this
    {
      Wf(E(), State()) && |input| <= U64_MAX
    }

    // -------------------------------------------------------------------------------------------
    // Cursor, output, numbers
    // -------------------------------------------------------------------------------------------

    method Consume() returns (c: char)
      requires Valid()
      modifies this`pos, this`error
      ensures Valid() && (State(), c) == RustLexer.Consume(E(), old(State()))
    {
      if error || pos >= |input| {
        error := true;
        return '\0';
      }
      c := input[pos];
      pos := pos + 1;
    }

    method ConsumeIf(prefix: char) returns (b: bool)
      requires Valid()
      modifies this`pos
      ensures Valid() && (State(), b) == RustLexer.ConsumeIf(E(), old(State()), prefix)
    {
      if error || pos >= |input| || input[pos] != prefix {
        return false;
      }
      pos := pos + 1;
      return true;
    }

    method Print(text: string)
      requires Valid()
      modifies this`output
      ensures Valid() && State() == RustLexer.Print(old(State()), text)
    {
      if error || !printing {
        return;
      }
      output := output + text;
    }

    method PrintDecimal(n: nat)
      requires Valid()
      modifies this`output
      ensures Valid() && State() == RustLexer.Print(old(State()), DecimalText(n))
    {
      Print(DecimalText(n));
    }

    method ParseBase62() returns (n: nat)
      requires Valid()
      modifies this`pos, this`error
      ensures Valid() && (State(), n) == RustLexer.ParseBase62(E(), old(State()))
    {
      var empty := ConsumeIf('_');
      if empty {
        return 0;
      }
      var value: nat := 0;
      while true
        invariant Valid() && value <= U64_MAX
        invariant Base62Loop(E(), State(), value) == RustLexer.ParseBase62(E(), old(State()))
        decreases |input| - pos
      {
        var c := Consume();
        if c == '_' {
          break;
        } else if !IsBase62(c) {
          error := true;
          return 0;
        }
        if value > U64_MAX / 62 {
          error := true;
          return 0;
        }
        value := value * 62;
        if value > U64_MAX - Base62Digit(c) {
          error := true;
          return 0;
        }
        value := value + Base62Digit(c);
      }
      if value > U64_MAX - 1 {
        error := true;
        return 0;
      }
      return value + 1;
    }

    method ParseOptionalBase62(tag: char) returns (n: nat)
      requires Valid()
      modifies this`pos, this`error
      ensures Valid() && (State(), n) == RustLexer.ParseOptionalBase62(E(), old(State()), tag)
    {
      var present := ConsumeIf(tag);
      if !present {
        return 0;
      }
      n := ParseBase62();
      if error {
        return 0;
      }
      if n > U64_MAX - 1 {
        error := true;
        return 0;
      }
      n := n + 1;
    }

    method ParseDecimal() returns (n: nat)
      requires Valid()
      modifies this`pos, this`error
      ensures Valid() && (State(), n) == RustLexer.ParseDecimal(E(), old(State()))
    {
      var c := Look(E(), State());
      if !IsDigit(c) {
        error := true;
        return 0;
      }
      if c == '0' {
        var _ := Consume();
        return 0;
      }
      n := 0;
      while IsDigit(Look(E(), State()))
        invariant Valid() && n <= U64_MAX
        invariant DecimalLoop(E(), State(), n) == RustLexer.ParseDecimal(E(), old(State()))
        decreases |input| - pos
      {
        if n > U64_MAX / 10 {
          error := true;
          return 0;
        }
        n := n * 10;
        var d := Consume();
        if n > U64_MAX - DecimalDigit(d) {
          error := true;
          return 0;
        }
        n := n + DecimalDigit(d);
      }
    }

    method ParseHex() returns (value: nat, digits: string)
      requires Valid()
      modifies this`pos, this`error
      ensures Valid() && (State(), value, digits) == RustLexer.ParseHex(E(), old(State()))
    {
      var start := pos;
      value, digits := 0, "";
      if !IsHexDigit(Look(E(), State())) {
        error := true;
      }
      var zero := ConsumeIf('0');
      if zero {
        var done := ConsumeIf('_');
        if !done {
          error := true;
        }
      } else {
        value := HexDigits();
      }
      if error {
        return 0, "";
      }
      digits := input[start .. pos - 1];
    }

    /** The loop of `parseHexNumber`. */
    method HexDigits() returns (value: nat)
      requires Valid()
      modifies this`pos, this`error
      ensures Valid()
      ensures old(error) ==> State() == old(State())
      ensures !old(error) ==> State() == HexLoop(E(), old(State()), 0).0
      ensures !error ==> value == HexLoop(E(), old(State()), 0).1
    {
      value := 0;
      ghost var start := State();
      while !error
        invariant Valid()
        invariant start.error ==> State() == start
        invariant !start.error ==> HexLoop(E(), State(), value).0 == HexLoop(E(), start, 0).0
        invariant !error ==> HexLoop(E(), State(), value) == HexLoop(E(), start, 0)
        decreases !error, |input| - pos
      {
        var done := ConsumeIf('_');
        if done {
          return;
        }
        var c := Consume();
        if IsHexDigit(c) {
          value := HexShift(value, HexDigit(c));
        } else {
          error := true;
        }
      }
    }

    method ParseIdentifier() returns (ident: Identifier)
      requires Valid()
      modifies this`pos, this`error
      ensures Valid() && (State(), ident) == RustLexer.ParseIdentifier(E(), old(State()))
    {
      hide RustLexer.ParseDecimal, RustLexer.ConsumeIf, AllValid;
      var punycode := ConsumeIf('u');
      var bytes := ParseDecimal();
      var _ := ConsumeIf('_');
      if error || bytes > |input| - pos {
        error := true;
        return Identifier("", false);
      }
      var name := input[pos .. pos + bytes];
      pos := pos + bytes;
      if !AllValid(name) {
        error := true;
        return Identifier("", false);
      }
      return Identifier(name, punycode);
    }

    // -------------------------------------------------------------------------------------------
    // Printing helpers
    // -------------------------------------------------------------------------------------------

    method PrintLifetime(index: nat)
      requires Valid()
      modifies this`error, this`output
      ensures Valid() && State() == RustGrammar.PrintLifetime(E(), old(State()), index)
    {
      if index == 0 {
        Print("'_");
        return;
      }
      if index - 1 >= bound {
        error := true;
        return;
      }
      var depth := bound - index;
      if depth < 26 {
        Print(['\'', 'a' + depth as char]);
      } else {
        Print("'z" + DecimalText(depth - 26 + 1));
      }
    }

    method PrintIdentifier(ident: Identifier)
      requires Valid() && |ident.name| <= U64_MAX
      modifies this`error, this`output
      ensures Valid() && Same(State(), RustGrammar.PrintIdentifier(E(), old(State()), ident))
    {
      if error || !printing {
        return;
      }
      if ident.punycode {
        var ok;
        ok, output := Punycode.DecodePunycode(ident.name, output);
        if !ok {
          error := true;
        }
      } else {
        Print(ident.name);
      }
    }

    method OptionalBinder()
      requires Valid()
      modifies this
      ensures Valid() && input == old(input)
      ensures State() == RustGrammar.OptionalBinder(E(), old(State()))
    {
      hide RustLexer.ParseOptionalBase62, BindLifetimes;
      var binder := ParseOptionalBase62('G');
      if error || binder == 0 {
        return;
      }
      if binder >= |input| - bound {
        error := true;
        return;
      }
      Print("for<");
      IntroduceLifetimes(binder);
      Print("> ");
    }

    /** The loop of `demangleOptionalBinder`. */
    method IntroduceLifetimes(n: nat)
      requires Valid() && !error && bound + n <= |input|
      modifies this`error, this`output, this`bound
      ensures Valid() && State() == BindLifetimes(E(), old(State()), 0, n)
    {
      hide LifetimeName;
      var i := 0;
      while i != n
        invariant 0 <= i <= n && Valid() && !error && bound + (n - i) <= |input|
        invariant BindLifetimes(E(), State(), i, n) == BindLifetimes(E(), old(State()), 0, n)
      {
        bound := bound + 1;
        if i > 0 {
          Print(", ");
        }
        PrintLifetime(1);
        i := i + 1;
      }
    }

    // -------------------------------------------------------------------------------------------
    // Constants
    // -------------------------------------------------------------------------------------------

    method ConstInt()
      requires Valid()
      modifies this`pos, this`error, this`output
      ensures Valid() && State() == RustGrammar.ConstInt(E(), old(State()))
    {
      var negative := ConsumeIf('n');
      if negative {
        Print("-");
      }
      var value, digits := ParseHex();
      if |digits| <= 16 {
        PrintDecimal(value);
      } else {
        Print("0x");
        Print(digits);
      }
    }

    method ConstBool()
      requires Valid()
      modifies this`pos, this`error, this`output
      ensures Valid() && State() == RustGrammar.ConstBool(E(), old(State()))
    {
      var value, digits := ParseHex();
      if digits == "0" {
        Print("false");
      } else if digits == "1" {
        Print("true");
      } else {
        error := true;
      }
    }

    method ConstChar()
      requires Valid()
      modifies this`pos, this`error, this`output
      ensures Valid() && State() == RustGrammar.ConstChar(E(), old(State()))
    {
      var code, digits := ParseHex();
      if error || |digits| > 6 {
        error := true;
        return;
      }
      Print("'");
      Print(CharText(code, digits));
      Print("'");
    }

    method DemangleConst()
      requires Valid()
      modifies this
      ensures Valid() && input == old(input) && Same(State(), Const(E(), old(State())))
      decreases maxLevel - level, 0, 0
    {
      hide ConstBody;
      if error || level >= maxLevel {
        error := true;
        return;
      }
      var saved := level;
      level := level + 1;
      ConstCases();
      level := saved;
    }

    method ConstCases()
      requires Valid()
      modifies this
      ensures Valid() && input == old(input) && Same(State(), ConstBody(E(), old(State())))
      decreases maxLevel - level, 9, 0
    {
      var c := Consume();
      var basic := ParseBasicType(c);
      if basic.Some? {
        if IsInteger(basic.value) {
          ConstInt();
        } else if basic.value == Bool {
          ConstBool();
        } else if basic.value == Char {
          ConstChar();
        } else if basic.value == Placeholder {
          Print("_");
        } else {
          error := true;
        }
      } else if c == 'B' {
        ConstBackref();
      } else {
        error := true;
      }
    }

    method ConstBackref()
      requires Valid()
      modifies this
      ensures Valid() && input == old(input) && Same(State(), BackrefConst(E(), old(State())))
      decreases maxLevel - level, 8, 0
    {
      hide Const, RustLexer.ParseBase62;
      var target := ParseBase62();
      if error || target >= pos {
        error := true;
        return;
      }
      if !printing {
        return;
      }
      var saved := pos;
      pos := target;
      DemangleConst();
      pos := saved;
    }

    // -------------------------------------------------------------------------------------------
    // Paths
    // -------------------------------------------------------------------------------------------

    method DemanglePath(inType: bool, leaveOpen: bool) returns (open: bool)
      requires Valid()
      modifies this
      ensures Valid() && input == old(input)
      ensures
        var (t, isOpen) := Path(E(), old(State()), inType, leaveOpen);
        Same(State(), t) && open == isOpen
      decreases maxLevel - level, 0, 0
    {
      hide PathBody;
      if error || level >= maxLevel {
        error := true;
        return false;
      }
      var saved := level;
      level := level + 1;
      open := PathCases(inType, leaveOpen);
      level := saved;
    }

    method PathCases(inType: bool, leaveOpen: bool) returns (open: bool)
      requires Valid()
      modifies this
      ensures Valid() && input == old(input)
      ensures
        var (t, isOpen) := PathBody(E(), old(State()), inType, leaveOpen);
        Same(State(), t) && open == isOpen
      decreases maxLevel - level, 9, 0
    {
      hide CratePath, InherentPath, ImplPath, TraitPath, NestedPath, GenericPath, BackrefPath;
      open := false;
      var c := Consume();
      match c
      case 'C' => PathCrate();
      case 'M' => PathInherent(inType);
      case 'X' =>
        DemangleImplPath(inType);
        PathTrait();
      case 'Y' => PathTrait();
      case 'N' => PathNested(inType);
      case 'I' => open := PathGeneric(inType, leaveOpen);
      case 'B' => open := PathBackref(inType, leaveOpen);
      case _ => error := true;
    }

    method PathCrate()
      requires Valid()
      modifies this
      ensures Valid() && input == old(input) && Same(State(), CratePath(E(), old(State())))
    {
      var _ := ParseOptionalBase62('s');
      var ident := ParseIdentifier();
      PrintIdentifier(ident);
    }

    method PathInherent(inType: bool)
      requires Valid()
      modifies this
      ensures Valid() && input == old(input) && Same(State(), InherentPath(E(), old(State()), inType))
      decreases maxLevel - level, 8, 0
    {
      hide ImplPath, Type;
      DemangleImplPath(inType);
      Print("<");
      DemangleType();
      Print(">");
    }

    method PathTrait()
      requires Valid()
      modifies this
      ensures Valid() && input == old(input) && Same(State(), TraitPath(E(), old(State())))
      decreases maxLevel - level, 8, 0
    {
      hide Type, Path;
      Print("<");
      DemangleType();
      Print(" as ");
      var _ := DemanglePath(true, false);
      Print(">");
    }

    method DemangleImplPath(inType: bool)
      requires Valid()
      modifies this
      ensures Valid() && input == old(input) && Same(State(), ImplPath(E(), old(State()), inType))
      decreases maxLevel - level, 1, 0
    {
      hide Path, RustLexer.ParseOptionalBase62;
      var saved := printing;
      printing := false;
      var _ := ParseOptionalBase62('s');
      var _ := DemanglePath(inType, false);
      printing := saved;
    }

    method PathNested(inType: bool)
      requires Valid()
      modifies this
      ensures Valid() && input == old(input) && Same(State(), NestedPath(E(), old(State()), inType))
      decreases maxLevel - level, 8, 0
    {
      hide Path, RustLexer.ParseIdentifier, NestedName, RustLexer.ParseOptionalBase62;
      var ns := Consume();
      if !IsLower(ns) && !IsUpper(ns) {
        error := true;
        return;
      }
      var _ := DemanglePath(inType, false);
      var disambiguator := ParseOptionalBase62('s');
      var ident := ParseIdentifier();
      PrintNestedName(ns, disambiguator, ident);
    }

    method PrintNestedName(ns: char, disambiguator: nat, ident: Identifier)
      requires Valid() && |ident.name| <= U64_MAX
      modifies this`error, this`output
      ensures Valid() && Same(State(), NestedName(E(), old(State()), ns, disambiguator, ident))
    {
      if IsUpper(ns) {
        Print("::{");
        if ns == 'C' {
          Print("closure");
        } else if ns == 'S' {
          Print("shim");
        } else {
          Print([ns]);
        }
        if ident.name != "" {
          Print(":");
          PrintIdentifier(ident);
        }
        Print("#");
        PrintDecimal(disambiguator);
        Print("}");
      } else {
        if ident.name != "" {
          Print("::");
          PrintIdentifier(ident);
        }
      }
    }

    method PathGeneric(inType: bool, leaveOpen: bool) returns (open: bool)
      requires Valid()
      modifies this
      ensures Valid() && input == old(input)
      ensures
        var (t, isOpen) := GenericPath(E(), old(State()), inType, leaveOpen);
        Same(State(), t) && open == isOpen
      decreases maxLevel - level, 8, 0
    {
      hide Path, GenericArgs;
      var _ := DemanglePath(inType, false);
      if !inType {
        Print("::");
      }
      Print("<");
      DemangleGenericArgs();
      if leaveOpen {
        return true;
      }
      Print(">");
      return false;
    }

    method DemangleGenericArgs()
      requires Valid()
      modifies this
      ensures Valid() && input == old(input) && Same(State(), GenericArgs(E(), old(State()), 0))
      decreases maxLevel - level, 3, 0
    {
      hide GenericArg;
      ghost var goal := GenericArgs(E(), State(), 0);
      var i := 0;
      while !error
        invariant Valid() && input == old(input) && level == old(level) && i >= 0
        invariant Same(GenericArgs(E(), State(), i), goal)
        decreases !error, |input| - pos
      {
        var done := ConsumeIf('E');
        if done {
          break;
        }
        if i > 0 {
          Print(", ");
        }
        DemangleGenericArg();
        i := i + 1;
      }
    }

    method DemangleGenericArg()
      requires Valid()
      modifies this
      ensures Valid() && input == old(input) && Same(State(), GenericArg(E(), old(State())))
      decreases maxLevel - level, 1, 0
    {
      hide Type, Const, RustLexer.ParseBase62;
      var lifetime := ConsumeIf('L');
      if lifetime {
        var index := ParseBase62();
        PrintLifetime(index);
      } else {
        var isConst := ConsumeIf('K');
        if isConst {
          DemangleConst();
        } else {
          DemangleType();
        }
      }
    }

    method PathBackref(inType: bool, leaveOpen: bool) returns (open: bool)
      requires Valid()
      modifies this
      ensures Valid() && input == old(input)
      ensures
        var (t, isOpen) := BackrefPath(E(), old(State()), inType, leaveOpen);
        Same(State(), t) && open == isOpen
      decreases maxLevel - level, 8, 0
    {
      hide Path, RustLexer.ParseBase62;
      var target := ParseBase62();
      if error || target >= pos {
        error := true;
        return false;
      }
      if !printing {
        return false;
      }
      var saved := pos;
      pos := target;
      open := DemanglePath(inType, leaveOpen);
      pos := saved;
    }

    // -------------------------------------------------------------------------------------------
    // Types
    // -------------------------------------------------------------------------------------------

    method DemangleType()
      requires Valid()
      modifies this
      ensures Valid() && input == old(input) && Same(State(), Type(E(), old(State())))
      decreases maxLevel - level, 0, 0
    {
      hide TypeBody;
      if error || level >= maxLevel {
        error := true;
        return;
      }
      var saved := level;
      level := level + 1;
      TypeCases();
      level := saved;
    }

    method TypeCases()
      requires Valid()
      modifies this
      ensures Valid() && input == old(input) && Same(State(), TypeBody(E(), old(State())))
      decreases maxLevel - level, 9, 0
    {
      hide Type, Path, ArrayType, TupleType, RefLifetime, FnSig, DynType, BackrefType, ParseBasicType, BasicTypeName;
      var start := pos;
      var c := Consume();
      var basic := ParseBasicType(c);
      if basic.Some? {
        Print(BasicTypeName(basic.value));
        return;
      }
      match c
      case 'A' => TypeArray();
      case 'S' =>
        Print("[");
        DemangleType();
        Print("]");
      case 'T' => TypeTuple();
      case 'R' =>
        Print("&");
        TypeRefLifetime();
        DemangleType();
      case 'Q' =>
        Print("&");
        TypeRefLifetime();
        Print("mut ");
        DemangleType();
      case 'P' =>
        Print("*const ");
        DemangleType();
      case 'O' =>
        Print("*mut ");
        DemangleType();
      case 'F' => DemangleFnSig();
      case 'D' => TypeDyn();
      case 'B' => TypeBackref();
      case _ =>
        pos := start;
        var _ := DemanglePath(true, false);
    }

    method TypeArray()
      requires Valid()
      modifies this
      ensures Valid() && input == old(input) && Same(State(), ArrayType(E(), old(State())))
      decreases maxLevel - level, 8, 0
    {
      hide Type, Const;
      Print("[");
      DemangleType();
      Print("; ");
      DemangleConst();
      Print("]");
    }

    method TypeTuple()
      requires Valid()
      modifies this
      ensures Valid() && input == old(input) && Same(State(), TupleType(E(), old(State())))
      decreases maxLevel - level, 8, 0
    {
      hide TypeList;
      Print("(");
      var n := DemangleTypeList();
      if n == 1 {
        Print(",");
      }
      Print(")");
    }

    /** The loop over types that `demangleType` and `demangleFnSig` share. */
    method DemangleTypeList() returns (n: nat)
      requires Valid()
      modifies this
      ensures Valid() && input == old(input)
      ensures
        var (t, count) := TypeList(E(), old(State()), 0);
        Same(State(), t) && n == count
      decreases maxLevel - level, 3, 0
    {
      hide Type;
      ghost var goal := TypeList(E(), State(), 0);
      n := 0;
      while !error
        invariant Valid() && input == old(input) && level == old(level)
        invariant Same(TypeList(E(), State(), n).0, goal.0) && TypeList(E(), State(), n).1 == goal.1
        decreases !error, |input| - pos
      {
        var done := ConsumeIf('E');
        if done {
          break;
        }
        if n > 0 {
          Print(", ");
        }
        DemangleType();
        n := n + 1;
      }
    }

    method TypeRefLifetime()
      requires Valid()
      modifies this`pos, this`error, this`output
      ensures Valid() && State() == RefLifetime(E(), old(State()))
    {
      var present := ConsumeIf('L');
      if present {
        var index := ParseBase62();
        if index != 0 {
          PrintLifetime(index);
          Print(" ");
        }
      }
    }

    method DemangleFnSig()
      requires Valid()
      modifies this
      ensures Valid() && input == old(input) && Same(State(), FnSig(E(), old(State())))
      decreases maxLevel - level, 8, 0
    {
      hide RustGrammar.OptionalBinder, RustGrammar.FnQualifiers, TypeList, ReturnType;
      var saved := bound;
      OptionalBinder();
      FnQualifiers();
      Print("fn(");
      var _ := DemangleTypeList();
      Print(")");
      DemangleReturnType();
      bound := saved;
    }

    method FnQualifiers()
      requires Valid()
      modifies this`pos, this`error, this`output
      ensures Valid() && State() == RustGrammar.FnQualifiers(E(), old(State()))
    {
      var isUnsafe := ConsumeIf('U');
      if isUnsafe {
        Print("unsafe ");
      }
      var hasAbi := ConsumeIf('K');
      if hasAbi {
        DemangleAbi();
      }
    }

    method DemangleAbi()
      requires Valid()
      modifies this`pos, this`error, this`output
      ensures Valid() && State() == Abi(E(), old(State()))
    {
      hide RustLexer.ParseIdentifier, AbiText;
      Print("extern \"");
      var isC := ConsumeIf('C');
      if isC {
        Print("C");
      } else {
        var ident := ParseIdentifier();
        if ident.punycode {
          error := true;
        }
        PrintAbiName(ident.name);
      }
      Print("\" ");
    }

    /** Prints the name one character at a time, `_` as `-`. */
    method PrintAbiName(name: string)
      requires Valid()
      modifies this`output
      ensures Valid() && State() == RustLexer.Print(old(State()), AbiText(name))
    {
      assert name[..0] == "";
      for i := 0 to |name|
        invariant Valid() && State() == RustLexer.Print(old(State()), AbiText(name[..i]))
      {
        assert name[..i + 1] == name[..i] + [name[i]];
        AbiSnoc(name[..i], name[i]);
        Print([if name[i] == '_' then '-' else name[i]]);
      }
      assert name[..|name|] == name;
    }

    method DemangleReturnType()
      requires Valid()
      modifies this
      ensures Valid() && input == old(input) && Same(State(), ReturnType(E(), old(State())))
      decreases maxLevel - level, 1, 0
    {
      hide Type;
      var isUnit := ConsumeIf('u');
      if !isUnit {
        Print(" -> ");
        DemangleType();
      }
    }

    method TypeDyn()
      requires Valid()
      modifies this
      ensures Valid() && input == old(input) && Same(State(), DynType(E(), old(State())))
      decreases maxLevel - level, 8, 0
    {
      hide DynBounds, RustLexer.ParseBase62;
      DemangleDynBounds();
      var present := ConsumeIf('L');
      if present {
        var index := ParseBase62();
        if index != 0 {
          Print(" + ");
          PrintLifetime(index);
        }
      } else {
        error := true;
      }
    }

    method DemangleDynBounds()
      requires Valid()
      modifies this
      ensures Valid() && input == old(input) && Same(State(), DynBounds(E(), old(State())))
      decreases maxLevel - level, 7, 0
    {
      hide RustGrammar.OptionalBinder, DynTraits;
      var saved := bound;
      Print("dyn ");
      OptionalBinder();
      DemangleDynTraits();
      bound := saved;
    }

    method DemangleDynTraits()
      requires Valid()
      modifies this
      ensures Valid() && input == old(input) && Same(State(), DynTraits(E(), old(State()), 0))
      decreases maxLevel - level, 5, 0
    {
      hide DynTrait;
      ghost var goal := DynTraits(E(), State(), 0);
      var i := 0;
      while !error
        invariant Valid() && input == old(input) && level == old(level) && i >= 0
        invariant Same(DynTraits(E(), State(), i), goal)
        decreases !error, |input| - pos
      {
        var done := ConsumeIf('E');
        if done {
          break;
        }
        if i > 0 {
          Print(" + ");
        }
        DemangleDynTrait();
        i := i + 1;
      }
    }

    method DemangleDynTrait()
      requires Valid()
      modifies this
      ensures Valid() && input == old(input) && Same(State(), DynTrait(E(), old(State())))
      decreases maxLevel - level, 3, 0
    {
      hide Path, AssocBindings;
      var open := DemanglePath(true, true);
      open := DemangleAssocBindings(open);
      if open {
        Print(">");
      }
    }

    method DemangleAssocBindings(wasOpen: bool) returns (open: bool)
      requires Valid()
      modifies this
      ensures Valid() && input == old(input)
      ensures
        var (t, isOpen) := AssocBindings(E(), old(State()), wasOpen);
        Same(State(), t) && open == isOpen
      decreases maxLevel - level, 2, 0
    {
      hide AssocBinding;
      ghost var goal := AssocBindings(E(), State(), wasOpen);
      open := wasOpen;
      while !error
        invariant Valid() && input == old(input) && level == old(level)
        invariant Same(AssocBindings(E(), State(), open).0, goal.0)
        invariant AssocBindings(E(), State(), open).1 == goal.1
        decreases !error, |input| - pos
      {
        var present := ConsumeIf('p');
        if !present {
          break;
        }
        DemangleAssocBinding(open);
        open := true;
      }
    }

    method DemangleAssocBinding(open: bool)
      requires Valid()
      modifies this
      ensures Valid() && input == old(input) && Same(State(), AssocBinding(E(), old(State()), open))
      decreases maxLevel - level, 1, 0
    {
      hide RustLexer.ParseIdentifier, Type;
      if !open {
        Print("<");
      } else {
        Print(", ");
      }
      var ident := ParseIdentifier();
      Print(ident.name);
      Print(" = ");
      DemangleType();
    }

    method TypeBackref()
      requires Valid()
      modifies this
      ensures Valid() && input == old(input) && Same(State(), BackrefType(E(), old(State())))
      decreases maxLevel - level, 8, 0
    {
      hide Type, RustLexer.ParseBase62;
      var target := ParseBase62();
      if error || target >= pos {
        error := true;
        return;
      }
      if !printing {
        return;
      }
      var saved := pos;
      pos := target;
      DemangleType();
      pos := saved;
    }

    // -------------------------------------------------------------------------------------------
    // The whole symbol
    // -------------------------------------------------------------------------------------------

    /** `demangle`; also says what happens to a name without the `_R` prefix. */
    method Demangle(mangled: string) returns (ok: bool)
      requires |mangled| <= U64_MAX && output == ""
      modifies this
      ensures ok == !error
      ensures ok <==> HasPrefix(mangled) && !RustGrammar.Demangle(mangled, maxLevel).error
      ensures ok ==> output == RustGrammar.Demangle(mangled, maxLevel).out
    {
      hide Path, FindDot;
      pos, error, printing, level, bound := 0, false, true, 0, 0;
      if !("_R" <= mangled) {
        error := true;
        return false;
      }
      var rest := mangled[2..];
      var dot := FindDot(rest);
      input := rest[..dot];
      var _ := DemanglePath(false, false);
      if pos != |input| {
        printing := false;
        var _ := DemanglePath(false, false);
        printing := true;
      }
      if pos != |input| {
        error := true;
      }
      if dot != |rest| {
        Print(" (");
        Print(rest[dot..]);
        Print(")");
      }
      return !error;
    }
  }

  lemma {:induction false} AbiSnoc(name: string, c: char)
    ensures AbiText(name + [c]) == AbiText(name) + [if c == '_' then '-' else c]
  {
    if name != "" {
      AbiSnoc(name[1..], c);
      assert (name + [c])[1..] == name[1..] + [c];
    }
  }
}
