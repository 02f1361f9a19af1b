/**
  The grammar methods of the Rust v0 demangler (RFC 2603) as functions on the values of its
  fields: parsing and printing in one pass, sticky errors, a recursion budget, backreferences that
  move the cursor backwards and a mode that parses without printing.

  Every function carries `Follows` or `Advances` as its contract: what the demangler keeps on every
  input, however malformed.  Dafny accepts the family without a bound of its own because the
  measure (recursion budget left, kind of function, input left) decreases along every call: a
  backreference moves the cursor back, but only after the budget was charged.
 */
module RustGrammar {
  import opened Basics
  import opened RustLexer
  import opened RustNumbers
  import Punycode

  // ---------------------------------------------------------------------------------------------
  // Printing
  // ---------------------------------------------------------------------------------------------

  datatype BasicType =
    | Bool | Char | I8 | I16 | I32 | I64 | I128 | ISize | U8 | U16 | U32 | U64 | U128 | USize
    | F32 | F64 | Str | Placeholder | Unit | Variadic | Never

  function ParseBasicType(c: char): Option<BasicType>
  {
    match c
    case 'a' => Some(I8)
    case 'b' => Some(Bool)
    case 'c' => Some(Char)
    case 'd' => Some(F64)
    case 'e' => Some(Str)
    case 'f' => Some(F32)
    case 'h' => Some(U8)
    case 'i' => Some(ISize)
    case 'j' => Some(USize)
    case 'l' => Some(I32)
    case 'm' => Some(U32)
    case 'n' => Some(I128)
    case 'o' => Some(U128)
    case 'p' => Some(Placeholder)
    case 's' => Some(I16)
    case 't' => Some(U16)
    case 'u' => Some(Unit)
    case 'v' => Some(Variadic)
    case 'x' => Some(I64)
    case 'y' => Some(U64)
    case 'z' => Some(Never)
    case _ => None
  }

  function BasicTypeName(t: BasicType): string
  {
    match t
    case Bool => "bool"
    case Char => "char"
    case I8 => "i8"
    case I16 => "i16"
    case I32 => "i32"
    case I64 => "i64"
    case I128 => "i128"
    case ISize => "isize"
    case U8 => "u8"
    case U16 => "u16"
    case U32 => "u32"
    case U64 => "u64"
    case U128 => "u128"
    case USize => "usize"
    case F32 => "f32"
    case F64 => "f64"
    case Str => "str"
    case Placeholder => "_"
    case Unit => "()"
    case Variadic => "..."
    case Never => "!"
  }

  /** The name of the lifetime bound at a depth: 'a to 'z, then 'z1, 'z2, ... */
  function LifetimeName(depth: nat): string
  {
    if depth < 26 then ['\'', 'a' + depth as char] else "'z" + DecimalText(depth - 25)
  }

  /** Index 0 is the erased lifetime; index i >= 1 counts binders from the innermost outwards. */
  function PrintLifetime(e: Env, s: St, index: nat): (t: St)
    requires Wf(e, s)
    ensures Follows(e, s, t) && t.pos == s.pos
  {
    if index == 0 then Print(s, "'_")
    else if index - 1 >= s.bound then Fail(s)
    else Print(s, LifetimeName(s.bound - index))
  }

  /** The text of an identifier: raw, or decoded from Punycode when that succeeds. */
  function IdentifierText(ident: Identifier): Option<string>
  {
    if !ident.punycode then Some(ident.name)
    else
      match Punycode.Decode(ident.name, Some(U64_MAX))
      case None => None
      case Some(codes) => Some(Punycode.EncodeAll(codes))
  }

  function PrintIdentifier(e: Env, s: St, ident: Identifier): (t: St)
    requires Wf(e, s)
    ensures Follows(e, s, t) && t.pos == s.pos
  {
    if s.error || !s.printing then s
    else
      match IdentifierText(ident)
      case None => Fail(s)
      case Some(text) => Print(s, text)
  }

  /** An ABI name is mangled with `_` for `-`. */
  function AbiText(name: string): (text: string)
    ensures |text| == |name|
  {
    if name == "" then "" else [if name[0] == '_' then '-' else name[0]] + AbiText(name[1..])
  }

  // ---------------------------------------------------------------------------------------------
  // Binders
  // ---------------------------------------------------------------------------------------------

  /** The loop that introduces `n` lifetimes, of which `i` are done. */
  function BindLifetimes(e: Env, s: St, i: nat, n: nat): (t: St)
    requires Wf(e, s) && i <= n && (!s.error ==> s.bound + (n - i) <= |e.input|)
    ensures s.error ==> t == s
    ensures !s.error ==>
      Follows(e, s, t.(bound := s.bound)) && !t.error && t.pos == s.pos && t.bound == s.bound + (n - i)
    decreases n - i
  {
    if i == n || s.error then s
    else
      var s1 := s.(bound := s.bound + 1);
      var s2 := if i > 0 then Print(s1, ", ") else s1;
      BindLifetimes(e, PrintLifetime(e, s2, 1), i + 1, n)
  }

  /** Raises the binder depth; everything else follows. */
  function OptionalBinder(e: Env, s: St): (t: St)
    requires Wf(e, s)
    ensures Follows(e, s, t.(bound := s.bound)) && s.bound <= t.bound <= |e.input|
    ensures s.error ==> t == s
  {
    var (s1, binder) := ParseOptionalBase62(e, s, 'G');
    if s1.error || binder == 0 then s1
    else if binder >= |e.input| - s1.bound then Fail(s1)
    else Print(BindLifetimes(e, Print(s1, "for<"), 0, binder), "> ")
  }

  // ---------------------------------------------------------------------------------------------
  // Constants that need no recursion
  // ---------------------------------------------------------------------------------------------

  function ConstInt(e: Env, s: St): (t: St)
    requires Wf(e, s)
    ensures Advances(e, s, t)
  {
    var (s1, negative) := ConsumeIf(e, s, 'n');
    var s2 := if negative then Print(s1, "-") else s1;
    var (s3, value, digits) := ParseHex(e, s2);
    if |digits| <= 16 then Print(s3, DecimalText(value)) else Print(Print(s3, "0x"), digits)
  }

  function ConstBool(e: Env, s: St): (t: St)
    requires Wf(e, s)
    ensures Advances(e, s, t)
  {
    var (s1, _, digits) := ParseHex(e, s);
    if digits == "0" then Print(s1, "false")
    else if digits == "1" then Print(s1, "true")
    else Fail(s1)
  }

  function CharText(code: nat, digits: string): string
  {
    if code == 9 then "\\t"
    else if code == 13 then "\\r"
    else if code == 10 then "\\n"
    else if code == 92 then "\\\\"
    else if code == 34 then "\""
    else if code == 39 then "\\'"
    else if 0x20 <= code <= 0x7e then [code as char]
    else "\\u{" + digits + "}"
  }

  function ConstChar(e: Env, s: St): (t: St)
    requires Wf(e, s)
    ensures Advances(e, s, t)
  {
    var (s1, code, digits) := ParseHex(e, s);
    if s1.error || |digits| > 6 then Fail(s1)
    else Print(Print(Print(s1, "'"), CharText(code, digits)), "'")
  }

  // ---------------------------------------------------------------------------------------------
  // Paths
  // ---------------------------------------------------------------------------------------------

  /** The budget that is left. */
  function Budget(e: Env, s: St): nat
    requires Wf(e, s)
  {
    e.maxLevel - s.level
  }

  function Deeper(s: St): St { s.(level := s.level + 1) }

  /** `demanglePath`; the flag tells whether generic arguments were left open. */
  function Path(e: Env, s: St, inType: bool, leaveOpen: bool): (r: (St, bool))
    requires Wf(e, s)
    ensures Advances(e, s, r.0)
    decreases Budget(e, s), 0, 0
  {
    if s.error || s.level >= e.maxLevel then (Fail(s), false)
    else
      var (t, open) := PathBody(e, Deeper(s), inType, leaveOpen);
      (t.(level := s.level), open)
  }

  function PathBody(e: Env, s: St, inType: bool, leaveOpen: bool): (r: (St, bool))
    requires Wf(e, s)
    ensures Advances(e, s, r.0)
    decreases Budget(e, s), 9, 0
  {
    var (s1, c) := Consume(e, s);
    match c
    case 'C' => (CratePath(e, s1), false)
    case 'M' => (InherentPath(e, s1, inType), false)
    case 'X' => (TraitPath(e, ImplPath(e, s1, inType)), false)
    case 'Y' => (TraitPath(e, s1), false)
    case 'N' => (NestedPath(e, s1, inType), false)
    case 'I' => GenericPath(e, s1, inType, leaveOpen)
    case 'B' => BackrefPath(e, s1, inType, leaveOpen)
    case _ => (Fail(s1), false)
  }

  function CratePath(e: Env, s: St): (t: St)
    requires Wf(e, s)
    ensures Follows(e, s, t)
  {
    var (s1, _) := ParseOptionalBase62(e, s, 's');
    var (s2, ident) := ParseIdentifier(e, s1);
    PrintIdentifier(e, s2, ident)
  }

  /** `<T>` */
  function InherentPath(e: Env, s: St, inType: bool): (t: St)
    requires Wf(e, s)
    ensures Follows(e, s, t)
    decreases Budget(e, s), 8, 0
  {
    Print(Type(e, Print(ImplPath(e, s, inType), "<")), ">")
  }

  /** `<T as Trait>` */
  function TraitPath(e: Env, s: St): (t: St)
    requires Wf(e, s)
    ensures Follows(e, s, t)
    decreases Budget(e, s), 8, 0
  {
    var s1 := Type(e, Print(s, "<"));
    Print(Path(e, Print(s1, " as "), true, false).0, ">")
  }

  /** The impl path is parsed but not printed. */
  function ImplPath(e: Env, s: St, inType: bool): (t: St)
    requires Wf(e, s)
    ensures Follows(e, s, t)
    decreases Budget(e, s), 1, 0
  {
    var (s1, _) := ParseOptionalBase62(e, s.(printing := false), 's');
    Path(e, s1, inType, false).0.(printing := s.printing)
  }

  function SpecialName(ns: char): string
  {
    if ns == 'C' then "closure" else if ns == 'S' then "shim" else [ns]
  }

  function NestedPath(e: Env, s: St, inType: bool): (t: St)
    requires Wf(e, s)
    ensures Follows(e, s, t)
    decreases Budget(e, s), 8, 0
  {
    var (s1, ns) := Consume(e, s);
    if !IsLower(ns) && !IsUpper(ns) then Fail(s1)
    else
      var s2 := Path(e, s1, inType, false).0;
      var (s3, disambiguator) := ParseOptionalBase62(e, s2, 's');
      var (s4, ident) := ParseIdentifier(e, s3);
      NestedName(e, s4, ns, disambiguator, ident)
  }

  function NestedName(e: Env, s: St, ns: char, disambiguator: nat, ident: Identifier): (t: St)
    requires Wf(e, s)
    ensures Follows(e, s, t) && t.pos == s.pos
  {
    if IsUpper(ns) then
      var s1 := Print(Print(s, "::{"), SpecialName(ns));
      var s2 := if ident.name == "" then s1 else PrintIdentifier(e, Print(s1, ":"), ident);
      Print(Print(Print(s2, "#"), DecimalText(disambiguator)), "}")
    else if ident.name == "" then s
    else PrintIdentifier(e, Print(s, "::"), ident)
  }

  function GenericPath(e: Env, s: St, inType: bool, leaveOpen: bool): (r: (St, bool))
    requires Wf(e, s)
    ensures Follows(e, s, r.0)
    decreases Budget(e, s), 8, 0
  {
    var s1 := Path(e, s, inType, false).0;
    var s2 := if inType then s1 else Print(s1, "::");
    var s3 := GenericArgs(e, Print(s2, "<"), 0);
    if leaveOpen then (s3, true) else (Print(s3, ">"), false)
  }

  function GenericArgs(e: Env, s: St, i: nat): (t: St)
    requires Wf(e, s)
    ensures Follows(e, s, t)
    decreases Budget(e, s), 2, |e.input| - s.pos
  {
    if s.error then s
    else
      var (s1, done) := ConsumeIf(e, s, 'E');
      if done then s1
      else
        var s2 := GenericArg(e, if i > 0 then Print(s1, ", ") else s1);
        if s2.error then s2 else GenericArgs(e, s2, i + 1)
  }

  function GenericArg(e: Env, s: St): (t: St)
    requires Wf(e, s)
    ensures Advances(e, s, t)
    decreases Budget(e, s), 1, 0
  {
    var (s1, lifetime) := ConsumeIf(e, s, 'L');
    if lifetime then
      var (s2, index) := ParseBase62(e, s1);
      PrintLifetime(e, s2, index)
    else
      var (s2, isConst) := ConsumeIf(e, s, 'K');
      if isConst then Const(e, s2) else Type(e, s)
  }

  /**
    A backreference must point before its own end.  When nothing is printed its target is not
    even visited.
   */
  function BackrefPath(e: Env, s: St, inType: bool, leaveOpen: bool): (r: (St, bool))
    requires Wf(e, s)
    ensures Follows(e, s, r.0)
    decreases Budget(e, s), 8, 0
  {
    var (s1, target) := ParseBase62(e, s);
    if s1.error || target >= s1.pos then (Fail(s1), false)
    else if !s1.printing then (s1, false)
    else
      var (t, open) := Path(e, s1.(pos := target), inType, leaveOpen);
      (t.(pos := s1.pos), open)
  }

  // ---------------------------------------------------------------------------------------------
  // Types
  // ---------------------------------------------------------------------------------------------

  function Type(e: Env, s: St): (t: St)
    requires Wf(e, s)
    ensures Advances(e, s, t)
    decreases Budget(e, s), 0, 0
  {
    if s.error || s.level >= e.maxLevel then Fail(s)
    else TypeBody(e, Deeper(s)).(level := s.level)
  }

  function TypeBody(e: Env, s: St): (t: St)
    requires Wf(e, s)
    ensures Advances(e, s, t)
    decreases Budget(e, s), 9, 0
  {
    var (s1, c) := Consume(e, s);
    var basic := ParseBasicType(c);
    if basic.Some? then Print(s1, BasicTypeName(basic.value))
    else
      match c
      case 'A' => ArrayType(e, s1)
      case 'S' => Print(Type(e, Print(s1, "[")), "]")
      case 'T' => TupleType(e, s1)
      case 'R' => Type(e, RefLifetime(e, Print(s1, "&")))
      case 'Q' => Type(e, Print(RefLifetime(e, Print(s1, "&")), "mut "))
      case 'P' => Type(e, Print(s1, "*const "))
      case 'O' => Type(e, Print(s1, "*mut "))
      case 'F' => FnSig(e, s1)
      case 'D' => DynType(e, s1)
      case 'B' => BackrefType(e, s1)
      case _ => if s1.error then s1 else Path(e, s, true, false).0
  }

  function ArrayType(e: Env, s: St): (t: St)
    requires Wf(e, s)
    ensures Follows(e, s, t)
    decreases Budget(e, s), 8, 0
  {
    var s1 := Type(e, Print(s, "["));
    Print(Const(e, Print(s1, "; ")), "]")
  }

  function TupleType(e: Env, s: St): (t: St)
    requires Wf(e, s)
    ensures Follows(e, s, t)
    decreases Budget(e, s), 8, 0
  {
    var (s1, n) := TypeList(e, Print(s, "("), 0);
    Print(if n == 1 then Print(s1, ",") else s1, ")")
  }

  /** Types separated by commas up to `E`; also how many there were. */
  function TypeList(e: Env, s: St, i: nat): (r: (St, nat))
    requires Wf(e, s)
    ensures Follows(e, s, r.0)
    decreases Budget(e, s), 2, |e.input| - s.pos
  {
    if s.error then (s, i)
    else
      var (s1, done) := ConsumeIf(e, s, 'E');
      if done then (s1, i)
      else
        var s2 := Type(e, if i > 0 then Print(s1, ", ") else s1);
        if s2.error then (s2, i + 1) else TypeList(e, s2, i + 1)
  }

  /** The optional lifetime of a reference; the erased one is not printed. */
  function RefLifetime(e: Env, s: St): (t: St)
    requires Wf(e, s)
    ensures Follows(e, s, t)
  {
    var (s1, present) := ConsumeIf(e, s, 'L');
    if !present then s1
    else
      var (s2, index) := ParseBase62(e, s1);
      if index == 0 then s2 else Print(PrintLifetime(e, s2, index), " ")
  }

  function FnSig(e: Env, s: St): (t: St)
    requires Wf(e, s)
    ensures Follows(e, s, t)
    decreases Budget(e, s), 8, 0
  {
    var s1 := FnQualifiers(e, OptionalBinder(e, s));
    var s2 := TypeList(e, Print(s1, "fn("), 0).0;
    ReturnType(e, Print(s2, ")")).(bound := s.bound)
  }

  function FnQualifiers(e: Env, s: St): (t: St)
    requires Wf(e, s)
    ensures Follows(e, s, t)
  {
    var (s1, isUnsafe) := ConsumeIf(e, s, 'U');
    var s2 := if isUnsafe then Print(s1, "unsafe ") else s1;
    var (s3, hasAbi) := ConsumeIf(e, s2, 'K');
    if hasAbi then Abi(e, s3) else s3
  }

  function Abi(e: Env, s: St): (t: St)
    requires Wf(e, s)
    ensures Follows(e, s, t)
  {
    var (s1, isC) := ConsumeIf(e, Print(s, "extern \""), 'C');
    if isC then Print(Print(s1, "C"), "\" ")
    else
      var (s2, ident) := ParseIdentifier(e, s1);
      var s3 := if ident.punycode then Fail(s2) else s2;
      Print(Print(s3, AbiText(ident.name)), "\" ")
  }

  /** The unit return type is not printed. */
  function ReturnType(e: Env, s: St): (t: St)
    requires Wf(e, s)
    ensures Follows(e, s, t)
    decreases Budget(e, s), 1, 0
  {
    var (s1, isUnit) := ConsumeIf(e, s, 'u');
    if isUnit then s1 else Type(e, Print(s1, " -> "))
  }

  function DynType(e: Env, s: St): (t: St)
    requires Wf(e, s)
    ensures Follows(e, s, t)
    decreases Budget(e, s), 8, 0
  {
    var (s1, present) := ConsumeIf(e, DynBounds(e, s), 'L');
    if !present then Fail(s1)
    else
      var (s2, index) := ParseBase62(e, s1);
      if index == 0 then s2 else PrintLifetime(e, Print(s2, " + "), index)
  }

  function DynBounds(e: Env, s: St): (t: St)
    requires Wf(e, s)
    ensures Follows(e, s, t)
    decreases Budget(e, s), 7, 0
  {
    DynTraits(e, OptionalBinder(e, Print(s, "dyn ")), 0).(bound := s.bound)
  }

  function DynTraits(e: Env, s: St, i: nat): (t: St)
    requires Wf(e, s)
    ensures Follows(e, s, t)
    decreases Budget(e, s), 4, |e.input| - s.pos
  {
    if s.error then s
    else
      var (s1, done) := ConsumeIf(e, s, 'E');
      if done then s1
      else
        var s2 := DynTrait(e, if i > 0 then Print(s1, " + ") else s1);
        if s2.error then s2 else DynTraits(e, s2, i + 1)
  }

  function DynTrait(e: Env, s: St): (t: St)
    requires Wf(e, s)
    ensures Advances(e, s, t)
    decreases Budget(e, s), 3, 0
  {
    var (s1, open) := Path(e, s, true, true);
    var (s2, open') := AssocBindings(e, s1, open);
    if open' then Print(s2, ">") else s2
  }

  /** `Name = T` bindings, which open the angle bracket if the path has not left it open. */
  function AssocBindings(e: Env, s: St, open: bool): (r: (St, bool))
    requires Wf(e, s)
    ensures Follows(e, s, r.0)
    decreases Budget(e, s), 2, |e.input| - s.pos
  {
    if s.error then (s, open)
    else
      var (s1, present) := ConsumeIf(e, s, 'p');
      if !present then (s1, open)
      else
        var s2 := AssocBinding(e, s1, open);
        if s2.error then (s2, true) else AssocBindings(e, s2, true)
  }

  function AssocBinding(e: Env, s: St, open: bool): (t: St)
    requires Wf(e, s)
    ensures Advances(e, s, t)
    decreases Budget(e, s), 1, 0
  {
    var (s1, ident) := ParseIdentifier(e, Print(s, if open then ", " else "<"));
    Type(e, Print(Print(s1, ident.name), " = "))
  }

  function BackrefType(e: Env, s: St): (t: St)
    requires Wf(e, s)
    ensures Follows(e, s, t)
    decreases Budget(e, s), 8, 0
  {
    var (s1, target) := ParseBase62(e, s);
    if s1.error || target >= s1.pos then Fail(s1)
    else if !s1.printing then s1
    else Type(e, s1.(pos := target)).(pos := s1.pos)
  }

  // ---------------------------------------------------------------------------------------------
  // Constants
  // ---------------------------------------------------------------------------------------------

  function Const(e: Env, s: St): (t: St)
    requires Wf(e, s)
    ensures Advances(e, s, t)
    decreases Budget(e, s), 0, 0
  {
    if s.error || s.level >= e.maxLevel then Fail(s)
    else ConstBody(e, Deeper(s)).(level := s.level)
  }

  predicate IsInteger(t: BasicType)
  {
    t in {I8, I16, I32, I64, I128, ISize, U8, U16, U32, U64, U128, USize}
  }

  function ConstBody(e: Env, s: St): (t: St)
    requires Wf(e, s)
    ensures Advances(e, s, t)
    decreases Budget(e, s), 9, 0
  {
    var (s1, c) := Consume(e, s);
    match ParseBasicType(c)
    case Some(basic) =>
      if IsInteger(basic) then ConstInt(e, s1)
      else if basic == Bool then ConstBool(e, s1)
      else if basic == Char then ConstChar(e, s1)
      else if basic == Placeholder then Print(s1, "_")
      else Fail(s1)
    case None => if c == 'B' then BackrefConst(e, s1) else Fail(s1)
  }

  function BackrefConst(e: Env, s: St): (t: St)
    requires Wf(e, s)
    ensures Follows(e, s, t)
    decreases Budget(e, s), 8, 0
  {
    var (s1, target) := ParseBase62(e, s);
    if s1.error || target >= s1.pos then Fail(s1)
    else if !s1.printing then s1
    else Const(e, s1.(pos := target)).(pos := s1.pos)
  }

  // ---------------------------------------------------------------------------------------------
  // The whole symbol
  // ---------------------------------------------------------------------------------------------

  /** The first dot, or the length. */
  function FindDot(s: string): (i: nat)
    ensures i <= |s|
    ensures '.' !in s[..i]
    ensures i < |s| ==> s[i] == '.'
  {
    if s == "" || s[0] == '.' then 0 else 1 + FindDot(s[1..])
  }

  const MAX_LEVEL: nat := 500

  predicate HasPrefix(mangled: string) { "_R" <= mangled }

  /** `demangle`: the fields at the end, for a name that starts with `_R`. */
  function Demangle(mangled: string, maxLevel: nat): (t: St)
    requires HasPrefix(mangled)
    ensures !t.error ==> t.pos == FindDot(mangled[2..])
  {
    var rest := mangled[2..];
    var dot := FindDot(rest);
    var e := Env(rest[..dot], maxLevel);
    var s1 := Path(e, St(0, false, true, 0, 0, ""), false, false).0;
    var s2 :=
      if s1.pos == |e.input| then s1
      else Path(e, s1.(printing := false), false, false).0.(printing := true);
    var s3 := if s2.pos == |e.input| then s2 else Fail(s2);
    if dot == |rest| then s3 else Print(Print(Print(s3, " ("), rest[dot..]), ")")
  }
}
