/**
  Mangling and demangling.  Paths, types and constants of RFC 2603 as syntax trees, how a tree is
  mangled, and how it is displayed; the one-pass demangler turns the first text into the second.
  A tree may contain backreferences: nodes that stand for a tree whose mangled text begins at an
  earlier place of the same symbol.
 */
module RustRoundTrip {
  import opened Basics
  import opened RustLexer
  import opened RustNumbers
  import opened RustGrammar
  import opened RustDryRun

  // ---------------------------------------------------------------------------------------------
  // Syntax trees
  // ---------------------------------------------------------------------------------------------

  datatype PathTree =
    | Crate(dis: nat, id: Identifier)
    | InherentImpl(dis: nat, impl: PathTree, self: TypeTree)
    | TraitImpl(dis: nat, impl: PathTree, self: TypeTree, trt: PathTree)
    | TraitDef(self: TypeTree, trt: PathTree)
    | Nested(ns: char, parent: PathTree, dis: nat, id: Identifier)
    | Generic(base: PathTree, args: ArgList)
    | PathRef(target: nat, same: PathTree)

  datatype ArgList =
    | NoArg
    | LifetimeArg(index: nat, rest: ArgList)
    | ConstArg(const_: ConstTree, rest: ArgList)
    | TypeArg(type_: TypeTree, rest: ArgList)

  datatype TypeTree =
    | Basic(basic: BasicType)
    | Named(path: PathTree)
    | Array(elem: TypeTree, len: ConstTree)
    | Slice(elem: TypeTree)
    | Tuple(elems: TypeSeq)
    | Reference(mut: bool, lifetime: Option<nat>, elem: TypeTree)
    | Pointer(mut: bool, elem: TypeTree)
    | Function(binder: nat, isUnsafe: bool, abi: AbiTree, params: TypeSeq, result: TypeTree)
    | Dyn(binder: nat, traits: TraitList, index: nat)
    | TypeRef(target: nat, same: TypeTree)

  datatype TypeSeq = NoType | MoreTypes(head: TypeTree, tail: TypeSeq)

  datatype AbiTree = DefaultAbi | CAbi | NamedAbi(name: string)

  datatype TraitList = NoTrait | MoreTraits(path: PathTree, bindings: BindingList, rest: TraitList)

  datatype BindingList = NoBinding | MoreBindings(name: Identifier, value: TypeTree, rest: BindingList)

  datatype ConstTree =
    | IntConst(kind: BasicType, negative: bool, value: nat)
    | BoolConst(b: bool)
    | CharConst(code: nat)
    | PlaceholderConst
    | ConstRef(target: nat, same: ConstTree)

  // ---------------------------------------------------------------------------------------------
  // Mangling
  // ---------------------------------------------------------------------------------------------

  function BasicLetter(t: BasicType): (c: char)
    ensures ParseBasicType(c) == Some(t)
  {
    match t
    case Bool => 'b' case Char => 'c' case I8 => 'a' case I16 => 's' case I32 => 'l'
    case I64 => 'x' case I128 => 'n' case ISize => 'i' case U8 => 'h' case U16 => 't'
    case U32 => 'm' case U64 => 'y' case U128 => 'o' case USize => 'j' case F32 => 'f'
    case F64 => 'd' case Str => 'e' case Placeholder => 'p' case Unit => 'u'
    case Variadic => 'v' case Never => 'z'
  }

  /** An optional number: nothing for 0, otherwise the tag and the number less one. */
  function MangleOptional(tag: char, n: nat): string
  {
    if n == 0 then "" else [tag] + Base62Text(n - 1)
  }

  function MangleIdentifier(id: Identifier): string
  {
    (if id.punycode then "u" else "") + MangleName(id.name)
  }

  function MangleName(name: string): string { DecimalText(|name|) + (Separator(name) + name) }

  /** Keeps the length apart from a name that starts with a digit or an underscore. */
  function Separator(name: string): string
  {
    if name != "" && ('0' <= name[0] <= '9' || name[0] == '_') then "_" else ""
  }

  function MangleConst(c: ConstTree): string
  {
    match c
    case IntConst(kind, negative, value) =>
      [BasicLetter(kind)] + ((if negative then "n" else "") + (HexText(value) + "_"))
    case BoolConst(b) => if b then "b1_" else "b0_"
    case CharConst(code) => "c" + (HexText(code) + "_")
    case PlaceholderConst => "p"
    case ConstRef(target, _) => MangleRef(target)
  }

  /** A backreference is a place in the symbol, counted from behind its prefix. */
  function MangleRef(target: nat): (s: string)
    ensures |s| > 0 && s[0] == 'B'
  {
    "B" + Base62Text(target)
  }

  function HexText(n: nat): (s: string) { Text(n, 16, HexLetter) }

  /** What a mangled path can start with. */
  predicate PathHead(c: char)
  {
    c == 'C' || c == 'M' || c == 'X' || c == 'Y' || c == 'N' || c == 'I' || c == 'B'
  }

  function ManglePath(p: PathTree): (s: string)
    ensures |s| > 0 && PathHead(s[0])
  {
    match p
    case Crate(dis, id) => "C" + (MangleOptional('s', dis) + MangleIdentifier(id))
    case InherentImpl(dis, impl, self) =>
      "M" + ((MangleOptional('s', dis) + ManglePath(impl)) + MangleType(self))
    case TraitImpl(dis, impl, self, trt) =>
      "X" + ((MangleOptional('s', dis) + ManglePath(impl)) + (MangleType(self) + ManglePath(trt)))
    case TraitDef(self, trt) => "Y" + (MangleType(self) + ManglePath(trt))
    case Nested(ns, parent, dis, id) =>
      "N" + ([ns] + (ManglePath(parent) + (MangleOptional('s', dis) + MangleIdentifier(id))))
    case Generic(base, args) => "I" + (ManglePath(base) + MangleArgs(args))
    case PathRef(target, _) => MangleRef(target)
  }

  function MangleArgs(args: ArgList): (s: string)
    ensures |s| > 0 && s[0] != '_'
  {
    match args
    case NoArg => "E"
    case LifetimeArg(index, rest) => "L" + (Base62Text(index) + MangleArgs(rest))
    case ConstArg(c, rest) => "K" + (MangleConst(c) + MangleArgs(rest))
    case TypeArg(t, rest) => MangleType(t) + MangleArgs(rest)
  }

  /** What a mangled type can start with. */
  predicate TypeHead(c: char)
  {
    || ParseBasicType(c).Some? || PathHead(c)
    || c == 'A' || c == 'S' || c == 'T' || c == 'R' || c == 'Q' || c == 'P' || c == 'O' || c == 'F' || c == 'D'
  }

  function MangleType(t: TypeTree): (s: string)
    ensures |s| > 0 && TypeHead(s[0])
    ensures s[0] == 'u' <==> t == Basic(Unit)
  {
    match t
    case Basic(b) => [BasicLetter(b)]
    case Named(p) => ManglePath(p)
    case Array(elem, len) => "A" + (MangleType(elem) + MangleConst(len))
    case Slice(elem) => "S" + MangleType(elem)
    case Tuple(elems) => "T" + MangleTypes(elems)
    case Reference(mut, lifetime, elem) =>
      [if mut then 'Q' else 'R'] + (MangleLifetime(lifetime) + MangleType(elem))
    case Pointer(mut, elem) => [if mut then 'O' else 'P'] + MangleType(elem)
    case Function(binder, isUnsafe, abi, params, result) =>
      "F" + (MangleOptional('G', binder) +
             (MangleQualifiers(isUnsafe, abi) + (MangleTypes(params) + MangleType(result))))
    case Dyn(binder, traits, index) =>
      "D" + ((MangleOptional('G', binder) + MangleTraits(traits)) + ("L" + Base62Text(index)))
    case TypeRef(target, _) => MangleRef(target)
  }

  function MangleLifetime(lifetime: Option<nat>): string
  {
    match lifetime case None => "" case Some(index) => "L" + Base62Text(index)
  }

  function MangleQualifiers(isUnsafe: bool, abi: AbiTree): string
  {
    (if isUnsafe then "U" else "") + MangleAbi(abi)
  }

  function MangleAbi(abi: AbiTree): string
  {
    match abi
    case DefaultAbi => ""
    case CAbi => "KC"
    case NamedAbi(name) => "K" + MangleIdentifier(Identifier(name, false))
  }

  function MangleTypes(ts: TypeSeq): (s: string)
    ensures |s| > 0 && (s[0] == 'E' || TypeHead(s[0]))
  {
    match ts
    case NoType => "E"
    case MoreTypes(head, tail) => MangleType(head) + MangleTypes(tail)
  }

  function MangleTraits(ts: TraitList): (s: string)
    ensures |s| > 0 && (s[0] == 'E' || PathHead(s[0]))
  {
    match ts
    case NoTrait => "E"
    case MoreTraits(path, bindings, rest) => ManglePath(path) + (MangleBindings(bindings) + MangleTraits(rest))
  }

  function MangleBindings(bs: BindingList): (s: string)
    ensures s == "" || s[0] == 'p'
  {
    match bs
    case NoBinding => ""
    case MoreBindings(name, value, rest) =>
      "p" + ((MangleIdentifier(name) + MangleType(value)) + MangleBindings(rest))
  }

  // ---------------------------------------------------------------------------------------------
  // Display
  // ---------------------------------------------------------------------------------------------

  function ShowId(id: Identifier): string
  {
    match IdentifierText(id) case None => "" case Some(text) => text
  }

  function ShowLifetime(index: nat, bound: nat): string
  {
    if 0 < index <= bound then Scope(bound)[bound - index] else "'_"
  }

  /** `for<'a, 'b> ` */
  function ShowBinder(binder: nat, bound: nat): string
  {
    if binder == 0 then "" else "for<" + Join(Scope(bound + binder)[bound..], 0) + "> "
  }

  /** A character as it stands in a literal: a letter escape, itself, or its number in hexadecimal. */
  function ShowChar(code: nat): string
  {
    if code == '\t' as int then "\\t"
    else if code == '\n' as int then "\\n"
    else if code == '\r' as int then "\\r"
    else if code == '\'' as int then "\\'"
    else if code == '\\' as int then "\\\\"
    else if ' ' as int <= code <= '~' as int then [code as char]
    else "\\u{" + HexText(code) + "}"
  }

  function ShowConst(c: ConstTree): string
  {
    match c
    case IntConst(_, negative, value) =>
      (if negative then "-" else "") +
      (if |HexText(value)| <= 16 then DecimalText(value) else "0x" + HexText(value))
    case BoolConst(b) => if b then "true" else "false"
    case CharConst(code) => "'" + ShowChar(code) + "'"
    case PlaceholderConst => "_"
    case ConstRef(_, same) => ShowConst(same)
  }

  /** Namespaces with a name of their own; the others are shown by their letter. */
  function ShowSpecial(ns: char): string
  {
    match ns
    case 'C' => "closure"
    case 'S' => "shim"
    case _ => [ns]
  }

  function ShowNested(ns: char, dis: nat, id: Identifier): string
  {
    if 'A' <= ns <= 'Z' then
      "::{" + ShowSpecial(ns) + (if id.name == "" then "" else ":" + ShowId(id)) + "#" + DecimalText(dis) + "}"
    else if id.name == "" then ""
    else "::" + ShowId(id)
  }

  /**
    How a tree is displayed.  With `raw` the names of associated types are shown as they are
    written, which is what the program prints; without it they are decoded like all other names.
   */
  function ShowPath(p: PathTree, inType: bool, leaveOpen: bool, bound: nat, raw: bool): string
    decreases p, 0
  {
    match p
    case Crate(_, id) => ShowId(id)
    case InherentImpl(_, _, self) => "<" + ShowType(self, bound, raw) + ">"
    case TraitImpl(_, _, self, trt) =>
      "<" + ShowType(self, bound, raw) + " as " + ShowPath(trt, true, false, bound, raw) + ">"
    case TraitDef(self, trt) =>
      "<" + ShowType(self, bound, raw) + " as " + ShowPath(trt, true, false, bound, raw) + ">"
    case Nested(ns, parent, dis, id) => ShowPath(parent, inType, false, bound, raw) + ShowNested(ns, dis, id)
    case Generic(base, args) =>
      ShowPath(base, inType, false, bound, raw) + (if inType then "<" else "::<") + ShowArgs(args, 0, bound, raw) +
      (if leaveOpen then "" else ">")
    case PathRef(_, same) => ShowPath(same, inType, leaveOpen, bound, raw)
  }

  /** A path whose brackets can be left open; a dry run does not look behind a backreference. */
  predicate HasArgs(p: PathTree, printing: bool)
  {
    match p
    case Generic(_, _) => true
    case PathRef(_, same) => printing && HasArgs(same, printing)
    case _ => false
  }

  function Comma(i: nat): string { if i > 0 then ", " else "" }

  function ShowArgs(args: ArgList, i: nat, bound: nat, raw: bool): string
    decreases args, 0
  {
    match args
    case NoArg => ""
    case LifetimeArg(index, rest) => Comma(i) + ShowLifetime(index, bound) + ShowArgs(rest, i + 1, bound, raw)
    case ConstArg(c, rest) => Comma(i) + ShowConst(c) + ShowArgs(rest, i + 1, bound, raw)
    case TypeArg(t, rest) => Comma(i) + ShowType(t, bound, raw) + ShowArgs(rest, i + 1, bound, raw)
  }

  function ShowType(t: TypeTree, bound: nat, raw: bool): string
    decreases t, 0
  {
    match t
    case Basic(b) => ShowBasic(b)
    case Named(p) => ShowPath(p, true, false, bound, raw)
    case Array(elem, len) => "[" + ShowType(elem, bound, raw) + "; " + ShowConst(len) + "]"
    case Slice(elem) => "[" + ShowType(elem, bound, raw) + "]"
    case Tuple(elems) =>
      "(" + ShowTypes(elems, 0, bound, raw) + (if elems.MoreTypes? && elems.tail.NoType? then ",)" else ")")
    case Reference(mut, lifetime, elem) =>
      "&" + ShowRefLifetime(lifetime, bound) + (if mut then "mut " else "") + ShowType(elem, bound, raw)
    case Pointer(mut, elem) => (if mut then "*mut " else "*const ") + ShowType(elem, bound, raw)
    case Function(binder, isUnsafe, abi, params, result) =>
      ShowBinder(binder, bound) + ShowQualifiers(isUnsafe, abi) +
      "fn(" + ShowTypes(params, 0, bound + binder, raw) + ")" + ShowResult(result, bound + binder, raw)
    case Dyn(binder, traits, index) =>
      "dyn " + ShowBinder(binder, bound) + ShowTraits(traits, 0, bound + binder, raw) +
      (if index == 0 then "" else " + " + ShowLifetime(index, bound))
    case TypeRef(_, same) => ShowType(same, bound, raw)
  }

  /** The types that have a letter, as they are written in Rust. */
  function ShowBasic(b: BasicType): string
  {
    match b
    case I8 => "i8" case I16 => "i16" case I32 => "i32" case I64 => "i64" case I128 => "i128" case ISize => "isize"
    case U8 => "u8" case U16 => "u16" case U32 => "u32" case U64 => "u64" case U128 => "u128" case USize => "usize"
    case F32 => "f32" case F64 => "f64" case Bool => "bool" case Char => "char" case Str => "str"
    case Unit => "()" case Never => "!" case Variadic => "..." case Placeholder => "_"
  }

  function ShowRefLifetime(lifetime: Option<nat>, bound: nat): string
  {
    if lifetime.None? || lifetime.value == 0 then "" else ShowLifetime(lifetime.value, bound) + " "
  }

  function ShowQualifiers(isUnsafe: bool, abi: AbiTree): string
  {
    (if isUnsafe then "unsafe " else "") + ShowAbi(abi)
  }

  /** `_` stands for `-`. */
  function Dashed(name: string): string
  {
    seq(|name|, i requires 0 <= i < |name| => if name[i] == '_' then '-' else name[i])
  }

  function ShowAbi(abi: AbiTree): string
  {
    match abi
    case DefaultAbi => ""
    case CAbi => "extern \"C\" "
    case NamedAbi(name) => "extern \"" + Dashed(name) + "\" "
  }

  function ShowResult(result: TypeTree, bound: nat, raw: bool): string
    decreases result, 1
  {
    if result == Basic(Unit) then "" else " -> " + ShowType(result, bound, raw)
  }

  function ShowTypes(ts: TypeSeq, i: nat, bound: nat, raw: bool): string
    decreases ts, 0
  {
    match ts
    case NoType => ""
    case MoreTypes(head, tail) => Comma(i) + ShowType(head, bound, raw) + ShowTypes(tail, i + 1, bound, raw)
  }

  function ShowTraits(ts: TraitList, i: nat, bound: nat, raw: bool): string
    decreases ts, 0
  {
    match ts
    case NoTrait => ""
    case MoreTraits(path, bindings, rest) =>
      (if i > 0 then " + " else "") +
      ShowPath(path, true, true, bound, raw) + ShowBindings(bindings, HasArgs(path, true), bound, raw) +
      CloseTrait(path, bindings) + ShowTraits(rest, i + 1, bound, raw)
  }

  /** Bindings continue the generic arguments of the path, or open brackets of their own. */
  function CloseTrait(path: PathTree, bindings: BindingList): string
  {
    if HasArgs(path, true) || bindings.MoreBindings? then ">" else ""
  }

  function BindingName(name: Identifier, raw: bool): string { if raw then name.name else ShowId(name) }

  function ShowBindings(bs: BindingList, open: bool, bound: nat, raw: bool): string
    decreases bs, 0
  {
    match bs
    case NoBinding => ""
    case MoreBindings(name, value, rest) =>
      (if open then ", " else "<") + BindingName(name, raw) + " = " + ShowType(value, bound, raw) +
      ShowBindings(rest, true, bound, raw)
  }

  // ---------------------------------------------------------------------------------------------
  // Which trees can be displayed
  // ---------------------------------------------------------------------------------------------

  /** A name that can be read, and one that can also be decoded if it is printed. */
  predicate OkName(id: Identifier)
  {
    && |id.name| < 0x1_0000_0000_0000_0000
    && forall c <- id.name :: 'a' <= c <= 'z' || 'A' <= c <= 'Z' || '0' <= c <= '9' || c == '_'
  }

  predicate OkId(id: Identifier, printing: bool) { OkName(id) && (printing ==> IdentifierText(id).Some?) }

  predicate OkNumber(n: nat) { n < 0x1_0000_0000_0000_0000 }

  /** No underscore follows, so that an empty identifier does not swallow one. */
  predicate ClearAt(input: string, pos: nat) { pos < |input| ==> input[pos] != '_' }

  /** A backreference at `pos`; if it is printed, the text stands at an earlier place. */
  predicate OkRef(target: nat, text: string, pos: nat, input: string, printing: bool)
  {
    OkNumber(target) && target < pos && (printing ==> At(input, target, text) && ClearAt(input, target + |text|))
  }

  predicate OkConst(c: ConstTree, pos: nat, input: string, printing: bool)
  {
    match c
    case IntConst(kind, _, _) =>
      kind in {I8, U8, I16, U16, I32, U32, I64, U64, I128, U128, ISize, USize}
    case CharConst(code) => |HexText(code)| <= 6
    case ConstRef(target, same) =>
      OkRef(target, MangleConst(same), pos, input, printing) && (printing ==> OkConst(same, target, input, true))
    case _ => true
  }

  /**
    A path at `pos` of the symbol `input`, with `bound` lifetimes in scope.  What a backreference
    stands for is read in the scope of the backreference.  Where nothing is printed, names are not
    decoded and backreferences are not followed, so nothing is asked of them.
   */
  predicate OkPath(p: PathTree, pos: nat, bound: nat, input: string, printing: bool)
  {
    match p
    case Crate(dis, id) => OkNumber(dis) && OkId(id, printing)
    case InherentImpl(dis, impl, self) =>
      var front := pos + 1 + |MangleOptional('s', dis)|;
      && OkNumber(dis) && OkPath(impl, front, bound, input, false)
      && OkType(self, front + |ManglePath(impl)|, bound, input, printing)
    case TraitImpl(dis, impl, self, trt) =>
      var front := pos + 1 + |MangleOptional('s', dis)|;
      && OkNumber(dis) && OkPath(impl, front, bound, input, false)
      && OkType(self, front + |ManglePath(impl)|, bound, input, printing)
      && OkPath(trt, front + |ManglePath(impl)| + |MangleType(self)|, bound, input, printing)
    case TraitDef(self, trt) =>
      OkType(self, pos + 1, bound, input, printing) && OkPath(trt, pos + 1 + |MangleType(self)|, bound, input, printing)
    case Nested(ns, parent, dis, id) =>
      && ('a' <= ns <= 'z' || 'A' <= ns <= 'Z') && OkPath(parent, pos + 2, bound, input, printing)
      && OkNumber(dis) && OkId(id, printing)
    case Generic(base, args) =>
      && OkPath(base, pos + 1, bound, input, printing)
      && OkArgs(args, pos + 1 + |ManglePath(base)|, bound, input, printing)
    case PathRef(target, same) =>
      OkRef(target, ManglePath(same), pos, input, printing) && (printing ==> OkPath(same, target, bound, input, true))
  }

  predicate OkArgs(args: ArgList, pos: nat, bound: nat, input: string, printing: bool)
  {
    match args
    case NoArg => true
    case LifetimeArg(index, rest) =>
      OkNumber(index) && index <= bound && OkArgs(rest, pos + 1 + |Base62Text(index)|, bound, input, printing)
    case ConstArg(c, rest) =>
      OkConst(c, pos + 1, input, printing) && OkArgs(rest, pos + 1 + |MangleConst(c)|, bound, input, printing)
    case TypeArg(t, rest) =>
      OkType(t, pos, bound, input, printing) && OkArgs(rest, pos + |MangleType(t)|, bound, input, printing)
  }

  /** The length of the whole symbol bounds the lifetimes in scope. */
  predicate OkBinder(binder: nat, bound: nat, input: string)
  {
    OkNumber(binder) && (binder > 0 ==> bound + binder < |input|)
  }

  /** A type that is a path has no backreference of its own: in a type it refers to a type. */
  predicate OkType(t: TypeTree, pos: nat, bound: nat, input: string, printing: bool)
  {
    match t
    case Basic(_) => true
    case Named(p) => !p.PathRef? && OkPath(p, pos, bound, input, printing)
    case Array(elem, len) =>
      OkType(elem, pos + 1, bound, input, printing) && OkConst(len, pos + 1 + |MangleType(elem)|, input, printing)
    case Slice(elem) => OkType(elem, pos + 1, bound, input, printing)
    case Tuple(elems) => OkTypes(elems, pos + 1, bound, input, printing)
    case Reference(_, lifetime, elem) =>
      && (lifetime.Some? ==> OkNumber(lifetime.value) && lifetime.value <= bound)
      && OkType(elem, pos + 1 + |MangleLifetime(lifetime)|, bound, input, printing)
    case Pointer(_, elem) => OkType(elem, pos + 1, bound, input, printing)
    case Function(binder, isUnsafe, abi, params, result) =>
      var front := pos + 1 + |MangleOptional('G', binder)| + |MangleQualifiers(isUnsafe, abi)|;
      && OkBinder(binder, bound, input)
      && (abi.NamedAbi? ==> OkName(Identifier(abi.name, false)))
      && OkTypes(params, front, bound + binder, input, printing)
      && OkType(result, front + |MangleTypes(params)|, bound + binder, input, printing)
    case Dyn(binder, traits, index) =>
      && OkBinder(binder, bound, input)
      && OkTraits(traits, pos + 1 + |MangleOptional('G', binder)|, bound + binder, input, printing)
      && OkNumber(index) && index <= bound
    case TypeRef(target, same) =>
      OkRef(target, MangleType(same), pos, input, printing) && (printing ==> OkType(same, target, bound, input, true))
  }

  predicate OkTypes(ts: TypeSeq, pos: nat, bound: nat, input: string, printing: bool)
  {
    match ts
    case NoType => true
    case MoreTypes(head, tail) =>
      OkType(head, pos, bound, input, printing) && OkTypes(tail, pos + |MangleType(head)|, bound, input, printing)
  }

  predicate OkTraits(ts: TraitList, pos: nat, bound: nat, input: string, printing: bool)
  {
    match ts
    case NoTrait => true
    case MoreTraits(path, bindings, rest) =>
      && OkPath(path, pos, bound, input, printing)
      && OkBindings(bindings, pos + |ManglePath(path)|, bound, input, printing)
      && OkTraits(rest, pos + |ManglePath(path)| + |MangleBindings(bindings)|, bound, input, printing)
  }

  predicate OkBindings(bs: BindingList, pos: nat, bound: nat, input: string, printing: bool)
  {
    match bs
    case NoBinding => true
    case MoreBindings(name, value, rest) =>
      var front := pos + 1 + |MangleIdentifier(name)|;
      && OkName(name) && OkType(value, front, bound, input, printing)
      && OkBindings(rest, front + |MangleType(value)|, bound, input, printing)
  }

  // ---------------------------------------------------------------------------------------------
  // How much of the recursion budget a tree needs
  // ---------------------------------------------------------------------------------------------

  function Max(a: nat, b: nat): nat { if a > b then a else b }

  /**
    The number of nested calls that read a tree.  A parse that prints nothing does not follow
    backreferences, and the path of an `impl` is never printed.
   */
  function PathDepth(p: PathTree, printing: bool): nat
    decreases p, 0
  {
    1 + match p
        case Crate(_, _) => 0
        case InherentImpl(_, impl, self) => Max(PathDepth(impl, false), TypeDepth(self, printing))
        case TraitImpl(_, impl, self, trt) =>
          Max(PathDepth(impl, false), Max(TypeDepth(self, printing), PathDepth(trt, printing)))
        case TraitDef(self, trt) => Max(TypeDepth(self, printing), PathDepth(trt, printing))
        case Nested(_, parent, _, _) => PathDepth(parent, printing)
        case Generic(base, args) => Max(PathDepth(base, printing), ArgsDepth(args, printing))
        case PathRef(_, same) => if printing then PathDepth(same, true) else 0
  }

  function ArgsDepth(args: ArgList, printing: bool): nat
    decreases args, 0
  {
    match args
    case NoArg => 0
    case LifetimeArg(_, rest) => ArgsDepth(rest, printing)
    case ConstArg(c, rest) => Max(ConstDepth(c, printing), ArgsDepth(rest, printing))
    case TypeArg(t, rest) => Max(TypeDepth(t, printing), ArgsDepth(rest, printing))
  }

  function TypeDepth(t: TypeTree, printing: bool): nat
    decreases t, 0
  {
    1 + match t
        case Basic(_) => 0
        case Named(p) => PathDepth(p, printing)
        case Array(elem, len) => Max(TypeDepth(elem, printing), ConstDepth(len, printing))
        case Slice(elem) => TypeDepth(elem, printing)
        case Tuple(elems) => TypesDepth(elems, printing)
        case Reference(_, _, elem) => TypeDepth(elem, printing)
        case Pointer(_, elem) => TypeDepth(elem, printing)
        case Function(_, _, _, params, result) => Max(TypesDepth(params, printing), ResultDepth(result, printing))
        case Dyn(_, traits, _) => TraitsDepth(traits, printing)
        case TypeRef(_, same) => if printing then TypeDepth(same, true) else 0
  }

  /** The unit result is read without a call. */
  function ResultDepth(result: TypeTree, printing: bool): nat
    decreases result, 1
  {
    if result == Basic(Unit) then 0 else TypeDepth(result, printing)
  }

  function TypesDepth(ts: TypeSeq, printing: bool): nat
    decreases ts, 0
  {
    match ts
    case NoType => 0
    case MoreTypes(head, tail) => Max(TypeDepth(head, printing), TypesDepth(tail, printing))
  }

  function TraitsDepth(ts: TraitList, printing: bool): nat
    decreases ts, 0
  {
    match ts
    case NoTrait => 0
    case MoreTraits(path, bindings, rest) =>
      Max(PathDepth(path, printing), Max(BindingsDepth(bindings, printing), TraitsDepth(rest, printing)))
  }

  function BindingsDepth(bs: BindingList, printing: bool): nat
    decreases bs, 0
  {
    match bs
    case NoBinding => 0
    case MoreBindings(_, value, rest) => Max(TypeDepth(value, printing), BindingsDepth(rest, printing))
  }

  function ConstDepth(c: ConstTree, printing: bool): nat
    decreases c, 0
  {
    match c
    case ConstRef(_, same) => 1 + if printing then ConstDepth(same, true) else 0
    case _ => 1
  }

  // ---------------------------------------------------------------------------------------------
  // How big a tree is, with what its backreferences stand for
  // ---------------------------------------------------------------------------------------------

  function PathSize(p: PathTree): nat
  {
    1 + match p
        case Crate(_, _) => 0
        case InherentImpl(_, impl, self) => PathSize(impl) + TypeSize(self)
        case TraitImpl(_, impl, self, trt) => PathSize(impl) + TypeSize(self) + PathSize(trt)
        case TraitDef(self, trt) => TypeSize(self) + PathSize(trt)
        case Nested(_, parent, _, _) => PathSize(parent)
        case Generic(base, args) => PathSize(base) + ArgsSize(args)
        case PathRef(_, same) => PathSize(same)
  }

  function ArgsSize(args: ArgList): nat
  {
    1 + match args
        case NoArg => 0
        case LifetimeArg(_, rest) => ArgsSize(rest)
        case ConstArg(_, rest) => ArgsSize(rest)
        case TypeArg(t, rest) => TypeSize(t) + ArgsSize(rest)
  }

  function TypeSize(t: TypeTree): nat
  {
    1 + match t
        case Basic(_) => 0
        case Named(p) => PathSize(p)
        case Array(elem, _) => TypeSize(elem)
        case Slice(elem) => TypeSize(elem)
        case Tuple(elems) => TypesSize(elems)
        case Reference(_, _, elem) => TypeSize(elem)
        case Pointer(_, elem) => TypeSize(elem)
        case Function(_, _, _, params, result) => TypesSize(params) + TypeSize(result)
        case Dyn(_, traits, _) => TraitsSize(traits)
        case TypeRef(_, same) => TypeSize(same)
  }

  function TypesSize(ts: TypeSeq): nat
  {
    1 + match ts case NoType => 0 case MoreTypes(head, tail) => TypeSize(head) + TypesSize(tail)
  }

  function TraitsSize(ts: TraitList): nat
  {
    1 + match ts
        case NoTrait => 0
        case MoreTraits(path, bindings, rest) => PathSize(path) + BindingsSize(bindings) + TraitsSize(rest)
  }

  function BindingsSize(bs: BindingList): nat
  {
    1 + match bs case NoBinding => 0 case MoreBindings(_, value, rest) => TypeSize(value) + BindingsSize(rest)
  }

  // ---------------------------------------------------------------------------------------------
  // Reading a known text
  // ---------------------------------------------------------------------------------------------

  predicate At(input: string, pos: nat, text: string)
  {
    pos + |text| <= |input| && input[pos .. pos + |text|] == text
  }

  lemma AtSplit(input: string, pos: nat, a: string, b: string)
    requires At(input, pos, a + b)
    ensures At(input, pos, a) && At(input, pos + |a|, b)
  {
    var whole := input[pos .. pos + |a + b|];
    assert whole[..|a|] == a && whole[|a|..] == b;
  }

  lemma AtCons(input: string, pos: nat, c: char, b: string)
    requires At(input, pos, [c] + b)
    ensures pos < |input| && input[pos] == c && At(input, pos + 1, b)
  {
    AtSplit(input, pos, [c], b);
    assert input[pos] == input[pos .. pos + 1][0];
  }

  lemma AtSlice(input: string, pos: nat, text: string)
    requires At(input, pos, text)
    ensures pos + |text| <= |input| && input[pos .. pos + |text|] == text
  {
  }

  lemma AtHead(input: string, pos: nat, text: string)
    requires At(input, pos, text) && text != ""
    ensures pos < |input| && input[pos] == text[0]
  {
    assert input[pos] == input[pos .. pos + |text|][0];
  }

  predicate Clear(e: Env, pos: nat) { ClearAt(e.input, pos) }

  /** A state in which the demangler is working. */
  predicate Going(e: Env, s: St) { Wf(e, s) && !s.error }

  /** `k` characters read, and `text` printed unless printing is off. */
  function Say(s: St, k: nat, text: string): (t: St)
    ensures t == s.(pos := s.pos + k, out := t.out)
    ensures text == "" ==> t.out == s.out
  {
    s.(pos := s.pos + k, out := if s.printing then s.out + text else s.out)
  }

  lemma PrintSays(s: St, text: string)
    requires !s.error
    ensures RustLexer.Print(s, text) == Say(s, 0, text)
  {
  }

  /** Reading on after printing, and reading before printing. */
  lemma SayOn(s: St, text: string, k: nat)
    ensures Say(s, 0, text).(pos := s.pos + k) == Say(s, k, text)
  {
  }

  lemma SayFrom(s: St, j: nat, k: nat, text: string)
    ensures Say(s.(pos := s.pos + j), k, text) == Say(s, j + k, text)
  {
  }

  /** Inside a binder and out again. */
  lemma SayBound(s: St, bound: nat, k: nat, text: string)
    ensures Say(s.(bound := bound), k, text).(bound := s.bound) == Say(s, k, text)
  {
  }

  /** Two pieces printed one after the other. */
  lemma PrintMore(s: St, k: nat, a: string, b: string)
    requires !s.error
    ensures RustLexer.Print(Say(s, k, a), b) == Say(s, k, a + b)
  {
    assert (s.out + a) + b == s.out + (a + b);
  }

  /** A list: what stands before the element, the element, the rest of the list. */
  lemma ListSaid(s: St, a: string, k: nat, b: string, n: nat, c: string)
    ensures Say(Say(Say(s, 0, a), k, b), n, c) == Say(s, k + n, a + b + c)
  {
    hide Say;
    SaySay(s, 0, a, k, b);
    SaySay(s, k, a + b, n, c);
  }

  lemma SaySay(s: St, j: nat, a: string, k: nat, b: string)
    ensures Say(Say(s, j, a), k, b) == Say(s, j + k, a + b)
  {
    assert (s.out + a) + b == s.out + (a + b);
  }

  lemma {:induction false} RunEndIs(input: string, pos: nat, q: nat, ok: char -> bool)
    requires pos <= q <= |input|
    requires forall i :: pos <= i < q ==> ok(input[i])
    requires q < |input| ==> !ok(input[q])
    ensures RunEnd(input, pos, ok) == q
    decreases q - pos
  {
    if pos < q {
      RunEndIs(input, pos + 1, q, ok);
    }
  }

  /** A run of digits that is read to its end. */
  lemma RunOfText(input: string, pos: nat, n: nat, base: nat, letter: nat -> char, ok: char -> bool)
    requires base >= 2
    requires forall d: nat {:trigger letter(d)} :: d < base ==> ok(letter(d))
    requires At(input, pos, Text(n, base, letter))
    requires
      var q := pos + |Text(n, base, letter)|;
      q < |input| ==> !ok(input[q])
    ensures RunEnd(input, pos, ok) == pos + |Text(n, base, letter)|
  {
    hide Text;
    var text := Text(n, base, letter);
    TextLetters(n, base, letter, ok);
    forall i | pos <= i < pos + |text|
      ensures ok(input[i])
    {
      assert input[i] == input[pos .. pos + |text|][i - pos];
      assert text[i - pos] in text;
    }
    RunEndIs(input, pos, pos + |text|, ok);
  }

  lemma Base62Letters()
    ensures forall d: nat {:trigger Base62Letter(d)} :: d < 62 ==> IsBase62(Base62Letter(d))
    ensures forall d: nat {:trigger Base62Letter(d)} :: d < 62 ==> Base62Digit(Base62Letter(d)) == d
    ensures !IsBase62('_')
  {
  }

  lemma {:induction false} ReadBase62(e: Env, s: St, n: nat)
    requires Wf(e, s) && !s.error && n <= U64_MAX && At(e.input, s.pos, Base62Text(n))
    ensures ParseBase62(e, s) == (s.(pos := s.pos + |Base62Text(n)|), n)
  {
    hide At, Text, ParseBase62, RunEnd, Base62Letter, Base62Digit, IsBase62;
    Base62Letters();
    ParseBase62Exact(e, s);
    if n == 0 {
      AtHead(e.input, s.pos, "_");
      RunEndIs(e.input, s.pos, s.pos, IsBase62);
    } else {
      var digits := Text(n - 1, 62, Base62Letter);
      AtSplit(e.input, s.pos, digits, "_");
      AtHead(e.input, s.pos + |digits|, "_");
      RunOfText(e.input, s.pos, n - 1, 62, Base62Letter, IsBase62);
      ValueOfText(n - 1, 62, Base62Letter, Base62Digit);
      AtSlice(e.input, s.pos, digits);
    }
  }

  lemma {:induction false} ReadOptional(e: Env, s: St, tag: char, n: nat)
    requires Wf(e, s) && !s.error && n <= U64_MAX && At(e.input, s.pos, MangleOptional(tag, n))
    requires n == 0 && s.pos < |e.input| ==> e.input[s.pos] != tag
    ensures ParseOptionalBase62(e, s, tag) == (s.(pos := s.pos + |MangleOptional(tag, n)|), n)
  {
    hide At, Base62Text, ParseBase62;
    if n > 0 {
      AtCons(e.input, s.pos, tag, Base62Text(n - 1));
      ReadBase62(e, s.(pos := s.pos + 1), n - 1);
    }
  }

  lemma {:induction false} ReadDecimal(e: Env, s: St, n: nat)
    requires Wf(e, s) && !s.error && n <= U64_MAX && At(e.input, s.pos, DecimalText(n))
    requires
      var q := s.pos + |DecimalText(n)|;
      n > 0 && q < |e.input| ==> !IsDigit(e.input[q])
    ensures ParseDecimal(e, s) == (s.(pos := s.pos + |DecimalText(n)|), n)
  {
    hide Text, ParseDecimal, Value, RunEnd;
    var digits := DecimalText(n);
    AtHead(e.input, s.pos, digits);
    ParseDecimalExact(e, s);
    ValueOfText(n, 10, DecimalLetter, DecimalDigit);
    if n == 0 {
      ZeroText();
    } else {
      TextHead(n, 10, DecimalLetter, DecimalDigit);
      RunOfText(e.input, s.pos, n, 10, DecimalLetter, IsDigit);
    }
  }

  lemma ZeroText()
    ensures DecimalText(0) == "0" && HexText(0) == "0"
  {
  }

  lemma {:induction false} ReadHex(e: Env, s: St, n: nat)
    requires Wf(e, s) && !s.error && At(e.input, s.pos, HexText(n) + "_")
    ensures ParseHex(e, s) == (s.(pos := s.pos + |HexText(n) + "_"|), n % (U64_MAX + 1), HexText(n))
  {
    hide Text, ParseHex, Value, RunEnd;
    var digits := HexText(n);
    AtSplit(e.input, s.pos, digits, "_");
    AtHead(e.input, s.pos + |digits|, "_");
    AtHead(e.input, s.pos, digits);
    ParseHexExact(e, s);
    RunOfText(e.input, s.pos, n, 16, HexLetter, IsHexDigit);
    ValueOfText(n, 16, HexLetter, HexDigit);
    if n == 0 {
      ZeroText();
    } else {
      TextHead(n, 16, HexLetter, HexDigit);
    }
  }

  lemma NameIsValid(id: Identifier)
    requires OkName(id)
    ensures AllValid(id.name) && |id.name| <= U64_MAX
  {
  }

  lemma {:induction false} ReadIdentifier(e: Env, s: St, id: Identifier)
    requires Wf(e, s) && !s.error && OkName(id) && At(e.input, s.pos, MangleIdentifier(id))
    requires Clear(e, s.pos + |MangleIdentifier(id)|)
    ensures ParseIdentifier(e, s) == (s.(pos := s.pos + |MangleIdentifier(id)|), id)
  {
    hide At, MangleName, ParseDecimal, AllValid, IdentifierText, OkName;
    NameIsValid(id);
    var prefix := if id.punycode then "u" else "";
    AtSplit(e.input, s.pos, prefix, MangleName(id.name));
    if id.punycode {
      AtHead(e.input, s.pos, prefix);
    }
    var s1 := s.(pos := s.pos + |prefix|);
    ReadName(e, s1, id.name);
    assert ConsumeIf(e, s, 'u') == (s1, id.punycode);
  }

  lemma SeparatorFacts(e: Env, s: St, name: string)
    requires Wf(e, s) && !s.error && At(e.input, s.pos, Separator(name) + name)
    requires Clear(e, s.pos + |Separator(name) + name|)
    ensures ConsumeIf(e, s, '_').0 == s.(pos := s.pos + |Separator(name)|)
    ensures name != "" ==> s.pos < |e.input| && !IsDigit(e.input[s.pos])
  {
    hide At;
    if Separator(name) + name != "" {
      AtHead(e.input, s.pos, Separator(name) + name);
    }
  }

  /** The length, the separator and the bytes of an identifier. */
  lemma ReadName(e: Env, s: St, name: string)
    requires Wf(e, s) && !s.error && |name| <= U64_MAX
    requires At(e.input, s.pos, MangleName(name)) && Clear(e, s.pos + |MangleName(name)|)
    ensures s.pos < |e.input| && IsDigit(e.input[s.pos])
    ensures
      var (s2, n) := ParseDecimal(e, s);
      var s3 := ConsumeIf(e, s2, '_').0;
      && n == |name| && s3.pos + n == s.pos + |MangleName(name)| <= |e.input|
      && s3 == s.(pos := s3.pos)
      && e.input[s3.pos .. s3.pos + n] == name
  {
    hide At, DecimalText, ParseDecimal, Separator;
    var length, rest := DecimalText(|name|), Separator(name) + name;
    var s2 := s.(pos := s.pos + |length|);
    AtSplit(e.input, s.pos, length, rest);
    AtSlice(e.input, s2.pos, rest);
    AtSplit(e.input, s2.pos, Separator(name), name);
    DecimalIsDigits(|name|);
    AtHead(e.input, s.pos, length);
    SeparatorFacts(e, s2, name);
    ReadDecimal(e, s, |name|);
    AtSlice(e.input, s2.pos + |Separator(name)|, name);
  }

  lemma DecimalIsDigits(n: nat)
    ensures |DecimalText(n)| > 0 && IsDigit(DecimalText(n)[0])
  {
    TextLetters(n, 10, DecimalLetter, IsDigit);
    assert DecimalText(n)[0] in DecimalText(n);
  }
}
