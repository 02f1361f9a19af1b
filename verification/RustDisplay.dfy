/**
  What the demangler prints against what a symbol says.  RFC 2603 encodes every identifier in the
  same way; the program decodes Punycode names everywhere except in the bindings of a trait object,
  `dyn Trait<Name = T>`, where it prints the encoded text.  The output is the display of the
  path exactly when no binding that is shown has a Punycode name.
 */
module RustDisplay {
  import opened Basics
  import opened RustLexer
  import opened RustNumbers
  import opened RustGrammar
  import opened RustRoundTrip
  import opened RustRoundTripProof
  import RustDepth
  import Punycode

  // ---------------------------------------------------------------------------------------------
  // Trees whose bindings have plain names
  // ---------------------------------------------------------------------------------------------

  predicate PlainName(id: Identifier) { id.punycode ==> id.name == "" }

  /** No binding that is shown has a Punycode name; the path of an `impl` is not shown. */
  predicate PlainPath(p: PathTree)
  {
    match p
    case Crate(_, _) => true
    case InherentImpl(_, _, self) => PlainType(self)
    case TraitImpl(_, _, self, trt) => PlainType(self) && PlainPath(trt)
    case TraitDef(self, trt) => PlainType(self) && PlainPath(trt)
    case Nested(_, parent, _, _) => PlainPath(parent)
    case Generic(base, args) => PlainPath(base) && PlainArgs(args)
    case PathRef(_, same) => PlainPath(same)
  }

  predicate PlainArgs(args: ArgList)
  {
    match args
    case NoArg => true
    case LifetimeArg(_, rest) => PlainArgs(rest)
    case ConstArg(_, rest) => PlainArgs(rest)
    case TypeArg(t, rest) => PlainType(t) && PlainArgs(rest)
  }

  predicate PlainType(t: TypeTree)
  {
    match t
    case Basic(_) => true
    case Named(p) => PlainPath(p)
    case Array(elem, _) => PlainType(elem)
    case Slice(elem) => PlainType(elem)
    case Tuple(elems) => PlainTypes(elems)
    case Reference(_, _, elem) => PlainType(elem)
    case Pointer(_, elem) => PlainType(elem)
    case Function(_, _, _, params, result) => PlainTypes(params) && PlainType(result)
    case Dyn(_, traits, _) => PlainTraits(traits)
    case TypeRef(_, same) => PlainType(same)
  }

  predicate PlainTypes(ts: TypeSeq)
  {
    match ts case NoType => true case MoreTypes(head, tail) => PlainType(head) && PlainTypes(tail)
  }

  predicate PlainTraits(ts: TraitList)
  {
    match ts
    case NoTrait => true
    case MoreTraits(path, bindings, rest) => PlainPath(path) && PlainBindings(bindings) && PlainTraits(rest)
  }

  predicate PlainBindings(bs: BindingList)
  {
    match bs
    case NoBinding => true
    case MoreBindings(name, value, rest) => PlainName(name) && PlainType(value) && PlainBindings(rest)
  }

  // ---------------------------------------------------------------------------------------------
  // A Punycode name is never its own text
  // ---------------------------------------------------------------------------------------------

  predicate HasHigh(codes: seq<nat>) { exists j :: 0 <= j < |codes| && codes[j] >= 0x80 }

  /** What is inserted is not ASCII, and it stays. */
  lemma {:induction false} ExtendInserts(name: string, idx: nat, n: nat, i: nat, bias: nat, codes: seq<nat>)
    requires idx <= |name| && n >= 0x80 && Punycode.AllLetters(codes) && 0x20 !in codes
    ensures
      var r := Punycode.Extend(name, idx, n, i, bias, codes, Some(U64_MAX));
      r.Some? ==> 0x20 !in r.value && (idx < |name| || HasHigh(codes) ==> HasHigh(r.value))
    decreases |name| - idx
  {
    hide Punycode.Adapt, Punycode.Quot, Punycode.Rem, Punycode.ReadDelta, Punycode.Insert;
    if idx < |name| {
      var delta := Punycode.ReadDelta(name, idx, i, 1, Punycode.BASE, bias, Some(U64_MAX));
      if delta.Some? {
        var (next, i') := delta.value;
        var n' := n + Punycode.Quot(i', |codes| + 1);
        var at := Punycode.Rem(i', |codes| + 1);
        if !Punycode.Exceeds(n', Some(U64_MAX)) && Punycode.IsScalar(n') {
          InsertIs(codes, at, n');
          var bias' := Punycode.Adapt(i' - i, |codes| + 1, i == 0);
          ExtendInserts(name, next, n', at + 1, bias', Punycode.Insert(codes, at, n'));
        }
      }
    }
  }

  lemma InsertIs(codes: seq<nat>, at: nat, cp: nat)
    requires at <= |codes| && Punycode.AllLetters(codes) && Punycode.IsLetter(cp) && cp >= 0x80
    requires 0x20 !in codes
    ensures HasHigh(Punycode.Insert(codes, at, cp)) && 0x20 !in Punycode.Insert(codes, at, cp)
  {
    assert Punycode.Insert(codes, at, cp)[at] == cp;
  }

  /** The encoding has a space or a byte above ASCII only where a code point says so. */
  lemma {:induction false} EncodedBytes(codes: seq<nat>)
    requires Punycode.AllLetters(codes) && 0x20 !in codes
    ensures ' ' !in Punycode.EncodeAll(codes)
    ensures HasHigh(codes) ==> exists c :: c in Punycode.EncodeAll(codes) && c as int >= 0x80
  {
    if codes != [] {
      var first, rest := Punycode.EncodeUtf8(codes[0]), Punycode.EncodeAll(codes[1..]);
      EncodedBytes(codes[1..]);
      EncodedByte(codes[0]);
      assert Punycode.EncodeAll(codes) == first + rest;
      if codes[0] >= 0x80 {
        assert first[0] in first + rest;
      } else if HasHigh(codes) {
        var j :| 0 <= j < |codes| && codes[j] >= 0x80;
        assert codes[1..][j - 1] >= 0x80;
        var c :| c in rest && c as int >= 0x80;
        assert c in first + rest;
      }
    }
  }

  lemma EncodedByte(cp: nat)
    requires Punycode.IsLetter(cp) && cp != 0x20
    ensures ' ' !in Punycode.EncodeUtf8(cp)
    ensures cp >= 0x80 ==> Punycode.EncodeUtf8(cp)[0] as int >= 0x80
  {
  }

  lemma {:induction false} BasicText(text: string)
    requires AllValid(text)
    ensures Punycode.EncodeAll(Punycode.BasicCodes(text)) == text && 0x20 !in Punycode.BasicCodes(text)
  {
    if text != "" {
      var codes := Punycode.BasicCodes(text);
      assert IsValid(text[0]);
      BasicText(text[1..]);
      assert codes[1..] == Punycode.BasicCodes(text[1..]);
      assert Punycode.EncodeUtf8(codes[0]) == [text[0]];
    }
  }

  /** No name is shown with a space, and a Punycode name is shown as it is written only if it is empty. */
  lemma NameTexts(id: Identifier)
    requires OkName(id)
    ensures ' ' !in id.name && ' ' !in ShowId(id)
    ensures ShowId(id) == id.name <==> PlainName(id)
  {
    hide Punycode.Decode, Punycode.EncodeAll;
    NameIsValid(id);
    assert !IsValid(' ');
    if id.punycode {
      var r := Punycode.Decode(id.name, Some(U64_MAX));
      if r.Some? {
        DecodedText(id.name);
      } else if id.name == "" {
        EmptyDecodes();
      }
    }
  }

  lemma EmptyDecodes()
    ensures Punycode.Decode("", Some(U64_MAX)).Some?
  {
  }

  lemma DecodedText(name: string)
    requires AllValid(name) && Punycode.Decode(name, Some(U64_MAX)).Some?
    ensures
      var text := Punycode.EncodeAll(Punycode.Decode(name, Some(U64_MAX)).value);
      ' ' !in text && (text == name <==> name == "")
  {
    hide Punycode.Extend, Punycode.EncodeAll, Punycode.BasicCodes, Punycode.LastDelimiter;
    var d := Punycode.LastDelimiter(name);
    var basic := if d < 0 then "" else name[..d];
    var r := Punycode.Decode(name, Some(U64_MAX)).value;
    BasicText(basic);
    ExtendInserts(name, d + 1, 0x80, 0, 72, Punycode.BasicCodes(basic));
    EncodedBytes(r);
    if d + 1 == |name| {
      NothingInserted(name, d + 1, Punycode.BasicCodes(basic));
    } else {
      var c :| c in Punycode.EncodeAll(r) && c as int >= 0x80;
      assert !IsValid(c);
    }
  }

  lemma NothingInserted(name: string, idx: nat, codes: seq<nat>)
    requires idx == |name| && Punycode.AllLetters(codes)
    ensures Punycode.Extend(name, idx, 0x80, 0, 72, codes, Some(U64_MAX)) == Some(codes)
  {
  }

  // ---------------------------------------------------------------------------------------------
  // Texts that agree, or differ whatever follows
  // ---------------------------------------------------------------------------------------------

  predicate Differ(a: string, b: string) { exists k :: 0 <= k < |a| && k < |b| && a[k] != b[k] }

  predicate Agree(a: string, b: string, plain: bool) { if plain then a == b else Differ(a, b) }

  lemma Joined(a: string, b: string, p: bool, x: string, y: string, q: bool)
    requires Agree(a, b, p) && Agree(x, y, q)
    ensures Agree(a + x, b + y, p && q)
  {
    if !p {
      var k :| 0 <= k < |a| && k < |b| && a[k] != b[k];
      assert (a + x)[k] != (b + y)[k];
    } else if !q {
      var k :| 0 <= k < |x| && k < |y| && x[k] != y[k];
      assert (a + x)[|a| + k] != (b + y)[|b| + k];
    }
  }

  lemma Same(a: string)
    ensures Agree(a, a, true)
  {
  }

  lemma Preceded(front: string, a: string, b: string, p: bool)
    requires Agree(a, b, p)
    ensures Agree(front + a, front + b, p)
  {
    Joined(front, front, true, a, b, p);
  }

  lemma Followed(a: string, b: string, p: bool, back: string)
    requires Agree(a, b, p)
    ensures Agree(a + back, b + back, p)
  {
    Joined(a, b, p, back, back, true);
  }

  /** One part that may differ between two that do not. */
  lemma Around(front: string, a: string, b: string, p: bool, back: string)
    requires Agree(a, b, p)
    ensures Agree(front + a + back, front + b + back, p)
  {
    Preceded(front, a, b, p);
    Followed(front + a, front + b, p, back);
  }

  /** A fixed text, a part that may differ, and another such part. */
  lemma Listed(front: string, a: string, b: string, p: bool, x: string, y: string, q: bool)
    requires Agree(a, b, p) && Agree(x, y, q)
    ensures Agree(front + a + x, front + b + y, p && q)
  {
    Preceded(front, a, b, p);
    Joined(front + a, front + b, p, x, y, q);
  }

  lemma NameAgrees(id: Identifier)
    requires OkName(id)
    ensures Agree(id.name + " = ", ShowId(id) + " = ", PlainName(id))
  {
    hide ShowId, OkName;
    NameTexts(id);
    var a, b := id.name, ShowId(id);
    if a != b {
      var k := FirstDifference(a, b);
      assert (a + " = ")[k] != (b + " = ")[k];
    }
  }

  /** Where two different words first differ, or where the shorter one ends. */
  function FirstDifference(a: string, b: string): (k: nat)
    requires a != b
    ensures k <= |a| && k <= |b| && !(k == |a| == |b|)
    ensures k < |a| && k < |b| ==> a[k] != b[k]
  {
    if a == "" || b == "" || a[0] != b[0] then 0 else 1 + FirstDifference(a[1..], b[1..])
  }

  // ---------------------------------------------------------------------------------------------
  // The two displays of a tree
  // ---------------------------------------------------------------------------------------------

  /** What is printed and what should be: equal for a plain path, and different otherwise. */
  lemma {:induction false} PathAgrees(
    p: PathTree, inType: bool, open: bool, pos: nat, bound: nat, input: string)
    requires OkPath(p, pos, bound, input, true)
    ensures Agree(ShowPath(p, inType, open, bound, true), ShowPath(p, inType, open, bound, false), PlainPath(p))
    decreases p, 3
  {
    hide Agree, ManglePath, MangleType, MangleArgs, MangleOptional, OkType, OkArgs, OkId, OkRef, OkNumber;
    hide ShowType, ShowArgs, ShowNested, ShowId, PlainType, PlainArgs;
    match p {
      case Crate(_, id) => Same(ShowId(id));
      case InherentImpl(dis, impl, self) =>
        TypeAgrees(self, pos + 1 + |MangleOptional('s', dis)| + |ManglePath(impl)|, bound, input);
        Around("<", ShowType(self, bound, true), ShowType(self, bound, false), PlainType(self), ">");
      case TraitImpl(dis, impl, self, trt) =>
        var at := pos + 1 + |MangleOptional('s', dis)| + |ManglePath(impl)|;
        TypeAgrees(self, at, bound, input);
        PathAgrees(trt, true, false, at + |MangleType(self)|, bound, input);
        TraitAgrees(self, trt, bound);
      case TraitDef(self, trt) =>
        TypeAgrees(self, pos + 1, bound, input);
        PathAgrees(trt, true, false, pos + 1 + |MangleType(self)|, bound, input);
        TraitAgrees(self, trt, bound);
      case Nested(ns, parent, dis, id) =>
        PathAgrees(parent, inType, false, pos + 2, bound, input);
        Followed(ShowPath(parent, inType, false, bound, true), ShowPath(parent, inType, false, bound, false),
                 PlainPath(parent), ShowNested(ns, dis, id));
      case Generic(base, args) =>
        PathAgrees(base, inType, false, pos + 1, bound, input);
        ArgsAgree(args, 0, pos + 1 + |ManglePath(base)|, bound, input);
        GenericAgrees(base, args, inType, open, bound);
      case PathRef(target, same) => PathAgrees(same, inType, open, target, bound, input);
    }
  }

  lemma TraitAgrees(self: TypeTree, trt: PathTree, bound: nat)
    requires Agree(ShowType(self, bound, true), ShowType(self, bound, false), PlainType(self))
    requires Agree(ShowPath(trt, true, false, bound, true), ShowPath(trt, true, false, bound, false), PlainPath(trt))
    ensures
      Agree("<" + ShowType(self, bound, true) + " as " + ShowPath(trt, true, false, bound, true) + ">",
            "<" + ShowType(self, bound, false) + " as " + ShowPath(trt, true, false, bound, false) + ">",
            PlainType(self) && PlainPath(trt))
  {
    hide Agree, ShowType, ShowPath, PlainType, PlainPath;
    var a, b, p := ShowType(self, bound, true), ShowType(self, bound, false), PlainType(self);
    var x, y := ShowPath(trt, true, false, bound, true), ShowPath(trt, true, false, bound, false);
    Around("<", a, b, p, " as ");
    Joined("<" + a + " as ", "<" + b + " as ", p, x, y, PlainPath(trt));
    Followed("<" + a + " as " + x, "<" + b + " as " + y, p && PlainPath(trt), ">");
  }

  lemma GenericAgrees(base: PathTree, args: ArgList, inType: bool, open: bool, bound: nat)
    requires
      Agree(ShowPath(base, inType, false, bound, true), ShowPath(base, inType, false, bound, false), PlainPath(base))
    requires Agree(ShowArgs(args, 0, bound, true), ShowArgs(args, 0, bound, false), PlainArgs(args))
    ensures
      Agree(ShowPath(Generic(base, args), inType, open, bound, true),
            ShowPath(Generic(base, args), inType, open, bound, false), PlainPath(base) && PlainArgs(args))
  {
    hide Agree, ShowArgs, ShowType, PlainArgs, PlainPath;
    var mark, end := if inType then "<" else "::<", if open then "" else ">";
    var a, b := ShowPath(base, inType, false, bound, true), ShowPath(base, inType, false, bound, false);
    var x, y, q := ShowArgs(args, 0, bound, true), ShowArgs(args, 0, bound, false), PlainArgs(args);
    Followed(a, b, PlainPath(base), mark);
    Joined(a + mark, b + mark, PlainPath(base), x, y, q);
    Followed(a + mark + x, b + mark + y, PlainPath(base) && q, end);
  }

  lemma {:induction false} ArgsAgree(args: ArgList, i: nat, pos: nat, bound: nat, input: string)
    requires OkArgs(args, pos, bound, input, true)
    ensures Agree(ShowArgs(args, i, bound, true), ShowArgs(args, i, bound, false), PlainArgs(args))
    decreases args, 3
  {
    hide Agree, MangleType, MangleConst, Base62Text, OkType, OkConst, ShowType, ShowConst, ShowLifetime, PlainType;
    hide Comma;
    match args {
      case NoArg => Same("");
      case LifetimeArg(index, rest) =>
        ArgsAgree(rest, i + 1, pos + 1 + |Base62Text(index)|, bound, input);
        Preceded(Comma(i) + ShowLifetime(index, bound), ShowArgs(rest, i + 1, bound, true),
                 ShowArgs(rest, i + 1, bound, false), PlainArgs(rest));
      case ConstArg(c, rest) =>
        ArgsAgree(rest, i + 1, pos + 1 + |MangleConst(c)|, bound, input);
        Preceded(Comma(i) + ShowConst(c), ShowArgs(rest, i + 1, bound, true),
                 ShowArgs(rest, i + 1, bound, false), PlainArgs(rest));
      case TypeArg(t, rest) =>
        TypeAgrees(t, pos, bound, input);
        ArgsAgree(rest, i + 1, pos + |MangleType(t)|, bound, input);
        Listed(Comma(i), ShowType(t, bound, true), ShowType(t, bound, false), PlainType(t),
               ShowArgs(rest, i + 1, bound, true), ShowArgs(rest, i + 1, bound, false), PlainArgs(rest));
    }
  }

  lemma {:induction false} TypeAgrees(t: TypeTree, pos: nat, bound: nat, input: string)
    requires OkType(t, pos, bound, input, true)
    ensures Agree(ShowType(t, bound, true), ShowType(t, bound, false), PlainType(t))
    decreases t, 3
  {
    hide Agree, ManglePath, MangleType, MangleTypes, MangleTraits, MangleOptional, MangleQualifiers, MangleLifetime;
    hide OkPath, OkTypes, OkTraits, OkConst, OkRef, OkBinder, OkId, OkNumber, PlainPath, PlainTypes, PlainTraits;
    hide ShowPath, ShowTypes, ShowTraits, ShowConst, ShowRefLifetime, ShowBinder, ShowQualifiers, ShowLifetime;
    hide ShowResult;
    match t {
      case Basic(b) => Same(ShowBasic(b));
      case Named(p) => PathAgrees(p, true, false, pos, bound, input);
      case Array(elem, len) =>
        TypeAgrees(elem, pos + 1, bound, input);
        ArrayAgrees(elem, len, bound);
      case Slice(elem) =>
        TypeAgrees(elem, pos + 1, bound, input);
        Around("[", ShowType(elem, bound, true), ShowType(elem, bound, false), PlainType(elem), "]");
      case Tuple(elems) =>
        TypesAgree(elems, 0, pos + 1, bound, input);
        Around("(", ShowTypes(elems, 0, bound, true), ShowTypes(elems, 0, bound, false), PlainTypes(elems),
               if elems.MoreTypes? && elems.tail.NoType? then ",)" else ")");
      case Reference(mut, lifetime, elem) =>
        TypeAgrees(elem, pos + 1 + |MangleLifetime(lifetime)|, bound, input);
        Preceded("&" + ShowRefLifetime(lifetime, bound) + (if mut then "mut " else ""),
                 ShowType(elem, bound, true), ShowType(elem, bound, false), PlainType(elem));
      case Pointer(mut, elem) =>
        TypeAgrees(elem, pos + 1, bound, input);
        Preceded(if mut then "*mut " else "*const ",
                 ShowType(elem, bound, true), ShowType(elem, bound, false), PlainType(elem));
      case Function(_, _, _, _, _) => FunctionAgrees(t, pos, bound, input);
      case Dyn(_, _, _) => DynAgrees(t, pos, bound, input);
      case TypeRef(target, same) => TypeAgrees(same, target, bound, input);
    }
  }

  lemma ArrayAgrees(elem: TypeTree, len: ConstTree, bound: nat)
    requires Agree(ShowType(elem, bound, true), ShowType(elem, bound, false), PlainType(elem))
    ensures
      Agree("[" + ShowType(elem, bound, true) + "; " + ShowConst(len) + "]",
            "[" + ShowType(elem, bound, false) + "; " + ShowConst(len) + "]", PlainType(elem))
  {
    hide Agree, ShowType, ShowConst, PlainType;
    var a, b, p := ShowType(elem, bound, true), ShowType(elem, bound, false), PlainType(elem);
    Around("[", a, b, p, "; ");
    Followed("[" + a + "; ", "[" + b + "; ", p, ShowConst(len));
    Followed("[" + a + "; " + ShowConst(len), "[" + b + "; " + ShowConst(len), p, "]");
  }

  lemma {:induction false} TypesAgree(ts: TypeSeq, i: nat, pos: nat, bound: nat, input: string)
    requires OkTypes(ts, pos, bound, input, true)
    ensures Agree(ShowTypes(ts, i, bound, true), ShowTypes(ts, i, bound, false), PlainTypes(ts))
    decreases ts, 3
  {
    hide Agree, MangleType, OkType, ShowType, PlainType, Comma;
    match ts {
      case NoType => Same("");
      case MoreTypes(head, tail) =>
        TypeAgrees(head, pos, bound, input);
        TypesAgree(tail, i + 1, pos + |MangleType(head)|, bound, input);
        Listed(Comma(i), ShowType(head, bound, true), ShowType(head, bound, false), PlainType(head),
               ShowTypes(tail, i + 1, bound, true), ShowTypes(tail, i + 1, bound, false), PlainTypes(tail));
    }
  }

  lemma {:induction false} ResultAgrees(result: TypeTree, pos: nat, bound: nat, input: string)
    requires OkType(result, pos, bound, input, true)
    ensures Agree(ShowResult(result, bound, true), ShowResult(result, bound, false), PlainType(result))
    decreases result, 4
  {
    hide Agree, ShowType;
    if result == Basic(Unit) {
      Same("");
    } else {
      TypeAgrees(result, pos, bound, input);
      Preceded(" -> ", ShowType(result, bound, true), ShowType(result, bound, false), PlainType(result));
    }
  }

  lemma {:induction false} FunctionAgrees(t: TypeTree, pos: nat, bound: nat, input: string)
    requires OkType(t, pos, bound, input, true) && t.Function?
    ensures Agree(ShowType(t, bound, true), ShowType(t, bound, false), PlainType(t))
    decreases t, 2
  {
    hide Agree, MangleType, MangleTypes, MangleOptional, MangleQualifiers, OkTypes, OkBinder, OkId, PlainTypes;
    hide ShowTypes, ShowBinder, ShowQualifiers, ShowResult;
    var front := pos + 1 + |MangleOptional('G', t.binder)| + |MangleQualifiers(t.isUnsafe, t.abi)|;
    var inner := bound + t.binder;
    TypesAgree(t.params, 0, front, inner, input);
    ResultAgrees(t.result, front + |MangleTypes(t.params)|, inner, input);
    var head := ShowBinder(t.binder, bound) + ShowQualifiers(t.isUnsafe, t.abi) + "fn(";
    var a, b, p := ShowTypes(t.params, 0, inner, true), ShowTypes(t.params, 0, inner, false), PlainTypes(t.params);
    Around(head, a, b, p, ")");
    Joined(head + a + ")", head + b + ")", p,
           ShowResult(t.result, inner, true), ShowResult(t.result, inner, false), PlainType(t.result));
  }

  lemma {:induction false} DynAgrees(t: TypeTree, pos: nat, bound: nat, input: string)
    requires OkType(t, pos, bound, input, true) && t.Dyn?
    ensures Agree(ShowType(t, bound, true), ShowType(t, bound, false), PlainType(t))
    decreases t, 2
  {
    hide Agree, MangleOptional, OkTraits, OkBinder, OkNumber, PlainTraits, ShowTraits, ShowBinder, ShowLifetime;
    var inner := bound + t.binder;
    TraitsAgree(t.traits, 0, pos + 1 + |MangleOptional('G', t.binder)|, inner, input);
    Around("dyn " + ShowBinder(t.binder, bound), ShowTraits(t.traits, 0, inner, true),
           ShowTraits(t.traits, 0, inner, false), PlainTraits(t.traits),
           if t.index == 0 then "" else " + " + ShowLifetime(t.index, bound));
  }

  lemma {:induction false} TraitsAgree(ts: TraitList, i: nat, pos: nat, bound: nat, input: string)
    requires OkTraits(ts, pos, bound, input, true)
    ensures Agree(ShowTraits(ts, i, bound, true), ShowTraits(ts, i, bound, false), PlainTraits(ts))
    decreases ts, 3
  {
    hide Agree, ManglePath, MangleBindings, OkPath, OkBindings, ShowPath, ShowBindings, HasArgs, CloseTrait;
    hide PlainPath, PlainBindings;
    match ts {
      case NoTrait => Same("");
      case MoreTraits(path, bindings, rest) =>
        var open := HasArgs(path, true);
        PathAgrees(path, true, true, pos, bound, input);
        BindingsAgree(bindings, open, pos + |ManglePath(path)|, bound, input);
        TraitsAgree(rest, i + 1, pos + |ManglePath(path)| + |MangleBindings(bindings)|, bound, input);
        var plus, end := if i > 0 then " + " else "", CloseTrait(path, bindings);
        var a, b, p :=
          ShowPath(path, true, true, bound, true), ShowPath(path, true, true, bound, false), PlainPath(path);
        var x, y, q := ShowBindings(bindings, open, bound, true), ShowBindings(bindings, open, bound, false),
                       PlainBindings(bindings);
        Listed(plus, a, b, p, x, y, q);
        Followed(plus + a + x, plus + b + y, p && q, end);
        Joined(plus + a + x + end, plus + b + y + end, p && q, ShowTraits(rest, i + 1, bound, true),
               ShowTraits(rest, i + 1, bound, false), PlainTraits(rest));
    }
  }

  lemma {:induction false} BindingsAgree(bs: BindingList, open: bool, pos: nat, bound: nat, input: string)
    requires OkBindings(bs, pos, bound, input, true)
    ensures Agree(ShowBindings(bs, open, bound, true), ShowBindings(bs, open, bound, false), PlainBindings(bs))
    decreases bs, 3
  {
    hide Agree, MangleIdentifier, MangleType, OkName, OkType, ShowType, ShowId, PlainType, PlainName;
    match bs {
      case NoBinding => Same("");
      case MoreBindings(name, value, rest) =>
        var front := pos + 1 + |MangleIdentifier(name)|;
        TypeAgrees(value, front, bound, input);
        BindingsAgree(rest, true, front + |MangleType(value)|, bound, input);
        NameAgrees(name);
        var mark := if open then ", " else "<";
        var a, b, p := name.name + " = ", ShowId(name) + " = ", PlainName(name);
        var x, y, q := ShowType(value, bound, true), ShowType(value, bound, false), PlainType(value);
        Listed(mark, a, b, p, x, y, q);
        Joined(mark + a + x, mark + b + y, p && q, ShowBindings(rest, true, bound, true),
               ShowBindings(rest, true, bound, false), PlainBindings(rest));
        Assoc(mark, name.name, " = ");
        Assoc(mark, ShowId(name), " = ");
    }
  }

  // ---------------------------------------------------------------------------------------------
  // The whole symbol
  // ---------------------------------------------------------------------------------------------

  /**
    The demangler on every well-formed symbol: it refuses exactly those that are nested too
    deeply, and what it prints for the others is their display exactly when no binding that is
    shown has a Punycode name.
   */
  lemma {:induction false} DemangleExact(p: PathTree, crate: Option<PathTree>, suffix: string)
    requires OkSymbol(p, crate) && (suffix != "" ==> suffix[0] == '.')
    ensures
      var t := Demangle("_R" + (SymbolText(p, crate) + suffix), MAX_LEVEL);
      && (t.error <==> !SymbolFits(p, crate, MAX_LEVEL))
      && (!t.error ==>
            (t.out == ShowPath(p, false, false, 0, false) + ShowSuffix(suffix) <==> PlainPath(p)))
  {
    hide Demangle, SymbolText, SymbolFits, ShowPath, OkPath, ShowSuffix, PlainPath;
    RustDepth.BudgetDecides(p, crate, suffix, MAX_LEVEL);
    if SymbolFits(p, crate, MAX_LEVEL) {
      DemangleInvertsMangle(p, crate, suffix, MAX_LEVEL);
      PathAgrees(p, false, false, 0, 0, SymbolText(p, crate));
      Followed(ShowPath(p, false, false, 0, true), ShowPath(p, false, false, 0, false), PlainPath(p),
               ShowSuffix(suffix));
    }
  }

  // ---------------------------------------------------------------------------------------------
  // A symbol that is not shown as it should be
  // ---------------------------------------------------------------------------------------------

  const NAME: Identifier := Identifier("a_", true)

  /** `dyn b<a = u8>`, the name of the associated type in Punycode. */
  function ExampleBindings(): BindingList { MoreBindings(NAME, Basic(U8), NoBinding) }

  function ExampleTraits(): TraitList
  {
    MoreTraits(Crate(0, Identifier("b", false)), ExampleBindings(), NoTrait)
  }

  function BindingExample(): PathTree
  {
    Generic(Crate(0, Identifier("a", false)), TypeArg(Dyn(0, ExampleTraits(), 0), NoArg))
  }

  lemma NameShown()
    ensures ShowId(NAME) == "a" && OkName(NAME)
  {
    hide Punycode.Extend;
    var codes := Punycode.BasicCodes("a");
    assert "a_"[..1] == "a" && Punycode.LastDelimiter("a_") == 1;
    NothingInserted("a_", 2, codes);
    BasicText("a");
  }

  lemma ExampleTraitsShown(raw: bool)
    ensures ShowTraits(ExampleTraits(), 0, 0, raw) == "b<" + BindingName(NAME, raw) + " = u8>"
  {
    hide ShowId, BindingName;
    ExampleTexts();
    assert ShowBindings(ExampleBindings(), false, 0, raw) == "<" + BindingName(NAME, raw) + " = " + "u8";
  }

  lemma ExampleTraitsOk(pos: nat, input: string)
    ensures OkTraits(ExampleTraits(), pos, 0, input, true) && TraitsDepth(ExampleTraits(), true) == 1
  {
    hide OkId, OkName, ManglePath, MangleIdentifier, MangleType;
    NameShown();
    ExampleTexts();
    var at := pos + |ManglePath(ExampleTraits().path)|;
    assert OkBindings(ExampleBindings(), at, 0, input, true);
    assert BindingsDepth(ExampleBindings(), true) == 1;
  }

  lemma ExampleTypeOk(pos: nat, input: string)
    ensures
      var t := Dyn(0, ExampleTraits(), 0);
      OkType(t, pos, 0, input, true) && TypeDepth(t, true) == 2 && !PlainType(t)
  {
    hide OkTraits, TraitsDepth;
    ExampleTraitsOk(pos + 1, input);
    assert !PlainName(NAME);
    assert !PlainBindings(ExampleBindings());
  }

  lemma ExampleArgsOk(t: TypeTree, pos: nat, input: string)
    requires OkType(t, pos, 0, input, true)
    ensures OkArgs(TypeArg(t, NoArg), pos, 0, input, true)
    ensures ArgsDepth(TypeArg(t, NoArg), true) == TypeDepth(t, true) && PlainArgs(TypeArg(t, NoArg)) == PlainType(t)
  {
    hide OkType, TypeDepth, PlainType, MangleType;
    assert ArgsDepth(NoArg, true) == 0;
  }

  lemma BindingExampleOk(input: string)
    ensures OkPath(BindingExample(), 0, 0, input, true) && PathDepth(BindingExample(), true) <= 4
    ensures !PlainPath(BindingExample())
  {
    hide OkId, OkType, TypeDepth, PlainType, ManglePath, ExampleTraits, MangleType;
    ExampleTexts();
    var base, t := BindingExample().base, Dyn(0, ExampleTraits(), 0);
    var at := 1 + |ManglePath(base)|;
    ExampleTypeOk(at, input);
    ExampleArgsOk(t, at, input);
    assert OkPath(base, 1, 0, input, true) && PathDepth(base, true) == 1;
  }

  lemma ExampleTraitsMangled()
    ensures MangleTraits(ExampleTraits()) == "C1b" + ("pu2a_h" + "E")
  {
    hide MangleName;
    ExampleTexts();
    NameMangled();
    assert MangleBindings(ExampleBindings()) == "p" + (("u2a_" + "h") + "");
  }

  lemma NameMangled()
    ensures MangleIdentifier(NAME) == "u2a_"
  {
    assert DecimalText(2) == "2";
  }

  lemma BindingExampleMangled()
    ensures ManglePath(BindingExample()) == "IC1aDC1bpu2a_hEL_E"
  {
    hide MangleTraits, MangleIdentifier;
    ExampleTexts();
    ExampleTraitsMangled();
    var t := Dyn(0, ExampleTraits(), 0);
    assert MangleType(t) == "D" + (("" + MangleTraits(ExampleTraits())) + ("L" + "_"));
    assert MangleType(t) == "DC1bpu2a_hEL_";
    assert MangleArgs(TypeArg(t, NoArg)) == MangleType(t) + "E";
  }

  /** A symbol that is not plain, without crate and suffix, is not shown as it should be. */
  lemma NotPlainShown(p: PathTree)
    requires OkPath(p, 0, 0, ManglePath(p), true) && PathDepth(p, true) <= MAX_LEVEL && !PlainPath(p)
    ensures
      var t := Demangle("_R" + ManglePath(p), MAX_LEVEL);
      && !t.error && t.out == ShowPath(p, false, false, 0, true) && t.out != ShowPath(p, false, false, 0, false)
  {
    hide Demangle, ManglePath, OkPath, ShowPath, PathDepth, PlainPath;
    NothingAppended(ManglePath(p));
    NothingAppended(ShowPath(p, false, false, 0, true));
    NothingAppended(ShowPath(p, false, false, 0, false));
    DemangleInvertsMangle(p, None, "", MAX_LEVEL);
    DemangleExact(p, None, "");
  }

  /** The program shows the trait as `b<a_ = u8>` where the symbol says `b<a = u8>`. */
  lemma ExampleTraitTexts()
    ensures ShowTraits(ExampleTraits(), 0, 0, true) == "b<" + "a_" + " = u8>"
    ensures ShowTraits(ExampleTraits(), 0, 0, false) == "b<" + "a" + " = u8>"
  {
    hide ShowTraits, ExampleTraits, ShowId;
    ExampleTraitsShown(true);
    ExampleTraitsShown(false);
    NameShown();
  }

  /** `_RIC1aDC1bpu2a_hEL_E` has a binding `a_ = u8` in the output that should read `a = u8`. */
  lemma PunycodeBindingUndecoded()
    ensures
      var t := Demangle("_R" + ManglePath(BindingExample()), MAX_LEVEL);
      && !t.error && t.out == ShowPath(BindingExample(), false, false, 0, true)
      && t.out != ShowPath(BindingExample(), false, false, 0, false)
    ensures ManglePath(BindingExample()) == "IC1aDC1bpu2a_hEL_E"
  {
    hide Demangle, ManglePath, OkPath, ShowPath, PathDepth, BindingExample, PlainPath;
    BindingExampleMangled();
    BindingExampleOk(ManglePath(BindingExample()));
    NotPlainShown(BindingExample());
  }
}
