/** Demangling a mangled tree displays the tree: the proof, one lemma per grammar function. */
module RustRoundTripProof {
  import opened Basics
  import opened RustLexer
  import opened RustNumbers
  import opened RustGrammar
  import opened RustDryRun
  import opened RustRoundTrip

  // ---------------------------------------------------------------------------------------------
  // What the program prints and what it accepts, piece by piece
  // ---------------------------------------------------------------------------------------------

  lemma PrintsLifetime(index: nat, bound: nat)
    ensures 0 < index <= bound ==> LifetimeName(bound - index) == ShowLifetime(index, bound)
    ensures index == 0 ==> ShowLifetime(index, bound) == "'_"
  {
    hide LifetimeName, BoundName;
    if 0 < index <= bound {
      PrintsBoundName(bound - index);
    }
  }

  lemma PrintsBasic(b: BasicType)
    ensures BasicTypeName(b) == ShowBasic(b)
  {
  }

  lemma PrintsChar(code: nat)
    ensures CharText(code, HexText(code)) == ShowChar(code)
  {
    hide HexText;
  }

  lemma PrintsSpecial(ns: char)
    ensures SpecialName(ns) == ShowSpecial(ns)
  {
  }

  lemma {:induction false} PrintsDashed(name: string)
    ensures AbiText(name) == Dashed(name)
  {
    if name != "" {
      PrintsDashed(name[1..]);
      assert Dashed(name) == [Dashed(name)[0]] + Dashed(name[1..]);
    }
  }

  /** The letters of RFC 2603 for the basic types, and what each of them means. */
  function LetterText(c: char): Option<string>
  {
    match c
    case 'a' => Some("i8") case 's' => Some("i16") case 'l' => Some("i32") case 'x' => Some("i64")
    case 'n' => Some("i128") case 'i' => Some("isize") case 'h' => Some("u8") case 't' => Some("u16")
    case 'm' => Some("u32") case 'y' => Some("u64") case 'o' => Some("u128") case 'j' => Some("usize")
    case 'f' => Some("f32") case 'd' => Some("f64") case 'b' => Some("bool") case 'c' => Some("char")
    case 'e' => Some("str") case 'u' => Some("()") case 'z' => Some("!") case 'v' => Some("...")
    case 'p' => Some("_")
    case _ => None
  }

  /** Each of these letters is read as a type, and its text is what is printed for it. */
  lemma LettersShown(e: Env, s: St)
    requires Going(e, s) && s.pos < |e.input| && LetterText(e.input[s.pos]).Some?
    ensures TypeBody(e, s) == Say(s, 1, LetterText(e.input[s.pos]).value)
  {
  }

  // ---------------------------------------------------------------------------------------------
  // Constants
  // ---------------------------------------------------------------------------------------------

  lemma HexIsExact(n: nat)
    requires |HexText(n)| <= 16
    ensures n % (U64_MAX + 1) == n
  {
    hide Text, Value;
    HexFits(HexText(n));
    ValueOfText(n, 16, HexLetter, HexDigit);
  }

  lemma {:induction false} ConstIntShown(e: Env, s: St, negative: bool, value: nat)
    requires Going(e, s)
    requires At(e.input, s.pos, (if negative then "n" else "") + (HexText(value) + "_"))
    ensures
      ConstInt(e, s) ==
      Say(s, |(if negative then "n" else "") + (HexText(value) + "_")|, ShowConst(IntConst(I8, negative, value)))
  {
    hide At, ParseHex, HexText, DecimalText;
    var sign := if negative then "n" else "";
    AtSplit(e.input, s.pos, sign, HexText(value) + "_");
    HexHead(value);
    AtHead(e.input, s.pos + |sign|, HexText(value) + "_");
    if negative {
      AtHead(e.input, s.pos, sign);
    }
    var s2 := Say(s, |sign|, if negative then "-" else "");
    ReadHex(e, s2, value);
    var k, minus := |HexText(value) + "_"|, if negative then "-" else "";
    assert Say(s, 0, "") == s;
    if |HexText(value)| <= 16 {
      HexIsExact(value);
      SaySay(s, |sign|, minus, k, DecimalText(value));
    } else {
      SaySay(s2, k, "0x", 0, HexText(value));
      SaySay(s, |sign|, minus, k, "0x" + HexText(value));
    }
  }

  lemma HexHead(n: nat)
    ensures |HexText(n)| > 0 && IsHexDigit(HexText(n)[0])
  {
    TextLetters(n, 16, HexLetter, IsHexDigit);
    assert HexText(n)[0] in HexText(n);
  }

  lemma {:induction false} ConstShown(e: Env, s: St, c: ConstTree)
    requires Going(e, s) && OkConst(c, s.pos, e.input, s.printing) && s.level + ConstDepth(c, s.printing) <= e.maxLevel
    requires At(e.input, s.pos, MangleConst(c))
    ensures Const(e, s) == Say(s, |MangleConst(c)|, ShowConst(c))
    decreases c, 1
  {
    hide At, ConstBody, HexText, ShowConst;
    var d := Deeper(s);
    match c
    case IntConst(kind, negative, value) => IntCase(e, d, kind, negative, value);
    case BoolConst(b) => BoolCase(e, d, b);
    case CharConst(code) => CharCase(e, d, code);
    case PlaceholderConst => PlaceholderCase(e, d);
    case ConstRef(target, same) => ConstRefCase(e, d, c);
  }

  /** The number behind a `B`, and that it points back. */
  lemma {:induction false} RefShown(e: Env, s: St, target: nat)
    requires Going(e, s) && OkNumber(target) && target < s.pos && At(e.input, s.pos, MangleRef(target))
    ensures s.pos < |e.input| && e.input[s.pos] == 'B'
    ensures
      var s1 := s.(pos := s.pos + 1);
      && ParseBase62(e, s1) == (s.(pos := s.pos + |MangleRef(target)|), target)
      && s.pos + |MangleRef(target)| <= |e.input|
  {
    hide At, ParseBase62, Base62Text;
    AtSlice(e.input, s.pos, MangleRef(target));
    AtCons(e.input, s.pos, 'B', Base62Text(target));
    ReadBase62(e, s.(pos := s.pos + 1), target);
  }

  lemma NotBasic()
    ensures ParseBasicType('B') == None
  {
  }

  lemma {:induction false} ConstRefCase(e: Env, s: St, c: ConstTree)
    requires Going(e, s) && c.ConstRef? && OkConst(c, s.pos, e.input, s.printing)
    requires s.level + ConstDepth(c, s.printing) <= e.maxLevel + 1
    requires At(e.input, s.pos, MangleConst(c))
    ensures ConstBody(e, s) == Say(s, |MangleConst(c)|, ShowConst(c))
    decreases c, 0
  {
    hide At, Const, ParseBase62, MangleRef, ClearAt, ConstInt, ConstBool, ConstChar, HexText, DecimalText, CharText;
    hide ParseBasicType, IsInteger;
    NotBasic();
    RefShown(e, s, c.target);
    if s.printing {
      ConstShown(e, s.(pos := c.target), c.same);
    }
  }

  lemma {:induction false} IntCase(e: Env, s: St, kind: BasicType, negative: bool, value: nat)
    requires Going(e, s) && OkConst(IntConst(kind, negative, value), s.pos, e.input, s.printing)
    requires At(e.input, s.pos, MangleConst(IntConst(kind, negative, value)))
    ensures
      ConstBody(e, s) ==
      Say(s, |MangleConst(IntConst(kind, negative, value))|, ShowConst(IntConst(kind, negative, value)))
  {
    hide At, ConstInt, HexText, DecimalText, ParseBasicType, BasicLetter;
    AtCons(e.input, s.pos, BasicLetter(kind), (if negative then "n" else "") + (HexText(value) + "_"));
    ConstIntShown(e, s.(pos := s.pos + 1), negative, value);
  }

  lemma {:induction false} BoolCase(e: Env, s: St, b: bool)
    requires Going(e, s) && At(e.input, s.pos, MangleConst(BoolConst(b)))
    ensures ConstBody(e, s) == Say(s, |MangleConst(BoolConst(b))|, ShowConst(BoolConst(b)))
  {
    hide At, ConstBool;
    var rest := if b then "1_" else "0_";
    assert "b" + rest == MangleConst(BoolConst(b));
    AtCons(e.input, s.pos, 'b', rest);
    ConstBoolShown(e, s.(pos := s.pos + 1), b);
  }

  lemma {:induction false} CharCase(e: Env, s: St, code: nat)
    requires Going(e, s) && |HexText(code)| <= 6 && At(e.input, s.pos, MangleConst(CharConst(code)))
    ensures ConstBody(e, s) == Say(s, |MangleConst(CharConst(code))|, ShowConst(CharConst(code)))
  {
    hide At, ConstChar, HexText, ShowChar;
    AtCons(e.input, s.pos, 'c', HexText(code) + "_");
    ConstCharShown(e, s.(pos := s.pos + 1), code);
  }

  lemma {:induction false} PlaceholderCase(e: Env, s: St)
    requires Going(e, s) && At(e.input, s.pos, MangleConst(PlaceholderConst))
    ensures ConstBody(e, s) == Say(s, |MangleConst(PlaceholderConst)|, ShowConst(PlaceholderConst))
  {
    hide At;
    AtHead(e.input, s.pos, "p");
  }

  lemma {:induction false} ConstBoolShown(e: Env, s: St, b: bool)
    requires Going(e, s) && At(e.input, s.pos, if b then "1_" else "0_")
    ensures ConstBool(e, s) == Say(s, 2, if b then "true" else "false")
  {
    hide At, ParseHex;
    assert HexText(1) == "1" && HexText(0) == "0";
    assert HexText(if b then 1 else 0) + "_" == if b then "1_" else "0_";
    ReadHex(e, s, if b then 1 else 0);
  }

  lemma {:induction false} ConstCharShown(e: Env, s: St, code: nat)
    requires Going(e, s) && |HexText(code)| <= 6 && At(e.input, s.pos, HexText(code) + "_")
    ensures ConstChar(e, s) == Say(s, |HexText(code) + "_"|, ShowConst(CharConst(code)))
  {
    hide At, ParseHex, HexText, CharText, ShowChar;
    PrintsChar(code);
    ReadHex(e, s, code);
    HexIsExact(code);
  }

  // ---------------------------------------------------------------------------------------------
  // Paths
  // ---------------------------------------------------------------------------------------------

  predicate PathReady(e: Env, s: St, p: PathTree)
  {
    && Going(e, s) && OkPath(p, s.pos, s.bound, e.input, s.printing)
    && s.level + PathDepth(p, s.printing) <= e.maxLevel + 1
    && At(e.input, s.pos, ManglePath(p)) && Clear(e, s.pos + |ManglePath(p)|)
  }

  ghost predicate PathDone(e: Env, s: St, p: PathTree, inType: bool, leaveOpen: bool)
    requires Wf(e, s)
  {
    PathBody(e, s, inType, leaveOpen) ==
    (Say(s, |ManglePath(p)|, ShowPath(p, inType, leaveOpen, s.bound, true)), HasArgs(p, s.printing) && leaveOpen)
  }

  /** A path, wherever it stands: read to its end and displayed. */
  lemma {:induction false} PathShown(e: Env, s: St, p: PathTree, inType: bool, leaveOpen: bool)
    requires Going(e, s) && OkPath(p, s.pos, s.bound, e.input, s.printing)
    requires s.level + PathDepth(p, s.printing) <= e.maxLevel
    requires At(e.input, s.pos, ManglePath(p)) && Clear(e, s.pos + |ManglePath(p)|)
    ensures
      Path(e, s, inType, leaveOpen) ==
      (Say(s, |ManglePath(p)|, ShowPath(p, inType, leaveOpen, s.bound, true)), HasArgs(p, s.printing) && leaveOpen)
    decreases PathSize(p), 1
  {
    hide At, PathBody, ManglePath, ShowPath, OkPath, PathDepth;
    PathDepthPositive(p);
    var d := Deeper(s);
    match p
    case Crate(_, _) => CrateCase(e, d, p, inType, leaveOpen);
    case InherentImpl(_, _, _) => InherentCase(e, d, p, inType, leaveOpen);
    case TraitImpl(_, _, _, _) => TraitImplCase(e, d, p, inType, leaveOpen);
    case TraitDef(_, _) => TraitDefCase(e, d, p, inType, leaveOpen);
    case Nested(_, _, _, _) => NestedCase(e, d, p, inType, leaveOpen);
    case Generic(_, _) => GenericCase(e, d, p, inType, leaveOpen);
    case PathRef(_, _) => PathRefCase(e, d, p, inType, leaveOpen);
  }

  lemma PathRefParts(p: PathTree, inType: bool, leaveOpen: bool, pos: nat, bound: nat, input: string, printing: bool)
    requires OkPath(p, pos, bound, input, printing) && p.PathRef?
    ensures OkRef(p.target, ManglePath(p.same), pos, input, printing)
    ensures printing ==> OkPath(p.same, p.target, bound, input, true)
    ensures PathDepth(p, true) == 1 + PathDepth(p.same, true) && PathDepth(p, false) == 1
    ensures PathSize(p.same) < PathSize(p) && ManglePath(p) == MangleRef(p.target)
    ensures HasArgs(p, true) == HasArgs(p.same, true) && !HasArgs(p, false)
    ensures ShowPath(p, inType, leaveOpen, bound, true) == ShowPath(p.same, inType, leaveOpen, bound, true)
  {
    hide MangleRef, OkRef, MangleArgs, OkArgs, ArgsDepth, ArgsSize, MangleType, OkType, TypeDepth, TypeSize, ShowType;
    hide ShowArgs;
  }

  lemma {:induction false} PathRefCase(e: Env, s: St, p: PathTree, inType: bool, leaveOpen: bool)
    requires PathReady(e, s, p) && p.PathRef?
    ensures PathDone(e, s, p, inType, leaveOpen)
    decreases PathSize(p), 0
  {
    hide At, Path, ParseBase62, MangleRef, InherentPath, ImplPath, CratePath, TraitPath, NestedPath, GenericPath;
    hide ManglePath, ShowPath, OkPath, PathDepth, PathSize, HasArgs;
    PathRefParts(p, inType, leaveOpen, s.pos, s.bound, e.input, s.printing);
    RefShown(e, s, p.target);
    if s.printing {
      PathShown(e, s.(pos := p.target), p.same, inType, leaveOpen);
    }
    var s1 := s.(pos := s.pos + 1);
    var s2 := s.(pos := s.pos + |MangleRef(p.target)|);
    assert s2.(pos := p.target) == s.(pos := p.target);
    assert BackrefPath(e, s1, inType, leaveOpen) ==
           (Say(s, |MangleRef(p.target)|, ShowPath(p.same, inType, leaveOpen, s.bound, true)),
            HasArgs(p, s.printing) && leaveOpen);
    assert RustLexer.Consume(e, s) == (s1, 'B');
  }

  lemma PathDepthPositive(p: PathTree)
    ensures PathDepth(p, true) >= 1 && PathDepth(p, false) >= 1
  {
  }

  lemma {:induction false} CrateCase(e: Env, s: St, p: PathTree, inType: bool, leaveOpen: bool)
    requires PathReady(e, s, p) && p.Crate?
    ensures PathDone(e, s, p, inType, leaveOpen)
  {
    hide At, CratePath, MangleIdentifier, MangleOptional, ShowId, OkId;
    AtCons(e.input, s.pos, 'C', MangleOptional('s', p.dis) + MangleIdentifier(p.id));
    CrateShown(e, s.(pos := s.pos + 1), p.dis, p.id);
  }

  /** The definitions for an `impl` path and for trait paths, one layer deep. */
  lemma ImplParts(p: PathTree, inType: bool, leaveOpen: bool, pos: nat, bound: nat, input: string, printing: bool)
    requires OkPath(p, pos, bound, input, printing) && p.InherentImpl?
    ensures
      var front := pos + 1 + |MangleOptional('s', p.dis)|;
      && OkNumber(p.dis) && OkPath(p.impl, front, bound, input, false)
      && OkType(p.self, front + |ManglePath(p.impl)|, bound, input, printing)
    ensures forall b :: PathDepth(p, b) == 1 + Max(PathDepth(p.impl, false), TypeDepth(p.self, b))
    ensures PathSize(p.impl) < PathSize(p) && TypeSize(p.self) < PathSize(p)
    ensures ManglePath(p) == "M" + ((MangleOptional('s', p.dis) + ManglePath(p.impl)) + MangleType(p.self))
    ensures ShowPath(p, inType, leaveOpen, bound, true) == "<" + ShowType(p.self, bound, true) + ">"
  {
    hide MangleOptional, MangleIdentifier, ShowNested, OkId, OkRef, MangleRef, MangleArgs, OkArgs, ArgsDepth, ArgsSize;
    hide ShowArgs, ShowId, MangleType, OkType, TypeDepth, TypeSize, ShowType;
  }

  lemma TraitImplParts(p: PathTree, inType: bool, leaveOpen: bool, pos: nat, bound: nat, input: string, printing: bool)
    requires OkPath(p, pos, bound, input, printing) && p.TraitImpl?
    ensures
      var front := pos + 1 + |MangleOptional('s', p.dis)|;
      && OkNumber(p.dis) && OkPath(p.impl, front, bound, input, false)
      && OkType(p.self, front + |ManglePath(p.impl)|, bound, input, printing)
      && OkPath(p.trt, front + |ManglePath(p.impl)| + |MangleType(p.self)|, bound, input, printing)
    ensures forall b ::
      PathDepth(p, b) == 1 + Max(PathDepth(p.impl, false), Max(TypeDepth(p.self, b), PathDepth(p.trt, b)))
    ensures PathSize(p.impl) < PathSize(p) && TypeSize(p.self) + PathSize(p.trt) < PathSize(p)
    ensures ManglePath(p) ==
      "X" + ((MangleOptional('s', p.dis) + ManglePath(p.impl)) + (MangleType(p.self) + ManglePath(p.trt)))
    ensures ShowPath(p, inType, leaveOpen, bound, true) ==
      "<" + ShowType(p.self, bound, true) + " as " + ShowPath(p.trt, true, false, bound, true) + ">"
  {
    hide MangleOptional, MangleIdentifier, ShowNested, OkId, OkRef, MangleRef, MangleArgs, OkArgs, ArgsDepth, ArgsSize;
    hide ShowArgs, ShowId, MangleType, OkType, TypeDepth, TypeSize, ShowType;
  }

  lemma TraitDefParts(p: PathTree, inType: bool, leaveOpen: bool, pos: nat, bound: nat, input: string, printing: bool)
    requires OkPath(p, pos, bound, input, printing) && p.TraitDef?
    ensures OkType(p.self, pos + 1, bound, input, printing)
    ensures OkPath(p.trt, pos + 1 + |MangleType(p.self)|, bound, input, printing)
    ensures forall b :: PathDepth(p, b) == 1 + Max(TypeDepth(p.self, b), PathDepth(p.trt, b))
    ensures TypeSize(p.self) + PathSize(p.trt) < PathSize(p)
    ensures ManglePath(p) == "Y" + (MangleType(p.self) + ManglePath(p.trt))
    ensures ShowPath(p, inType, leaveOpen, bound, true) ==
      "<" + ShowType(p.self, bound, true) + " as " + ShowPath(p.trt, true, false, bound, true) + ">"
  {
    hide MangleOptional, MangleIdentifier, ShowNested, OkId, OkRef, MangleRef, MangleArgs, OkArgs, ArgsDepth, ArgsSize;
    hide ShowArgs, ShowId, MangleType, OkType, TypeDepth, TypeSize, ShowType;
  }

  lemma {:induction false} InherentCase(e: Env, s: St, p: PathTree, inType: bool, leaveOpen: bool)
    requires PathReady(e, s, p) && p.InherentImpl?
    ensures PathDone(e, s, p, inType, leaveOpen)
    decreases PathSize(p), 0
  {
    hide At, InherentPath, ImplPath, CratePath, TraitPath, NestedPath, GenericPath, BackrefPath, MangleOptional;
    hide MangleType, ShowType, OkType, TypeDepth, ManglePath, ShowPath, OkPath, PathDepth, PathSize;
    ImplParts(p, inType, leaveOpen, s.pos, s.bound, e.input, s.printing);
    var front := MangleOptional('s', p.dis) + ManglePath(p.impl);
    var d := s.(pos := s.pos + 1);
    AtCons(e.input, s.pos, 'M', front + MangleType(p.self));
    AtSplit(e.input, d.pos, front, MangleType(p.self));
    ImplPathShown(e, d, p.dis, p.impl, inType, MangleType(p.self));
    InherentShown(e, d, |front|, p.self, inType);
  }

  lemma {:induction false} TraitImplCase(e: Env, s: St, p: PathTree, inType: bool, leaveOpen: bool)
    requires PathReady(e, s, p) && p.TraitImpl?
    ensures PathDone(e, s, p, inType, leaveOpen)
    decreases PathSize(p), 0
  {
    hide At, ImplPath, TraitPath, MangleOptional, MangleType, ShowType, OkType, TypeDepth, ManglePath, ShowPath, OkPath;
    hide PathDepth, PathSize;
    TraitImplParts(p, inType, leaveOpen, s.pos, s.bound, e.input, s.printing);
    var front := MangleOptional('s', p.dis) + ManglePath(p.impl);
    var back := MangleType(p.self) + ManglePath(p.trt);
    var d := s.(pos := s.pos + 1);
    AtCons(e.input, s.pos, 'X', front + back);
    AtSplit(e.input, d.pos, front, back);
    ImplPathShown(e, d, p.dis, p.impl, inType, back);
    TraitShown(e, d.(pos := d.pos + |front|), p.self, p.trt);
  }

  lemma {:induction false} TraitDefCase(e: Env, s: St, p: PathTree, inType: bool, leaveOpen: bool)
    requires PathReady(e, s, p) && p.TraitDef?
    ensures PathDone(e, s, p, inType, leaveOpen)
    decreases PathSize(p), 0
  {
    hide At, TraitPath, MangleType, ShowType, OkType, TypeDepth, ManglePath, ShowPath, OkPath, PathDepth, PathSize;
    TraitDefParts(p, inType, leaveOpen, s.pos, s.bound, e.input, s.printing);
    AtCons(e.input, s.pos, 'Y', MangleType(p.self) + ManglePath(p.trt));
    TraitShown(e, s.(pos := s.pos + 1), p.self, p.trt);
  }

  lemma NestedParts(p: PathTree, inType: bool, leaveOpen: bool, pos: nat, bound: nat, input: string, printing: bool)
    requires OkPath(p, pos, bound, input, printing) && p.Nested?
    ensures ('a' <= p.ns <= 'z' || 'A' <= p.ns <= 'Z') && OkNumber(p.dis) && OkId(p.id, printing)
    ensures OkPath(p.parent, pos + 2, bound, input, printing) && PathSize(p.parent) < PathSize(p)
    ensures forall b :: PathDepth(p, b) == 1 + PathDepth(p.parent, b)
    ensures ManglePath(p) ==
      "N" + ([p.ns] + (ManglePath(p.parent) + (MangleOptional('s', p.dis) + MangleIdentifier(p.id))))
    ensures ShowPath(p, inType, leaveOpen, bound, true) ==
      ShowPath(p.parent, inType, false, bound, true) + ShowNested(p.ns, p.dis, p.id)
  {
    hide MangleOptional, MangleIdentifier, ShowNested, OkId, MangleArgs, OkArgs, ArgsDepth, ArgsSize, MangleType;
    hide OkType, TypeDepth, TypeSize, ShowType, ShowArgs;
  }

  lemma GenericParts(p: PathTree, pos: nat, bound: nat, input: string, printing: bool)
    requires OkPath(p, pos, bound, input, printing) && p.Generic?
    ensures OkPath(p.base, pos + 1, bound, input, printing)
    ensures OkArgs(p.args, pos + 1 + |ManglePath(p.base)|, bound, input, printing)
    ensures forall b :: PathDepth(p, b) == 1 + Max(PathDepth(p.base, b), ArgsDepth(p.args, b))
    ensures PathSize(p.base) + ArgsSize(p.args) < PathSize(p)
    ensures ManglePath(p) == "I" + (ManglePath(p.base) + MangleArgs(p.args))
  {
    hide OkArgs, ArgsDepth, MangleArgs, ArgsSize, MangleType, OkType, TypeDepth, TypeSize, ShowType, ShowArgs;
  }

  lemma {:induction false} NestedCase(e: Env, s: St, p: PathTree, inType: bool, leaveOpen: bool)
    requires PathReady(e, s, p) && p.Nested?
    ensures PathDone(e, s, p, inType, leaveOpen)
    decreases PathSize(p), 0
  {
    hide At, NestedPath, MangleIdentifier, MangleOptional, ShowNested, OkId, ManglePath, ShowPath, OkPath, PathDepth;
    hide PathSize;
    NestedParts(p, inType, leaveOpen, s.pos, s.bound, e.input, s.printing);
    var rest := [p.ns] + (ManglePath(p.parent) + (MangleOptional('s', p.dis) + MangleIdentifier(p.id)));
    AtCons(e.input, s.pos, 'N', rest);
    NestedShown(e, s.(pos := s.pos + 1), p.ns, p.parent, p.dis, p.id, inType);
  }

  lemma {:induction false} GenericCase(e: Env, s: St, p: PathTree, inType: bool, leaveOpen: bool)
    requires PathReady(e, s, p) && p.Generic?
    ensures PathDone(e, s, p, inType, leaveOpen)
    decreases PathSize(p), 0
  {
    hide At, GenericPath, MangleArgs, OkArgs, ArgsDepth, ManglePath, ShowPath, OkPath, PathDepth, PathSize;
    GenericParts(p, s.pos, s.bound, e.input, s.printing);
    AtCons(e.input, s.pos, 'I', ManglePath(p.base) + MangleArgs(p.args));
    GenericShown(e, s.(pos := s.pos + 1), p.base, p.args, inType, leaveOpen);
  }

  lemma OptionalThenIdentifier(e: Env, s: St, dis: nat, id: Identifier)
    requires Wf(e, s) && !s.error && OkNumber(dis) && OkName(id)
    requires At(e.input, s.pos, MangleOptional('s', dis) + MangleIdentifier(id))
    requires Clear(e, s.pos + |MangleOptional('s', dis) + MangleIdentifier(id)|)
    ensures
      var (s1, n) := ParseOptionalBase62(e, s, 's');
      var (s2, ident) := ParseIdentifier(e, s1);
      n == dis && ident == id && s2 == s.(pos := s.pos + |MangleOptional('s', dis) + MangleIdentifier(id)|)
  {
    hide At, MangleOptional, ParseOptionalBase62, ParseIdentifier, OkName, IdentifierText;
    AtSplit(e.input, s.pos, MangleOptional('s', dis), MangleIdentifier(id));
    IdentifierHead(id);
    AtHead(e.input, s.pos + |MangleOptional('s', dis)|, MangleIdentifier(id));
    OptionalZero('s');
    ReadOptional(e, s, 's', dis);
    ReadIdentifier(e, s.(pos := s.pos + |MangleOptional('s', dis)|), id);
  }

  lemma OptionalZero(tag: char)
    ensures MangleOptional(tag, 0) == ""
  {
  }

  lemma IdentifierHead(id: Identifier)
    ensures
      var m := MangleIdentifier(id);
      |m| > 0 && (m[0] == 'u' || IsDigit(m[0]))
  {
    DecimalIsDigits(|id.name|);
  }

  lemma {:induction false} CrateShown(e: Env, s: St, dis: nat, id: Identifier)
    requires Going(e, s) && OkNumber(dis) && OkId(id, s.printing)
    requires At(e.input, s.pos, MangleOptional('s', dis) + MangleIdentifier(id))
    requires Clear(e, s.pos + |MangleOptional('s', dis) + MangleIdentifier(id)|)
    ensures CratePath(e, s) == Say(s, |MangleOptional('s', dis) + MangleIdentifier(id)|, ShowId(id))
  {
    hide At, MangleOptional, MangleIdentifier, ParseOptionalBase62, ParseIdentifier, IdentifierText;
    OptionalThenIdentifier(e, s, dis, id);
  }

  /** The impl path is read with printing off. */
  lemma {:induction false} ImplPathShown(e: Env, s: St, dis: nat, impl: PathTree, inType: bool, next: string)
    requires Going(e, s) && OkNumber(dis) && OkPath(impl, s.pos + |MangleOptional('s', dis)|, s.bound, e.input, false)
    requires s.level + PathDepth(impl, false) <= e.maxLevel
    requires At(e.input, s.pos, MangleOptional('s', dis) + ManglePath(impl))
    requires next != "" && next[0] != '_' && At(e.input, s.pos + |MangleOptional('s', dis) + ManglePath(impl)|, next)
    ensures ImplPath(e, s, inType) == s.(pos := s.pos + |MangleOptional('s', dis) + ManglePath(impl)|)
    decreases PathSize(impl), 2
  {
    hide At, Path, ManglePath, MangleOptional, ParseOptionalBase62, OkPath, PathDepth;
    AtSplit(e.input, s.pos, MangleOptional('s', dis), ManglePath(impl));
    AtHead(e.input, s.pos + |MangleOptional('s', dis) + ManglePath(impl)|, next);
    AtHead(e.input, s.pos + |MangleOptional('s', dis)|, ManglePath(impl));
    OptionalZero('s');
    var dry := s.(printing := false);
    ReadOptional(e, dry, 's', dis);
    PathShown(e, dry.(pos := s.pos + |MangleOptional('s', dis)|), impl, inType, false);
  }

  lemma {:induction false} InherentShown(e: Env, s: St, k: nat, self: TypeTree, inType: bool)
    requires Going(e, s) && OkType(self, s.pos + k, s.bound, e.input, s.printing)
    requires s.level + TypeDepth(self, s.printing) <= e.maxLevel
    requires ImplPath(e, s, inType) == s.(pos := s.pos + k)
    requires At(e.input, s.pos + k, MangleType(self)) && Clear(e, s.pos + k + |MangleType(self)|)
    ensures InherentPath(e, s, inType) == Say(s, k + |MangleType(self)|, "<" + ShowType(self, s.bound, true) + ">")
    decreases TypeSize(self), 5
  {
    hide At, ImplPath, Type, ShowType, MangleType, OkType, TypeDepth;
    var s1 := Say(s, k, "<");
    TypeShown(e, s1, self);
    SaySay(s, k, "<", |MangleType(self)|, ShowType(self, s.bound, true));
    SaySay(s, k + |MangleType(self)|, "<" + ShowType(self, s.bound, true), 0, ">");
  }

  lemma {:induction false} TraitShown(e: Env, s: St, self: TypeTree, trt: PathTree)
    requires Going(e, s) && OkType(self, s.pos, s.bound, e.input, s.printing)
    requires OkPath(trt, s.pos + |MangleType(self)|, s.bound, e.input, s.printing)
    requires s.level + TypeDepth(self, s.printing) <= e.maxLevel && s.level + PathDepth(trt, s.printing) <= e.maxLevel
    requires At(e.input, s.pos, MangleType(self) + ManglePath(trt))
    requires Clear(e, s.pos + |MangleType(self) + ManglePath(trt)|)
    ensures
      TraitPath(e, s) ==
      Say(s, |MangleType(self) + ManglePath(trt)|,
          "<" + ShowType(self, s.bound, true) + " as " + ShowPath(trt, true, false, s.bound, true) + ">")
    decreases TypeSize(self) + PathSize(trt), 2
  {
    hide Say, At, Path, Type, ShowType, MangleType, OkType, TypeDepth, ShowPath, ManglePath, OkPath, PathDepth;
    var m, n := |MangleType(self)|, |ManglePath(trt)|;
    var shown := ShowType(self, s.bound, true);
    AtSplit(e.input, s.pos, MangleType(self), ManglePath(trt));
    AtHead(e.input, s.pos + m, ManglePath(trt));
    PrintSays(s, "<");
    TypeShown(e, Say(s, 0, "<"), self);
    SaySay(s, 0, "<", m, shown);
    PrintMore(s, m, "<" + shown, " as ");
    PathShown(e, Say(s, m, "<" + shown + " as "), trt, true, false);
    SaySay(s, m, "<" + shown + " as ", n, ShowPath(trt, true, false, s.bound, true));
    PrintMore(s, m + n, "<" + shown + " as " + ShowPath(trt, true, false, s.bound, true), ">");
  }

  lemma {:induction false} NestedShown(
    e: Env, s: St, ns: char, parent: PathTree, dis: nat, id: Identifier, inType: bool)
    requires Going(e, s) && ('a' <= ns <= 'z' || 'A' <= ns <= 'Z') && OkNumber(dis) && OkId(id, s.printing)
    requires OkPath(parent, s.pos + 1, s.bound, e.input, s.printing)
    requires s.level + PathDepth(parent, s.printing) <= e.maxLevel
    requires At(e.input, s.pos, [ns] + (ManglePath(parent) + (MangleOptional('s', dis) + MangleIdentifier(id))))
    requires Clear(e, s.pos + |[ns] + (ManglePath(parent) + (MangleOptional('s', dis) + MangleIdentifier(id)))|)
    ensures
      NestedPath(e, s, inType) ==
      Say(s, |[ns] + (ManglePath(parent) + (MangleOptional('s', dis) + MangleIdentifier(id)))|,
          ShowPath(parent, inType, false, s.bound, true) + ShowNested(ns, dis, id))
    decreases PathSize(parent), 2
  {
    hide At, Path, ManglePath, ShowPath, OkPath, PathDepth, MangleOptional, MangleIdentifier, OkName;
    hide ParseOptionalBase62, ParseIdentifier, NestedName, ShowNested;
    var tail := MangleOptional('s', dis) + MangleIdentifier(id);
    AtCons(e.input, s.pos, ns, ManglePath(parent) + tail);
    AtSplit(e.input, s.pos + 1, ManglePath(parent), tail);
    TailHead(dis, id);
    AtHead(e.input, s.pos + 1 + |ManglePath(parent)|, tail);
    var s1 := s.(pos := s.pos + 1);
    PathShown(e, s1, parent, inType, false);
    var s2 := Say(s1, |ManglePath(parent)|, ShowPath(parent, inType, false, s.bound, true));
    OptionalThenIdentifier(e, s2, dis, id);
    NestedNameShown(e, s2.(pos := s2.pos + |tail|), ns, dis, id);
    SaySay(s1, |ManglePath(parent)| + |tail|, ShowPath(parent, inType, false, s.bound, true), 0,
           ShowNested(ns, dis, id));
  }

  lemma TailHead(dis: nat, id: Identifier)
    ensures
      var tail := MangleOptional('s', dis) + MangleIdentifier(id);
      |tail| > 0 && tail[0] != '_'
  {
    IdentifierHead(id);
  }

  lemma {:induction false} NestedNameShown(e: Env, s: St, ns: char, dis: nat, id: Identifier)
    requires Going(e, s) && OkId(id, s.printing)
    ensures NestedName(e, s, ns, dis, id) == Say(s, 0, ShowNested(ns, dis, id))
  {
    hide IdentifierText, SpecialName, ShowSpecial, DecimalText;
    PrintsSpecial(ns);
    if IsUpper(ns) {
      var name := if id.name == "" then "" else ":" + ShowId(id);
      SaySay(s, 0, "::{", 0, SpecialName(ns));
      var s1 := Say(s, 0, "::{" + SpecialName(ns));
      SaySay(s1, 0, ":", 0, ShowId(id));
      SaySay(s, 0, "::{" + SpecialName(ns), 0, name);
      SaySay(s, 0, "::{" + SpecialName(ns) + name, 0, "#");
      SaySay(s, 0, "::{" + SpecialName(ns) + name + "#", 0, DecimalText(dis));
      SaySay(s, 0, "::{" + SpecialName(ns) + name + "#" + DecimalText(dis), 0, "}");
      assert Say(s1, 0, "") == s1;
    } else {
      SaySay(s, 0, "::", 0, ShowId(id));
      assert Say(s, 0, "") == s;
    }
  }

  lemma GenericText(base: PathTree, args: ArgList, inType: bool, leaveOpen: bool, bound: nat)
    ensures
      var open :=
        ShowPath(base, inType, false, bound, true) + (if inType then "<" else "::<") + ShowArgs(args, 0, bound, true);
      ShowPath(Generic(base, args), inType, leaveOpen, bound, true) == if leaveOpen then open else open + ">"
  {
    hide ShowArgs, ShowType;
    var open :=
      ShowPath(base, inType, false, bound, true) + (if inType then "<" else "::<") + ShowArgs(args, 0, bound, true);
    assert open + "" == open;
  }

  lemma SizesPositive(t: TypeTree, p: PathTree)
    ensures TypeSize(t) >= 1 && PathSize(p) >= 1
  {
  }

  lemma ArgsSizePositive(p: PathTree, args: ArgList)
    ensures PathSize(p) >= 1 && ArgsSize(args) >= 1
  {
  }

  lemma {:induction false} GenericShown(
    e: Env, s: St, base: PathTree, args: ArgList, inType: bool, leaveOpen: bool)
    requires Going(e, s) && OkPath(base, s.pos, s.bound, e.input, s.printing)
    requires OkArgs(args, s.pos + |ManglePath(base)|, s.bound, e.input, s.printing)
    requires s.level + PathDepth(base, s.printing) <= e.maxLevel && s.level + ArgsDepth(args, s.printing) <= e.maxLevel
    requires At(e.input, s.pos, ManglePath(base) + MangleArgs(args))
    ensures
      GenericPath(e, s, inType, leaveOpen) ==
      (Say(s, |ManglePath(base) + MangleArgs(args)|, ShowPath(Generic(base, args), inType, leaveOpen, s.bound, true)),
       leaveOpen)
    decreases PathSize(base) + ArgsSize(args), 2
  {
    hide Say, RustLexer.Print, At, Path, GenericArgs, ManglePath, MangleArgs, OkPath, OkArgs, PathDepth, ArgsDepth;
    hide ShowArgs, ShowPath, PathSize, ArgsSize;
    GenericText(base, args, inType, leaveOpen, s.bound);
    ArgsSizePositive(base, args);
    var m, n := |ManglePath(base)|, |MangleArgs(args)|;
    AtSplit(e.input, s.pos, ManglePath(base), MangleArgs(args));
    AtHead(e.input, s.pos + m, MangleArgs(args));
    PathShown(e, s, base, inType, false);
    var text := ShowPath(base, inType, false, s.bound, true);
    var open := if inType then "<" else "::<";
    PrintMore(s, m, text, "::");
    PrintMore(s, m, text + "::", "<");
    PrintMore(s, m, text, "<");
    assert text + "::" + "<" == text + "::<";
    ArgsShown(e, Say(s, m, text + open), args, 0);
    SaySay(s, m, text + open, n, ShowArgs(args, 0, s.bound, true));
    PrintMore(s, m + n, text + open + ShowArgs(args, 0, s.bound, true), ">");
  }

  /** The first argument of a list: its mangling and its display. */
  function ArgText(args: ArgList): string
  {
    match args
    case NoArg => ""
    case LifetimeArg(index, _) => "L" + Base62Text(index)
    case ConstArg(c, _) => "K" + MangleConst(c)
    case TypeArg(t, _) => MangleType(t)
  }

  function ArgShow(args: ArgList, bound: nat, raw: bool): string
  {
    match args
    case NoArg => ""
    case LifetimeArg(index, _) => ShowLifetime(index, bound)
    case ConstArg(c, _) => ShowConst(c)
    case TypeArg(t, _) => ShowType(t, bound, raw)
  }

  function ArgDepth(args: ArgList, printing: bool): nat
  {
    match args
    case NoArg => 0
    case LifetimeArg(_, _) => 0
    case ConstArg(c, _) => ConstDepth(c, printing)
    case TypeArg(t, _) => TypeDepth(t, printing)
  }

  lemma ArgsEnd(args: ArgList, i: nat, bound: nat)
    ensures args.NoArg? ==> MangleArgs(args) == "E" && ShowArgs(args, i, bound, true) == ""
  {
  }

  lemma ArgsParts(args: ArgList, i: nat, pos: nat, bound: nat, input: string, printing: bool)
    requires OkArgs(args, pos, bound, input, printing) && !args.NoArg?
    ensures OkArgs(args.rest, pos + |ArgText(args)|, bound, input, printing)
    ensures forall b :: ArgsDepth(args, b) == Max(ArgDepth(args, b), ArgsDepth(args.rest, b))
    ensures ArgsSize(args.rest) < ArgsSize(args)
    ensures |ArgText(args)| > 0 && ArgText(args)[0] != 'E'
    ensures MangleArgs(args) == ArgText(args) + MangleArgs(args.rest)
    ensures ShowArgs(args, i, bound, true) ==
      Comma(i) + ArgShow(args, bound, true) + ShowArgs(args.rest, i + 1, bound, true)
  {
    hide MangleType, MangleConst, Base62Text, ShowType, ShowConst, ShowLifetime, OkType, OkConst, TypeDepth;
    match args
    case LifetimeArg(index, rest) => Assoc("L", Base62Text(index), MangleArgs(rest));
    case ConstArg(c, rest) => Assoc("K", MangleConst(c), MangleArgs(rest));
    case TypeArg(t, rest) => TypeHeadFacts(MangleType(t)[0]);
  }

  lemma Assoc(a: string, b: string, c: string)
    ensures a + (b + c) == a + b + c
  {
  }

  /** No type starts like one of the optional parts that may stand before it. */
  lemma TypeHeadFacts(c: char)
    requires TypeHead(c)
    ensures c != 'E' && c != 'G' && c != 'K' && c != 'L' && c != 'U' && c != '_'
  {
  }

  lemma CommaSaid(s: St, i: nat)
    requires !s.error
    ensures (if i > 0 then RustLexer.Print(s, ", ") else s) == Say(s, 0, Comma(i))
  {
  }

  lemma {:induction false} ArgsShown(e: Env, s: St, args: ArgList, i: nat)
    requires Going(e, s) && OkArgs(args, s.pos, s.bound, e.input, s.printing)
    requires s.level + ArgsDepth(args, s.printing) <= e.maxLevel
    requires At(e.input, s.pos, MangleArgs(args))
    ensures GenericArgs(e, s, i) == Say(s, |MangleArgs(args)|, ShowArgs(args, i, s.bound, true))
    decreases ArgsSize(args), 1
  {
    hide Say, Comma, RustLexer.Print, At, GenericArg, MangleArgs, ShowArgs, OkArgs, ArgsDepth, ArgText, ArgShow;
    ArgsEnd(args, i, s.bound);
    if args.NoArg? {
      AtHead(e.input, s.pos, "E");
    } else {
      ArgsParts(args, i, s.pos, s.bound, e.input, s.printing);
      var k, text := |ArgText(args)|, ArgShow(args, s.bound, true);
      AtSplit(e.input, s.pos, ArgText(args), MangleArgs(args.rest));
      AtHead(e.input, s.pos, ArgText(args));
      AtHead(e.input, s.pos + k, MangleArgs(args.rest));
      var s1 := Say(s, 0, Comma(i));
      CommaSaid(s, i);
      ArgShown(e, s1, args);
      ArgsShown(e, Say(s1, k, text), args.rest, i + 1);
      ListSaid(s, Comma(i), k, text, |MangleArgs(args.rest)|, ShowArgs(args.rest, i + 1, s.bound, true));
    }
  }

  lemma {:induction false} ArgShown(e: Env, s: St, args: ArgList)
    requires Going(e, s) && OkArgs(args, s.pos, s.bound, e.input, s.printing)
    requires s.level + ArgDepth(args, s.printing) <= e.maxLevel
    requires !args.NoArg? && At(e.input, s.pos, ArgText(args)) && Clear(e, s.pos + |ArgText(args)|)
    ensures GenericArg(e, s) == Say(s, |ArgText(args)|, ArgShow(args, s.bound, true))
    decreases ArgsSize(args) - 1, 6
  {
    hide At, GenericArg, MangleType, MangleConst, Base62Text, ShowType, ShowConst, ShowLifetime, OkType, OkConst;
    hide TypeDepth;
    match args
    case LifetimeArg(index, _) => LifetimeArgShown(e, s, index);
    case ConstArg(c, _) => ConstArgShown(e, s, c);
    case TypeArg(t, _) => TypeArgShown(e, s, t);
  }

  lemma {:induction false} LifetimeArgShown(e: Env, s: St, index: nat)
    requires Going(e, s) && OkNumber(index) && index <= s.bound && At(e.input, s.pos, "L" + Base62Text(index))
    ensures GenericArg(e, s) == Say(s, |"L" + Base62Text(index)|, ShowLifetime(index, s.bound))
  {
    hide At, Base62Text, ParseBase62, LifetimeName, BoundName, ShowLifetime;
    AtCons(e.input, s.pos, 'L', Base62Text(index));
    PrintsLifetime(index, s.bound);
    ReadBase62(e, s.(pos := s.pos + 1), index);
  }

  lemma {:induction false} ConstArgShown(e: Env, s: St, c: ConstTree)
    requires Going(e, s) && OkConst(c, s.pos + 1, e.input, s.printing)
    requires s.level + ConstDepth(c, s.printing) <= e.maxLevel
    requires At(e.input, s.pos, "K" + MangleConst(c))
    ensures GenericArg(e, s) == Say(s, |"K" + MangleConst(c)|, ShowConst(c))
  {
    hide At, MangleConst, Const, ShowConst, OkConst;
    AtCons(e.input, s.pos, 'K', MangleConst(c));
    ConstShown(e, s.(pos := s.pos + 1), c);
  }

  lemma {:induction false} TypeArgShown(e: Env, s: St, t: TypeTree)
    requires Going(e, s) && OkType(t, s.pos, s.bound, e.input, s.printing)
    requires s.level + TypeDepth(t, s.printing) <= e.maxLevel
    requires At(e.input, s.pos, MangleType(t)) && Clear(e, s.pos + |MangleType(t)|)
    ensures GenericArg(e, s) == Say(s, |MangleType(t)|, ShowType(t, s.bound, true))
    decreases TypeSize(t), 5
  {
    hide At, MangleType, Type, ShowType, OkType, TypeDepth;
    AtHead(e.input, s.pos, MangleType(t));
    TypeShown(e, s, t);
  }

  // ---------------------------------------------------------------------------------------------
  // Types
  // ---------------------------------------------------------------------------------------------

  /** A type, wherever it stands: read to its end and displayed. */
  lemma {:induction false} TypeShown(e: Env, s: St, t: TypeTree)
    requires Going(e, s) && OkType(t, s.pos, s.bound, e.input, s.printing)
    requires s.level + TypeDepth(t, s.printing) <= e.maxLevel
    requires At(e.input, s.pos, MangleType(t)) && Clear(e, s.pos + |MangleType(t)|)
    ensures Type(e, s) == Say(s, |MangleType(t)|, ShowType(t, s.bound, true))
    decreases TypeSize(t), 3
  {
    hide TypeBody, At, MangleType, ShowType, OkType, TypeDepth;
    TypeDepthPositive(t);
    TypeBodyShown(e, Deeper(s), t);
  }

  predicate TypeReady(e: Env, s: St, t: TypeTree)
  {
    && Going(e, s) && OkType(t, s.pos, s.bound, e.input, s.printing)
    && s.level + TypeDepth(t, s.printing) <= e.maxLevel + 1
    && At(e.input, s.pos, MangleType(t)) && Clear(e, s.pos + |MangleType(t)|)
  }

  ghost predicate TypeDone(e: Env, s: St, t: TypeTree)
    requires Wf(e, s)
  {
    TypeBody(e, s) == Say(s, |MangleType(t)|, ShowType(t, s.bound, true))
  }

  /** The same one level further down, where every component of the type is parsed. */
  lemma {:induction false} TypeBodyShown(e: Env, s: St, t: TypeTree)
    requires TypeReady(e, s, t)
    ensures TypeDone(e, s, t)
    decreases TypeSize(t), 2, 1
  {
    hide At, TypeBody, MangleType, ShowType, OkType, TypeDepth;
    match t
    case Basic(b) => BasicCase(e, s, t);
    case Named(p) => NamedCase(e, s, t);
    case Array(elem, len) => ArrayCase(e, s, t);
    case Slice(elem) => SliceCase(e, s, t);
    case Tuple(elems) => TupleCase(e, s, t);
    case Reference(mut, lifetime, elem) => ReferenceCase(e, s, t);
    case Pointer(mut, elem) => PointerCase(e, s, t);
    case Function(binder, isUnsafe, abi, params, result) => FunctionCase(e, s, t);
    case Dyn(binder, traits, index) => DynCase(e, s, t);
    case TypeRef(target, same) => TypeRefCase(e, s, t);
  }

  lemma TypeRefParts(t: TypeTree, pos: nat, bound: nat, input: string, printing: bool)
    requires OkType(t, pos, bound, input, printing) && t.TypeRef?
    ensures OkRef(t.target, MangleType(t.same), pos, input, printing)
    ensures printing ==> OkType(t.same, t.target, bound, input, true)
    ensures TypeDepth(t, true) == 1 + TypeDepth(t.same, true) && TypeDepth(t, false) == 1
    ensures TypeSize(t.same) < TypeSize(t)
    ensures MangleType(t) == MangleRef(t.target) && ShowType(t, bound, true) == ShowType(t.same, bound, true)
  {
    hide MangleRef, OkRef, ManglePath, MangleTypes, MangleTraits, OkPath, OkTypes, OkTraits, PathDepth, TypesDepth;
    hide TraitsDepth, PathSize, TypesSize, TraitsSize, ShowPath, ShowTypes, ShowTraits, ShowResult;
  }

  lemma {:induction false} TypeRefCase(e: Env, s: St, t: TypeTree)
    requires TypeReady(e, s, t) && t.TypeRef?
    ensures TypeDone(e, s, t)
    decreases TypeSize(t), 1
  {
    hide At, Path, Type, FnSig, ArrayType, TupleType, RefLifetime, DynType, ParseBase62, MangleRef, MangleType;
    hide ShowType, OkType, TypeDepth, TypeSize;
    TypeRefParts(t, s.pos, s.bound, e.input, s.printing);
    RefShown(e, s, t.target);
    if s.printing {
      TypeShown(e, s.(pos := t.target), t.same);
    }
    var s1 := s.(pos := s.pos + 1);
    var s2 := s.(pos := s.pos + |MangleRef(t.target)|);
    assert s2.(pos := t.target) == s.(pos := t.target);
    assert BackrefType(e, s1) == Say(s, |MangleRef(t.target)|, ShowType(t.same, s.bound, true));
    assert RustLexer.Consume(e, s) == (s1, 'B');
  }

  lemma {:induction false} BasicCase(e: Env, s: St, t: TypeTree)
    requires TypeReady(e, s, t) && t.Basic?
    ensures TypeDone(e, s, t)
  {
    hide At, BasicTypeName, ShowBasic;
    PrintsBasic(t.basic);
    AtHead(e.input, s.pos, MangleType(t));
  }

  lemma {:induction false} NamedCase(e: Env, s: St, t: TypeTree)
    requires TypeReady(e, s, t) && t.Named?
    ensures TypeDone(e, s, t)
    decreases TypeSize(t), 2, 0
  {
    hide At, Path, ManglePath, ShowPath, OkPath, PathDepth;
    AtHead(e.input, s.pos, MangleType(t));
    PathLetter(t.path);
    PathShown(e, s, t.path, true, false);
  }

  lemma PathLetter(p: PathTree)
    ensures ManglePath(p)[0] == 'B' <==> p.PathRef?
  {
    hide MangleOptional, MangleIdentifier, MangleArgs, MangleType, MangleRef;
  }

  lemma ArrayParts(t: TypeTree, pos: nat, bound: nat, input: string, printing: bool)
    requires OkType(t, pos, bound, input, printing) && t.Array?
    ensures OkType(t.elem, pos + 1, bound, input, printing)
    ensures OkConst(t.len, pos + 1 + |MangleType(t.elem)|, input, printing)
    ensures TypeSize(t.elem) < TypeSize(t)
    ensures forall b :: TypeDepth(t, b) == 1 + Max(TypeDepth(t.elem, b), ConstDepth(t.len, b))
    ensures MangleType(t) == "A" + (MangleType(t.elem) + MangleConst(t.len))
    ensures ShowType(t, bound, true) == "[" + ShowType(t.elem, bound, true) + "; " + ShowConst(t.len) + "]"
  {
    hide MangleConst, ShowConst, OkConst, ConstDepth, ManglePath, MangleTypes, MangleTraits, OkPath, OkTypes, OkTraits;
    hide PathDepth, TypesDepth, TraitsDepth, PathSize, TypesSize, TraitsSize, ShowPath, ShowTypes, ShowTraits;
    hide ShowResult;
  }

  lemma {:induction false} ArrayCase(e: Env, s: St, t: TypeTree)
    requires TypeReady(e, s, t) && t.Array?
    ensures TypeDone(e, s, t)
    decreases TypeSize(t), 1
  {
    hide At, ArrayType, MangleConst, ShowConst, OkConst, MangleType, ShowType, OkType, TypeDepth;
    ArrayParts(t, s.pos, s.bound, e.input, s.printing);
    AtCons(e.input, s.pos, 'A', MangleType(t.elem) + MangleConst(t.len));
    ArrayShown(e, s.(pos := s.pos + 1), t.elem, t.len);
  }

  /** The definitions for slices and raw pointers, one layer deep. */
  lemma ElementParts(t: TypeTree, pos: nat, bound: nat, input: string, printing: bool)
    requires OkType(t, pos, bound, input, printing) && (t.Slice? || t.Pointer?)
    ensures OkType(t.elem, pos + 1, bound, input, printing) && TypeSize(t.elem) < TypeSize(t)
    ensures forall b :: TypeDepth(t, b) == 1 + TypeDepth(t.elem, b)
    ensures t.Slice? ==>
      MangleType(t) == "S" + MangleType(t.elem) && ShowType(t, bound, true) == "[" + ShowType(t.elem, bound, true) + "]"
    ensures t.Pointer? ==>
      && MangleType(t) == [if t.mut then 'O' else 'P'] + MangleType(t.elem)
      && ShowType(t, bound, true) == (if t.mut then "*mut " else "*const ") + ShowType(t.elem, bound, true)
  {
    hide ManglePath, MangleTypes, MangleTraits, OkPath, OkTypes, OkTraits, PathDepth, TypesDepth, TraitsDepth, PathSize;
    hide TypesSize, TraitsSize, ShowPath, ShowTypes, ShowTraits, ShowResult;
  }

  lemma {:induction false} SliceCase(e: Env, s: St, t: TypeTree)
    requires TypeReady(e, s, t) && t.Slice?
    ensures TypeDone(e, s, t)
    decreases TypeSize(t), 1
  {
    hide At, Type, MangleType, ShowType, OkType, TypeDepth;
    ElementParts(t, s.pos, s.bound, e.input, s.printing);
    AtCons(e.input, s.pos, 'S', MangleType(t.elem));
    SliceShown(e, s.(pos := s.pos + 1), t.elem);
  }

  lemma {:induction false} TupleCase(e: Env, s: St, t: TypeTree)
    requires TypeReady(e, s, t) && t.Tuple?
    ensures TypeDone(e, s, t)
    decreases TypeSize(t), 1
  {
    hide At, TupleType, MangleTypes, OkTypes, TypesDepth, ShowTypes;
    AtCons(e.input, s.pos, 'T', MangleTypes(t.elems));
    TupleShown(e, s.(pos := s.pos + 1), t.elems);
  }

  lemma ReferenceParts(t: TypeTree, pos: nat, bound: nat, input: string, printing: bool)
    requires OkType(t, pos, bound, input, printing) && t.Reference?
    ensures t.lifetime.Some? ==> OkNumber(t.lifetime.value) && t.lifetime.value <= bound
    ensures OkType(t.elem, pos + 1 + |MangleLifetime(t.lifetime)|, bound, input, printing)
    ensures TypeSize(t.elem) < TypeSize(t)
    ensures forall b :: TypeDepth(t, b) == 1 + TypeDepth(t.elem, b)
    ensures MangleType(t) == [if t.mut then 'Q' else 'R'] + (MangleLifetime(t.lifetime) + MangleType(t.elem))
  {
    hide MangleLifetime, ManglePath, MangleTypes, MangleTraits, OkPath, OkTypes, OkTraits, PathDepth, TypesDepth;
    hide TraitsDepth, PathSize, TypesSize, TraitsSize, ShowPath, ShowTypes, ShowTraits, ShowResult;
  }

  lemma {:induction false} ReferenceCase(e: Env, s: St, t: TypeTree)
    requires TypeReady(e, s, t) && t.Reference?
    ensures TypeDone(e, s, t)
    decreases TypeSize(t), 1
  {
    hide At, Type, RefLifetime, MangleLifetime, ShowRefLifetime, MangleType, ShowType, OkType, TypeDepth;
    ReferenceParts(t, s.pos, s.bound, e.input, s.printing);
    AtCons(e.input, s.pos, if t.mut then 'Q' else 'R', MangleLifetime(t.lifetime) + MangleType(t.elem));
    ReferenceShown(e, s.(pos := s.pos + 1), t.mut, t.lifetime, t.elem);
  }

  lemma {:induction false} PointerCase(e: Env, s: St, t: TypeTree)
    requires TypeReady(e, s, t) && t.Pointer?
    ensures TypeDone(e, s, t)
    decreases TypeSize(t), 1
  {
    hide At, Type, MangleType, ShowType, OkType, TypeDepth;
    ElementParts(t, s.pos, s.bound, e.input, s.printing);
    AtCons(e.input, s.pos, if t.mut then 'O' else 'P', MangleType(t.elem));
    var word := if t.mut then "*mut " else "*const ";
    var d := s.(pos := s.pos + 1);
    TypeShown(e, Say(d, 0, word), t.elem);
    SaySay(d, 0, word, |MangleType(t.elem)|, ShowType(t.elem, s.bound, true));
  }

  lemma FunctionParts(t: TypeTree, pos: nat, bound: nat, input: string, printing: bool)
    requires OkType(t, pos, bound, input, printing) && t.Function?
    ensures
      var front := pos + 1 + |MangleOptional('G', t.binder)| + |MangleQualifiers(t.isUnsafe, t.abi)|;
      && OkBinder(t.binder, bound, input)
      && (t.abi.NamedAbi? ==> OkName(Identifier(t.abi.name, false)))
      && OkTypes(t.params, front, bound + t.binder, input, printing)
      && OkType(t.result, front + |MangleTypes(t.params)|, bound + t.binder, input, printing)
    ensures forall b :: TypeDepth(t, b) == 1 + Max(TypesDepth(t.params, b), ResultDepth(t.result, b))
    ensures TypesSize(t.params) + TypeSize(t.result) < TypeSize(t)
    ensures MangleType(t) == "F" + (MangleOptional('G', t.binder) +
      (MangleQualifiers(t.isUnsafe, t.abi) + (MangleTypes(t.params) + MangleType(t.result))))
    ensures ShowType(t, bound, true) ==
      ShowBinder(t.binder, bound) + ShowQualifiers(t.isUnsafe, t.abi) +
      "fn(" + ShowTypes(t.params, 0, bound + t.binder, true) + ")" + ShowResult(t.result, bound + t.binder, true)
  {
    hide MangleOptional, MangleQualifiers, OkId, OkBinder, ShowBinder, ShowQualifiers, ManglePath, MangleTypes;
    hide MangleTraits, OkPath, OkTypes, OkTraits, PathDepth, TypesDepth, TraitsDepth, PathSize, TypesSize, TraitsSize;
    hide ShowPath, ShowTypes, ShowTraits, ShowResult;
  }

  lemma {:induction false} FunctionCase(e: Env, s: St, t: TypeTree)
    requires TypeReady(e, s, t) && t.Function?
    ensures TypeDone(e, s, t)
    decreases TypeSize(t), 1
  {
    hide At, FnSig, ArrayType, TupleType, RefLifetime, DynType, BackrefType, Path, Type, MangleOptional;
    hide MangleQualifiers, MangleTypes, OkTypes, OkId, TypesDepth, ShowBinder, ShowQualifiers, ShowTypes, ShowResult;
    hide MangleType, ShowType, OkType, TypeDepth, TypeSize, TypesSize, OkBinder;
    FunctionParts(t, s.pos, s.bound, e.input, s.printing);
    var tail := MangleTypes(t.params) + MangleType(t.result);
    AtCons(e.input, s.pos, 'F', MangleOptional('G', t.binder) + (MangleQualifiers(t.isUnsafe, t.abi) + tail));
    FunctionShown(e, s.(pos := s.pos + 1), t.binder, t.isUnsafe, t.abi, t.params, t.result);
  }

  lemma {:induction false} DynCase(e: Env, s: St, t: TypeTree)
    requires TypeReady(e, s, t) && t.Dyn?
    ensures TypeDone(e, s, t)
    decreases TypeSize(t), 1
  {
    hide At, DynType, MangleOptional, MangleTraits, Base62Text, OkTraits, TraitsDepth, ShowBinder, ShowTraits;
    hide ShowLifetime;
    AtCons(e.input, s.pos, 'D', (MangleOptional('G', t.binder) + MangleTraits(t.traits)) + ("L" + Base62Text(t.index)));
    DynShown(e, s.(pos := s.pos + 1), t.binder, t.traits, t.index);
  }

  lemma {:induction false} ArrayShown(e: Env, s: St, elem: TypeTree, len: ConstTree)
    requires Going(e, s) && OkType(elem, s.pos, s.bound, e.input, s.printing)
    requires OkConst(len, s.pos + |MangleType(elem)|, e.input, s.printing)
    requires s.level + TypeDepth(elem, s.printing) <= e.maxLevel && s.level + ConstDepth(len, s.printing) <= e.maxLevel
    requires At(e.input, s.pos, MangleType(elem) + MangleConst(len))
    ensures
      ArrayType(e, s) ==
      Say(s, |MangleType(elem) + MangleConst(len)|, "[" + ShowType(elem, s.bound, true) + "; " + ShowConst(len) + "]")
    decreases TypeSize(elem), 5
  {
    hide At, Type, Const, MangleType, MangleConst, ShowType, ShowConst, OkType, OkConst, TypeDepth;
    var m, n := |MangleType(elem)|, |MangleConst(len)|;
    var shown := ShowType(elem, s.bound, true);
    TypeDepthPositive(elem);
    AtSplit(e.input, s.pos, MangleType(elem), MangleConst(len));
    ConstHead(len);
    AtHead(e.input, s.pos + m, MangleConst(len));
    TypeShown(e, Say(s, 0, "["), elem);
    SaySay(s, 0, "[", m, shown);
    SaySay(s, m, "[" + shown, 0, "; ");
    AtSlice(e.input, s.pos + m, MangleConst(len));
    ConstShown(e, Say(s, m, "[" + shown + "; "), len);
    SaySay(s, m, "[" + shown + "; ", n, ShowConst(len));
    SaySay(s, m + n, "[" + shown + "; " + ShowConst(len), 0, "]");
  }

  lemma TypeDepthPositive(t: TypeTree)
    ensures TypeDepth(t, true) >= 1 && TypeDepth(t, false) >= 1
  {
  }

  lemma ConstHead(c: ConstTree)
    ensures
      var m := MangleConst(c);
      |m| > 0 && m[0] != '_'
  {
  }

  lemma {:induction false} SliceShown(e: Env, s: St, elem: TypeTree)
    requires Going(e, s) && OkType(elem, s.pos, s.bound, e.input, s.printing)
    requires s.level + TypeDepth(elem, s.printing) <= e.maxLevel
    requires At(e.input, s.pos, MangleType(elem)) && Clear(e, s.pos + |MangleType(elem)|)
    ensures
      RustLexer.Print(Type(e, RustLexer.Print(s, "[")), "]") ==
      Say(s, |MangleType(elem)|, "[" + ShowType(elem, s.bound, true) + "]")
    decreases TypeSize(elem), 5
  {
    hide At, Type, MangleType, ShowType, OkType, TypeDepth;
    TypeShown(e, Say(s, 0, "["), elem);
    SaySay(s, 0, "[", |MangleType(elem)|, ShowType(elem, s.bound, true));
    SaySay(s, |MangleType(elem)|, "[" + ShowType(elem, s.bound, true), 0, "]");
  }

  function Count(ts: TypeSeq): nat
  {
    match ts case NoType => 0 case MoreTypes(_, tail) => 1 + Count(tail)
  }

  lemma {:induction false} TupleShown(e: Env, s: St, elems: TypeSeq)
    requires Going(e, s) && OkTypes(elems, s.pos, s.bound, e.input, s.printing)
    requires s.level + TypesDepth(elems, s.printing) <= e.maxLevel
    requires At(e.input, s.pos, MangleTypes(elems))
    ensures TupleType(e, s) == Say(s, |MangleTypes(elems)|, ShowType(Tuple(elems), s.bound, true))
    decreases TypesSize(elems), 2
  {
    hide At, TypeList, MangleTypes, ShowTypes, OkTypes, TypesDepth;
    TypesShown(e, Say(s, 0, "("), elems, 0);
    var k, text := |MangleTypes(elems)|, "(" + ShowTypes(elems, 0, s.bound, true);
    SaySay(s, 0, "(", k, ShowTypes(elems, 0, s.bound, true));
    SaySay(s, k, text, 0, ",");
    SaySay(s, k, text + ",", 0, ")");
    SaySay(s, k, text, 0, ")");
    assert text + "," + ")" == text + ",)";
    assert Count(elems) == 1 <==> elems.MoreTypes? && elems.tail.NoType?;
  }

  /** The definitions for lists of types, one layer deep. */
  lemma TypesParts(ts: TypeSeq, i: nat, pos: nat, bound: nat, input: string, printing: bool)
    requires OkTypes(ts, pos, bound, input, printing)
    ensures ts.NoType? ==> MangleTypes(ts) == "E" && ShowTypes(ts, i, bound, true) == ""
    ensures ts.MoreTypes? ==>
      && OkType(ts.head, pos, bound, input, printing)
      && OkTypes(ts.tail, pos + |MangleType(ts.head)|, bound, input, printing)
      && (forall b :: TypesDepth(ts, b) == Max(TypeDepth(ts.head, b), TypesDepth(ts.tail, b)))
      && TypeSize(ts.head) < TypesSize(ts) && TypesSize(ts.tail) < TypesSize(ts)
      && MangleTypes(ts) == MangleType(ts.head) + MangleTypes(ts.tail)
      && ShowTypes(ts, i, bound, true) ==
         Comma(i) + ShowType(ts.head, bound, true) + ShowTypes(ts.tail, i + 1, bound, true)
  {
    hide MangleType, ShowType, OkType, TypeDepth;
  }

  lemma {:induction false} TypesShown(e: Env, s: St, ts: TypeSeq, i: nat)
    requires Going(e, s) && OkTypes(ts, s.pos, s.bound, e.input, s.printing)
    requires s.level + TypesDepth(ts, s.printing) <= e.maxLevel
    requires At(e.input, s.pos, MangleTypes(ts))
    ensures TypeList(e, s, i) == (Say(s, |MangleTypes(ts)|, ShowTypes(ts, i, s.bound, true)), i + Count(ts))
    decreases TypesSize(ts), 1
  {
    hide Say, Comma, RustLexer.Print, At, Type, MangleType, ShowType, OkType, TypeDepth, MangleTypes, ShowTypes;
    hide OkTypes, TypesDepth, TypesSize, TypeSize;
    TypesParts(ts, i, s.pos, s.bound, e.input, s.printing);
    match ts
    case NoType =>
      AtHead(e.input, s.pos, "E");
    case MoreTypes(head, tail) =>
      var k, text := |MangleType(head)|, ShowType(head, s.bound, true);
      AtSplit(e.input, s.pos, MangleType(head), MangleTypes(tail));
      AtHead(e.input, s.pos, MangleType(head));
      AtHead(e.input, s.pos + k, MangleTypes(tail));
      var s1 := Say(s, 0, Comma(i));
      CommaSaid(s, i);
      TypeShown(e, s1, head);
      TypesShown(e, Say(s1, k, text), tail, i + 1);
      ListSaid(s, Comma(i), k, text, |MangleTypes(tail)|, ShowTypes(tail, i + 1, s.bound, true));
  }

  lemma {:induction false} ReferenceShown(e: Env, s: St, mut: bool, lifetime: Option<nat>, elem: TypeTree)
    requires Going(e, s) && (lifetime.Some? ==> OkNumber(lifetime.value) && lifetime.value <= s.bound)
    requires OkType(elem, s.pos + |MangleLifetime(lifetime)|, s.bound, e.input, s.printing)
    requires s.level + TypeDepth(elem, s.printing) <= e.maxLevel
    requires At(e.input, s.pos, MangleLifetime(lifetime) + MangleType(elem))
    requires Clear(e, s.pos + |MangleLifetime(lifetime) + MangleType(elem)|)
    ensures
      var s1 := RefLifetime(e, RustLexer.Print(s, "&"));
      Type(e, if mut then RustLexer.Print(s1, "mut ") else s1) ==
      Say(s, |MangleLifetime(lifetime) + MangleType(elem)|, ShowType(Reference(mut, lifetime, elem), s.bound, true))
    decreases TypeSize(elem), 5
  {
    hide Say, At, Type, RefLifetime, MangleType, OkType, TypeDepth, MangleLifetime, ShowRefLifetime;
    var m, n := |MangleLifetime(lifetime)|, |MangleType(elem)|;
    AtSplit(e.input, s.pos, MangleLifetime(lifetime), MangleType(elem));
    AtHead(e.input, s.pos + m, MangleType(elem));
    var shown := ShowRefLifetime(lifetime, s.bound);
    var word := if mut then "mut " else "";
    PrintSays(s, "&");
    RefLifetimeShown(e, Say(s, 0, "&"), lifetime);
    SaySay(s, 0, "&", m, shown);
    PrintMore(s, m, "&" + shown, word);
    assert "&" + shown + "" == "&" + shown;
    TypeShown(e, Say(s, m, "&" + shown + word), elem);
    SaySay(s, m, "&" + shown + word, n, ShowType(elem, s.bound, true));
  }

  lemma {:induction false} RefLifetimeShown(e: Env, s: St, lifetime: Option<nat>)
    requires Going(e, s) && (lifetime.Some? ==> OkNumber(lifetime.value) && lifetime.value <= s.bound)
    requires At(e.input, s.pos, MangleLifetime(lifetime))
    requires
      var p := s.pos + |MangleLifetime(lifetime)|;
      p < |e.input| && e.input[p] != 'L'
    ensures RefLifetime(e, s) == Say(s, |MangleLifetime(lifetime)|, ShowRefLifetime(lifetime, s.bound))
  {
    hide At, ParseBase62, Base62Text, LifetimeName, BoundName, ShowLifetime;
    if lifetime.Some? {
      var index := lifetime.value;
      AtCons(e.input, s.pos, 'L', Base62Text(index));
      var s1 := s.(pos := s.pos + 1);
      PrintsLifetime(index, s.bound);
      ReadBase62(e, s1, index);
      SaySay(s, |MangleLifetime(lifetime)|, ShowLifetime(index, s.bound), 0, " ");
      assert Say(s, |MangleLifetime(lifetime)|, "") == s.(pos := s.pos + |MangleLifetime(lifetime)|);
    } else {
      assert Say(s, 0, "") == s;
    }
  }

  // ---------------------------------------------------------------------------------------------
  // Binders, functions, trait objects
  // ---------------------------------------------------------------------------------------------

  lemma {:induction false} BinderShown(e: Env, s: St, binder: nat)
    requires Going(e, s) && OkBinder(binder, s.bound, e.input) && At(e.input, s.pos, MangleOptional('G', binder))
    requires
      var p := s.pos + |MangleOptional('G', binder)|;
      p < |e.input| && e.input[p] != 'G'
    ensures
      OptionalBinder(e, s) ==
      Say(s, |MangleOptional('G', binder)|, ShowBinder(binder, s.bound)).(bound := s.bound + binder)
  {
    hide At, MangleOptional, ParseOptionalBase62, BindLifetimes, Scope;
    OptionalZero('G');
    ReadOptional(e, s, 'G', binder);
    var k := |MangleOptional('G', binder)|;
    var s1 := s.(pos := s.pos + k);
    if binder > 0 {
      var s2 := Say(s1, 0, "for<");
      if s.printing {
        BindersPrintNewNames(e, s2, 0, binder);
      }
      var names := Join(Scope(s.bound + binder)[s.bound..], 0);
      SaySay(s1, 0, "for<", 0, names);
      SaySay(s1, 0, "for<" + names, 0, "> ");
    } else {
      assert Say(s, k, "") == s1;
    }
  }

  lemma {:induction false} QualifiersShown(e: Env, s: St, isUnsafe: bool, abi: AbiTree)
    requires Going(e, s) && (abi.NamedAbi? ==> OkName(Identifier(abi.name, false)))
    requires At(e.input, s.pos, MangleQualifiers(isUnsafe, abi))
    requires
      var p := s.pos + |MangleQualifiers(isUnsafe, abi)|;
      p < |e.input| && e.input[p] != 'U' && e.input[p] != 'K' && e.input[p] != '_'
    ensures
      FnQualifiers(e, s) == Say(s, |MangleQualifiers(isUnsafe, abi)|, ShowQualifiers(isUnsafe, abi))
  {
    hide At, Abi, MangleAbi, ShowAbi;
    var word, mark := if isUnsafe then "unsafe " else "", if isUnsafe then "U" else "";
    AtSplit(e.input, s.pos, mark, MangleAbi(abi));
    AbiHead(abi);
    if isUnsafe {
      AtHead(e.input, s.pos, mark);
    }
    if !abi.DefaultAbi? {
      AtHead(e.input, s.pos + |mark|, MangleAbi(abi));
    }
    var s2 := Say(s, |mark|, word);
    assert !isUnsafe ==> s2 == s;
    AbiShown(e, s2, abi);
    SaySay(s, |mark|, word, |MangleAbi(abi)|, ShowAbi(abi));
  }

  lemma AbiHead(abi: AbiTree)
    ensures abi.DefaultAbi? ==> MangleAbi(abi) == "" && ShowAbi(abi) == ""
    ensures !abi.DefaultAbi? ==> |MangleAbi(abi)| > 0 && MangleAbi(abi)[0] == 'K'
  {
  }

  lemma {:induction false} AbiShown(e: Env, s: St, abi: AbiTree)
    requires Going(e, s) && (abi.NamedAbi? ==> OkName(Identifier(abi.name, false)))
    requires At(e.input, s.pos, MangleAbi(abi)) && Clear(e, s.pos + |MangleAbi(abi)|)
    ensures !abi.DefaultAbi? ==> Abi(e, s.(pos := s.pos + 1)) == Say(s, |MangleAbi(abi)|, ShowAbi(abi))
    ensures abi.DefaultAbi? ==> s == Say(s, |MangleAbi(abi)|, ShowAbi(abi))
  {
    hide Say, At, Abi, OkName, IdentifierText, MangleIdentifier, Dashed;
    match abi
    case DefaultAbi =>
    case CAbi =>
      assert MangleAbi(abi) == "K" + "C";
      CAbiShown(e, s);
    case NamedAbi(name) => NamedAbiShown(e, s, name);
  }

  lemma {:induction false} CAbiShown(e: Env, s: St)
    requires Going(e, s) && At(e.input, s.pos, "K" + "C")
    ensures Abi(e, s.(pos := s.pos + 1)) == Say(s, 2, "extern \"C\" ")
  {
    hide Say, RustLexer.Print, At, ParseIdentifier, AbiText;
    AtCons(e.input, s.pos, 'K', "C");
    var s1 := s.(pos := s.pos + 1);
    AtHead(e.input, s1.pos, "C");
    var quote := "extern \"";
    PrintSays(s1, quote);
    SayOn(s1, quote, 1);
    PrintMore(s1, 1, quote, "C");
    PrintMore(s1, 1, quote + "C", "\" ");
    SayFrom(s, 1, 1, quote + "C" + "\" ");
    assert quote + "C" + "\" " == "extern \"C\" ";
  }

  lemma {:induction false} NamedAbiShown(e: Env, s: St, name: string)
    requires Going(e, s) && OkName(Identifier(name, false)) && At(e.input, s.pos, MangleAbi(NamedAbi(name)))
    requires Clear(e, s.pos + |MangleAbi(NamedAbi(name))|)
    ensures Abi(e, s.(pos := s.pos + 1)) == Say(s, |MangleAbi(NamedAbi(name))|, ShowAbi(NamedAbi(name)))
  {
    hide Say, RustLexer.Print, At, OkName, IdentifierText, MangleIdentifier, ParseIdentifier, AbiText, Dashed;
    PrintsDashed(name);
    var id := Identifier(name, false);
    var n, s1, quote := |MangleIdentifier(id)|, s.(pos := s.pos + 1), "extern \"";
    AtCons(e.input, s.pos, 'K', MangleIdentifier(id));
    IdentifierHead(id);
    AtHead(e.input, s1.pos, MangleIdentifier(id));
    PrintSays(s1, quote);
    ReadIdentifier(e, Say(s1, 0, quote), id);
    SayOn(s1, quote, n);
    PrintMore(s1, n, quote, AbiText(name));
    PrintMore(s1, n, quote + AbiText(name), "\" ");
    SayFrom(s, 1, n, quote + AbiText(name) + "\" ");
  }

  /** Where the parts before the parameters of a function type end, and what stands there. */
  lemma FrontText(input: string, pos: nat, binder: nat, isUnsafe: bool, abi: AbiTree, tail: string)
    requires tail != "" && (tail[0] == 'E' || TypeHead(tail[0]))
    requires At(input, pos, MangleOptional('G', binder) + (MangleQualifiers(isUnsafe, abi) + tail))
    ensures
      var j := pos + |MangleOptional('G', binder)|;
      var k := j + |MangleQualifiers(isUnsafe, abi)|;
      && At(input, pos, MangleOptional('G', binder)) && At(input, j, MangleQualifiers(isUnsafe, abi))
      && At(input, k, tail)
      && j < |input| && input[j] != 'G'
      && k < |input| && input[k] != 'U' && input[k] != 'K' && input[k] != '_'
  {
    hide At, MangleOptional, MangleQualifiers, TypeHead;
    var j, k := |MangleOptional('G', binder)|, |MangleQualifiers(isUnsafe, abi)|;
    var rest := MangleQualifiers(isUnsafe, abi) + tail;
    AtSplit(input, pos, MangleOptional('G', binder), rest);
    AtSplit(input, pos + j, MangleQualifiers(isUnsafe, abi), tail);
    AtHead(input, pos + j + k, tail);
    AtHead(input, pos + j, rest);
    QualifiersHead(isUnsafe, abi);
    if tail[0] != 'E' {
      TypeHeadFacts(tail[0]);
    }
  }

  /** Binder and qualifiers of a function type, up to the parameters. */
  lemma {:induction false} FunctionFront(e: Env, s: St, binder: nat, isUnsafe: bool, abi: AbiTree, tail: string)
    requires Going(e, s) && OkBinder(binder, s.bound, e.input)
    requires abi.NamedAbi? ==> OkName(Identifier(abi.name, false))
    requires tail != "" && (tail[0] == 'E' || TypeHead(tail[0]))
    requires At(e.input, s.pos, MangleOptional('G', binder) + (MangleQualifiers(isUnsafe, abi) + tail))
    ensures
      var k := |MangleOptional('G', binder)| + |MangleQualifiers(isUnsafe, abi)|;
      && At(e.input, s.pos + k, tail)
      && FnQualifiers(e, OptionalBinder(e, s)) ==
         Say(s.(bound := s.bound + binder), k, ShowBinder(binder, s.bound) + ShowQualifiers(isUnsafe, abi))
  {
    hide At, OptionalBinder, FnQualifiers, MangleOptional, MangleQualifiers, TypeHead, OkId, ShowBinder, ShowQualifiers;
    var j, k := |MangleOptional('G', binder)|, |MangleQualifiers(isUnsafe, abi)|;
    FrontText(e.input, s.pos, binder, isUnsafe, abi, tail);
    BinderShown(e, s, binder);
    var b := s.(bound := s.bound + binder);
    QualifiersShown(e, Say(b, j, ShowBinder(binder, s.bound)), isUnsafe, abi);
    SaySay(b, j, ShowBinder(binder, s.bound), k, ShowQualifiers(isUnsafe, abi));
  }

  lemma {:induction false} FunctionShown(
    e: Env, s: St, binder: nat, isUnsafe: bool, abi: AbiTree, params: TypeSeq, result: TypeTree)
    requires Going(e, s) && OkBinder(binder, s.bound, e.input)
    requires abi.NamedAbi? ==> OkName(Identifier(abi.name, false))
    requires
      var front := s.pos + |MangleOptional('G', binder)| + |MangleQualifiers(isUnsafe, abi)|;
      && OkTypes(params, front, s.bound + binder, e.input, s.printing)
      && OkType(result, front + |MangleTypes(params)|, s.bound + binder, e.input, s.printing)
    requires s.level + TypesDepth(params, s.printing) <= e.maxLevel
    requires s.level + ResultDepth(result, s.printing) <= e.maxLevel
    requires At(e.input, s.pos,
      MangleOptional('G', binder) + (MangleQualifiers(isUnsafe, abi) + (MangleTypes(params) + MangleType(result))))
    requires Clear(e, s.pos + |MangleOptional('G', binder) +
      (MangleQualifiers(isUnsafe, abi) + (MangleTypes(params) + MangleType(result)))|)
    ensures
      FnSig(e, s) ==
      Say(s,
        |MangleOptional('G', binder) + (MangleQualifiers(isUnsafe, abi) + (MangleTypes(params) + MangleType(result)))|,
          ShowBinder(binder, s.bound) + ShowQualifiers(isUnsafe, abi) +
          "fn(" + ShowTypes(params, 0, s.bound + binder, true) + ")" + ShowResult(result, s.bound + binder, true))
    decreases TypesSize(params) + TypeSize(result), 3
  {
    hide Say, RustLexer.Print, At, OptionalBinder, FnQualifiers, MangleOptional, MangleQualifiers, MangleTypes;
    hide MangleType, TypeHead;
    hide OkTypes, OkType, OkId, TypesDepth, TypeDepth, ShowBinder, ShowQualifiers, ShowTypes, ShowResult, TypeList;
    hide ReturnType;
    var tail := MangleTypes(params) + MangleType(result);
    var k, inner := |MangleOptional('G', binder)| + |MangleQualifiers(isUnsafe, abi)|, s.bound + binder;
    var front := ShowBinder(binder, s.bound) + ShowQualifiers(isUnsafe, abi);
    FunctionFront(e, s, binder, isUnsafe, abi, tail);
    FunctionTail(e, s.(bound := inner), k, front, params, result);
    SayBound(s, inner, k + |tail|,
             front + "fn(" + ShowTypes(params, 0, inner, true) + ")" + ShowResult(result, inner, true));
  }

  lemma QualifiersHead(isUnsafe: bool, abi: AbiTree)
    ensures
      var m := MangleQualifiers(isUnsafe, abi);
      m != "" ==> m[0] == 'U' || m[0] == 'K'
  {
  }

  /** Parameters and result, after the binder and the qualifiers. */
  lemma {:induction false} FunctionTail(e: Env, b: St, k: nat, text: string, params: TypeSeq, result: TypeTree)
    requires Going(e, b) && OkTypes(params, b.pos + k, b.bound, e.input, b.printing)
    requires OkType(result, b.pos + k + |MangleTypes(params)|, b.bound, e.input, b.printing)
    requires b.level + TypesDepth(params, b.printing) <= e.maxLevel
    requires b.level + ResultDepth(result, b.printing) <= e.maxLevel
    requires At(e.input, b.pos + k, MangleTypes(params) + MangleType(result))
    requires Clear(e, b.pos + k + |MangleTypes(params) + MangleType(result)|)
    ensures
      var s1 := Say(b, k, text);
      var s2 := TypeList(e, RustLexer.Print(s1, "fn("), 0).0;
      Wf(e, s2) &&
      ReturnType(e, RustLexer.Print(s2, ")")) ==
      Say(b, k + |MangleTypes(params) + MangleType(result)|,
          text + "fn(" + ShowTypes(params, 0, b.bound, true) + ")" + ShowResult(result, b.bound, true))
    decreases TypesSize(params) + TypeSize(result), 2
  {
    hide Say, At, MangleTypes, MangleType, OkTypes, OkType, TypesDepth, TypeDepth, ShowTypes, ShowResult, TypeList;
    hide ReturnType;
    var m, n := |MangleTypes(params)|, |MangleType(result)|;
    AtSplit(e.input, b.pos + k, MangleTypes(params), MangleType(result));
    AtSlice(e.input, b.pos + k, MangleTypes(params));
    PrintMore(b, k, text, "fn(");
    var types := ShowTypes(params, 0, b.bound, true);
    TypesShown(e, Say(b, k, text + "fn("), params, 0);
    SaySay(b, k, text + "fn(", m, types);
    PrintMore(b, k + m, text + "fn(" + types, ")");
    AtSlice(e.input, b.pos + k + m, MangleType(result));
    ResultShown(e, Say(b, k + m, text + "fn(" + types + ")"), result);
    SaySay(b, k + m, text + "fn(" + types + ")", n, ShowResult(result, b.bound, true));
  }

  lemma {:induction false} ResultShown(e: Env, s: St, result: TypeTree)
    requires Going(e, s) && OkType(result, s.pos, s.bound, e.input, s.printing)
    requires s.level + ResultDepth(result, s.printing) <= e.maxLevel
    requires At(e.input, s.pos, MangleType(result)) && Clear(e, s.pos + |MangleType(result)|)
    ensures ReturnType(e, s) == Say(s, |MangleType(result)|, ShowResult(result, s.bound, true))
    decreases TypeSize(result), 5
  {
    hide At, Type, OkType, TypeDepth, ShowType, MangleType;
    AtHead(e.input, s.pos, MangleType(result));
    if result == Basic(Unit) {
      UnitParts();
      assert Say(s, 1, "") == s.(pos := s.pos + 1);
    } else {
      TypeShown(e, Say(s, 0, " -> "), result);
      SaySay(s, 0, " -> ", |MangleType(result)|, ShowType(result, s.bound, true));
    }
  }

  lemma UnitParts()
    ensures MangleType(Basic(Unit)) == "u"
  {
  }

  lemma {:induction false} DynShown(e: Env, s: St, binder: nat, traits: TraitList, index: nat)
    requires Going(e, s) && OkBinder(binder, s.bound, e.input) && OkNumber(index) && index <= s.bound
    requires OkTraits(traits, s.pos + |MangleOptional('G', binder)|, s.bound + binder, e.input, s.printing)
    requires s.level + TraitsDepth(traits, s.printing) <= e.maxLevel
    requires At(e.input, s.pos, (MangleOptional('G', binder) + MangleTraits(traits)) + ("L" + Base62Text(index)))
    ensures
      DynType(e, s) ==
      Say(s, |(MangleOptional('G', binder) + MangleTraits(traits)) + ("L" + Base62Text(index))|,
          ShowType(Dyn(binder, traits, index), s.bound, true))
    decreases TraitsSize(traits), 3
  {
    hide At, DynBounds, MangleOptional, MangleTraits, Base62Text, OkTraits, TraitsDepth, ShowBinder, ShowTraits;
    hide ParseBase62, LifetimeName, BoundName, ShowLifetime;
    var front := MangleOptional('G', binder) + MangleTraits(traits);
    AtSplit(e.input, s.pos, front, "L" + Base62Text(index));
    AtCons(e.input, s.pos + |front|, 'L', Base62Text(index));
    DynBoundsShown(e, s, binder, traits);
    var text := "dyn " + ShowBinder(binder, s.bound) + ShowTraits(traits, 0, s.bound + binder, true);
    var s1 := Say(s, |front| + 1, text);
    PrintsLifetime(index, s.bound);
    ReadBase62(e, s1, index);
    var k := |front| + 1 + |Base62Text(index)|;
    SaySay(s, k, text, 0, " + ");
    SaySay(s, k, text + " + ", 0, ShowLifetime(index, s.bound));
    assert text + " + " + ShowLifetime(index, s.bound) == text + (" + " + ShowLifetime(index, s.bound));
    assert text + "" == text;
  }

  lemma {:induction false} DynBoundsShown(e: Env, s: St, binder: nat, traits: TraitList)
    requires Going(e, s) && OkBinder(binder, s.bound, e.input)
    requires OkTraits(traits, s.pos + |MangleOptional('G', binder)|, s.bound + binder, e.input, s.printing)
    requires s.level + TraitsDepth(traits, s.printing) <= e.maxLevel
    requires At(e.input, s.pos, MangleOptional('G', binder) + MangleTraits(traits))
    ensures
      DynBounds(e, s) ==
      Say(s, |MangleOptional('G', binder) + MangleTraits(traits)|,
          "dyn " + ShowBinder(binder, s.bound) + ShowTraits(traits, 0, s.bound + binder, true))
    decreases TraitsSize(traits), 2
  {
    hide At, OptionalBinder, DynTraits, MangleOptional, MangleTraits, OkTraits, TraitsDepth, ShowBinder, ShowTraits;
    var m, n := |MangleOptional('G', binder)|, |MangleTraits(traits)|;
    AtSplit(e.input, s.pos, MangleOptional('G', binder), MangleTraits(traits));
    AtHead(e.input, s.pos + m, MangleTraits(traits));
    BinderShown(e, Say(s, 0, "dyn "), binder);
    var b := s.(bound := s.bound + binder);
    var text := "dyn " + ShowBinder(binder, s.bound);
    SaySay(b, 0, "dyn ", m, ShowBinder(binder, s.bound));
    TraitsShown(e, Say(b, m, text), traits, 0);
    SaySay(b, m, text, n, ShowTraits(traits, 0, b.bound, true));
  }

  /** The definitions for lists of traits, one layer deep. */
  lemma TraitsParts(ts: TraitList, i: nat, pos: nat, bound: nat, input: string, printing: bool)
    requires OkTraits(ts, pos, bound, input, printing)
    ensures ts.NoTrait? ==> MangleTraits(ts) == "E" && ShowTraits(ts, i, bound, true) == ""
    ensures ts.MoreTraits? ==>
      && OkPath(ts.path, pos, bound, input, printing)
      && OkBindings(ts.bindings, pos + |ManglePath(ts.path)|, bound, input, printing)
      && OkTraits(ts.rest, pos + |ManglePath(ts.path)| + |MangleBindings(ts.bindings)|, bound, input, printing)
      && (forall b ::
            TraitsDepth(ts, b) ==
            Max(PathDepth(ts.path, b), Max(BindingsDepth(ts.bindings, b), TraitsDepth(ts.rest, b))))
      && PathSize(ts.path) + BindingsSize(ts.bindings) < TraitsSize(ts) && TraitsSize(ts.rest) < TraitsSize(ts)
      && MangleTraits(ts) == ManglePath(ts.path) + (MangleBindings(ts.bindings) + MangleTraits(ts.rest))
      && ShowTraits(ts, i, bound, true) ==
         (if i > 0 then " + " else "") +
         ShowPath(ts.path, true, true, bound, true) + ShowBindings(ts.bindings, HasArgs(ts.path, true), bound, true) +
         CloseTrait(ts.path, ts.bindings) + ShowTraits(ts.rest, i + 1, bound, true)
  {
    hide ManglePath, MangleBindings, ShowPath, ShowBindings, OkPath, OkBindings, PathDepth, BindingsDepth, CloseTrait;
    hide HasArgs;
  }

  /** One trait with its bindings. */
  function TraitText(path: PathTree, bindings: BindingList, bound: nat): string
  {
    ShowPath(path, true, true, bound, true) + ShowBindings(bindings, HasArgs(path, true), bound, true) +
    CloseTrait(path, bindings)
  }

  /** The same definitions, with the text of a trait in one piece. */
  lemma TraitsLine(ts: TraitList, i: nat, pos: nat, bound: nat, input: string, printing: bool)
    requires OkTraits(ts, pos, bound, input, printing)
    ensures ts.NoTrait? ==> MangleTraits(ts) == "E" && ShowTraits(ts, i, bound, true) == ""
    ensures ts.MoreTraits? ==>
      var item := ManglePath(ts.path) + MangleBindings(ts.bindings);
      && OkPath(ts.path, pos, bound, input, printing)
      && OkBindings(ts.bindings, pos + |ManglePath(ts.path)|, bound, input, printing)
      && OkTraits(ts.rest, pos + |item|, bound, input, printing)
      && (forall b ::
            TraitsDepth(ts, b) ==
            Max(PathDepth(ts.path, b), Max(BindingsDepth(ts.bindings, b), TraitsDepth(ts.rest, b))))
      && PathSize(ts.path) + BindingsSize(ts.bindings) < TraitsSize(ts) && TraitsSize(ts.rest) < TraitsSize(ts)
      && MangleTraits(ts) == item + MangleTraits(ts.rest)
      && ShowTraits(ts, i, bound, true) ==
         Plus(i) + TraitText(ts.path, ts.bindings, bound) + ShowTraits(ts.rest, i + 1, bound, true)
  {
    hide ManglePath, MangleBindings, ShowPath, ShowBindings, OkPath, OkBindings, PathDepth, BindingsDepth, CloseTrait;
    hide MangleTraits, ShowTraits, OkTraits, TraitsDepth, TraitsSize, PathSize, BindingsSize, HasArgs;
    TraitsParts(ts, i, pos, bound, input, printing);
    if ts.MoreTraits? {
      Assoc(ManglePath(ts.path), MangleBindings(ts.bindings), MangleTraits(ts.rest));
      Regroup(Plus(i), ShowPath(ts.path, true, true, bound, true),
              ShowBindings(ts.bindings, HasArgs(ts.path, true), bound, true), CloseTrait(ts.path, ts.bindings));
    }
  }

  function Plus(i: nat): string { if i > 0 then " + " else "" }

  lemma PlusSaid(s: St, i: nat)
    requires !s.error
    ensures (if i > 0 then RustLexer.Print(s, " + ") else s) == Say(s, 0, Plus(i))
  {
  }

  lemma Regroup(a: string, b: string, c: string, d: string)
    ensures a + (b + c + d) == a + b + c + d
  {
  }

  lemma {:induction false} TraitsShown(e: Env, s: St, ts: TraitList, i: nat)
    requires Going(e, s) && OkTraits(ts, s.pos, s.bound, e.input, s.printing)
    requires s.level + TraitsDepth(ts, s.printing) <= e.maxLevel
    requires At(e.input, s.pos, MangleTraits(ts))
    ensures DynTraits(e, s, i) == Say(s, |MangleTraits(ts)|, ShowTraits(ts, i, s.bound, true))
    decreases TraitsSize(ts), 1
  {
    hide Say, Plus, RustLexer.Print, At, DynTrait, ManglePath, MangleBindings, OkPath, OkBindings, PathDepth;
    hide BindingsDepth, TraitText, MangleTraits, ShowTraits, OkTraits, TraitsDepth, TraitsSize, PathSize, BindingsSize;
    TraitsLine(ts, i, s.pos, s.bound, e.input, s.printing);
    match ts
    case NoTrait => AtHead(e.input, s.pos, "E");
    case MoreTraits(path, bindings, rest) =>
      var item, text := ManglePath(path) + MangleBindings(bindings), TraitText(path, bindings, s.bound);
      AtSplit(e.input, s.pos, item, MangleTraits(rest));
      AtHead(e.input, s.pos, item);
      AtHead(e.input, s.pos + |item|, MangleTraits(rest));
      var s1 := Say(s, 0, Plus(i));
      PlusSaid(s, i);
      TraitShownOpen(e, s1, path, bindings);
      TraitsShown(e, Say(s1, |item|, text), rest, i + 1);
      ListSaid(s, Plus(i), |item|, text, |MangleTraits(rest)|, ShowTraits(rest, i + 1, s.bound, true));
  }

  lemma {:induction false} TraitShownOpen(e: Env, s: St, path: PathTree, bindings: BindingList)
    requires Going(e, s) && OkPath(path, s.pos, s.bound, e.input, s.printing)
    requires OkBindings(bindings, s.pos + |ManglePath(path)|, s.bound, e.input, s.printing)
    requires s.level + PathDepth(path, s.printing) <= e.maxLevel
    requires s.level + BindingsDepth(bindings, s.printing) <= e.maxLevel
    requires At(e.input, s.pos, ManglePath(path) + MangleBindings(bindings))
    requires
      var q := s.pos + |ManglePath(path) + MangleBindings(bindings)|;
      q < |e.input| && e.input[q] != 'p' && e.input[q] != '_'
    ensures
      DynTrait(e, s) ==
      Say(s, |ManglePath(path) + MangleBindings(bindings)|, TraitText(path, bindings, s.bound))
    decreases PathSize(path) + BindingsSize(bindings), 2
  {
    hide At, Path, AssocBindings, ManglePath, MangleBindings, ShowPath, ShowBindings, OkPath, OkBindings, PathDepth;
    hide BindingsDepth;
    var m, n := |ManglePath(path)|, |MangleBindings(bindings)|;
    var shown, more :=
      ShowPath(path, true, true, s.bound, true), ShowBindings(bindings, HasArgs(path, true), s.bound, true);
    AtSplit(e.input, s.pos, ManglePath(path), MangleBindings(bindings));
    if MangleBindings(bindings) != "" {
      AtHead(e.input, s.pos + m, MangleBindings(bindings));
    }
    PathShown(e, s, path, true, true);
    BindingsShown(e, Say(s, m, shown), bindings, HasArgs(path, s.printing));
    SaySay(s, m, shown, n, more);
    SaySay(s, m + n, shown + more, 0, ">");
    assert shown + more + "" == shown + more;
  }

  /** The definitions for lists of bindings, one layer deep. */
  lemma BindingsParts(bs: BindingList, pos: nat, bound: nat, input: string, open: bool, printing: bool)
    requires OkBindings(bs, pos, bound, input, printing)
    ensures bs.NoBinding? ==> MangleBindings(bs) == "" && ShowBindings(bs, open, bound, true) == ""
    ensures bs.MoreBindings? ==>
      && OkName(bs.name) && OkType(bs.value, pos + 1 + |MangleIdentifier(bs.name)|, bound, input, printing)
      && OkBindings(bs.rest, pos + 1 + |MangleIdentifier(bs.name)| + |MangleType(bs.value)|, bound, input, printing)
      && TypeSize(bs.value) + BindingsSize(bs.rest) < BindingsSize(bs)
      && (forall b :: BindingsDepth(bs, b) == Max(TypeDepth(bs.value, b), BindingsDepth(bs.rest, b)))
      && MangleBindings(bs) == "p" + ((MangleIdentifier(bs.name) + MangleType(bs.value)) + MangleBindings(bs.rest))
      && ShowBindings(bs, open, bound, true) ==
         ((if open then ", "
           else "<") + bs.name.name + " = " + ShowType(bs.value, bound, true)) +
             ShowBindings(bs.rest, true, bound, true)
  {
    hide MangleIdentifier, MangleType, OkId, OkType, TypeDepth, ShowType;
  }

  lemma {:induction false} BindingsHead(bs: BindingList)
    ensures MangleBindings(bs) != "" ==> MangleBindings(bs)[0] == 'p'
  {
    hide MangleIdentifier, MangleType;
  }

  /** Where a binding ends, and what can stand there. */
  lemma BindingText(input: string, pos: nat, item: string, rest: BindingList)
    requires At(input, pos, "p" + (item + MangleBindings(rest)))
    requires
      var q := pos + 1 + |item| + |MangleBindings(rest)|;
      q < |input| && input[q] != '_'
    ensures pos < |input| && input[pos] == 'p' && At(input, pos + 1, item)
    ensures At(input, pos + 1 + |item|, MangleBindings(rest)) && ClearAt(input, pos + 1 + |item|)
  {
    hide At, MangleBindings;
    AtCons(input, pos, 'p', item + MangleBindings(rest));
    AtSplit(input, pos + 1, item, MangleBindings(rest));
    if MangleBindings(rest) != "" {
      AtHead(input, pos + 1 + |item|, MangleBindings(rest));
      BindingsHead(rest);
    }
  }

  lemma {:induction false} BindingsShown(e: Env, s: St, bs: BindingList, open: bool)
    requires Going(e, s) && OkBindings(bs, s.pos, s.bound, e.input, s.printing)
    requires s.level + BindingsDepth(bs, s.printing) <= e.maxLevel
    requires At(e.input, s.pos, MangleBindings(bs))
    requires
      var q := s.pos + |MangleBindings(bs)|;
      q < |e.input| && e.input[q] != 'p' && e.input[q] != '_'
    ensures
      AssocBindings(e, s, open) ==
      (Say(s, |MangleBindings(bs)|, ShowBindings(bs, open, s.bound, true)), open || bs.MoreBindings?)
    decreases BindingsSize(bs), 1
  {
    hide At, AssocBinding, MangleIdentifier, MangleType, OkId, OkType, TypeDepth, ShowType, MangleBindings, OkBindings;
    hide BindingsDepth, ShowBindings, BindingsSize, TypeSize;
    BindingsParts(bs, s.pos, s.bound, e.input, open, s.printing);
    match bs
    case NoBinding => assert Say(s, 0, "") == s;
    case MoreBindings(name, value, rest) =>
      var item := MangleIdentifier(name) + MangleType(value);
      BindingText(e.input, s.pos, item, rest);
      var s1 := s.(pos := s.pos + 1);
      BindingShown(e, s1, name, value, open);
      var text := (if open then ", " else "<") + name.name + " = " + ShowType(value, s.bound, true);
      var s2 := Say(s, 1 + |item|, text);
      assert s2 == Say(s1, |item|, text);
      BindingsShown(e, s2, rest, true);
      SaySay(s, 1 + |item|, text, |MangleBindings(rest)|, ShowBindings(rest, true, s.bound, true));
  }

  lemma {:induction false} BindingShown(e: Env, s: St, name: Identifier, value: TypeTree, open: bool)
    requires Going(e, s) && OkName(name)
    requires OkType(value, s.pos + |MangleIdentifier(name)|, s.bound, e.input, s.printing)
    requires s.level + TypeDepth(value, s.printing) <= e.maxLevel
    requires At(e.input, s.pos, MangleIdentifier(name) + MangleType(value))
    requires Clear(e, s.pos + |MangleIdentifier(name) + MangleType(value)|)
    ensures
      AssocBinding(e, s, open) ==
      Say(s, |MangleIdentifier(name) + MangleType(value)|,
          (if open then ", " else "<") + name.name + " = " + ShowType(value, s.bound, true))
    decreases TypeSize(value), 5
  {
    hide At, Type, ParseIdentifier, MangleIdentifier, MangleType, OkId, OkType, TypeDepth, ShowType;
    var m, n := |MangleIdentifier(name)|, |MangleType(value)|;
    var mark := if open then ", " else "<";
    AtSplit(e.input, s.pos, MangleIdentifier(name), MangleType(value));
    AtHead(e.input, s.pos + m, MangleType(value));
    ReadIdentifier(e, Say(s, 0, mark), name);
    SaySay(s, m, mark, 0, name.name);
    SaySay(s, m, mark + name.name, 0, " = ");
    TypeShown(e, Say(s, m, mark + name.name + " = "), value);
    SaySay(s, m, mark + name.name + " = ", n, ShowType(value, s.bound, true));
  }

  // ---------------------------------------------------------------------------------------------
  // The whole symbol
  // ---------------------------------------------------------------------------------------------

  predicate NoDot(s: string) { '.' !in s }

  lemma {:induction false} FindDotIs(s: string, suffix: string)
    requires NoDot(s) && (suffix != "" ==> suffix[0] == '.')
    ensures FindDot(s + suffix) == |s|
  {
    if s != "" {
      FindDotIs(s[1..], suffix);
      assert (s + suffix)[1..] == s[1..] + suffix;
    } else {
      assert s + suffix == suffix;
    }
  }

  lemma NumbersNoDot(n: nat)
    ensures NoDot(Base62Text(n)) && NoDot(DecimalText(n)) && NoDot(HexText(n))
  {
    hide Text;
    Base62Letters();
    if n > 0 {
      TextLetters(n - 1, 62, Base62Letter, IsBase62);
    }
    TextLetters(n, 10, DecimalLetter, IsDigit);
    TextLetters(n, 16, HexLetter, IsHexDigit);
  }

  lemma IdNoDot(id: Identifier)
    requires OkName(id)
    ensures NoDot(MangleIdentifier(id))
  {
    hide DecimalText, IdentifierText;
    NumbersNoDot(|id.name|);
  }

  lemma OptionalNoDot(tag: char, n: nat)
    requires tag != '.'
    ensures NoDot(MangleOptional(tag, n))
  {
    hide Base62Text;
    if n > 0 {
      NumbersNoDot(n - 1);
    }
  }

  lemma ConstNoDot(c: ConstTree)
    ensures NoDot(MangleConst(c))
  {
    hide Base62Text, HexText, DecimalText;
    match c {
      case IntConst(kind, negative, value) => NumbersNoDot(value);
      case CharConst(code) => NumbersNoDot(code);
      case ConstRef(target, _) => NumbersNoDot(target);
      case _ =>
    }
  }

  /** No mangled tree contains the dot that would start a suffix. */
  lemma {:induction false} PathNoDot(p: PathTree, pos: nat, bound: nat, input: string, printing: bool)
    requires OkPath(p, pos, bound, input, printing)
    ensures NoDot(ManglePath(p))
    decreases p, 2
  {
    hide NoDot, ManglePath, OkPath, MangleType, OkType, MangleArgs, OkArgs, MangleOptional, MangleIdentifier, OkName;
    hide IdentifierText, ShowPath, PathDepth, PathSize;
    match p {
      case Crate(dis, id) => CrateNoDot(p, pos, bound, input, printing);
      case InherentImpl(dis, impl, self) =>
        ImplParts(p, false, false, pos, bound, input, printing);
        var a, b, c := MangleOptional('s', dis), ManglePath(impl), MangleType(self);
        OptionalNoDot('s', dis);
        PathNoDot(impl, pos + 1 + |a|, bound, input, false);
        TypeNoDot(self, pos + 1 + |a| + |b|, bound, input, printing);
        NoDotAppend(a, b);
        NoDotAppend(a + b, c);
        LetterNoDot('M', (a + b) + c);
      case TraitImpl(dis, impl, self, trt) =>
        TraitImplParts(p, false, false, pos, bound, input, printing);
        var a, b, c, d := MangleOptional('s', dis), ManglePath(impl), MangleType(self), ManglePath(trt);
        OptionalNoDot('s', dis);
        PathNoDot(impl, pos + 1 + |a|, bound, input, false);
        TypeNoDot(self, pos + 1 + |a| + |b|, bound, input, printing);
        PathNoDot(trt, pos + 1 + |a| + |b| + |c|, bound, input, printing);
        NoDotAppend(a, b);
        NoDotAppend(c, d);
        NoDotAppend(a + b, c + d);
        LetterNoDot('X', (a + b) + (c + d));
      case TraitDef(self, trt) =>
        TraitDefParts(p, false, false, pos, bound, input, printing);
        TypeNoDot(self, pos + 1, bound, input, printing);
        PathNoDot(trt, pos + 1 + |MangleType(self)|, bound, input, printing);
        NoDotAppend(MangleType(self), ManglePath(trt));
        LetterNoDot('Y', MangleType(self) + ManglePath(trt));
      case Nested(ns, parent, dis, id) =>
        NestedParts(p, false, false, pos, bound, input, printing);
        var a, b, c := ManglePath(parent), MangleOptional('s', dis), MangleIdentifier(id);
        PathNoDot(parent, pos + 2, bound, input, printing);
        OptionalNoDot('s', dis);
        IdNoDot(id);
        NoDotAppend(b, c);
        NoDotAppend(a, b + c);
        LetterNoDot(ns, a + (b + c));
        LetterNoDot('N', [ns] + (a + (b + c)));
      case Generic(base, args) =>
        GenericParts(p, pos, bound, input, printing);
        PathNoDot(base, pos + 1, bound, input, printing);
        ArgsNoDot(args, pos + 1 + |ManglePath(base)|, bound, input, printing);
        NoDotAppend(ManglePath(base), MangleArgs(args));
        LetterNoDot('I', ManglePath(base) + MangleArgs(args));
      case PathRef(target, _) =>
        PathRefParts(p, false, false, pos, bound, input, printing);
        RefNoDot(target);
    }
  }

  lemma CrateNoDot(p: PathTree, pos: nat, bound: nat, input: string, printing: bool)
    requires OkPath(p, pos, bound, input, printing) && p.Crate?
    ensures NoDot(ManglePath(p))
  {
    hide MangleOptional, MangleIdentifier, OkName, IdentifierText;
    OptionalNoDot('s', p.dis);
    IdNoDot(p.id);
  }

  lemma {:induction false} ArgsNoDot(args: ArgList, pos: nat, bound: nat, input: string, printing: bool)
    requires OkArgs(args, pos, bound, input, printing)
    ensures NoDot(MangleArgs(args))
    decreases args, 2
  {
    hide NoDot, MangleArgs, OkArgs, ArgText, ArgShow, ShowArgs, ArgsDepth, ArgsSize;
    ArgsEnd(args, 0, bound);
    if args.NoArg? {
      EndNoDot();
    } else {
      ArgsParts(args, 0, pos, bound, input, printing);
      ArgNoDot(args, pos, bound, input, printing);
      ArgsNoDot(args.rest, pos + |ArgText(args)|, bound, input, printing);
      NoDotAppend(ArgText(args), MangleArgs(args.rest));
    }
  }

  lemma EndNoDot()
    ensures NoDot("E")
  {
  }

  lemma {:induction false} ArgNoDot(args: ArgList, pos: nat, bound: nat, input: string, printing: bool)
    requires OkArgs(args, pos, bound, input, printing)
    ensures NoDot(ArgText(args))
    decreases args, 1
  {
    hide Base62Text, MangleConst, MangleType, OkType;
    match args {
      case NoArg =>
      case LifetimeArg(index, _) => NumbersNoDot(index);
      case ConstArg(c, _) => ConstNoDot(c);
      case TypeArg(t, _) => TypeNoDot(t, pos, bound, input, printing);
    }
  }

  lemma NoDotAppend(a: string, b: string)
    requires NoDot(a) && NoDot(b)
    ensures NoDot(a + b)
  {
  }

  lemma LetterNoDot(c: char, b: string)
    requires c != '.' && NoDot(b)
    ensures NoDot([c] + b)
  {
  }

  lemma LifetimeNoDot(lifetime: Option<nat>)
    ensures NoDot(MangleLifetime(lifetime))
  {
    hide Base62Text;
    if lifetime.Some? {
      NumbersNoDot(lifetime.value);
    }
  }

  lemma QualifiersNoDot(isUnsafe: bool, abi: AbiTree)
    requires abi.NamedAbi? ==> OkName(Identifier(abi.name, false))
    ensures NoDot(MangleQualifiers(isUnsafe, abi))
  {
    hide MangleIdentifier, OkName, IdentifierText;
    if abi.NamedAbi? {
      IdNoDot(Identifier(abi.name, false));
    }
  }

  lemma {:induction false} TypeNoDot(t: TypeTree, pos: nat, bound: nat, input: string, printing: bool)
    requires OkType(t, pos, bound, input, printing)
    ensures NoDot(MangleType(t))
    decreases t, 1
  {
    hide NoDot, MangleType, OkType, MangleConst, MangleLifetime, ShowType, TypeDepth, TypeSize, OkConst, ShowConst;
    match t {
      case Basic(b) => BasicNoDot(t);
      case Named(p) => NamedNoDot(t, pos, bound, input, printing);
      case Array(elem, len) =>
        ArrayParts(t, pos, bound, input, printing);
        TypeNoDot(elem, pos + 1, bound, input, printing);
        ConstNoDot(len);
        NoDotAppend(MangleType(elem), MangleConst(len));
        LetterNoDot('A', MangleType(elem) + MangleConst(len));
      case Slice(elem) =>
        ElementParts(t, pos, bound, input, printing);
        TypeNoDot(elem, pos + 1, bound, input, printing);
        LetterNoDot('S', MangleType(elem));
      case Tuple(elems) => TupleNoDot(t, pos, bound, input, printing);
      case Reference(mut, lifetime, elem) =>
        ReferenceParts(t, pos, bound, input, printing);
        LifetimeNoDot(lifetime);
        TypeNoDot(elem, pos + 1 + |MangleLifetime(lifetime)|, bound, input, printing);
        NoDotAppend(MangleLifetime(lifetime), MangleType(elem));
        LetterNoDot(if mut then 'Q' else 'R', MangleLifetime(lifetime) + MangleType(elem));
      case Pointer(mut, elem) =>
        ElementParts(t, pos, bound, input, printing);
        TypeNoDot(elem, pos + 1, bound, input, printing);
        LetterNoDot(if mut then 'O' else 'P', MangleType(elem));
      case Function(_, _, _, _, _) => FunctionNoDot(t, pos, bound, input, printing);
      case Dyn(_, _, _) => DynNoDot(t, pos, bound, input, printing);
      case TypeRef(target, _) =>
        TypeRefParts(t, pos, bound, input, printing);
        RefNoDot(target);
    }
  }

  lemma RefNoDot(target: nat)
    ensures NoDot(MangleRef(target))
  {
    hide Base62Text;
    NumbersNoDot(target);
  }

  lemma BasicNoDot(t: TypeTree)
    requires t.Basic?
    ensures NoDot(MangleType(t))
  {
  }

  lemma {:induction false} NamedNoDot(t: TypeTree, pos: nat, bound: nat, input: string, printing: bool)
    requires OkType(t, pos, bound, input, printing) && t.Named?
    ensures NoDot(MangleType(t))
    decreases t, 0
  {
    hide ManglePath, OkPath, NoDot;
    PathNoDot(t.path, pos, bound, input, printing);
  }

  lemma {:induction false} TupleNoDot(t: TypeTree, pos: nat, bound: nat, input: string, printing: bool)
    requires OkType(t, pos, bound, input, printing) && t.Tuple?
    ensures NoDot(MangleType(t))
    decreases t, 0
  {
    hide MangleTypes, OkTypes, NoDot;
    TypesNoDot(t.elems, pos + 1, bound, input, printing);
    LetterNoDot('T', MangleTypes(t.elems));
  }

  lemma {:induction false} FunctionNoDot(t: TypeTree, pos: nat, bound: nat, input: string, printing: bool)
    requires OkType(t, pos, bound, input, printing) && t.Function?
    ensures NoDot(MangleType(t))
    decreases t, 0
  {
    hide NoDot, MangleType, OkType, MangleTypes, OkTypes, MangleOptional, MangleQualifiers, OkId, OkBinder;
    hide ShowType, ShowTypes, ShowBinder, ShowQualifiers, ShowResult, TypeDepth, TypesDepth, TypeSize, TypesSize;
    FunctionParts(t, pos, bound, input, printing);
    var a, b := MangleOptional('G', t.binder), MangleQualifiers(t.isUnsafe, t.abi);
    var c, d := MangleTypes(t.params), MangleType(t.result);
    OptionalNoDot('G', t.binder);
    QualifiersNoDot(t.isUnsafe, t.abi);
    TypesNoDot(t.params, pos + 1 + |a| + |b|, bound + t.binder, input, printing);
    TypeNoDot(t.result, pos + 1 + |a| + |b| + |c|, bound + t.binder, input, printing);
    NoDotAppend(c, d);
    NoDotAppend(b, c + d);
    NoDotAppend(a, b + (c + d));
    LetterNoDot('F', a + (b + (c + d)));
  }

  lemma DynParts(t: TypeTree, pos: nat, bound: nat, input: string, printing: bool)
    requires OkType(t, pos, bound, input, printing) && t.Dyn?
    ensures OkTraits(t.traits, pos + 1 + |MangleOptional('G', t.binder)|, bound + t.binder, input, printing)
    ensures MangleType(t) ==
      "D" + ((MangleOptional('G', t.binder) + MangleTraits(t.traits)) + ("L" + Base62Text(t.index)))
  {
    hide MangleOptional, MangleTraits, OkTraits, Base62Text;
  }

  lemma {:induction false} DynNoDot(t: TypeTree, pos: nat, bound: nat, input: string, printing: bool)
    requires OkType(t, pos, bound, input, printing) && t.Dyn?
    ensures NoDot(MangleType(t))
    decreases t, 0
  {
    hide NoDot, MangleType, OkType, MangleTraits, OkTraits, MangleOptional, Base62Text;
    DynParts(t, pos, bound, input, printing);
    var a, b, c := MangleOptional('G', t.binder), MangleTraits(t.traits), Base62Text(t.index);
    OptionalNoDot('G', t.binder);
    TraitsNoDot(t.traits, pos + 1 + |a|, bound + t.binder, input, printing);
    NumbersNoDot(t.index);
    NoDotAppend(a, b);
    LetterNoDot('L', c);
    NoDotAppend(a + b, "L" + c);
    LetterNoDot('D', (a + b) + ("L" + c));
  }

  lemma {:induction false} TypesNoDot(ts: TypeSeq, pos: nat, bound: nat, input: string, printing: bool)
    requires OkTypes(ts, pos, bound, input, printing)
    ensures NoDot(MangleTypes(ts))
    decreases ts, 2
  {
    hide MangleType, OkType, MangleTypes, OkTypes, ShowTypes, ShowType, TypesDepth, TypesSize;
    TypesParts(ts, 0, pos, bound, input, printing);
    if ts.MoreTypes? {
      TypeNoDot(ts.head, pos, bound, input, printing);
      TypesNoDot(ts.tail, pos + |MangleType(ts.head)|, bound, input, printing);
    }
  }

  lemma {:induction false} TraitsNoDot(ts: TraitList, pos: nat, bound: nat, input: string, printing: bool)
    requires OkTraits(ts, pos, bound, input, printing)
    ensures NoDot(MangleTraits(ts))
    decreases ts, 2
  {
    hide ManglePath, OkPath, MangleBindings, OkBindings, MangleTraits, OkTraits, ShowTraits, ShowPath, ShowBindings;
    hide TraitsDepth, TraitsSize, HasArgs;
    TraitsParts(ts, 0, pos, bound, input, printing);
    if ts.MoreTraits? {
      PathNoDot(ts.path, pos, bound, input, printing);
      BindingsNoDot(ts.bindings, pos + |ManglePath(ts.path)|, bound, input, printing);
      TraitsNoDot(ts.rest, pos + |ManglePath(ts.path)| + |MangleBindings(ts.bindings)|, bound, input, printing);
    }
  }

  lemma {:induction false} BindingsNoDot(bs: BindingList, pos: nat, bound: nat, input: string, printing: bool)
    requires OkBindings(bs, pos, bound, input, printing)
    ensures NoDot(MangleBindings(bs))
    decreases bs, 2
  {
    hide MangleIdentifier, OkId, MangleType, OkType, MangleBindings, OkBindings, ShowType, ShowBindings, BindingsDepth;
    hide BindingsSize;
    BindingsParts(bs, pos, bound, input, false, printing);
    if bs.MoreBindings? {
      var front := pos + 1 + |MangleIdentifier(bs.name)|;
      IdNoDot(bs.name);
      TypeNoDot(bs.value, front, bound, input, printing);
      BindingsNoDot(bs.rest, front + |MangleType(bs.value)|, bound, input, printing);
    }
  }

  /** What `demangle` appends for a vendor suffix such as `.llvm.123`. */
  function ShowSuffix(suffix: string): string
  {
    if suffix == "" then "" else " (" + suffix + ")"
  }

  /** A path, and the instantiating crate if there is one. */
  function SymbolText(p: PathTree, crate: Option<PathTree>): string
  {
    ManglePath(p) + match crate case None => "" case Some(c) => ManglePath(c)
  }

  predicate OkSymbol(p: PathTree, crate: Option<PathTree>)
  {
    && OkPath(p, 0, 0, SymbolText(p, crate), true)
    && (crate.Some? ==> OkPath(crate.value, |ManglePath(p)|, 0, SymbolText(p, crate), false))
  }

  /** The path is printed and the crate is not. */
  predicate SymbolFits(p: PathTree, crate: Option<PathTree>, maxLevel: nat)
  {
    PathDepth(p, true) <= maxLevel && (crate.Some? ==> PathDepth(crate.value, false) <= maxLevel)
  }

  /**
    Demangling inverts mangling: for every path that fits the recursion budget, with or without an
    instantiating crate and a vendor suffix behind it, the demangler succeeds and its output is
    the display of the path.
   */
  lemma {:induction false} DemangleInvertsMangle(p: PathTree, crate: Option<PathTree>, suffix: string, maxLevel: nat)
    requires suffix != "" ==> suffix[0] == '.'
    requires OkSymbol(p, crate) && SymbolFits(p, crate, maxLevel)
    ensures
      var t := Demangle("_R" + (SymbolText(p, crate) + suffix), maxLevel);
      !t.error && t.out == ShowPath(p, false, false, 0, true) + ShowSuffix(suffix)
  {
    hide Path, ManglePath, OkPath, PathDepth, ShowPath, Demangle, ShowSuffix, NoDot;
    SymbolNoDot(p, crate);
    SymbolRead(p, crate, maxLevel);
    SymbolFinished(SymbolText(p, crate), suffix, maxLevel, |ManglePath(p)|, ShowPath(p, false, false, 0, true));
  }

  lemma SymbolNoDot(p: PathTree, crate: Option<PathTree>)
    requires OkSymbol(p, crate)
    ensures NoDot(SymbolText(p, crate))
  {
    hide ManglePath, OkPath, NoDot;
    var body := SymbolText(p, crate);
    PathNoDot(p, 0, 0, body, true);
    if crate.Some? {
      PathNoDot(crate.value, |ManglePath(p)|, 0, body, false);
      NoDotAppend(ManglePath(p), ManglePath(crate.value));
    } else {
      NothingAppended(ManglePath(p));
    }
  }

  const START: St := St(0, false, true, 0, 0, "")

  /** Where the two paths of a symbol stand. */
  lemma SymbolPlaces(p: PathTree, crate: Option<PathTree>)
    ensures At(SymbolText(p, crate), 0, ManglePath(p)) && ClearAt(SymbolText(p, crate), |ManglePath(p)|)
    ensures crate.None? ==> |SymbolText(p, crate)| == |ManglePath(p)|
    ensures crate.Some? ==>
      && At(SymbolText(p, crate), |ManglePath(p)|, ManglePath(crate.value))
      && |SymbolText(p, crate)| == |ManglePath(p)| + |ManglePath(crate.value)|
  {
    hide At, ManglePath;
    var tail := match crate case None => "" case Some(c) => ManglePath(c);
    AtAll(SymbolText(p, crate));
    AtSplit(SymbolText(p, crate), 0, ManglePath(p), tail);
    if crate.Some? {
      AtHead(SymbolText(p, crate), |ManglePath(p)|, tail);
    }
  }

  /** The path is read and shown, the instantiating crate is read with printing off. */
  lemma {:induction false} SymbolRead(p: PathTree, crate: Option<PathTree>, maxLevel: nat)
    requires OkSymbol(p, crate) && SymbolFits(p, crate, maxLevel)
    ensures
      var e := Env(SymbolText(p, crate), maxLevel);
      var s1 := Say(START, |ManglePath(p)|, ShowPath(p, false, false, 0, true));
      && |ManglePath(p)| <= |e.input| && Path(e, START, false, false).0 == s1
      && (crate.None? ==> |ManglePath(p)| == |e.input|)
      && (crate.Some? ==>
            Path(e, s1.(printing := false), false, false).0 == s1.(printing := false, pos := |e.input|))
  {
    hide At, Path, ManglePath, OkPath, PathDepth, ShowPath, SymbolText;
    var e := Env(SymbolText(p, crate), maxLevel);
    SymbolPlaces(p, crate);
    PathShown(e, START, p, false, false);
    if crate.Some? {
      var s1 := Say(START, |ManglePath(p)|, ShowPath(p, false, false, 0, true));
      PathShown(e, s1.(printing := false), crate.value, false, false);
    }
  }

  /** What `demangle` makes of a symbol whose path has been read. */
  lemma SymbolFinished(body: string, suffix: string, maxLevel: nat, k: nat, shown: string)
    requires NoDot(body) && (suffix != "" ==> suffix[0] == '.') && k <= |body|
    requires
      var e := Env(body, maxLevel);
      var s1 := Say(START, k, shown);
      && Path(e, START, false, false).0 == s1
      && (k < |body| ==> Path(e, s1.(printing := false), false, false).0 == s1.(printing := false, pos := |body|))
    ensures
      var t := Demangle("_R" + (body + suffix), maxLevel);
      !t.error && t.out == shown + ShowSuffix(suffix)
  {
    hide Path, FindDot, NoDot;
    var rest := body + suffix;
    FindDotIs(body, suffix);
    assert ("_R" + rest)[2..] == rest && rest[..|body|] == body && rest[|body|..] == suffix;
    assert "" + shown == shown;
    Assoc(shown, " (" + suffix, ")");
    Assoc(shown, " (", suffix);
    assert shown + "" == shown;
  }

  /** A symbol that is demangled was read without an error. */
  lemma SymbolWasRead(body: string, suffix: string, maxLevel: nat)
    requires NoDot(body) && (suffix != "" ==> suffix[0] == '.')
    requires !Demangle("_R" + (body + suffix), maxLevel).error
    ensures
      var e := Env(body, maxLevel);
      var s1 := Path(e, START, false, false).0;
      !s1.error && (s1.pos < |body| ==> !Path(e, s1.(printing := false), false, false).0.error)
  {
    hide Path, FindDot, NoDot;
    var rest := body + suffix;
    FindDotIs(body, suffix);
    assert ("_R" + rest)[2..] == rest && rest[..|body|] == body;
  }

  lemma AtAll(s: string)
    ensures At(s, 0, s)
  {
    assert s[0..|s|] == s;
  }

  /** `a::<b, b>`, the second `b` written as a backreference to the first. */
  function ExampleArgs(): ArgList
  {
    var b := Named(Crate(0, Identifier("b", false)));
    TypeArg(b, TypeArg(TypeRef(4, b), NoArg))
  }

  function Example(): PathTree { Generic(Crate(0, Identifier("a", false)), ExampleArgs()) }

  const EXAMPLE: string := "IC1a" + ("C1b" + "B3_E")

  lemma ExampleMangled()
    ensures |ManglePath(Example().base)| == 3 && ManglePath(Example()) == EXAMPLE && PathDepth(Example(), true) == 4
  {
    hide MangleIdentifier, MangleRef;
    ExampleTexts();
    var b := Named(Crate(0, Identifier("b", false)));
    assert MangleArgs(NoArg) == "E";
    assert MangleArgs(TypeArg(TypeRef(4, b), NoArg)) == "B3_E";
    assert MangleArgs(ExampleArgs()) == "C1b" + "B3_E";
    assert ManglePath(Example().base) == "C1a";
  }

  lemma ExamplePlace()
    ensures At(EXAMPLE, 4, "C1b") && ClearAt(EXAMPLE, 7)
  {
    hide At;
    AtAll(EXAMPLE);
    AtSplit(EXAMPLE, 0, "IC1a", "C1b" + "B3_E");
    AtSplit(EXAMPLE, 4, "C1b", "B3_E");
    AtHead(EXAMPLE, 7, "B3_E");
  }

  lemma ExampleOk()
    ensures OkPath(Example(), 0, 0, EXAMPLE, true)
  {
    hide MangleIdentifier, MangleRef, OkId, At, ClearAt;
    ExampleTexts();
    ExamplePlace();
    ExampleMangled();
    var b := Named(Crate(0, Identifier("b", false)));
    assert MangleType(b) == "C1b";
    assert OkRef(4, "C1b", 7, EXAMPLE, true);
    assert OkPath(b.path, 4, 0, EXAMPLE, true);
    assert OkType(b, 4, 0, EXAMPLE, true);
    assert OkType(TypeRef(4, b), 7, 0, EXAMPLE, true);
    assert OkArgs(TypeArg(TypeRef(4, b), NoArg), 7, 0, EXAMPLE, true);
    assert OkArgs(ExampleArgs(), 4, 0, EXAMPLE, true);
  }

  lemma ExampleShown()
    ensures ShowPath(Example(), false, false, 0, true) == "a::<b, b>"
  {
    hide ShowId;
    ExampleTexts();
    var b := Named(Crate(0, Identifier("b", false)));
    assert ShowArgs(TypeArg(TypeRef(4, b), NoArg), 1, 0, true) == ", b";
  }

  lemma BackreferenceExample(maxLevel: nat)
    requires maxLevel >= 4
    ensures
      var t := Demangle("_R" + EXAMPLE, maxLevel);
      !t.error && t.out == "a::<b, b>"
  {
    hide Demangle, ManglePath, OkPath, ShowPath, PathDepth, Example;
    ExampleMangled();
    ExampleOk();
    ExampleShown();
    NothingAppended(EXAMPLE);
    NothingAppended("a::<b, b>");
    DemangleInvertsMangle(Example(), None, "", maxLevel);
  }

  lemma NothingAppended(s: string)
    ensures s + "" == s
  {
  }

  lemma ExampleTexts()
    ensures
      var a, b := Identifier("a", false), Identifier("b", false);
      && OkId(a, true) && OkId(b, true) && ShowId(a) == "a" && ShowId(b) == "b"
      && MangleIdentifier(a) == "1a" && MangleIdentifier(b) == "1b" && MangleRef(4) == "B3_"
  {
    assert DecimalText(1) == "1";
    assert Base62Text(4) == "3_";
  }
}
