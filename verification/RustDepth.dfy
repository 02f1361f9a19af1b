/**
  The recursion budget.  A symbol is refused exactly when reading it takes more nested calls than
  the budget allows: whatever can be read at all needs `PathDepth` levels, and a parse that gets
  through had them.
 */
module RustDepth {
  import opened Basics
  import opened RustLexer
  import opened RustNumbers
  import opened RustGrammar
  import opened RustRoundTrip
  import opened RustRoundTripProof

  // ---------------------------------------------------------------------------------------------
  // Constants
  // ---------------------------------------------------------------------------------------------

  lemma {:induction false} ConstFits(e: Env, s: St, c: ConstTree)
    requires Going(e, s) && OkConst(c, s.pos, e.input, s.printing) && At(e.input, s.pos, MangleConst(c))
    requires !Const(e, s).error
    ensures s.level + ConstDepth(c, s.printing) <= e.maxLevel
    decreases c, 1
  {
    hide At, ConstBody, MangleConst, OkConst;
    if c.ConstRef? {
      ConstRefFits(e, Deeper(s), c);
    }
  }

  lemma {:induction false} ConstRefFits(e: Env, s: St, c: ConstTree)
    requires Going(e, s) && c.ConstRef? && OkConst(c, s.pos, e.input, s.printing) && At(e.input, s.pos, MangleConst(c))
    requires !ConstBody(e, s).error
    ensures s.level + ConstDepth(c, s.printing) <= e.maxLevel + 1
    decreases c, 0
  {
    hide At, Const, ParseBase62, MangleRef, ClearAt, ConstInt, ConstBool, ConstChar, ParseBasicType, IsInteger;
    NotBasic();
    RefShown(e, s, c.target);
    if s.printing {
      ConstFits(e, s.(pos := c.target), c.same);
    }
  }

  // ---------------------------------------------------------------------------------------------
  // Paths
  // ---------------------------------------------------------------------------------------------

  predicate PathStands(e: Env, s: St, p: PathTree)
  {
    && Going(e, s) && OkPath(p, s.pos, s.bound, e.input, s.printing)
    && At(e.input, s.pos, ManglePath(p)) && Clear(e, s.pos + |ManglePath(p)|)
  }

  /** Where a parse gets through, it had the levels that the path needs. */
  lemma {:induction false} PathFits(e: Env, s: St, p: PathTree, inType: bool, leaveOpen: bool)
    requires PathStands(e, s, p) && !Path(e, s, inType, leaveOpen).0.error
    ensures s.level + PathDepth(p, s.printing) <= e.maxLevel
    decreases PathSize(p), 1
  {
    hide At, PathBody, ManglePath, OkPath, PathDepth;
    var d := Deeper(s);
    match p
    case Crate(_, _) => CrateDepth(p);
    case InherentImpl(_, _, _) => InherentFits(e, d, p, inType, leaveOpen);
    case TraitImpl(_, _, _, _) => TraitImplFits(e, d, p, inType, leaveOpen);
    case TraitDef(_, _) => TraitDefFits(e, d, p, inType, leaveOpen);
    case Nested(_, _, _, _) => NestedFits(e, d, p, inType, leaveOpen);
    case Generic(_, _) => GenericFits(e, d, p, inType, leaveOpen);
    case PathRef(_, _) => PathRefFits(e, d, p, inType, leaveOpen);
  }

  lemma CrateDepth(p: PathTree)
    requires p.Crate?
    ensures forall b :: PathDepth(p, b) == 1
  {
  }

  lemma {:induction false} PathRefFits(e: Env, s: St, p: PathTree, inType: bool, leaveOpen: bool)
    requires PathStands(e, s, p) && p.PathRef? && !PathBody(e, s, inType, leaveOpen).0.error
    ensures s.level + PathDepth(p, s.printing) <= e.maxLevel + 1
    decreases PathSize(p), 0
  {
    hide At, Path, ParseBase62, MangleRef, InherentPath, ImplPath, CratePath, TraitPath, NestedPath, GenericPath;
    hide ManglePath, ShowPath, OkPath, PathDepth, PathSize, HasArgs;
    PathRefParts(p, inType, leaveOpen, s.pos, s.bound, e.input, s.printing);
    RefShown(e, s, p.target);
    var s1 := s.(pos := s.pos + 1);
    assert RustLexer.Consume(e, s) == (s1, 'B');
    if s.printing {
      var s2 := s.(pos := s.pos + |MangleRef(p.target)|);
      assert s2.(pos := p.target) == s.(pos := p.target);
      assert BackrefPath(e, s1, inType, leaveOpen).0 ==
             Path(e, s.(pos := p.target), inType, leaveOpen).0.(pos := s2.pos);
      PathFits(e, s.(pos := p.target), p.same, inType, leaveOpen);
    }
  }

  /** The impl path, read with printing off. */
  lemma {:induction false} ImplFits(e: Env, s: St, dis: nat, impl: PathTree, inType: bool, next: string)
    requires Going(e, s) && OkNumber(dis) && OkPath(impl, s.pos + |MangleOptional('s', dis)|, s.bound, e.input, false)
    requires At(e.input, s.pos, MangleOptional('s', dis) + ManglePath(impl))
    requires next != "" && next[0] != '_' && At(e.input, s.pos + |MangleOptional('s', dis) + ManglePath(impl)|, next)
    requires !ImplPath(e, s, inType).error
    ensures s.level + PathDepth(impl, false) <= e.maxLevel
    ensures ImplPath(e, s, inType) == s.(pos := s.pos + |MangleOptional('s', dis) + ManglePath(impl)|)
    decreases PathSize(impl), 2
  {
    hide At, Path, ManglePath, MangleOptional, ParseOptionalBase62, OkPath, PathDepth;
    AtSplit(e.input, s.pos, MangleOptional('s', dis), ManglePath(impl));
    AtHead(e.input, s.pos + |MangleOptional('s', dis) + ManglePath(impl)|, next);
    AtHead(e.input, s.pos + |MangleOptional('s', dis)|, ManglePath(impl));
    OptionalZero('s');
    var dry := s.(printing := false);
    ReadOptional(e, dry, 's', dis);
    PathFits(e, dry.(pos := s.pos + |MangleOptional('s', dis)|), impl, inType, false);
    ImplPathShown(e, s, dis, impl, inType, next);
  }

  lemma {:induction false} InherentFits(e: Env, s: St, p: PathTree, inType: bool, leaveOpen: bool)
    requires PathStands(e, s, p) && p.InherentImpl? && !PathBody(e, s, inType, leaveOpen).0.error
    ensures s.level + PathDepth(p, s.printing) <= e.maxLevel + 1
    decreases PathSize(p), 0
  {
    hide At, Type, ImplPath, CratePath, TraitPath, NestedPath, GenericPath, BackrefPath, MangleOptional;
    hide MangleType, ShowType, OkType, TypeDepth, ManglePath, ShowPath, OkPath, PathDepth, PathSize, Say;
    ImplParts(p, inType, leaveOpen, s.pos, s.bound, e.input, s.printing);
    var front := MangleOptional('s', p.dis) + ManglePath(p.impl);
    var d := s.(pos := s.pos + 1);
    AtCons(e.input, s.pos, 'M', front + MangleType(p.self));
    AtSplit(e.input, d.pos, front, MangleType(p.self));
    ImplFits(e, d, p.dis, p.impl, inType, MangleType(p.self));
    PrintSays(d.(pos := d.pos + |front|), "<");
    TypeFits(e, Say(d.(pos := d.pos + |front|), 0, "<"), p.self);
  }

  lemma {:induction false} TraitImplFits(e: Env, s: St, p: PathTree, inType: bool, leaveOpen: bool)
    requires PathStands(e, s, p) && p.TraitImpl? && !PathBody(e, s, inType, leaveOpen).0.error
    ensures s.level + PathDepth(p, s.printing) <= e.maxLevel + 1
    decreases PathSize(p), 0
  {
    hide At, ImplPath, InherentPath, CratePath, TraitPath, NestedPath, GenericPath, BackrefPath, MangleOptional;
    hide MangleType, ShowType, OkType, TypeDepth, ManglePath, ShowPath, OkPath, PathDepth, PathSize;
    TraitImplParts(p, inType, leaveOpen, s.pos, s.bound, e.input, s.printing);
    var front := MangleOptional('s', p.dis) + ManglePath(p.impl);
    var back := MangleType(p.self) + ManglePath(p.trt);
    var d := s.(pos := s.pos + 1);
    AtCons(e.input, s.pos, 'X', front + back);
    AtSplit(e.input, d.pos, front, back);
    ImplFits(e, d, p.dis, p.impl, inType, back);
    TraitFits(e, d.(pos := d.pos + |front|), p.self, p.trt);
  }

  lemma {:induction false} TraitDefFits(e: Env, s: St, p: PathTree, inType: bool, leaveOpen: bool)
    requires PathStands(e, s, p) && p.TraitDef? && !PathBody(e, s, inType, leaveOpen).0.error
    ensures s.level + PathDepth(p, s.printing) <= e.maxLevel + 1
    decreases PathSize(p), 0
  {
    hide At, ImplPath, InherentPath, CratePath, TraitPath, NestedPath, GenericPath, BackrefPath;
    hide MangleType, ShowType, OkType, TypeDepth, ManglePath, ShowPath, OkPath, PathDepth, PathSize;
    TraitDefParts(p, inType, leaveOpen, s.pos, s.bound, e.input, s.printing);
    AtCons(e.input, s.pos, 'Y', MangleType(p.self) + ManglePath(p.trt));
    TraitFits(e, s.(pos := s.pos + 1), p.self, p.trt);
  }

  lemma {:induction false} TraitFits(e: Env, s: St, self: TypeTree, trt: PathTree)
    requires Going(e, s) && OkType(self, s.pos, s.bound, e.input, s.printing)
    requires OkPath(trt, s.pos + |MangleType(self)|, s.bound, e.input, s.printing)
    requires At(e.input, s.pos, MangleType(self) + ManglePath(trt))
    requires Clear(e, s.pos + |MangleType(self) + ManglePath(trt)|) && !TraitPath(e, s).error
    ensures s.level + Max(TypeDepth(self, s.printing), PathDepth(trt, s.printing)) <= e.maxLevel
    decreases TypeSize(self) + PathSize(trt), 2
  {
    hide At, Path, Type, ShowType, MangleType, OkType, TypeDepth, ShowPath, ManglePath, OkPath, PathDepth, Say;
    hide TypeSize, PathSize, TypeHead;
    SizesPositive(self, trt);
    var m := |MangleType(self)|;
    AtSplit(e.input, s.pos, MangleType(self), ManglePath(trt));
    AtHead(e.input, s.pos + m, ManglePath(trt));
    var s1 := Say(s, 0, "<");
    PrintSays(s, "<");
    TypeFits(e, s1, self);
    TypeShown(e, s1, self);
    var s2 := Say(s1, m, ShowType(self, s.bound, true));
    PrintSays(s2, " as ");
    PathFits(e, Say(s2, 0, " as "), trt, true, false);
  }

  lemma {:induction false} NestedFits(e: Env, s: St, p: PathTree, inType: bool, leaveOpen: bool)
    requires PathStands(e, s, p) && p.Nested? && !PathBody(e, s, inType, leaveOpen).0.error
    ensures s.level + PathDepth(p, s.printing) <= e.maxLevel + 1
    decreases PathSize(p), 0
  {
    hide At, InherentPath, CratePath, TraitPath, ImplPath, NestedPath, GenericPath, BackrefPath, MangleIdentifier;
    hide MangleOptional, ShowNested, OkId, ManglePath, ShowPath, OkPath, PathDepth, PathSize;
    NestedParts(p, inType, leaveOpen, s.pos, s.bound, e.input, s.printing);
    var tail := MangleOptional('s', p.dis) + MangleIdentifier(p.id);
    TailHead(p.dis, p.id);
    AtCons(e.input, s.pos, 'N', [p.ns] + (ManglePath(p.parent) + tail));
    ParentFits(e, s.(pos := s.pos + 1), p.ns, p.parent, tail, inType);
  }

  /** The path in which a name is nested. */
  lemma {:induction false} ParentFits(e: Env, s: St, ns: char, parent: PathTree, tail: string, inType: bool)
    requires Going(e, s) && ('a' <= ns <= 'z' || 'A' <= ns <= 'Z') && tail != "" && tail[0] != '_'
    requires OkPath(parent, s.pos + 1, s.bound, e.input, s.printing)
    requires At(e.input, s.pos, [ns] + (ManglePath(parent) + tail)) && !NestedPath(e, s, inType).error
    ensures s.level + PathDepth(parent, s.printing) <= e.maxLevel
    decreases PathSize(parent), 2
  {
    hide At, Path, NestedName, ParseOptionalBase62, ParseIdentifier, ManglePath, OkPath, PathDepth;
    AtCons(e.input, s.pos, ns, ManglePath(parent) + tail);
    AtSplit(e.input, s.pos + 1, ManglePath(parent), tail);
    AtHead(e.input, s.pos + 1 + |ManglePath(parent)|, tail);
    PathFits(e, s.(pos := s.pos + 1), parent, inType, false);
  }

  lemma {:induction false} GenericFits(e: Env, s: St, p: PathTree, inType: bool, leaveOpen: bool)
    requires PathStands(e, s, p) && p.Generic? && !PathBody(e, s, inType, leaveOpen).0.error
    ensures s.level + PathDepth(p, s.printing) <= e.maxLevel + 1
    decreases PathSize(p), 0
  {
    hide At, InherentPath, CratePath, TraitPath, ImplPath, NestedPath, BackrefPath, GenericPath;
    hide MangleArgs, OkArgs, ArgsDepth, ManglePath, ShowPath, OkPath, PathDepth, PathSize, ArgsSize;
    GenericParts(p, s.pos, s.bound, e.input, s.printing);
    AtCons(e.input, s.pos, 'I', ManglePath(p.base) + MangleArgs(p.args));
    InstanceFits(e, s.(pos := s.pos + 1), p.base, p.args, inType, leaveOpen);
  }

  /** A path with its generic arguments. */
  lemma {:induction false} InstanceFits(
    e: Env, s: St, base: PathTree, args: ArgList, inType: bool, leaveOpen: bool)
    requires Going(e, s) && OkPath(base, s.pos, s.bound, e.input, s.printing)
    requires OkArgs(args, s.pos + |ManglePath(base)|, s.bound, e.input, s.printing)
    requires At(e.input, s.pos, ManglePath(base) + MangleArgs(args)) && !GenericPath(e, s, inType, leaveOpen).0.error
    ensures s.level + Max(PathDepth(base, s.printing), ArgsDepth(args, s.printing)) <= e.maxLevel
    decreases PathSize(base) + ArgsSize(args), 2
  {
    hide At, Path, GenericArgs, Say, MangleArgs, OkArgs, ArgsDepth, ManglePath, ShowPath, OkPath, PathDepth;
    hide PathSize, ArgsSize;
    ArgsSizePositive(base, args);
    var m := |ManglePath(base)|;
    AtSplit(e.input, s.pos, ManglePath(base), MangleArgs(args));
    AtHead(e.input, s.pos + m, MangleArgs(args));
    PathFits(e, s, base, inType, false);
    PathShown(e, s, base, inType, false);
    var s1 := Say(s, m, ShowPath(base, inType, false, s.bound, true));
    var s2 := if inType then s1 else Say(s1, 0, "::");
    PrintSays(s1, "::");
    PrintSays(s2, "<");
    ArgsFits(e, Say(s2, 0, "<"), args, 0);
  }

  lemma {:induction false} ArgsFits(e: Env, s: St, args: ArgList, i: nat)
    requires Going(e, s) && OkArgs(args, s.pos, s.bound, e.input, s.printing) && At(e.input, s.pos, MangleArgs(args))
    requires !GenericArgs(e, s, i).error
    ensures s.level + ArgsDepth(args, s.printing) <= e.maxLevel
    decreases ArgsSize(args), 1
  {
    hide Say, Comma, RustLexer.Print, At, GenericArg, MangleArgs, ShowArgs, OkArgs, ArgsDepth, ArgText, ArgShow;
    hide ArgDepth;
    if args.NoArg? {
      NoArgDepth();
    } else {
      ArgsParts(args, i, s.pos, s.bound, e.input, s.printing);
      var k := |ArgText(args)|;
      AtSplit(e.input, s.pos, ArgText(args), MangleArgs(args.rest));
      AtHead(e.input, s.pos, ArgText(args));
      AtHead(e.input, s.pos + k, MangleArgs(args.rest));
      var s1 := Say(s, 0, Comma(i));
      CommaSaid(s, i);
      ArgFits(e, s1, args);
      ArgShown(e, s1, args);
      ArgsFits(e, Say(s1, k, ArgShow(args, s.bound, true)), args.rest, i + 1);
    }
  }

  lemma NoArgDepth()
    ensures forall b :: ArgsDepth(NoArg, b) == 0
  {
  }

  lemma {:induction false} ArgFits(e: Env, s: St, args: ArgList)
    requires Going(e, s) && OkArgs(args, s.pos, s.bound, e.input, s.printing) && !args.NoArg?
    requires At(e.input, s.pos, ArgText(args)) && Clear(e, s.pos + |ArgText(args)|)
    requires !GenericArg(e, s).error
    ensures s.level + ArgDepth(args, s.printing) <= e.maxLevel
    decreases ArgsSize(args) - 1, 6
  {
    hide At, Const, Type, ParseBase62, PrintLifetime, MangleType, MangleConst, Base62Text, OkType, OkConst, TypeDepth;
    match args
    case LifetimeArg(_, _) =>
    case ConstArg(c, _) =>
      AtCons(e.input, s.pos, 'K', MangleConst(c));
      ConstFits(e, s.(pos := s.pos + 1), c);
    case TypeArg(t, _) =>
      AtHead(e.input, s.pos, MangleType(t));
      TypeHeadFacts(MangleType(t)[0]);
      TypeFits(e, s, t);
  }

  // ---------------------------------------------------------------------------------------------
  // Types
  // ---------------------------------------------------------------------------------------------

  predicate TypeStands(e: Env, s: St, t: TypeTree)
  {
    && Going(e, s) && OkType(t, s.pos, s.bound, e.input, s.printing)
    && At(e.input, s.pos, MangleType(t)) && Clear(e, s.pos + |MangleType(t)|)
  }

  lemma {:induction false} TypeFits(e: Env, s: St, t: TypeTree)
    requires TypeStands(e, s, t) && !Type(e, s).error
    ensures s.level + TypeDepth(t, s.printing) <= e.maxLevel
    decreases TypeSize(t), 3
  {
    hide TypeBody, At, MangleType, OkType, TypeDepth;
    var d := Deeper(s);
    match t
    case Basic(_) => BasicDepth(t);
    case Named(_) => NamedFits(e, d, t);
    case Array(_, _) => ArrayFits(e, d, t);
    case Slice(_) => SliceFits(e, d, t);
    case Tuple(_) => TupleFits(e, d, t);
    case Reference(_, _, _) => ReferenceFits(e, d, t);
    case Pointer(_, _) => PointerFits(e, d, t);
    case Function(_, _, _, _, _) => FunctionFits(e, d, t);
    case Dyn(_, _, _) => DynFits(e, d, t);
    case TypeRef(_, _) => TypeRefFits(e, d, t);
  }

  lemma BasicDepth(t: TypeTree)
    requires t.Basic?
    ensures forall b :: TypeDepth(t, b) == 1
  {
  }

  lemma {:induction false} TypeRefFits(e: Env, s: St, t: TypeTree)
    requires TypeStands(e, s, t) && t.TypeRef? && !TypeBody(e, s).error
    ensures s.level + TypeDepth(t, s.printing) <= e.maxLevel + 1
    decreases TypeSize(t), 1
  {
    hide At, Path, Type, FnSig, ArrayType, TupleType, RefLifetime, DynType, ParseBase62;
    hide MangleRef, MangleType, ShowType, OkType, TypeDepth, TypeSize;
    TypeRefParts(t, s.pos, s.bound, e.input, s.printing);
    RefShown(e, s, t.target);
    var s1 := s.(pos := s.pos + 1);
    assert RustLexer.Consume(e, s) == (s1, 'B');
    if s.printing {
      var s2 := s.(pos := s.pos + |MangleRef(t.target)|);
      assert s2.(pos := t.target) == s.(pos := t.target);
      assert BackrefType(e, s1) == Type(e, s.(pos := t.target)).(pos := s2.pos);
      TypeFits(e, s.(pos := t.target), t.same);
    }
  }

  lemma {:induction false} NamedFits(e: Env, s: St, t: TypeTree)
    requires TypeStands(e, s, t) && t.Named? && !TypeBody(e, s).error
    ensures s.level + TypeDepth(t, s.printing) <= e.maxLevel + 1
    decreases TypeSize(t), 2
  {
    hide At, Path, Type, ManglePath, OkPath, PathDepth;
    AtHead(e.input, s.pos, MangleType(t));
    PathLetter(t.path);
    PathFits(e, s, t.path, true, false);
  }

  lemma {:induction false} ArrayFits(e: Env, s: St, t: TypeTree)
    requires TypeStands(e, s, t) && t.Array? && !TypeBody(e, s).error
    ensures s.level + TypeDepth(t, s.printing) <= e.maxLevel + 1
    decreases TypeSize(t), 2
  {
    hide At, Path, Type, FnSig, ArrayType, TupleType, RefLifetime, DynType, BackrefType;
    hide MangleConst, ShowConst, OkConst, ConstDepth, MangleType, ShowType, OkType, TypeDepth, TypeSize;
    ArrayParts(t, s.pos, s.bound, e.input, s.printing);
    AtCons(e.input, s.pos, 'A', MangleType(t.elem) + MangleConst(t.len));
    ElementsFit(e, s.(pos := s.pos + 1), t.elem, t.len);
  }

  /** The element type and the length of an array. */
  lemma {:induction false} ElementsFit(e: Env, s: St, elem: TypeTree, len: ConstTree)
    requires Going(e, s) && OkType(elem, s.pos, s.bound, e.input, s.printing)
    requires OkConst(len, s.pos + |MangleType(elem)|, e.input, s.printing)
    requires At(e.input, s.pos, MangleType(elem) + MangleConst(len)) && !ArrayType(e, s).error
    ensures s.level + Max(TypeDepth(elem, s.printing), ConstDepth(len, s.printing)) <= e.maxLevel
    decreases TypeSize(elem), 5
  {
    hide At, Type, Const, Say, MangleConst, OkConst, MangleType, ShowType, OkType, TypeDepth, ConstDepth;
    var m := |MangleType(elem)|;
    AtSplit(e.input, s.pos, MangleType(elem), MangleConst(len));
    ConstHead(len);
    AtHead(e.input, s.pos + m, MangleConst(len));
    var s1 := Say(s, 0, "[");
    var s2 := Say(s1, m, ShowType(elem, s.bound, true));
    PrintSays(s, "[");
    PrintSays(s2, "; ");
    TypeFits(e, s1, elem);
    TypeShown(e, s1, elem);
    ConstFits(e, Say(s2, 0, "; "), len);
  }

  lemma {:induction false} SliceFits(e: Env, s: St, t: TypeTree)
    requires TypeStands(e, s, t) && t.Slice? && !TypeBody(e, s).error
    ensures s.level + TypeDepth(t, s.printing) <= e.maxLevel + 1
    decreases TypeSize(t), 2
  {
    hide At, Path, Type, FnSig, ArrayType, TupleType, RefLifetime, DynType, BackrefType, Say;
    hide MangleType, ShowType, OkType, TypeDepth, TypeSize;
    ElementParts(t, s.pos, s.bound, e.input, s.printing);
    AtCons(e.input, s.pos, 'S', MangleType(t.elem));
    var d := s.(pos := s.pos + 1);
    PrintSays(d, "[");
    TypeFits(e, Say(d, 0, "["), t.elem);
  }

  lemma {:induction false} PointerFits(e: Env, s: St, t: TypeTree)
    requires TypeStands(e, s, t) && t.Pointer? && !TypeBody(e, s).error
    ensures s.level + TypeDepth(t, s.printing) <= e.maxLevel + 1
    decreases TypeSize(t), 2
  {
    hide At, Path, Type, FnSig, ArrayType, TupleType, RefLifetime, DynType, BackrefType, Say;
    hide MangleType, ShowType, OkType, TypeDepth, TypeSize;
    ElementParts(t, s.pos, s.bound, e.input, s.printing);
    AtCons(e.input, s.pos, if t.mut then 'O' else 'P', MangleType(t.elem));
    var d, word := s.(pos := s.pos + 1), if t.mut then "*mut " else "*const ";
    PrintSays(d, word);
    TypeFits(e, Say(d, 0, word), t.elem);
  }

  lemma {:induction false} ReferenceFits(e: Env, s: St, t: TypeTree)
    requires TypeStands(e, s, t) && t.Reference? && !TypeBody(e, s).error
    ensures s.level + TypeDepth(t, s.printing) <= e.maxLevel + 1
    decreases TypeSize(t), 2
  {
    hide At, Path, Type, FnSig, ArrayType, TupleType, RefLifetime, DynType, BackrefType;
    hide MangleLifetime, MangleType, ShowType, OkType, TypeDepth, TypeSize;
    ReferenceParts(t, s.pos, s.bound, e.input, s.printing);
    AtCons(e.input, s.pos, if t.mut then 'Q' else 'R', MangleLifetime(t.lifetime) + MangleType(t.elem));
    TargetFits(e, s.(pos := s.pos + 1), t.mut, t.lifetime, t.elem);
  }

  /** What a reference refers to. */
  lemma {:induction false} TargetFits(e: Env, s: St, mut: bool, lifetime: Option<nat>, elem: TypeTree)
    requires Going(e, s) && (lifetime.Some? ==> OkNumber(lifetime.value) && lifetime.value <= s.bound)
    requires OkType(elem, s.pos + |MangleLifetime(lifetime)|, s.bound, e.input, s.printing)
    requires At(e.input, s.pos, MangleLifetime(lifetime) + MangleType(elem))
    requires Clear(e, s.pos + |MangleLifetime(lifetime) + MangleType(elem)|)
    requires
      var s1 := RefLifetime(e, RustLexer.Print(s, "&"));
      !Type(e, if mut then RustLexer.Print(s1, "mut ") else s1).error
    ensures s.level + TypeDepth(elem, s.printing) <= e.maxLevel
    decreases TypeSize(elem), 5
  {
    hide At, Type, RefLifetime, MangleLifetime, ShowRefLifetime, MangleType, OkType, TypeDepth, Say, RustLexer.Print;
    hide TypeHead;
    var m := |MangleLifetime(lifetime)|;
    AtSplit(e.input, s.pos, MangleLifetime(lifetime), MangleType(elem));
    AtHead(e.input, s.pos + m, MangleType(elem));
    TypeHeadFacts(MangleType(elem)[0]);
    var s1 := Say(s, 0, "&");
    PrintSays(s, "&");
    RefLifetimeShown(e, s1, lifetime);
    var s2 := Say(s1, m, ShowRefLifetime(lifetime, s.bound));
    PrintSays(s2, "mut ");
    TypeFits(e, if mut then Say(s2, 0, "mut ") else s2, elem);
  }

  lemma {:induction false} TupleFits(e: Env, s: St, t: TypeTree)
    requires TypeStands(e, s, t) && t.Tuple? && !TypeBody(e, s).error
    ensures s.level + TypeDepth(t, s.printing) <= e.maxLevel + 1
    decreases TypeSize(t), 2
  {
    hide At, Path, Type, TypeList, FnSig, ArrayType, RefLifetime, DynType, BackrefType, Say;
    hide MangleTypes, OkTypes, TypesDepth, TypesSize;
    AtCons(e.input, s.pos, 'T', MangleTypes(t.elems));
    var d := s.(pos := s.pos + 1);
    PrintSays(d, "(");
    TypesFits(e, Say(d, 0, "("), t.elems, 0);
  }

  lemma {:induction false} TypesFits(e: Env, s: St, ts: TypeSeq, i: nat)
    requires Going(e, s) && OkTypes(ts, s.pos, s.bound, e.input, s.printing) && At(e.input, s.pos, MangleTypes(ts))
    requires !TypeList(e, s, i).0.error
    ensures s.level + TypesDepth(ts, s.printing) <= e.maxLevel
    decreases TypesSize(ts), 1
  {
    hide Say, Comma, RustLexer.Print, At, Type, MangleType, ShowType, OkType, TypeDepth;
    hide MangleTypes, ShowTypes, OkTypes, TypesDepth, TypesSize, TypeSize;
    TypesParts(ts, i, s.pos, s.bound, e.input, s.printing);
    match ts
    case NoType => NoTypeDepth();
    case MoreTypes(head, tail) =>
      var k := |MangleType(head)|;
      AtSplit(e.input, s.pos, MangleType(head), MangleTypes(tail));
      AtHead(e.input, s.pos, MangleType(head));
      AtHead(e.input, s.pos + k, MangleTypes(tail));
      var s1 := Say(s, 0, Comma(i));
      CommaSaid(s, i);
      TypeFits(e, s1, head);
      TypeShown(e, s1, head);
      TypesFits(e, Say(s1, k, ShowType(head, s.bound, true)), tail, i + 1);
  }

  lemma NoTypeDepth()
    ensures forall b :: TypesDepth(NoType, b) == 0
  {
  }

  lemma {:induction false} FunctionFits(e: Env, s: St, t: TypeTree)
    requires TypeStands(e, s, t) && t.Function? && !TypeBody(e, s).error
    ensures s.level + TypeDepth(t, s.printing) <= e.maxLevel + 1
    decreases TypeSize(t), 2
  {
    hide At, Path, Type, FnQualifiers, OptionalBinder, TypeList, ReturnType, ArrayType, TupleType, RefLifetime, DynType;
    hide BackrefType, Say, MangleOptional, MangleQualifiers, MangleTypes, OkTypes, OkId, OkBinder, TypesDepth;
    hide ShowBinder, ShowQualifiers, ShowTypes, ShowResult, MangleType, ShowType, OkType, TypeDepth, TypeSize;
    hide TypesSize, ResultDepth, TypeHead;
    FunctionParts(t, s.pos, s.bound, e.input, s.printing);
    var tail := MangleTypes(t.params) + MangleType(t.result);
    var d := s.(pos := s.pos + 1);
    AtCons(e.input, s.pos, 'F', MangleOptional('G', t.binder) + (MangleQualifiers(t.isUnsafe, t.abi) + tail));
    FunctionFront(e, d, t.binder, t.isUnsafe, t.abi, tail);
    var k := |MangleOptional('G', t.binder)| + |MangleQualifiers(t.isUnsafe, t.abi)|;
    var text := ShowBinder(t.binder, s.bound) + ShowQualifiers(t.isUnsafe, t.abi);
    SignatureFits(e, Say(d.(bound := s.bound + t.binder), k, text), t.params, t.result);
  }

  /** Parameters and result, after the binder and the qualifiers. */
  lemma {:induction false} SignatureFits(e: Env, s: St, params: TypeSeq, result: TypeTree)
    requires Going(e, s) && OkTypes(params, s.pos, s.bound, e.input, s.printing)
    requires OkType(result, s.pos + |MangleTypes(params)|, s.bound, e.input, s.printing)
    requires At(e.input, s.pos, MangleTypes(params) + MangleType(result))
    requires Clear(e, s.pos + |MangleTypes(params) + MangleType(result)|)
    requires
      var s2 := TypeList(e, RustLexer.Print(s, "fn("), 0).0;
      Wf(e, s2) && !ReturnType(e, RustLexer.Print(s2, ")")).error
    ensures s.level + Max(TypesDepth(params, s.printing), ResultDepth(result, s.printing)) <= e.maxLevel
    decreases TypesSize(params) + TypeSize(result), 2
  {
    hide At, MangleTypes, MangleType, OkTypes, OkType, TypesDepth, TypeDepth, ResultDepth, ShowTypes;
    hide TypeList, ReturnType, Say;
    var m := |MangleTypes(params)|;
    AtSplit(e.input, s.pos, MangleTypes(params), MangleType(result));
    var s1 := Say(s, 0, "fn(");
    PrintSays(s, "fn(");
    TypesFits(e, s1, params, 0);
    TypesShown(e, s1, params, 0);
    AtSlice(e.input, s.pos, MangleTypes(params));
    var s2 := Say(s1, m, ShowTypes(params, 0, s.bound, true));
    PrintSays(s2, ")");
    ResultFits(e, Say(s2, 0, ")"), result);
  }

  lemma {:induction false} ResultFits(e: Env, s: St, result: TypeTree)
    requires TypeStands(e, s, result) && !ReturnType(e, s).error
    ensures s.level + ResultDepth(result, s.printing) <= e.maxLevel
    decreases TypeSize(result), 5
  {
    hide At, Type, OkType, TypeDepth, MangleType, Say;
    if result != Basic(Unit) {
      AtHead(e.input, s.pos, MangleType(result));
      PrintSays(s, " -> ");
      TypeFits(e, Say(s, 0, " -> "), result);
    }
  }

  // ---------------------------------------------------------------------------------------------
  // Trait objects
  // ---------------------------------------------------------------------------------------------

  lemma {:induction false} DynFits(e: Env, s: St, t: TypeTree)
    requires TypeStands(e, s, t) && t.Dyn? && !TypeBody(e, s).error
    ensures s.level + TypeDepth(t, s.printing) <= e.maxLevel + 1
    decreases TypeSize(t), 2
  {
    hide At, Path, Type, DynBounds, FnSig, ArrayType, TupleType, RefLifetime, BackrefType, ParseBase62, PrintLifetime;
    hide MangleOptional, MangleTraits, Base62Text, OkTraits, TraitsDepth, TraitsSize;
    var front := MangleOptional('G', t.binder) + MangleTraits(t.traits);
    AtCons(e.input, s.pos, 'D', front + ("L" + Base62Text(t.index)));
    AtSplit(e.input, s.pos + 1, front, "L" + Base62Text(t.index));
    BoundsFit(e, s.(pos := s.pos + 1), t.binder, t.traits);
  }

  lemma {:induction false} BoundsFit(e: Env, s: St, binder: nat, traits: TraitList)
    requires Going(e, s) && OkBinder(binder, s.bound, e.input)
    requires OkTraits(traits, s.pos + |MangleOptional('G', binder)|, s.bound + binder, e.input, s.printing)
    requires At(e.input, s.pos, MangleOptional('G', binder) + MangleTraits(traits)) && !DynBounds(e, s).error
    ensures s.level + TraitsDepth(traits, s.printing) <= e.maxLevel
    decreases TraitsSize(traits), 2
  {
    hide At, OptionalBinder, DynTraits, MangleOptional, MangleTraits, OkTraits, TraitsDepth, ShowBinder, Say;
    var m := |MangleOptional('G', binder)|;
    AtSplit(e.input, s.pos, MangleOptional('G', binder), MangleTraits(traits));
    AtHead(e.input, s.pos + m, MangleTraits(traits));
    var s1 := Say(s, 0, "dyn ");
    PrintSays(s, "dyn ");
    BinderShown(e, s1, binder);
    TraitsFit(e, Say(s1, m, ShowBinder(binder, s.bound)).(bound := s.bound + binder), traits, 0);
  }

  lemma {:induction false} TraitsFit(e: Env, s: St, ts: TraitList, i: nat)
    requires Going(e, s) && OkTraits(ts, s.pos, s.bound, e.input, s.printing) && At(e.input, s.pos, MangleTraits(ts))
    requires !DynTraits(e, s, i).error
    ensures s.level + TraitsDepth(ts, s.printing) <= e.maxLevel
    decreases TraitsSize(ts), 1
  {
    hide Say, Plus, RustLexer.Print, At, DynTrait, ManglePath, MangleBindings, OkPath, OkBindings, PathDepth;
    hide BindingsDepth, TraitText, MangleTraits, ShowTraits, OkTraits, TraitsDepth, TraitsSize, PathSize, BindingsSize;
    TraitsLine(ts, i, s.pos, s.bound, e.input, s.printing);
    match ts
    case NoTrait => NoTraitDepth();
    case MoreTraits(path, bindings, rest) =>
      var item := ManglePath(path) + MangleBindings(bindings);
      AtSplit(e.input, s.pos, item, MangleTraits(rest));
      AtHead(e.input, s.pos, item);
      AtHead(e.input, s.pos + |item|, MangleTraits(rest));
      var s1 := Say(s, 0, Plus(i));
      PlusSaid(s, i);
      TraitFitsOpen(e, s1, path, bindings);
      TraitShownOpen(e, s1, path, bindings);
      TraitsFit(e, Say(s1, |item|, TraitText(path, bindings, s.bound)), rest, i + 1);
  }

  lemma NoTraitDepth()
    ensures forall b :: TraitsDepth(NoTrait, b) == 0 && BindingsDepth(NoBinding, b) == 0
  {
  }

  lemma {:induction false} TraitFitsOpen(e: Env, s: St, path: PathTree, bindings: BindingList)
    requires Going(e, s) && OkPath(path, s.pos, s.bound, e.input, s.printing)
    requires OkBindings(bindings, s.pos + |ManglePath(path)|, s.bound, e.input, s.printing)
    requires At(e.input, s.pos, ManglePath(path) + MangleBindings(bindings))
    requires
      var q := s.pos + |ManglePath(path) + MangleBindings(bindings)|;
      q < |e.input| && e.input[q] != 'p' && e.input[q] != '_'
    requires !DynTrait(e, s).error
    ensures s.level + Max(PathDepth(path, s.printing), BindingsDepth(bindings, s.printing)) <= e.maxLevel
    decreases PathSize(path) + BindingsSize(bindings), 2
  {
    hide At, Path, AssocBindings, ManglePath, MangleBindings, ShowPath, OkPath, OkBindings, PathDepth, BindingsDepth;
    hide Say;
    var m := |ManglePath(path)|;
    AtSplit(e.input, s.pos, ManglePath(path), MangleBindings(bindings));
    if MangleBindings(bindings) != "" {
      AtHead(e.input, s.pos + m, MangleBindings(bindings));
    }
    PathFits(e, s, path, true, true);
    PathShown(e, s, path, true, true);
    BindingsFit(e, Say(s, m, ShowPath(path, true, true, s.bound, true)), bindings, HasArgs(path, s.printing));
  }

  lemma {:induction false} BindingsFit(e: Env, s: St, bs: BindingList, open: bool)
    requires Going(e, s) && OkBindings(bs, s.pos, s.bound, e.input, s.printing)
    requires At(e.input, s.pos, MangleBindings(bs))
    requires
      var q := s.pos + |MangleBindings(bs)|;
      q < |e.input| && e.input[q] != 'p' && e.input[q] != '_'
    requires !AssocBindings(e, s, open).0.error
    ensures s.level + BindingsDepth(bs, s.printing) <= e.maxLevel
    decreases BindingsSize(bs), 1
  {
    hide At, AssocBinding, MangleIdentifier, MangleType, OkName, OkType, TypeDepth, ShowType, MangleBindings;
    hide OkBindings;
    hide BindingsDepth, ShowBindings, BindingsSize, TypeSize, Say;
    BindingsParts(bs, s.pos, s.bound, e.input, open, s.printing);
    match bs
    case NoBinding => NoTraitDepth();
    case MoreBindings(name, value, rest) =>
      var item := MangleIdentifier(name) + MangleType(value);
      BindingText(e.input, s.pos, item, rest);
      var s1 := s.(pos := s.pos + 1);
      BindingFits(e, s1, name, value, open);
      BindingShown(e, s1, name, value, open);
      var text := (if open then ", " else "<") + name.name + " = " + ShowType(value, s.bound, true);
      BindingsFit(e, Say(s1, |item|, text), rest, true);
  }

  lemma {:induction false} BindingFits(e: Env, s: St, name: Identifier, value: TypeTree, open: bool)
    requires Going(e, s) && OkName(name)
    requires OkType(value, s.pos + |MangleIdentifier(name)|, s.bound, e.input, s.printing)
    requires At(e.input, s.pos, MangleIdentifier(name) + MangleType(value))
    requires Clear(e, s.pos + |MangleIdentifier(name) + MangleType(value)|)
    requires !AssocBinding(e, s, open).error
    ensures s.level + TypeDepth(value, s.printing) <= e.maxLevel
    decreases TypeSize(value), 5
  {
    hide At, Type, ParseIdentifier, MangleIdentifier, MangleType, OkName, OkType, TypeDepth, Say;
    var m, mark := |MangleIdentifier(name)|, if open then ", " else "<";
    AtSplit(e.input, s.pos, MangleIdentifier(name), MangleType(value));
    AtHead(e.input, s.pos + m, MangleType(value));
    var s1 := Say(s, 0, mark);
    PrintSays(s, mark);
    ReadIdentifier(e, s1, name);
    var s2 := Say(s1.(pos := s1.pos + m), 0, name.name);
    PrintSays(s1.(pos := s1.pos + m), name.name);
    PrintSays(s2, " = ");
    TypeFits(e, Say(s2, 0, " = "), value);
  }

  // ---------------------------------------------------------------------------------------------
  // The whole symbol
  // ---------------------------------------------------------------------------------------------

  /** The demangler refuses a well-formed symbol exactly when it is nested too deeply. */
  lemma {:induction false} BudgetDecides(p: PathTree, crate: Option<PathTree>, suffix: string, maxLevel: nat)
    requires OkSymbol(p, crate) && (suffix != "" ==> suffix[0] == '.')
    ensures Demangle("_R" + (SymbolText(p, crate) + suffix), maxLevel).error <==> !SymbolFits(p, crate, maxLevel)
  {
    hide Demangle, SymbolText, OkSymbol, SymbolFits, ShowPath;
    if SymbolFits(p, crate, maxLevel) {
      DemangleInvertsMangle(p, crate, suffix, maxLevel);
    } else if !Demangle("_R" + (SymbolText(p, crate) + suffix), maxLevel).error {
      SymbolNoDot(p, crate);
      SymbolWasRead(SymbolText(p, crate), suffix, maxLevel);
      ReadSymbolFits(p, crate, maxLevel);
    }
  }

  lemma {:induction false} ReadSymbolFits(p: PathTree, crate: Option<PathTree>, maxLevel: nat)
    requires OkSymbol(p, crate)
    requires
      var e := Env(SymbolText(p, crate), maxLevel);
      var s1 := Path(e, START, false, false).0;
      !s1.error && (s1.pos < |e.input| ==> !Path(e, s1.(printing := false), false, false).0.error)
    ensures SymbolFits(p, crate, maxLevel)
  {
    hide At, Path, ManglePath, OkPath, PathDepth, ShowPath, SymbolText;
    var e := Env(SymbolText(p, crate), maxLevel);
    SymbolPlaces(p, crate);
    PathFits(e, START, p, false, false);
    PathShown(e, START, p, false, false);
    if crate.Some? {
      var s1 := Say(START, |ManglePath(p)|, ShowPath(p, false, false, 0, true));
      PathFits(e, s1.(printing := false), crate.value, false, false);
    }
  }

  /** `a::a::...::a`, with `n` nested names. */
  function Tower(n: nat): PathTree
  {
    var a := Identifier("a", false);
    if n == 0 then Crate(0, a) else Nested('v', Tower(n - 1), 0, a)
  }

  lemma {:induction false} TowerDepth(n: nat, pos: nat, input: string)
    ensures OkPath(Tower(n), pos, 0, input, true) && PathDepth(Tower(n), true) == n + 1
  {
    hide OkId;
    ExampleTexts();
    if n > 0 {
      TowerDepth(n - 1, pos + 2, input);
    }
  }

  /** With the limit of the program, 499 nested names are shown and 500 are refused. */
  lemma TowerLimit(n: nat)
    ensures Demangle("_R" + ManglePath(Tower(n)), MAX_LEVEL).error <==> n >= 500
  {
    hide Demangle, ManglePath, OkPath, PathDepth, Tower;
    TowerDepth(n, 0, ManglePath(Tower(n)));
    NothingAppended(ManglePath(Tower(n)));
    BudgetDecides(Tower(n), None, "", MAX_LEVEL);
  }
}
