/**
 What constants mean, apart from how they are folded: relative to the program they are used in and the arguments it
 has, they denote programs, instances, literals, and computations of some program.  Folding keeps what they denote.
 */
module ConstantMeanings {
  import opened Options
  import opened Folding

  datatype Meaning =
    | Program(program: nat)
    | NamespaceOf(id: nat)
    | Instance(base: nat, arguments: seq<Meaning>)
    | TemplateOf(of: Meaning)
    | FunctionOf(of: Meaning)
    | Truth(value: bool)
    | CategoryOf(category: Category)
    | Computation(owner: Meaning, computation: nat)

  /** The program a constant is used in, what its Self spells out, and its arguments. */
  datatype Use = Use(owner: Meaning, selfConstant: Constant, arguments: seq<Meaning>)

  /** A reference to something of a category; only categories have one. */
  ghost function ReferenceTo(m: Meaning): Option<Meaning> {
    if !m.CategoryOf? then None
    else Some(CategoryOf(if m.category == Value then UniqueReference else m.category))
  }

  /** A parameter denotes its argument, and a computed constant the computation of the program it is used in. */
  ghost function Denotation(u: Use, c: Constant): Option<Meaning>
    requires NoSelf(u.selfConstant)
    decreases !NoSelf(c), c, 1, 0
  {
    match c
    case Self => Denotation(u, u.selfConstant)
    case Prog(program) => Some(Program(program))
    case Namespace(id) => Some(NamespaceOf(id))
    case Para(base, args) =>
      (match DenotationOfAll(u, c, args) case None => None case Some(all) => Some(Instance(base, all)))
    case TemplateSignature(of) =>
      (match Denotation(u, of) case None => None case Some(m) => Some(TemplateOf(m)))
    case FunctionSignature(of) =>
      (match Denotation(u, of) case None => None case Some(m) => Some(FunctionOf(m)))
    case BooleanLiteral(value) => Some(Truth(value))
    case CategoryLiteral(category) => Some(CategoryOf(category))
    case CopyOfParameter(i) => if i < |u.arguments| then Some(u.arguments[i]) else None
    case CopyOfParameterToReferenceCategory(i) =>
      if i < |u.arguments| then ReferenceTo(u.arguments[i]) else None
    case Computed(computation) => Some(Computation(u.owner, computation))
    case RemoteComputed(base, computation) =>
      (match Denotation(u, base) case None => None case Some(m) => Some(Computation(m, computation)))
  }

  ghost function DenotationOfAll(u: Use, whole: Constant, args: seq<Constant>): (r: Option<seq<Meaning>>)
    requires NoSelf(u.selfConstant)
    requires forall i :: 0 <= i < |args| ==> args[i] < whole && (NoSelf(whole) ==> NoSelf(args[i]))
    ensures r.Some? ==> |r.value| == |args|
    decreases !NoSelf(whole), whole, 0, |args|
  {
    if args == [] then Some([])
    else
      match Denotation(u, args[0])
      case None => None
      case Some(first) =>
        match DenotationOfAll(u, whole, args[1..])
        case None => None
        case Some(rest) => Some([first] + rest)
  }

  /** Where the constants of a base are used when it is used in `u` itself. */
  ghost predicate IsUseOf(u: Use, base: FoldBase, inner: Use)
    requires NoSelf(u.selfConstant) && BaseOk(base)
  {
    && inner.selfConstant == base.selfConstant
    && |inner.arguments| == |base.arguments|
    && (forall i :: 0 <= i < |base.arguments| ==> Denotation(u, base.arguments[i]) == Some(inner.arguments[i]))
    && if base.value.Self? then inner.owner == u.owner else Denotation(u, base.value) == Some(inner.owner)
  }

  /** Converting a category denotes the reference to what it denoted. */
  lemma ConversionIsSound(u: Use, c: Constant)
    requires NoSelf(u.selfConstant) && GenericToReferenceCategory(c).Some? && Denotation(u, c).Some?
    ensures Denotation(u, GenericToReferenceCategory(c).value) == ReferenceTo(Denotation(u, c).value)
  {
  }

  lemma {:induction false} ArgumentsFoldSoundly(u: Use, inner: Use, args: seq<Constant>, folded: seq<Constant>,
                                                whole: Constant, whole': Constant)
    requires NoSelf(u.selfConstant) && NoSelf(inner.selfConstant) && |args| == |folded|
    requires forall i :: 0 <= i < |args| ==> args[i] < whole && (NoSelf(whole) ==> NoSelf(args[i]))
    requires forall i :: 0 <= i < |folded| ==> folded[i] < whole' && (NoSelf(whole') ==> NoSelf(folded[i]))
    requires forall i :: 0 <= i < |args| ==> Denotation(u, folded[i]) == Denotation(inner, args[i])
    ensures DenotationOfAll(u, whole', folded) == DenotationOfAll(inner, whole, args)
    decreases |args|
  {
    if args != [] {
      ArgumentsFoldSoundly(u, inner, args[1..], folded[1..], whole, whole');
    }
  }

  /** A folded constant denotes for the folding program what the constant denotes for the owner and its arguments. */
  lemma {:induction false} FoldIsSound(u: Use, base: FoldBase, inner: Use, v: Constant)
    requires NoSelf(u.selfConstant) && BaseOk(base) && IsUseOf(u, base, inner) && Fold(base, v).Some?
    ensures Denotation(u, Fold(base, v).value) == Denotation(inner, v)
    decreases !NoSelf(v), v
  {
    match v
    case Self =>
      FoldIsSound(u, base, inner, base.selfConstant);
    case CopyOfParameterToReferenceCategory(i) =>
      ConversionIsSound(u, base.arguments[i]);
    case TemplateSignature(of) =>
      FoldIsSound(u, base, inner, of);
    case FunctionSignature(of) =>
      FoldIsSound(u, base, inner, of);
    case RemoteComputed(remoteBase, _) =>
      FoldIsSound(u, base, inner, remoteBase);
    case Para(b, args) =>
      ParaFolds(base, b, args);
      var folded := Fold(base, v).value;
      forall i | 0 <= i < |args|
        ensures Denotation(u, folded.args[i]) == Denotation(inner, args[i])
      {
        FoldIsSound(u, base, inner, args[i]);
      }
      ArgumentsFoldSoundly(u, inner, args, folded.args, v, folded);
    case _ =>
  }

  /** All parameters have arguments, and those that are converted have categories or parameters. */
  ghost predicate ArgumentsFit(base: FoldBase, v: Constant)
    requires BaseOk(base)
    decreases !NoSelf(v), v
  {
    match v
    case Self => ArgumentsFit(base, base.selfConstant)
    case CopyOfParameter(i) => i < |base.arguments|
    case CopyOfParameterToReferenceCategory(i) =>
      i < |base.arguments| && (base.arguments[i].CategoryLiteral? || base.arguments[i].CopyOfParameter?
                               || base.arguments[i].CopyOfParameterToReferenceCategory?)
    case TemplateSignature(of) => ArgumentsFit(base, of)
    case FunctionSignature(of) => ArgumentsFit(base, of)
    case RemoteComputed(remoteBase, _) => ArgumentsFit(base, remoteBase)
    case Para(_, args) => forall i :: 0 <= i < |args| ==> ArgumentsFit(base, args[i])
    case _ => true
  }

  /** Folding has a result exactly if the arguments fit. */
  lemma {:induction false} FoldIsDefined(base: FoldBase, v: Constant)
    requires BaseOk(base) && SignaturesOk(v) && SignaturesOk(base.selfConstant)
    ensures Fold(base, v).Some? <==> ArgumentsFit(base, v)
    decreases !NoSelf(v), v
  {
    match v
    case Self =>
      FoldIsDefined(base, base.selfConstant);
    case TemplateSignature(of) =>
      FoldIsDefined(base, of);
    case FunctionSignature(of) =>
      FoldIsDefined(base, of);
    case RemoteComputed(remoteBase, _) =>
      FoldIsDefined(base, remoteBase);
    case Para(b, args) =>
      ParaFolds(base, b, args);
      forall i | 0 <= i < |args|
        ensures Fold(base, args[i]).Some? <==> ArgumentsFit(base, args[i])
      {
        FoldIsDefined(base, args[i]);
      }
    case _ =>
  }
}
