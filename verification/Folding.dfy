/**
 Substituting template arguments into constants.  Folding by one base after another is folding once by the composed
 arguments and base value.
 */
module Folding {
  import opened Options

  datatype Category = Value | UniqueReference | ConstUniqueReference | SharedReference | ConstSharedReference

  /** Constants as deep terms: what is interned in a program is spelled out. */
  datatype Constant =
    | Self
    | Prog(program: nat)
    | Namespace(id: nat)
    | Para(base: nat, args: seq<Constant>)
    | TemplateSignature(of: Constant)
    | FunctionSignature(of: Constant)
    | BooleanLiteral(value: bool)
    | CategoryLiteral(category: Category)
    | CopyOfParameter(index: nat)
    | CopyOfParameterToReferenceCategory(index: nat)
    | Computed(computation: nat)
    | RemoteComputed(remoteBase: Constant, computation: nat)

  /** The arguments that replace the parameters of a program, and the constant for the program with its arguments. */
  datatype FoldBase = FoldBase(selfConstant: Constant, value: Constant, arguments: seq<Constant>)

  /** Self constants spell out what Self stands for, and are programs or parameterizes. */
  predicate IsSelfConstant(c: Constant) {
    (c.Prog? || c.Para?) && NoSelf(c)
  }

  predicate NoSelf(c: Constant) {
    match c
    case Self => false
    case Para(_, args) => forall i :: 0 <= i < |args| ==> NoSelf(args[i])
    case TemplateSignature(of) => NoSelf(of)
    case FunctionSignature(of) => NoSelf(of)
    case RemoteComputed(base, _) => NoSelf(base)
    case _ => true
  }

  predicate BaseOk(base: FoldBase) {
    IsSelfConstant(base.selfConstant) && (base.value.Self? || base.value.Prog? || base.value.Para?)
  }

  /** Categories of values become those of references to them, which has no result for other constants. */
  function GenericToReferenceCategory(c: Constant): Option<Constant> {
    match c
    case CategoryLiteral(category) =>
      if category == Value then Some(CategoryLiteral(UniqueReference)) else Some(c)
    case CopyOfParameter(index) => Some(CopyOfParameterToReferenceCategory(index))
    case CopyOfParameterToReferenceCategory(_) => Some(c)
    case _ => None
  }

  lemma ReferenceCategoryIsIdempotent(c: Constant)
    ensures GenericToReferenceCategory(c).Some? ==>
      GenericToReferenceCategory(GenericToReferenceCategory(c).value) == GenericToReferenceCategory(c)
    ensures GenericToReferenceCategory(c) != Some(CategoryLiteral(Value))
  {
  }

  function MakeTemplateSignature(c: Constant): Option<Constant> {
    if c.Prog? || c.Para? then Some(TemplateSignature(c)) else None
  }

  function MakeFunctionSignature(c: Constant): Option<Constant> {
    if c.Prog? || c.Para? then Some(FunctionSignature(c)) else None
  }

  /** Replaces the parameters in a constant by arguments, where that is possible. */
  function Fold(base: FoldBase, v: Constant): Option<Constant>
    requires BaseOk(base)
    decreases !NoSelf(v), v, 1, 0
  {
    match v
    case Self => Fold(base, base.selfConstant)
    case Prog(_) => Some(v)
    case Namespace(_) => Some(v)
    case CopyOfParameter(i) => if i < |base.arguments| then Some(base.arguments[i]) else None
    case CopyOfParameterToReferenceCategory(i) =>
      if i < |base.arguments| then GenericToReferenceCategory(base.arguments[i]) else None
    case TemplateSignature(of) =>
      (match Fold(base, of) case None => None case Some(c) => MakeTemplateSignature(c))
    case FunctionSignature(of) =>
      (match Fold(base, of) case None => None case Some(c) => MakeFunctionSignature(c))
    case RemoteComputed(remoteBase, computation) =>
      (match Fold(base, remoteBase) case None => None case Some(c) => Some(RemoteComputed(c, computation)))
    case Computed(computation) =>
      Some(if base.value.Self? then v else RemoteComputed(base.value, computation))
    case Para(b, args) =>
      (match FoldArgs(base, v, args) case None => None case Some(folded) => Some(Para(b, folded)))
    case BooleanLiteral(_) => Some(v)
    case CategoryLiteral(_) => Some(v)
  }

  /** Folds the arguments of `whole` from left to right. */
  function FoldArgs(base: FoldBase, ghost whole: Constant, args: seq<Constant>): (r: Option<seq<Constant>>)
    requires BaseOk(base) && forall i :: 0 <= i < |args| ==> args[i] < whole && (NoSelf(whole) ==> NoSelf(args[i]))
    ensures r.Some? ==> |r.value| == |args|
    decreases !NoSelf(whole), whole, 0, |args|
  {
    if args == [] then Some([])
    else
      match Fold(base, args[0])
      case None => None
      case Some(first) =>
        match FoldArgs(base, whole, args[1..])
        case None => None
        case Some(rest) => Some([first] + rest)
  }

  /** Arguments are folded one by one. */
  lemma {:induction false} FoldArgsAt(base: FoldBase, whole: Constant, args: seq<Constant>)
    requires BaseOk(base) && forall i :: 0 <= i < |args| ==> args[i] < whole && (NoSelf(whole) ==> NoSelf(args[i]))
    ensures FoldArgs(base, whole, args).Some? <==> forall i :: 0 <= i < |args| ==> Fold(base, args[i]).Some?
    ensures FoldArgs(base, whole, args).Some? ==>
      forall i :: 0 <= i < |args| ==> Fold(base, args[i]) == Some(FoldArgs(base, whole, args).value[i])
    decreases |args|
  {
    if args != [] {
      FoldArgsAt(base, whole, args[1..]);
      assert args == [args[0]] + args[1..];
    }
  }

  /** What a parameterize folds to. */
  ghost predicate ArgsFoldTo(base: FoldBase, args: seq<Constant>, r: Option<Constant>, b: nat)
    requires BaseOk(base)
  {
    if exists i :: 0 <= i < |args| && Fold(base, args[i]).None? then r == None
    else
      && r.Some? && r.value.Para? && r.value.base == b && |r.value.args| == |args|
      && forall i :: 0 <= i < |args| ==> Fold(base, args[i]) == Some(r.value.args[i])
  }

  lemma ParaFolds(base: FoldBase, b: nat, args: seq<Constant>)
    requires BaseOk(base)
    ensures ArgsFoldTo(base, args, Fold(base, Para(b, args)), b)
  {
    FoldArgsAt(base, Para(b, args), args);
  }

  /** Signatures are made of programs and parameterizes. */
  predicate SignaturesOk(c: Constant) {
    match c
    case Para(_, args) => forall i :: 0 <= i < |args| ==> SignaturesOk(args[i])
    case TemplateSignature(of) => (of.Prog? || of.Para?) && SignaturesOk(of)
    case FunctionSignature(of) => (of.Prog? || of.Para?) && SignaturesOk(of)
    case RemoteComputed(base, _) => SignaturesOk(base)
    case _ => true
  }

  // Composition

  function Then(base: FoldBase, v: Option<Constant>): Option<Constant>
    requires BaseOk(base)
  {
    if v.None? then None else Fold(base, v.value)
  }

  /** `both` has the arguments and the value of `first`, folded by `second`. */
  ghost predicate IsComposed(first: FoldBase, second: FoldBase, both: FoldBase)
    requires BaseOk(first) && BaseOk(second)
  {
    && both.selfConstant == first.selfConstant
    && |both.arguments| == |first.arguments|
    && (forall i :: 0 <= i < |first.arguments| ==> Fold(second, first.arguments[i]) == Some(both.arguments[i]))
    && if first.value.Self? then both.value == second.value else Fold(second, first.value) == Some(both.value)
  }

  lemma ComposedIsOk(first: FoldBase, second: FoldBase, both: FoldBase)
    requires BaseOk(first) && BaseOk(second) && IsComposed(first, second, both)
    ensures BaseOk(both)
  {
  }

  /** Only categories and parameters have reference categories, before folding and after. */
  lemma ReferenceCategoryFolds(base: FoldBase, c: Constant)
    requires BaseOk(base) && Fold(base, c).Some?
    ensures Then(base, GenericToReferenceCategory(c)) == GenericToReferenceCategory(Fold(base, c).value)
  {
    if c.Self? {
      assert Fold(base, c) == Fold(base, base.selfConstant);
    } else if c.CopyOfParameterToReferenceCategory? {
      ReferenceCategoryIsIdempotent(base.arguments[c.index]);
    }
  }

  lemma ParaFoldsTwice(first: FoldBase, second: FoldBase, both: FoldBase, b: nat, args: seq<Constant>)
    requires BaseOk(first) && BaseOk(second) && BaseOk(both)
    requires forall i :: 0 <= i < |args| ==> Then(second, Fold(first, args[i])) == Fold(both, args[i])
    ensures Then(second, Fold(first, Para(b, args))) == Fold(both, Para(b, args))
  {
    ParaFolds(first, b, args);
    ParaFolds(both, b, args);
    var once, twice := Fold(first, Para(b, args)), Fold(both, Para(b, args));
    hide Fold;
    if once.Some? {
      var folded := once.value.args;
      ParaFolds(second, b, folded);
      var again := Fold(second, Para(b, folded));
      forall i | 0 <= i < |args|
        ensures Fold(second, folded[i]) == Fold(both, args[i])
      {
        assert Then(second, Fold(first, args[i])) == Fold(both, args[i]);
      }
      if again.Some? && twice.Some? {
        assert forall i :: 0 <= i < |args| ==> Some(again.value.args[i]) == Some(twice.value.args[i]);
        assert again.value.args == twice.value.args;
      }
    } else {
      var i :| 0 <= i < |args| && Fold(first, args[i]).None?;
      assert Then(second, Fold(first, args[i])) == Fold(both, args[i]);
    }
  }

  /** The substitution lemma: folding twice is folding once by the composed base. */
  lemma {:induction false} FoldTwice(first: FoldBase, second: FoldBase, both: FoldBase, v: Constant)
    requires BaseOk(first) && BaseOk(second) && IsComposed(first, second, both) && SignaturesOk(v)
    requires SignaturesOk(first.selfConstant)
    ensures BaseOk(both) && Then(second, Fold(first, v)) == Fold(both, v)
    decreases !NoSelf(v), v
  {
    ComposedIsOk(first, second, both);
    match v
    case Self =>
      FoldTwice(first, second, both, first.selfConstant);
    case CopyOfParameterToReferenceCategory(i) =>
      if i < |first.arguments| {
        ReferenceCategoryFolds(second, first.arguments[i]);
      }
    case TemplateSignature(of) =>
      FoldTwice(first, second, both, of);
    case FunctionSignature(of) =>
      FoldTwice(first, second, both, of);
    case RemoteComputed(base, _) =>
      FoldTwice(first, second, both, base);
    case Para(b, args) =>
      forall i | 0 <= i < |args|
        ensures Then(second, Fold(first, args[i])) == Fold(both, args[i])
      {
        FoldTwice(first, second, both, args[i]);
      }
      ParaFoldsTwice(first, second, both, b, args);
    case _ =>
  }

  // Folding by nothing

  predicate ParametersBelow(c: Constant, n: nat) {
    match c
    case CopyOfParameter(i) => i < n
    case CopyOfParameterToReferenceCategory(i) => i < n
    case Para(_, args) => forall i :: 0 <= i < |args| ==> ParametersBelow(args[i], n)
    case TemplateSignature(of) => ParametersBelow(of, n)
    case FunctionSignature(of) => ParametersBelow(of, n)
    case RemoteComputed(base, _) => ParametersBelow(base, n)
    case _ => true
  }

  function CopyParameters(n: nat): (arguments: seq<Constant>)
    ensures |arguments| == n && forall i :: 0 <= i < n ==> arguments[i] == CopyOfParameter(i)
  {
    seq(n, i requires 0 <= i < n => CopyOfParameter(i))
  }

  /** Replacing the parameters of a program by themselves changes nothing. */
  lemma {:induction false} FoldByParametersIsIdentity(base: FoldBase, n: nat, v: Constant)
    requires BaseOk(base) && base.value.Self? && base.arguments == CopyParameters(n)
    requires NoSelf(v) && SignaturesOk(v) && ParametersBelow(v, n)
    ensures Fold(base, v) == Some(v)
  {
    match v
    case TemplateSignature(of) =>
      FoldByParametersIsIdentity(base, n, of);
    case FunctionSignature(of) =>
      FoldByParametersIsIdentity(base, n, of);
    case RemoteComputed(remoteBase, _) =>
      FoldByParametersIsIdentity(base, n, remoteBase);
    case Para(b, args) =>
      forall i | 0 <= i < |args|
        ensures Fold(base, args[i]) == Some(args[i])
      {
        FoldByParametersIsIdentity(base, n, args[i]);
      }
      ParaFolds(base, b, args);
      assert Fold(base, v).value.args == args;
    case _ =>
  }
}
