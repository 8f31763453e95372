/**
 Matching a constant against a pattern with parameters.  A match collects arguments for the parameters, and equalities
 that are left to be checked once all arguments are known.
 */
module Matching {
  import opened Options
  import opened Folding

  /** The folded pattern has to be the value. */
  datatype Equality = Equality(pattern: Constant, value: Constant)

  /** A base gives all parameters the arguments that are known, and meets all equalities. */
  ghost predicate Solves(base: FoldBase, selfConstant: Constant, arguments: seq<Option<Constant>>,
                         equalities: set<Equality>) {
    && BaseOk(base) && base.selfConstant == selfConstant
    && |base.arguments| == |arguments|
    && (forall i :: 0 <= i < |arguments| && arguments[i].Some? ==> arguments[i].value == base.arguments[i])
    && (forall e :: e in equalities ==> Fold(base, e.pattern) == Some(e.value))
  }

  /** Folding turns the pattern into the value. */
  ghost predicate Instantiates(base: FoldBase, pattern: Constant, value: Constant) {
    BaseOk(base) && Fold(base, pattern) == Some(value)
  }

  /** Constants that are only compared after folding. */
  predicate IsDeferred(c: Constant) {
    c.Computed? || c.RemoteComputed? || c.CopyOfParameterToReferenceCategory?
  }

  /** Signatures of programs and of parameterizes are different kinds of constants. */
  predicate SameKind(p: Constant, a: Constant) {
    match (p, a)
    case (Prog(_), Prog(_)) => true
    case (Namespace(_), Namespace(_)) => true
    case (Para(_, _), Para(_, _)) => true
    case (TemplateSignature(x), TemplateSignature(y)) => x.Para? == y.Para?
    case (FunctionSignature(x), FunctionSignature(y)) => x.Para? == y.Para?
    case (BooleanLiteral(_), BooleanLiteral(_)) => true
    case (CategoryLiteral(_), CategoryLiteral(_)) => true
    case _ => false
  }

  /** Parameterizes of the same program that meet in a match have the same number of arguments. */
  predicate SizesAgree(selfConstant: Constant, p: Constant, a: Constant)
    requires IsSelfConstant(selfConstant)
    decreases !NoSelf(p), p
  {
    match p
    case Self => SizesAgree(selfConstant, selfConstant, a)
    case Para(b, args) =>
      a.Para? && a.base == b ==>
        |a.args| == |args| && forall i :: 0 <= i < |args| ==> SizesAgree(selfConstant, args[i], a.args[i])
    case TemplateSignature(of) => a.TemplateSignature? ==> SizesAgree(selfConstant, of, a.of)
    case FunctionSignature(of) => a.FunctionSignature? ==> SizesAgree(selfConstant, of, a.of)
    case _ => true
  }

  // When nothing is left to be checked

  predicate Uses(p: Constant, x: nat) {
    match p
    case CopyOfParameter(i) => i == x
    case CopyOfParameterToReferenceCategory(i) => i == x
    case Para(_, args) => exists i :: 0 <= i < |args| && Uses(args[i], x)
    case TemplateSignature(of) => Uses(of, x)
    case FunctionSignature(of) => Uses(of, x)
    case RemoteComputed(base, _) => Uses(base, x)
    case _ => false
  }

  /** No parameter occurs twice, and nothing has to be folded before it can be compared. */
  ghost predicate IsLinear(p: Constant) {
    match p
    case Self => false
    case Para(_, args) =>
      && (forall i :: 0 <= i < |args| ==> IsLinear(args[i]))
      && forall i, j, x :: 0 <= i < j < |args| && Uses(args[i], x) ==> !Uses(args[j], x)
    case TemplateSignature(of) => IsLinear(of)
    case FunctionSignature(of) => IsLinear(of)
    case _ => !IsDeferred(p)
  }

  /** Values without parameters and without anything that is computed. */
  predicate IsGround(v: Constant) {
    match v
    case Self => false
    case CopyOfParameter(_) => false
    case Para(_, args) => forall i :: 0 <= i < |args| ==> IsGround(args[i])
    case TemplateSignature(of) => IsGround(of)
    case FunctionSignature(of) => IsGround(of)
    case _ => !IsDeferred(v)
  }

  /** The parameters in the pattern have no arguments yet. */
  ghost predicate IsFresh(arguments: seq<Option<Constant>>, p: Constant) {
    forall x :: 0 <= x < |arguments| && Uses(p, x) ==> arguments[x].None?
  }

  /** Just the parameters in the pattern got arguments. */
  ghost predicate Decides(old_: seq<Option<Constant>>, new_: seq<Option<Constant>>, p: Constant) {
    |new_| == |old_| && forall x :: 0 <= x < |old_| ==> (new_[x].Some? <==> old_[x].Some? || Uses(p, x))
  }

  predicate SomeUses(ps: seq<Constant>, x: nat) {
    exists k :: 0 <= k < |ps| && Uses(ps[k], x)
  }

  ghost predicate DecidesAll(old_: seq<Option<Constant>>, new_: seq<Option<Constant>>, ps: seq<Constant>) {
    |new_| == |old_| && forall x :: 0 <= x < |old_| ==>
      (new_[x].Some? <==> old_[x].Some? || SomeUses(ps, x))
  }

  class DeductionState {
    const selfConstant: Constant
    var arguments: seq<Option<Constant>>
    var explicitArgumentsMap: seq<bool>
    var equalities: set<Equality>

    ghost predicate Valid()
      reads this
    {
      && IsSelfConstant(selfConstant) && SignaturesOk(selfConstant) && ParametersBelow(selfConstant, |arguments|)
      && |explicitArgumentsMap| == |arguments|
      && forall i :: 0 <= i < |arguments| && explicitArgumentsMap[i] ==> arguments[i].Some?
    }

    constructor (selfConstant: Constant, parameterCount: nat)
      requires IsSelfConstant(selfConstant) && SignaturesOk(selfConstant)
      requires ParametersBelow(selfConstant, parameterCount)
      ensures Valid() && this.selfConstant == selfConstant
      ensures |arguments| == parameterCount && (forall i :: 0 <= i < parameterCount ==> arguments[i].None?)
      ensures equalities == {}
    {
      this.selfConstant := selfConstant;
      arguments := seq(parameterCount, _ => None);
      explicitArgumentsMap := seq(parameterCount, _ => false);
      equalities := {};
    }

    /** Fixes an argument before matching. */
    method ExplicitArgument(i: nat, value: Constant)
      requires Valid() && i < |arguments| && arguments[i].None?
      modifies this
      ensures Valid() && arguments == old(arguments)[i := Some(value)] && equalities == old(equalities)
    {
      assert !explicitArgumentsMap[i];
      arguments := arguments[i := Some(value)];
      explicitArgumentsMap := explicitArgumentsMap[i := true];
    }

    predicate IsComplete()
      reads this
    {
      forall i :: 0 <= i < |arguments| ==> arguments[i].Some?
    }

    ghost predicate SolvedBy(base: FoldBase)
      reads this
    {
      Solves(base, selfConstant, arguments, equalities)
    }

    /** The value matches a pattern that is a single parameter. */
    method MatchParameter(index: nat, value: Constant)
      requires Valid() && index < |arguments|
      modifies this
      ensures Valid() && |arguments| == old(|arguments|)
      ensures forall base :: SolvedBy(base) <==>
        old(SolvedBy(base)) && Instantiates(base, CopyOfParameter(index), value)
      ensures old(arguments)[index].None? ==>
        equalities == old(equalities) && arguments == old(arguments)[index := Some(value)]
    {
      if arguments[index].None? {
        assert !explicitArgumentsMap[index];
        arguments := arguments[index := Some(value)];
      } else {
        equalities := equalities + {Equality(CopyOfParameter(index), value)};
      }
    }

    method MatchLater(pattern: Constant, value: Constant)
      requires Valid()
      modifies this
      ensures Valid() && |arguments| == old(|arguments|)
      ensures forall base :: SolvedBy(base) <==> old(SolvedBy(base)) && Instantiates(base, pattern, value)
    {
      equalities := equalities + {Equality(pattern, value)};
    }
  
    /** Matches programs; a mismatch is replaced for recovery, which is not part of this model. */
    static function ComparePrograms(p: nat, a: nat): bool {
      p == a
    }

    /** Matches the arguments of two parameterizes, also those behind a mismatch. */
    method CompareParameterize(pattern: Constant, value: Constant) returns (matched: bool)
      requires Valid() && pattern.Para? && value.Para? && PatternOk(pattern, |arguments|) && SignaturesOk(value)
      requires SizesAgree(selfConstant, pattern, value)
      modifies this
      ensures Valid() && |arguments| == old(|arguments|)
      ensures matched ==> forall base :: SolvedBy(base) <==> old(SolvedBy(base)) && Instantiates(base, pattern, value)
      ensures !matched ==> forall base :: old(SolvedBy(base)) ==> !Instantiates(base, pattern, value)
      ensures matched && IsLinear(pattern) && IsGround(value) && IsFresh(old(arguments), pattern) ==>
        equalities == old(equalities) && Decides(old(arguments), arguments, pattern)
      decreases !NoSelf(pattern), pattern, 0
    {
      ParaInstantiates(pattern, value);
      SolversAreBases(selfConstant, arguments, equalities);
      hide Solves, Instantiates, InstantiatesAll, SizesAgree, PatternOk, SignaturesOk, NoSelf;
      hide IsLinear, IsGround, IsFresh, Decides, DecidesAll;
      NoneDecided(arguments, pattern.args);
      if !ComparePrograms(pattern.base, value.base) {
        return false;
      }
      ArgumentsOk(selfConstant, pattern, value, |arguments|);
      matched := true;
      AllOfNone(pattern.args, value.args);
      for i := 0 to |pattern.args|
        invariant Valid() && |arguments| == old(|arguments|)
        invariant matched ==> forall base ::
          SolvedBy(base) <==> old(SolvedBy(base)) && InstantiatesAll(base, pattern.args[..i], value.args[..i])
        invariant !matched ==> forall base ::
          old(SolvedBy(base)) ==> !InstantiatesAll(base, pattern.args[..i], value.args[..i])
        invariant matched && IsLinear(pattern) && IsGround(value) && IsFresh(old(arguments), pattern) ==>
          equalities == old(equalities) && DecidesAll(old(arguments), arguments, pattern.args[..i])
      {
        ghost var before := arguments;
        var argMatched := StaticMatch(pattern.args[i], value.args[i]);
        if matched && IsLinear(pattern) && IsGround(value) && IsFresh(old(arguments), pattern) {
          LinearArgument(pattern, value, i, old(arguments), before);
          if argMatched {
            DecidedMore(old(arguments), before, arguments, pattern.args, i);
          }
        }
        AllOfMore(pattern.args, value.args, i);
        matched := matched && argMatched;
      }
      assert pattern.args[..|pattern.args|] == pattern.args && value.args[..|pattern.args|] == value.args;
      AllDecided(old(arguments), arguments, pattern);
    }

    /**
     Whether the value can be an instance of the pattern.  If so, the bases that solve the state afterwards are exactly
     those that solved it before and turn the pattern into the value, and otherwise there is no such base.
     */
    method StaticMatch(pattern: Constant, value: Constant) returns (matched: bool)
      requires Valid() && PatternOk(pattern, |arguments|) && SignaturesOk(value)
      requires SizesAgree(selfConstant, pattern, value)
      modifies this
      ensures Valid() && |arguments| == old(|arguments|)
      ensures matched ==> forall base :: SolvedBy(base) <==> old(SolvedBy(base)) && Instantiates(base, pattern, value)
      ensures !matched ==> forall base :: old(SolvedBy(base)) ==> !Instantiates(base, pattern, value)
      ensures matched && IsLinear(pattern) && IsGround(value) && IsFresh(old(arguments), pattern) ==>
        equalities == old(equalities) && Decides(old(arguments), arguments, pattern)
      decreases !NoSelf(pattern), pattern, 1
    {
      if pattern.Self? {
        SelfInstantiates(selfConstant, value);
        matched := StaticMatch(selfConstant, value);
        return;
      }
      if pattern.CopyOfParameter? {
        MatchParameter(pattern.index, value);
        return true;
      }
      if IsDeferred(pattern) || IsDeferred(value) || value.CopyOfParameter? {
        MatchLater(pattern, value);
        return true;
      }
      if !SameKind(pattern, value) {
        OtherKindIsNoInstance(pattern, value);
        return false;
      }
      match pattern {
        case Para(_, _) =>
          matched := CompareParameterize(pattern, value);
        case TemplateSignature(of) =>
          SignatureInstantiates(of, value.of);
          if of.Prog? {
            matched := ComparePrograms(of.program, value.of.program);
          } else {
            matched := CompareParameterize(of, value.of);
          }
        case FunctionSignature(of) =>
          SignatureInstantiates(of, value.of);
          if of.Prog? {
            matched := ComparePrograms(of.program, value.of.program);
          } else {
            matched := CompareParameterize(of, value.of);
          }
        case Prog(program) =>
          matched := ComparePrograms(program, value.program);
        case _ =>
          // Namespaces and literals fold to themselves.
          matched := pattern == value;
      }
    }
  }

  /** Patterns are made in the program whose parameters are matched. */
  predicate PatternOk(p: Constant, n: nat) {
    SignaturesOk(p) && ParametersBelow(p, n)
  }

  ghost predicate InstantiatesAll(base: FoldBase, patterns: seq<Constant>, values: seq<Constant>) {
    && |patterns| == |values| && BaseOk(base)
    && forall i :: 0 <= i < |patterns| ==> Instantiates(base, patterns[i], values[i])
  }

  lemma ParaInstantiates(p: Constant, a: Constant)
    requires p.Para? && a.Para?
    ensures forall base :: Instantiates(base, p, a) <==> p.base == a.base && InstantiatesAll(base, p.args, a.args)
  {
    forall base | BaseOk(base)
      ensures Instantiates(base, p, a) <==> p.base == a.base && InstantiatesAll(base, p.args, a.args)
    {
      ParaFolds(base, p.base, p.args);
      hide Fold;
      if InstantiatesAll(base, p.args, a.args) {
        assert forall i :: 0 <= i < |p.args| ==> Instantiates(base, p.args[i], a.args[i]);
        var folded := Fold(base, p).value.args;
        assert forall i :: 0 <= i < |p.args| ==> Some(folded[i]) == Some(a.args[i]);
        assert folded == a.args;
      }
    }
  }

  lemma SolversAreBases(selfConstant: Constant, arguments: seq<Option<Constant>>, equalities: set<Equality>)
    ensures forall base :: Solves(base, selfConstant, arguments, equalities) ==> BaseOk(base)
  {
  }

  lemma AllOfNone(ps: seq<Constant>, vs: seq<Constant>)
    ensures forall base :: BaseOk(base) ==> InstantiatesAll(base, ps[..0], vs[..0])
  {
  }

  lemma AllOfMore(ps: seq<Constant>, vs: seq<Constant>, i: nat)
    requires i < |ps| == |vs|
    ensures forall base :: InstantiatesAll(base, ps[..i + 1], vs[..i + 1]) <==>
                           InstantiatesAll(base, ps[..i], vs[..i]) && Instantiates(base, ps[i], vs[i])
  {
    var ps', vs' := ps[..i + 1], vs[..i + 1];
    forall base
      ensures InstantiatesAll(base, ps', vs') <==>
        InstantiatesAll(base, ps[..i], vs[..i]) && Instantiates(base, ps[i], vs[i])
    {
      if InstantiatesAll(base, ps', vs') {
        assert forall k :: 0 <= k < i ==> Instantiates(base, ps'[k], vs'[k]);
        assert Instantiates(base, ps'[i], vs'[i]);
      }
    }
  }

  /** The arguments of parameterizes that are matched can be matched. */
  lemma ArgumentsOk(selfConstant: Constant, p: Constant, a: Constant, n: nat)
    requires IsSelfConstant(selfConstant) && p.Para? && a.Para? && p.base == a.base
    requires PatternOk(p, n) && SignaturesOk(a) && SizesAgree(selfConstant, p, a)
    ensures |p.args| == |a.args|
    ensures forall i :: 0 <= i < |p.args| ==>
      && PatternOk(p.args[i], n) && SignaturesOk(a.args[i]) && SizesAgree(selfConstant, p.args[i], a.args[i])
      && p.args[i] < p && (NoSelf(p) ==> NoSelf(p.args[i]))
  {
  }

  lemma SelfInstantiates(selfConstant: Constant, value: Constant)
    ensures forall base: FoldBase :: base.selfConstant == selfConstant ==>
      (Instantiates(base, Self, value) <==> Instantiates(base, selfConstant, value))
  {
  }

  lemma SignatureInstantiates(p: Constant, v: Constant)
    requires (p.Prog? || p.Para?) && (v.Prog? || v.Para?) && SignaturesOk(p)
    ensures forall base :: Instantiates(base, TemplateSignature(p), TemplateSignature(v)) <==> Instantiates(base, p, v)
    ensures forall base :: Instantiates(base, FunctionSignature(p), FunctionSignature(v)) <==> Instantiates(base, p, v)
  {
    forall base | BaseOk(base)
      ensures Instantiates(base, TemplateSignature(p), TemplateSignature(v)) <==> Instantiates(base, p, v)
      ensures Instantiates(base, FunctionSignature(p), FunctionSignature(v)) <==> Instantiates(base, p, v)
    {
      FoldKeepsKind(base, p);
    }
  }

  /** Folding does not change the kind of a constant unless it replaces it. */
  lemma FoldKeepsKind(base: FoldBase, p: Constant)
    requires BaseOk(base) && SignaturesOk(p) && !p.Self? && !p.CopyOfParameter? && !IsDeferred(p)
    ensures Fold(base, p).Some? ==> SameKind(p, Fold(base, p).value)
  {
  }

  lemma OtherKindIsNoInstance(p: Constant, v: Constant)
    requires SignaturesOk(p) && !p.Self? && !p.CopyOfParameter? && !IsDeferred(p) && !SameKind(p, v)
    ensures forall base :: !Instantiates(base, p, v)
  {
    forall base | BaseOk(base)
      ensures !Instantiates(base, p, v)
    {
      FoldKeepsKind(base, p);
    }
  }

  lemma NoneDecided(arguments: seq<Option<Constant>>, ps: seq<Constant>)
    ensures DecidesAll(arguments, arguments, ps[..0])
  {
  }

  /** An argument of a linear pattern has the parameters for itself. */
  lemma LinearArgument(p: Constant, v: Constant, i: nat, old_: seq<Option<Constant>>, new_: seq<Option<Constant>>)
    requires p.Para? && v.Para? && i < |p.args| == |v.args| && IsLinear(p) && IsGround(v) && IsFresh(old_, p)
    requires DecidesAll(old_, new_, p.args[..i])
    ensures IsLinear(p.args[i]) && IsGround(v.args[i]) && IsFresh(new_, p.args[i])
  {
    forall x | 0 <= x < |new_| && Uses(p.args[i], x)
      ensures new_[x].None?
    {
      assert Uses(p, x);
      assert forall k :: 0 <= k < i ==> !Uses(p.args[..i][k], x);
    }
  }

  lemma DecidedMore(a: seq<Option<Constant>>, b: seq<Option<Constant>>, c: seq<Option<Constant>>, ps: seq<Constant>,
                    i: nat)
    requires i < |ps| && DecidesAll(a, b, ps[..i]) && Decides(b, c, ps[i])
    ensures DecidesAll(a, c, ps[..i + 1])
  {
    assert ps[..i + 1] == ps[..i] + [ps[i]];
    forall x | 0 <= x < |a|
      ensures c[x].Some? <==> a[x].Some? || SomeUses(ps[..i + 1], x)
    {
      if k :| 0 <= k < i && Uses(ps[..i][k], x) {
        assert Uses(ps[..i + 1][k], x);
      } else if Uses(ps[i], x) {
        assert Uses(ps[..i + 1][i], x);
      }
    }
  }

  lemma AllDecided(old_: seq<Option<Constant>>, new_: seq<Option<Constant>>, p: Constant)
    requires p.Para?
    ensures DecidesAll(old_, new_, p.args) ==> Decides(old_, new_, p)
  {
  }

  // Finding the implementation of an open program

  datatype ImplProgram = ImplProgram(handle: nat, selfConstant: Constant, parameterCount: nat)

  predicate ImplOk(impl: ImplProgram) {
    && IsSelfConstant(impl.selfConstant)
    && PatternOk(impl.selfConstant, impl.parameterCount)
  }

  function MakeParameterize(handle: nat, arguments: seq<Constant>): Constant {
    if arguments == [] then Prog(handle) else Para(handle, arguments)
  }

  function ImplBase(impl: ImplProgram, arguments: seq<Constant>): FoldBase {
    FoldBase(impl.selfConstant, MakeParameterize(impl.handle, arguments), arguments)
  }

  /** Reads a constant as the program of the implementation with its arguments. */
  function TryAsFoldBase(impl: ImplProgram, c: Constant): Option<FoldBase> {
    match c
    case Prog(program) =>
      if program == impl.handle && impl.parameterCount == 0 then Some(FoldBase(impl.selfConstant, c, [])) else None
    case Para(base, args) =>
      if base == impl.handle && |args| == impl.parameterCount then Some(FoldBase(impl.selfConstant, c, args)) else None
    case _ => None
  }

  /** Handle and arguments can be read off the constant that is made of them, and off no other one. */
  lemma ParameterizeRoundTrip(impl: ImplProgram, arguments: seq<Constant>)
    requires |arguments| == impl.parameterCount
    ensures var c := MakeParameterize(impl.handle, arguments);
            && TryAsFoldBase(impl, c).Some? && TryAsFoldBase(impl, c).value.arguments == arguments
            && forall n: nat, others :: MakeParameterize(n, others) == c ==> n == impl.handle && others == arguments
  {
  }

  /** The constant is an implementation of the value, with the only arguments it has for the value. */
  ghost predicate Answers(impl: ImplProgram, c: Constant, value: Constant) {
    && TryAsFoldBase(impl, c).Some?
    && var base := TryAsFoldBase(impl, c).value;
       && OnlyImplements(impl, base.arguments, value)
       && BaseOk(base) && Fold(base, base.selfConstant) == Some(value)
  }

  lemma ImplementationAnswers(impl: ImplProgram, arguments: seq<Constant>, value: Constant)
    requires OnlyImplements(impl, arguments, value)
    ensures Answers(impl, MakeParameterize(impl.handle, arguments), value)
  {
    ParameterizeRoundTrip(impl, arguments);
    assert Implements(impl, arguments, value);
  }

  /** With these arguments the implementation is one for the value. */
  ghost predicate Implements(impl: ImplProgram, arguments: seq<Constant>, value: Constant) {
    && |arguments| == impl.parameterCount
    && Instantiates(ImplBase(impl, arguments), impl.selfConstant, value)
  }

  /** The value has at most these arguments for the implementation, and they work. */
  ghost predicate OnlyImplements(impl: ImplProgram, arguments: seq<Constant>, value: Constant) {
    Implements(impl, arguments, value) && forall others :: Implements(impl, others, value) ==> others == arguments
  }

  /** Matching the implementation leaves nothing to check. */
  ghost predicate IsDecidable(impl: ImplProgram, value: Constant) {
    && IsLinear(impl.selfConstant) && IsGround(value)
    && forall x :: 0 <= x < impl.parameterCount ==> Uses(impl.selfConstant, x)
  }

  datatype ImplMatch = NoImpl | Impl(value: Constant) | Ambiguous

  /** The known arguments of a complete state. */
  function ArgumentsOf(arguments: seq<Option<Constant>>): (r: seq<Constant>)
    requires forall i :: 0 <= i < |arguments| ==> arguments[i].Some?
    ensures |r| == |arguments| && forall i :: 0 <= i < |r| ==> r[i] == arguments[i].value
  {
    seq(|arguments|, i requires 0 <= i < |arguments| => arguments[i].value)
  }

  /** Arguments of the implementation, if matching gives all of them and leaves nothing to check. */
  method MatchImpl(impl: ImplProgram, value: Constant) returns (r: Option<seq<Constant>>)
    requires ImplOk(impl) && SignaturesOk(value) && SizesAgree(impl.selfConstant, impl.selfConstant, value)
    ensures r.Some? ==> OnlyImplements(impl, r.value, value)
    ensures r.None? && IsDecidable(impl, value) ==> forall arguments :: !Implements(impl, arguments, value)
  {
    var state := new DeductionState(impl.selfConstant, impl.parameterCount);
    ghost var before := state.arguments;
    StartIsOpen(impl, before);
    var matched := state.StaticMatch(impl.selfConstant, value);
    hide Solves, Instantiates, IsLinear, Uses, OnlyImplements, ImplBase;
    if matched {
      MatchedImpl(impl, value, before, state.arguments, state.equalities);
    } else {
      UnmatchedImpl(impl, value, before);
    }
    if matched && state.IsComplete() && state.equalities == {} {
      r := Some(ArgumentsOf(state.arguments));
    } else {
      r := None;
    }
  }

  /** Nothing is known at the start of a match. */
  lemma StartIsOpen(impl: ImplProgram, arguments: seq<Option<Constant>>)
    requires IsSelfConstant(impl.selfConstant) && |arguments| == impl.parameterCount
    requires forall i :: 0 <= i < |arguments| ==> arguments[i].None?
    ensures IsFresh(arguments, impl.selfConstant)
    ensures forall given :: |given| == impl.parameterCount ==>
      Solves(ImplBase(impl, given), impl.selfConstant, arguments, {})
  {
  }

  /** What an exact match of an implementation says about its arguments. */
  lemma MatchedImpl(impl: ImplProgram, value: Constant, before: seq<Option<Constant>>, after: seq<Option<Constant>>,
                    equalities: set<Equality>)
    requires IsSelfConstant(impl.selfConstant) && |before| == |after| == impl.parameterCount
    requires forall given :: |given| == impl.parameterCount ==>
      Solves(ImplBase(impl, given), impl.selfConstant, before, {})
    requires forall base :: Solves(base, impl.selfConstant, after, equalities) <==>
      Solves(base, impl.selfConstant, before, {}) && Instantiates(base, impl.selfConstant, value)
    ensures (forall i :: 0 <= i < |after| ==> after[i].Some?) && equalities == {} ==>
      OnlyImplements(impl, ArgumentsOf(after), value)
  {
    if (forall i :: 0 <= i < |after| ==> after[i].Some?) && equalities == {} {
      var r := ArgumentsOf(after);
      assert Solves(ImplBase(impl, r), impl.selfConstant, after, equalities);
      forall others | Implements(impl, others, value)
        ensures others == r
      {
        assert Solves(ImplBase(impl, others), impl.selfConstant, after, equalities);
      }
    }
  }

  lemma UnmatchedImpl(impl: ImplProgram, value: Constant, before: seq<Option<Constant>>)
    requires |before| == impl.parameterCount
    requires forall given :: |given| == impl.parameterCount ==>
      Solves(ImplBase(impl, given), impl.selfConstant, before, {})
    requires forall base :: Solves(base, impl.selfConstant, before, {}) ==>
      !Instantiates(base, impl.selfConstant, value)
    ensures forall arguments :: !Implements(impl, arguments, value)
  {
    hide Solves, Instantiates;
    forall arguments | |arguments| == impl.parameterCount
      ensures !Implements(impl, arguments, value)
    {
      assert Solves(ImplBase(impl, arguments), impl.selfConstant, before, {});
    }
  }

  /** Of the first `n` implementations, none that can be decided implements the value, leaving one out. */
  ghost predicate NoneImplements(impls: seq<ImplProgram>, value: Constant, n: nat, found: int) {
    n <= |impls| && forall i, arguments :: 0 <= i < n && i != found && IsDecidable(impls[i], value) ==>
      !Implements(impls[i], arguments, value)
  }

  /** The implementation of an open program for a value; two of them at once are an error. */
  method FindImplForOpenProgram(impls: seq<ImplProgram>, value: Constant) returns (r: ImplMatch)
    requires SignaturesOk(value)
    requires forall i :: 0 <= i < |impls| ==>
      ImplOk(impls[i]) && SizesAgree(impls[i].selfConstant, impls[i].selfConstant, value)
    ensures r.Impl? ==> exists i ::
      0 <= i < |impls| && Answers(impls[i], r.value, value) && NoneImplements(impls, value, |impls|, i)
    ensures r.NoImpl? ==> NoneImplements(impls, value, |impls|, -1)
    ensures r.Ambiguous? ==> exists i, j, x, y ::
      0 <= i < j < |impls| && OnlyImplements(impls[i], x, value) && OnlyImplements(impls[j], y, value)
  {
    hide OnlyImplements, Implements, IsDecidable, SizesAgree, ImplOk, SignaturesOk, Answers;
    r := NoImpl;
    ghost var found: nat, foundArguments := 0, [];
    for i := 0 to |impls|
      invariant r.NoImpl? || r.Impl?
      invariant r.Impl? ==> found < i && Answers(impls[found], r.value, value)
                            && OnlyImplements(impls[found], foundArguments, value)
                            && NoneImplements(impls, value, i, found)
      invariant r.NoImpl? ==> NoneImplements(impls, value, i, -1)
    {
      var arguments := MatchImpl(impls[i], value);
      if arguments.Some? {
        if r.Impl? {
          assert OnlyImplements(impls[i], arguments.value, value);
          return Ambiguous;
        }
        r := Impl(MakeParameterize(impls[i].handle, arguments.value));
        ImplementationAnswers(impls[i], arguments.value, value);
        found, foundArguments := i, arguments.value;
      }
    }
  }
}
