/**
 The tokens that are tried as insertions: those of all parser states that can be reached without consuming a token.
 */
module InsertCases {
  import opened Sequences
  import opened TokenMachine

  type State = nat
  type Token = LexerToken

  /** Where parsing may continue without consuming a token, and the tokens that are tried in a single state. */
  datatype Grammar = Grammar(states: set<State>, thenStates: State -> seq<State>, tokensOf: State -> seq<Token>) {
    ghost predicate Closed() {
      forall s, t :: s in states && t in thenStates(s) ==> t in states
    }
  }

  /** `path` leads from `from` to `to` over then-states. */
  ghost predicate IsThenPath(g: Grammar, from: State, path: seq<State>, to: State)
    decreases |path|
  {
    if path == [] then from == to
    else path[0] in g.thenStates(from) && IsThenPath(g, path[0], path[1..], to)
  }

  ghost predicate Reachable(g: Grammar, from: State, to: State) {
    exists path :: IsThenPath(g, from, path, to)
  }

  lemma {:induction false} PathExtended(g: Grammar, from: State, path: seq<State>, via: State, to: State)
    requires IsThenPath(g, from, path, via) && to in g.thenStates(via)
    ensures IsThenPath(g, from, path + [to], to)
    decreases |path|
  {
    if path == [] {
      assert [to][1..] == [] && path + [to] == [to];
    } else {
      PathExtended(g, path[0], path[1..], via, to);
      assert (path + [to])[1..] == path[1..] + [to];
    }
  }

  lemma ReachableNext(g: Grammar, from: State, via: State, to: State)
    requires Reachable(g, from, via) && to in g.thenStates(via)
    ensures Reachable(g, from, to)
  {
    var path :| IsThenPath(g, from, path, via);
    PathExtended(g, from, path, via, to);
  }

  ghost predicate IsClosed(g: Grammar, states: set<State>) {
    forall s, t :: s in states && t in g.thenStates(s) ==> t in states
  }

  lemma {:induction false} ClosedHoldsPath(g: Grammar, states: set<State>, from: State, path: seq<State>, to: State)
    requires IsClosed(g, states) && from in states && IsThenPath(g, from, path, to)
    ensures to in states
    decreases |path|
  {
    if path != [] {
      ClosedHoldsPath(g, states, path[0], path[1..], to);
    }
  }

  /** The states that were expanded, whose continuations are known. */
  ghost predicate IsExpanded(g: Grammar, s: State, considered: set<State>, tokens: seq<Token>) {
    && (forall t :: t in g.thenStates(s) ==> t in considered)
    && (forall t :: t in g.tokensOf(s) ==> t in tokens)
  }

  /** The invariant of the search: what is found is reachable, and what is not waiting was expanded. */
  ghost predicate SearchOk(g: Grammar, start: State, considered: set<State>, waiting: seq<State>, tokens: seq<Token>) {
    && start in considered && Distinct(waiting) && Distinct(tokens)
    && (forall s :: s in waiting ==> s in considered)
    && (forall s :: s in considered ==> Reachable(g, start, s))
    && (forall s :: s in considered && s !in waiting ==> IsExpanded(g, s, considered, tokens))
    && (forall t :: t in tokens ==> exists s :: s in considered && t in g.tokensOf(s))
  }

  // Gathering

  /** The tokens, and those of `more` that are not among them. */
  ghost function WithTokens(tokens: seq<Token>, more: seq<Token>): (r: seq<Token>)
    ensures forall t :: t in r <==> t in tokens || t in more
  {
    if more == [] then tokens
    else
      var n := |more| - 1;
      var r := WithTokens(tokens, more[..n]);
      assert more == more[..n] + [more[n]];
      if more[n] in r then r else r + [more[n]]
  }

  lemma {:induction false} WithTokensAreDistinct(tokens: seq<Token>, more: seq<Token>)
    requires Distinct(tokens)
    ensures Distinct(WithTokens(tokens, more))
  {
    if more != [] {
      WithTokensAreDistinct(tokens, more[..|more| - 1]);
    }
  }

  /** Those of `next` that were not considered before, each of them once. */
  ghost function NewStates(next: seq<State>, considered: set<State>): (r: seq<State>)
    ensures forall s :: s in r <==> s in next && s !in considered
  {
    if next == [] then []
    else
      var n := |next| - 1;
      var r := NewStates(next[..n], considered);
      assert next == next[..n] + [next[n]];
      if next[n] in considered || next[n] in r then r else r + [next[n]]
  }

  lemma {:induction false} NewStatesAreDistinct(next: seq<State>, considered: set<State>)
    ensures Distinct(NewStates(next, considered))
  {
    if next != [] {
      NewStatesAreDistinct(next[..|next| - 1], considered);
    }
  }

  ghost function AsSet(s: seq<State>): set<State> {
    set x | x in s
  }

  /** Either nothing is added, or something new. */
  lemma Progress(considered: set<State>, next: seq<State>)
    requires forall s :: s in next ==> s !in considered
    ensures if next == [] then considered + AsSet(next) == considered else considered < considered + AsSet(next)
  {
    assert next != [] ==> next[0] in AsSet(next);
  }

  /** Takes the last of the waiting states, until none is left. */
  ghost function Gathered(g: Grammar, considered: set<State>, waiting: seq<State>, tokens: seq<Token>): seq<Token>
    requires g.Closed() && considered <= g.states && forall s :: s in waiting ==> s in considered
    decreases g.states - considered, |waiting|
  {
    if waiting == [] then tokens
    else
      var n := |waiting| - 1;
      var next := NewStates(g.thenStates(waiting[n]), considered);
      assert waiting[n] in considered;
      Progress(considered, next);
      Gathered(g, considered + AsSet(next), waiting[..n] + next, WithTokens(tokens, g.tokensOf(waiting[n])))
  }

  /** The tokens that are tried in a state. */
  ghost function Inserts(g: Grammar, start: State): seq<Token>
    requires g.Closed() && start in g.states
  {
    Gathered(g, {start}, [start], [])
  }

  lemma {:induction false} GatheredIsExact(g: Grammar, start: State, considered: set<State>, waiting: seq<State>,
                                           tokens: seq<Token>)
    requires g.Closed() && considered <= g.states && SearchOk(g, start, considered, waiting, tokens)
    ensures var r := Gathered(g, considered, waiting, tokens);
            Distinct(r) && forall t :: t in r <==> exists s :: Reachable(g, start, s) && t in g.tokensOf(s)
    decreases g.states - considered, |waiting|
  {
    hide Reachable, IsExpanded;
    if waiting == [] {
      SearchEnd(g, start, considered, tokens);
    } else {
      var n := |waiting| - 1;
      var next := NewStates(g.thenStates(waiting[n]), considered);
      var considered', waiting' := considered + AsSet(next), waiting[..n] + next;
      var tokens' := WithTokens(tokens, g.tokensOf(waiting[n]));
      NewStatesAreDistinct(g.thenStates(waiting[n]), considered);
      WithTokensAreDistinct(tokens, g.tokensOf(waiting[n]));
      DistinctConcat(waiting[..n], next);
      SearchStep(g, start, considered, waiting, tokens, considered', waiting', tokens');
      Progress(considered, next);
      GatheredIsExact(g, start, considered', waiting', tokens');
    }
  }

  /** The tokens that are tried are those of all states that can be reached, each of them once. */
  lemma InsertsAreExact(g: Grammar, start: State)
    requires g.Closed() && start in g.states
    ensures Distinct(Inserts(g, start))
    ensures forall t :: t in Inserts(g, start) <==> exists s :: Reachable(g, start, s) && t in g.tokensOf(s)
  {
    SearchStart(g, start);
    GatheredIsExact(g, start, {start}, [start], []);
  }

  /** Adds tokens that were not added before. */
  method AddInserts(tokens: seq<Token>, more: seq<Token>) returns (tokens': seq<Token>)
    ensures tokens' == WithTokens(tokens, more)
  {
    tokens' := tokens;
    for i := 0 to |more|
      invariant tokens' == WithTokens(tokens, more[..i])
    {
      assert more[..i + 1][..i] == more[..i];
      if more[i] !in tokens' {
        tokens' := tokens' + [more[i]];
      }
    }
    assert more[..|more|] == more;
  }

  /** Notes the then-states of a state that were not considered before. */
  method AddStates(next: seq<State>, considered: set<State>, waiting: seq<State>)
    returns (considered': set<State>, waiting': seq<State>)
    ensures considered' == considered + AsSet(NewStates(next, considered))
    ensures waiting' == waiting + NewStates(next, considered)
  {
    considered', waiting' := considered, waiting;
    for i := 0 to |next|
      invariant considered' == considered + AsSet(NewStates(next[..i], considered))
      invariant waiting' == waiting + NewStates(next[..i], considered)
    {
      assert next[..i + 1][..i] == next[..i];
      if next[i] !in considered' {
        considered' := considered' + {next[i]};
        waiting' := waiting' + [next[i]];
      }
    }
    assert next[..|next|] == next;
  }

  /** The tokens that are tried in a state. */
  method PossibleInserts(g: Grammar, start: State) returns (tokens: seq<Token>)
    requires g.Closed() && start in g.states
    ensures tokens == Inserts(g, start) && Distinct(tokens)
    ensures forall t :: t in tokens <==> exists s :: Reachable(g, start, s) && t in g.tokensOf(s)
  {
    hide Reachable;
    var considered, waiting := {start}, [start];
    tokens := [];
    while waiting != []
      invariant considered <= g.states && forall s :: s in waiting ==> s in considered
      invariant Gathered(g, considered, waiting, tokens) == Inserts(g, start)
      decreases g.states - considered, |waiting|
    {
      var n := |waiting| - 1;
      var state := waiting[n];
      ghost var next := NewStates(g.thenStates(state), considered);
      assert state in considered;
      Progress(considered, next);
      considered, waiting := AddStates(g.thenStates(state), considered, waiting[..n]);
      tokens := AddInserts(tokens, g.tokensOf(state));
    }
    InsertsAreExact(g, start);
  }

  // The edits of the machine

  /** The machine tries the tokens that are gathered from the grammar. */
  ghost predicate InsertsByGrammar(m: Machine, g: Grammar) {
    g.Closed() && forall s :: s in g.states ==> m.inserts(s) == Inserts(g, s)
  }

  /** The edits of a state are a skip, unless the source is at its end, and the tokens of all reachable states. */
  lemma CasesAreExact(m: Machine, g: Grammar, k: Key)
    requires InsertsByGrammar(m, g) && k.core.state in g.states
    ensures Distinct(m.Cases(k))
    ensures Skip in m.Cases(k) ==> m.Cases(k)[0] == Skip
    ensures Skip in m.Cases(k) <==> k.status != EOS && k.pos < |m.source|
    ensures forall t :: Insert(t) in m.Cases(k) <==>
      k.status != EOS && exists s :: Reachable(g, k.core.state, s) && t in g.tokensOf(s)
  {
    hide Reachable, Inserts;
    InsertsAreExact(g, k.core.state);
    if k.status != EOS {
      var tokens, cases := m.inserts(k.core.state), m.Cases(k);
      var skips := if k.pos < |m.source| then 1 else 0;
      forall t
        ensures Insert(t) in cases <==> t in tokens
      {
        if t in tokens {
          var i :| 0 <= i < |tokens| && tokens[i] == t;
          assert cases[skips + i] == Insert(t);
        }
      }
    }
  }

  /** The edits that are tried in a state: a skip first, then the insertions. */
  method GenerateCases(m: Machine, g: Grammar, k: Key) returns (cases: seq<Element>)
    requires InsertsByGrammar(m, g) && k.core.state in g.states
    ensures cases == m.Cases(k)
  {
    hide Reachable, Inserts;
    if k.status == EOS {
      return [];
    }
    cases := if k.pos < |m.source| then [Skip] else [];
    var tokens := PossibleInserts(g, k.core.state);
    for i := 0 to |tokens|
      invariant cases == (if k.pos < |m.source| then [Skip] else [])
                         + seq(i, j requires 0 <= j < i => Insert(tokens[j]))
    {
      cases := cases + [Insert(tokens[i])];
    }
  }

  lemma SearchStart(g: Grammar, start: State)
    ensures SearchOk(g, start, {start}, [start], [])
  {
    assert IsThenPath(g, start, [], start);
  }

  /** Expanding the last waiting state. */
  lemma SearchStep(g: Grammar, start: State, considered: set<State>, waiting: seq<State>, tokens: seq<Token>,
                   considered': set<State>, waiting': seq<State>, tokens': seq<Token>)
    requires SearchOk(g, start, considered, waiting, tokens) && waiting != []
    requires Distinct(waiting') && Distinct(tokens')
    requires var rest, state := waiting[..|waiting| - 1], waiting[|waiting| - 1];
             && (forall s :: s in considered' <==> s in considered || s in g.thenStates(state))
             && (forall s :: s in waiting' <==> s in rest || (s in g.thenStates(state) && s !in considered))
             && (forall t :: t in tokens' <==> t in tokens || t in g.tokensOf(state))
    ensures SearchOk(g, start, considered', waiting', tokens')
  {
    hide Reachable;
    var rest, state := waiting[..|waiting| - 1], waiting[|waiting| - 1];
    assert waiting == rest + [state];
    forall s | s in considered'
      ensures Reachable(g, start, s)
    {
      if s !in considered {
        ReachableNext(g, start, state, s);
      }
    }
    forall s | s in considered' && s !in waiting'
      ensures IsExpanded(g, s, considered', tokens')
    {
      if s != state {
        assert s in considered && s !in waiting && IsExpanded(g, s, considered, tokens);
      }
    }
  }

  lemma SearchEnd(g: Grammar, start: State, considered: set<State>, tokens: seq<Token>)
    requires SearchOk(g, start, considered, [], tokens)
    ensures Distinct(tokens)
    ensures forall t :: t in tokens <==> exists s :: Reachable(g, start, s) && t in g.tokensOf(s)
  {
    forall s, t | s in considered && t in g.thenStates(s)
      ensures t in considered
    {
      assert IsExpanded(g, s, considered, tokens);
    }
    forall s, t | Reachable(g, start, s) && t in g.tokensOf(s)
      ensures t in tokens
    {
      var path :| IsThenPath(g, start, path, s);
      ClosedHoldsPath(g, considered, start, path, s);
      assert IsExpanded(g, s, considered, tokens);
    }
  }
}
