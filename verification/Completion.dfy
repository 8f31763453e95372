/**
 Why the search always finds a recovery: a state with no other one ahead of it is never pruned, skipping
 gets past every token, and at the end of the source every tried insertion is followed.
 */
module Completion {
  import opened Options
  import opened TokenMachine
  import opened SearchGraph
  import opened Frontier
  import opened RecoverySearch

  /** The source can end after inserting `tokens`, each of which is tried where it is inserted. */
  predicate Completes(m: Machine, core: Core, tokens: seq<LexerToken>)
    decreases |tokens|
  {
    if tokens == [] then m.end(core).Next?
    else
      && tokens[0] in m.inserts(core.state)
      && m.step(core, tokens[0]).Next?
      && Completes(m, m.step(core, tokens[0]).core, tokens[1..])
  }

  /** Every state of the parser can be completed by insertions. */
  ghost predicate Completable(m: Machine, cores: set<Core>) {
    forall c :: c in cores ==> exists tokens :: Completes(m, c, tokens)
  }

  /** A finished search: every interned state was expanded and is settled. */
  ghost predicate Finished(m: Machine, cores: set<Core>, view: SearchView, inserted: set<ErrorInfo>) {
    && TableOk(m, cores, view.table, view.ids)
    && InsertedOk(view.table, inserted)
    && AllSettled(m, view, inserted, {})
    && forall h :: 0 <= h < |view.table| ==> view.table[h].expanded
  }

  ghost predicate Furthest(view: SearchView, h: nat) {
    h < |view.table| && forall k :: 0 <= k < |view.table| ==> view.table[k].key.pos <= view.table[h].key.pos
  }

  lemma {:induction false} SomeFurthest(view: SearchView, n: nat) returns (h: nat)
    requires 0 < n <= |view.table|
    ensures h < n && forall k :: 0 <= k < n ==> view.table[k].key.pos <= view.table[h].key.pos
  {
    if n == 1 {
      h := 0;
    } else {
      h := SomeFurthest(view, n - 1);
      if view.table[n - 1].key.pos > view.table[h].key.pos {
        h := n - 1;
      }
    }
  }

  /** All edits of a state that is as far as any other were tried. */
  lemma FurthestIsDone(m: Machine, cores: set<Core>, view: SearchView, inserted: set<ErrorInfo>, h: nat)
    requires Finished(m, cores, view, inserted) && Furthest(view, h)
    ensures StateDone(m, view, h)
  {
    hide StateDone, KeyOk;
    assert Settled(m, view, inserted, h);
    forall y, condition | y in inserted && condition in ConditionsFor(|view.table|)
      ensures y.totalAdvancedTokens < view.table[h].sourceTokenIndex + condition.tokenLookAhead
    {
      assert y == InfoOf(view.table, y.state);
    }
  }

  /**
   If not all edits of a state were tried, another state is ahead of it and hardly more expensive, as one of the prune
   conditions says, which is not the strict one unless more states are known than the limit.
   */
  lemma LeftOutIsSuperseded(m: Machine, cores: set<Core>, view: SearchView, inserted: set<ErrorInfo>, h: nat)
    returns (better: nat, condition: PruneCondition)
    requires Finished(m, cores, view, inserted) && h < |view.table| && !StateDone(m, view, h)
    ensures condition in PRUNE_CONDITIONS || (|view.table| > MAX_STATES && condition == STRICT_PRUNE_CONDITION)
    ensures better < |view.table|
    ensures view.table[better].key.pos >= view.table[h].key.pos + condition.tokenLookAhead
    ensures view.table[better].modificationCost + condition.costTolerance <= view.table[h].modificationCost
  {
    hide StateDone, KeyOk;
    assert Settled(m, view, inserted, h);
    var state := view.table[h];
    condition :| condition in ConditionsFor(|view.table|)
                 && Superseded(inserted, state.sourceTokenIndex, state.modificationCost, condition);
    var y :| y in inserted && y.totalAdvancedTokens >= state.sourceTokenIndex + condition.tokenLookAhead
             && y.modificationCost + condition.costTolerance <= state.modificationCost;
    better := y.state;
    assert y == InfoOf(view.table, better);
  }

  /** Some state the edit leads to is interned. */
  lemma TargetIsKnown(m: Machine, cores: set<Core>, view: SearchView, inserted: set<ErrorInfo>, h: nat, e: Element,
                      t: Key) returns (k: nat)
    requires Finished(m, cores, view, inserted) && h < |view.table| && StateDone(m, view, h)
    requires view.table[h].key.status == Ready && m.InSource(view.table[h].key) && e in m.Cases(view.table[h].key)
    requires t in m.Targets(view.table[h].key, e)
    ensures k < |view.table| && view.table[k].key == t
  {
    hide Machine.Targets, Machine.Cases, KeyOk, AllSettled, InsertedOk;
    assert CaseDone(m, view, h, view.table[h].key, e);
    assert Recorded(view, h, e, t);
    k := view.ids[t];
  }

  /** Skipping leads further into the source. */
  lemma SkipLeadsOn(m: Machine, k: Key) returns (t: Key)
    requires k.status == Ready && k.pos < |m.source|
    ensures Skip in m.Cases(k) && t in m.Targets(k, Skip) && t.pos > k.pos
  {
    hide Machine.Run, Machine.RunAll;
    assert m.Cases(k)[0] == Skip;
    m.TargetsShape(k, Skip);
    t := m.Targets(k, Skip)[0];
  }

  /** At the end of the source an insertion leads to the end or to the state behind it. */
  lemma InsertLeadsOn(m: Machine, k: Key, token: LexerToken)
    requires k.status == Ready && k.pos == |m.source|
    requires token in m.inserts(k.core.state) && m.step(k.core, token).Next?
    ensures Insert(token) in m.Cases(k)
    ensures var c := m.step(k.core, token).core;
            m.Targets(k, Insert(token))
            == [if m.end(c).Next? then Key(k.pos + 1, m.end(c).core, EOS) else Key(k.pos, c, Ready)]
  {
    var tokens := m.inserts(k.core.state);
    var i :| 0 <= i < |tokens| && tokens[i] == token;
    assert m.Cases(k)[i] == Insert(tokens[i]);
    var edited := m.Apply(k, Insert(token));
    assert m.RunAll(edited) == m.Step(edited);
  }

  /** The furthest state is at the end of the source. */
  lemma FurthestIsAtEnd(m: Machine, cores: set<Core>, view: SearchView, inserted: set<ErrorInfo>, h: nat)
    requires Finished(m, cores, view, inserted) && Furthest(view, h)
    ensures view.table[h].key.pos >= |m.source|
  {
    hide AllSettled, InsertedOk, StateDone, Machine.Targets, Machine.Cases, Machine.Run;
    assert KeyOk(m, cores, view.table[h].key);
    if view.table[h].key.pos < |m.source| {
      FurthestIsDone(m, cores, view, inserted, h);
      var t := SkipLeadsOn(m, view.table[h].key);
      var k := TargetIsKnown(m, cores, view, inserted, h, Skip, t);
    }
  }

  /** From a completable state at the end of the source, the search reaches the end. */
  lemma {:induction false} CompletionIsFound(m: Machine, cores: set<Core>, view: SearchView, inserted: set<ErrorInfo>,
                                             h: nat, tokens: seq<LexerToken>) returns (eos: nat)
    requires Finished(m, cores, view, inserted) && Furthest(view, h)
    requires view.table[h].key.pos >= |m.source|
    requires view.table[h].key.status == Ready ==> Completes(m, view.table[h].key.core, tokens)
    ensures eos < |view.table| && view.table[eos].key.status == EOS
    decreases |tokens|
  {
    hide AllSettled, InsertedOk, StateDone, Machine.Targets, Machine.Cases, Machine.Run;
    var key := view.table[h].key;
    assert KeyOk(m, cores, key);
    if key.status == EOS {
      return h;
    }
    ReadyAtEndNeedsMore(m, key);
    FurthestIsDone(m, cores, view, inserted, h);
    InsertLeadsOn(m, key, tokens[0]);
    var t := m.Targets(key, Insert(tokens[0]))[0];
    var k := TargetIsKnown(m, cores, view, inserted, h, Insert(tokens[0]), t);
    if t.status == EOS {
      return k;
    }
    eos := CompletionIsFound(m, cores, view, inserted, k, tokens[1..]);
  }

  /** An interned state in front of the end of the source cannot end there. */
  lemma ReadyAtEndNeedsMore(m: Machine, k: Key)
    requires m.InSource(k) && k.status == Ready && k.pos == |m.source| && m.FailsSoon(k)
    ensures !m.end(k.core).Next?
  {
    assert m.Run(k, 2) == m.Run(m.Step(k), 1);
  }

  /** If every parser state can be completed, every finished search that was started holds a state at the end. */
  lemma SearchReachesEnd(m: Machine, cores: set<Core>, view: SearchView, inserted: set<ErrorInfo>) returns (eos: nat)
    requires Finished(m, cores, view, inserted) && view.table != [] && Completable(m, cores)
    ensures eos < |view.table| && view.table[eos].key.status == EOS
  {
    hide AllSettled, InsertedOk, Completes;
    var h := SomeFurthest(view, |view.table|);
    FurthestIsAtEnd(m, cores, view, inserted, h);
    assert KeyOk(m, cores, view.table[h].key);
    var tokens :| Completes(m, view.table[h].key.core, tokens);
    eos := CompletionIsFound(m, cores, view, inserted, h, tokens);
  }
}
