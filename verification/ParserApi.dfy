/**
 Parsing with recovery: search the recoveries of a source that does not parse, pick one of them and replay it.
 */
module ParserApi {
  import opened Options
  import opened TokenMachine
  import opened SearchGraph
  import opened RecoverySearch
  import opened RecoveryPaths
  import opened Completion
  import opened Recovery
  import opened Replay

  datatype RecoveredError = RecoveredError(errorState: SavedState, preRecoveryState: SavedState,
                                           recovery: RecoveryInstructions)

  /** Skips tokens first and then inserts others, until an edit fails. */
  method ApplyExpand(parser: SimpleParser, instructions: RecoveryInstructions) returns (status: Status)
    requires ReadyIn(parser.machine, parser.state)
    modifies parser
    ensures parser.Valid()
    ensures parser.state == Expanded(parser.machine, old(parser.state), instructions)
    ensures status == parser.state.key.status
  {
    hide AfterApply;
    var m := parser.machine;
    ghost var s := parser.state;
    for i := 0 to instructions.skipTokens
      invariant parser.Valid() && parser.state == SkipTokens(m, s, i) && parser.state.key.status == Ready
    {
      parser.Apply(Skip);
      if parser.state.key.status != Ready {
        FailedSkipStays(m, s, i + 1, instructions.skipTokens);
        FailedInsertStays(m, parser.state, instructions.insertTokens);
        return parser.state.key.status;
      }
    }
    ghost var skipped := parser.state;
    var tokens := instructions.insertTokens;
    for i := 0 to |tokens|
      invariant parser.Valid() && parser.state == InsertTokens(m, skipped, tokens[..i])
      invariant parser.state.key.status == Ready
    {
      assert tokens[..i + 1][..i] == tokens[..i];
      parser.Apply(Insert(tokens[i]));
      if parser.state.key.status != Ready {
        FailedInsertsStay(m, skipped, tokens, i + 1);
        return parser.state.key.status;
      }
    }
    assert tokens[..|tokens|] == tokens;
    return Ready;
  }

  lemma {:induction false} FailedSkipStays(m: Machine, s: SavedState, i: nat, n: nat)
    requires ReadyIn(m, s) && i <= n && SkipTokens(m, s, i).key.status != Ready
    ensures SkipTokens(m, s, n) == SkipTokens(m, s, i)
    decreases n
  {
    if i < n {
      FailedSkipStays(m, s, i, n - 1);
    }
  }

  lemma {:induction false} FailedInsertStays(m: Machine, s: SavedState, tokens: seq<LexerToken>)
    requires m.InSource(s.key) && s.key.status != Ready
    ensures InsertTokens(m, s, tokens) == s
  {
    if tokens != [] {
      FailedInsertStays(m, s, tokens[..|tokens| - 1]);
    }
  }

  lemma {:induction false} FailedInsertsStay(m: Machine, s: SavedState, tokens: seq<LexerToken>, i: nat)
    requires m.InSource(s.key) && i <= |tokens| && InsertTokens(m, s, tokens[..i]).key.status != Ready
    ensures InsertTokens(m, s, tokens) == InsertTokens(m, s, tokens[..i])
    decreases |tokens|
  {
    if i == |tokens| {
      assert tokens[..i] == tokens;
    } else {
      var shorter := tokens[..|tokens| - 1];
      assert shorter[..i] == tokens[..i];
      FailedInsertsStay(m, s, shorter, i);
    }
  }

  /** The error that follows shortly after the state in front of a recovery. */
  method RecoveryToErrorState(m: Machine, preRecoveryState: SavedState) returns (errorState: SavedState)
    requires FailingState(m, preRecoveryState)
    ensures errorState.key == m.Run(preRecoveryState.key, 2) && IsError(errorState.key.status)
  {
    var parser := new SimpleParser(m);
    parser.Restore(preRecoveryState);
    parser.Parse(2);
    assert IsError(parser.state.key.status);
    return parser.state;
  }

  /** A ready state that is at most one valid token in front of an error. */
  predicate FailingState(m: Machine, s: SavedState) {
    ReadyIn(m, s) && m.FailsSoon(s.key)
  }

  /** Every group starts in the state in front of one of its edits. */
  lemma {:induction false} GroupsStartAtElements(elements: seq<ReturnElement>, g: RecoveryGroup)
    requires g in Groups(elements)
    ensures exists e :: e in elements && e.preRecoveryState == g.preFirstRecoveryState
  {
    hide LastGroupStart;
    var n := |elements| - 1;
    var before := Groups(elements[..n]);
    if g == NewGroup(elements[n]) || g in before {
      if g in before {
        GroupsStartAtElements(elements[..n], g);
        var e :| e in elements[..n] && e.preRecoveryState == g.preFirstRecoveryState;
        assert e in elements;
      } else {
        assert elements[n] in elements;
      }
    } else {
      var last := before[|before| - 1];
      assert last in before;
      GroupsStartAtElements(elements[..n], last);
      var e :| e in elements[..n] && e.preRecoveryState == last.preFirstRecoveryState;
      assert e in elements;
    }
  }

  /** The states in front of all groups of a recovery are interned, ready states, which fail soon. */
  lemma GroupStatesFail(m: Machine, cores: set<Core>, o: Outcome, path: seq<nat>, elements: seq<ReturnElement>)
    requires SearchDone(m, cores, o) && IsRecoveryFor(m, o, path, elements)
    ensures forall g :: g in Groups(elements) ==> FailingState(m, g.preFirstRecoveryState)
  {
    hide Finished, KeptOk, WaysOk, Groups, Counted;
    forall g | g in Groups(elements)
      ensures FailingState(m, g.preFirstRecoveryState)
    {
      GroupsStartAtElements(elements, g);
      var e :| e in elements && e.preRecoveryState == g.preFirstRecoveryState;
      var i :| 0 <= i < |elements| && elements[i] == e;
      assert IsElementFor(o.view.table, o.edges, path[i], elements[i]);
      assert KeyOk(m, cores, e.preRecoveryState.key);
      ElementsAreReady(m, elements, i);
    }
  }

  lemma {:induction false} ElementsAreReady(m: Machine, elements: seq<ReturnElement>, i: nat)
    requires ReplayElements(m, elements).Some? && i < |elements|
    ensures elements[i].preRecoveryState.key.status == Ready
    decreases |elements|
  {
    hide Machine.Run, AfterApply;
    if i < |elements| - 1 {
      ElementsAreReady(m, elements[..|elements| - 1], i);
    }
  }

  /** The errors name the states and the edits of the groups. */
  ghost predicate ErrorsOf(m: Machine, errors: seq<RecoveredError>, groups: seq<RecoveryGroup>) {
    && |errors| == |groups|
    && forall i :: 0 <= i < |errors| ==>
         && errors[i].preRecoveryState == groups[i].preFirstRecoveryState
         && errors[i].recovery == groups[i].recovery
         && m.InSource(errors[i].preRecoveryState.key)
         && errors[i].errorState.key == m.Run(errors[i].preRecoveryState.key, 2)
         && IsError(errors[i].errorState.key.status)
  }

  /** Replaying the groups and parsing on reaches the end of the source. */
  ghost predicate GroupsReachEnd(m: Machine, groups: seq<RecoveryGroup>) {
    && ReplayGroups(m, groups).Some?
    && m.RunAll(ReplayGroups(m, groups).value.key).status == EOS
  }

  /** Index of the first path with the fewest groups. */
  method FewestGroups(paths: seq<seq<RecoveryGroup>>) returns (best: nat)
    requires paths != []
    ensures best < |paths|
    ensures forall i :: 0 <= i < |paths| ==> |paths[best]| <= |paths[i]|
    ensures forall i :: 0 <= i < best ==> |paths[best]| < |paths[i]|
  {
    best := 0;
    for i := 1 to |paths|
      invariant best < i
      invariant forall j :: 0 <= j < i ==> |paths[best]| <= |paths[j]|
      invariant forall j :: 0 <= j < best ==> |paths[best]| < |paths[j]|
    {
      if |paths[i]| < |paths[best]| {
        best := i;
      }
    }
  }

  /** The groups are those of a reported recovery, and no reported recovery has fewer. */
  ghost predicate FewestReported(m: Machine, cores: set<Core>, o: Outcome, reported: seq<seq<ReturnElement>>,
                                 groups: seq<RecoveryGroup>) {
    && SearchDone(m, cores, o) && |reported| == |Reported(o)|
    && (forall i :: 0 <= i < |reported| ==>
          IsRecoveryFor(m, o, Reported(o)[i], reported[i]) && |groups| <= |Groups(reported[i])|)
    && exists i :: 0 <= i < |reported| && groups == Groups(reported[i])
  }

  /** The recovery with the fewest groups, or nothing if the search reported none. */
  method RecoverAndAnalyze(m: Machine, ghost cores: set<Core>, rootErrorState: SavedState)
    returns (errors: Option<seq<RecoveredError>>, ghost groups: seq<RecoveryGroup>, ghost o: Outcome,
             ghost reported: seq<seq<ReturnElement>>)
    requires m.Closed(cores)
    requires rootErrorState.key == m.RunAll(Key(0, m.start, Ready)) && IsError(rootErrorState.key.status)
    requires rootErrorState.parsedTokens == rootErrorState.key.pos
    ensures Completable(m, cores) ==> errors.Some?
    ensures errors.Some? ==> ErrorsOf(m, errors.value, groups) && GroupsReachEnd(m, groups) && groups != []
    ensures errors.Some? ==> FewestReported(m, cores, o, reported, groups)
  {
    hide SearchDone, Completable, GroupsReachEnd, FailingState, IsRecoveryFor, EosPaths, Groups, Machine.RunAll;
    hide Machine.Closed, ErrorsOf;
    groups := [];
    var ungroupedPaths, outcome := Recover(m, cores, rootErrorState);
    o, reported := outcome, ungroupedPaths;
    ReportedIsLimited(m, cores, o);
    if ungroupedPaths == [] {
      return None, groups, o, reported;
    }
    var paths: seq<seq<RecoveryGroup>> := [];
    for i := 0 to |ungroupedPaths|
      invariant |paths| == i
      invariant forall j :: 0 <= j < i ==> ReplayableGroups(m, paths[j]) && paths[j] == Groups(ungroupedPaths[j])
    {
      var path := BuildGroups(ungroupedPaths[i]);
      RecoveryGroups(m, cores, o, Reported(o)[i], ungroupedPaths[i], rootErrorState.key);
      paths := paths + [path];
    }
    var best := FewestGroups(paths);
    groups := paths[best];
    var result := ErrorsFor(m, paths[best]);
    errors := Some(result);
  }

  /** The groups of a recovery: not empty, each in front of an error, and replayable up to the end of the source. */
  ghost predicate ReplayableGroups(m: Machine, groups: seq<RecoveryGroup>) {
    && groups != []
    && GroupsReachEnd(m, groups)
    && forall g :: g in groups ==> FailingState(m, g.preFirstRecoveryState)
  }

  lemma RecoveryGroups(m: Machine, cores: set<Core>, o: Outcome, path: seq<nat>, elements: seq<ReturnElement>,
                       stop: Key)
    requires SearchDone(m, cores, o) && IsRecoveryFor(m, o, path, elements)
    requires stop == m.RunAll(Key(0, m.start, Ready)) && IsError(stop.status)
    ensures ReplayableGroups(m, Groups(elements))
  {
    hide SearchDone, Machine.RunAll, FailingState, Counted, AfterElement, AfterGroup, IsElementFor;
    GroupStatesFail(m, cores, o, path, elements);
    GroupsReplay(m, elements);
  }

  method ErrorsFor(m: Machine, groups: seq<RecoveryGroup>) returns (errors: seq<RecoveredError>)
    requires ReplayableGroups(m, groups)
    ensures ErrorsOf(m, errors, groups)
  {
    hide GroupsReachEnd, Machine.Run;
    errors := [];
    for i := 0 to |groups|
      invariant ErrorsOf(m, errors, groups[..i])
    {
      var errorState := RecoveryToErrorState(m, groups[i].preFirstRecoveryState);
      errors := errors + [RecoveredError(errorState, groups[i].preFirstRecoveryState, groups[i].recovery)];
    }
    assert groups[..|groups|] == groups;
  }

  /**
   Parses the source, or what a recovery makes of it.  The assertions are the checks of the replay: it meets the
   states that were recorded in front of every recovery, can apply all edits, and reaches the end of the source.
   */
  method ParseAndRecover(m: Machine, ghost cores: set<Core>)
    returns (errors: Option<seq<RecoveredError>>, ghost groups: seq<RecoveryGroup>)
    requires m.Closed(cores)
    ensures Completable(m, cores) ==> errors.Some?
    ensures errors == Some([]) <==> m.Accepts()
    ensures errors.Some? ==> ErrorsOf(m, errors.value, groups) && GroupsReachEnd(m, groups)
    ensures errors.Some? && errors.value != [] ==> exists o, reported :: FewestReported(m, cores, o, reported, groups)
  {
    hide Completable, Machine.Closed, GroupsReachEnd, ErrorsOf, Machine.RunAll, FewestReported, Machine.Accepts;
    m.AcceptsIsEOS();
    var parser := new SimpleParser(m);
    StartIsInSource(parser);
    parser.Parse(-1);
    groups := [];
    if parser.state.key.status == EOS {
      NothingToRecover(m);
      errors := Some([]);
    } else {
      ghost var o, reported;
      errors, groups, o, reported := RecoverAndAnalyze(m, cores, parser.state);
      if errors.None? {
        return;
      }
      NoErrorsNoGroups(m, errors.value, groups);
    }
    var final := ReplayErrors(m, errors.value, groups);
    assert final.key.status == EOS;
  }

  lemma NoErrorsNoGroups(m: Machine, errors: seq<RecoveredError>, groups: seq<RecoveryGroup>)
    requires ErrorsOf(m, errors, groups)
    ensures errors == [] <==> groups == []
  {
  }

  lemma StartIsInSource(parser: SimpleParser)
    requires parser.state == StartState(parser.machine)
    ensures parser.Valid()
  {
  }

  lemma NothingToRecover(m: Machine)
    requires m.RunAll(Key(0, m.start, Ready)).status == EOS
    ensures ErrorsOf(m, [], []) && GroupsReachEnd(m, [])
  {
  }

  /** Replays a recovery, up to the end of the source. */
  method ReplayErrors(m: Machine, errors: seq<RecoveredError>, ghost groups: seq<RecoveryGroup>)
    returns (final: SavedState)
    requires ErrorsOf(m, errors, groups) && GroupsReachEnd(m, groups)
    ensures ReplayGroups(m, groups).Some? && final.key == m.RunAll(ReplayGroups(m, groups).value.key)
    ensures final.key.status == EOS
  {
    hide Machine.RunAll, Machine.Run, Expanded, ErrorsOf, GroupsReachEnd;
    var parser := new SimpleParser(m);
    SomeReplay(m, errors, groups);
    for i := 0 to |errors|
      invariant parser.machine == m && parser.Valid() && |errors| == |groups|
      invariant ReplayGroups(m, groups[..i]) == Some(parser.state)
    {
      ghost var s := parser.state;
      NextGroup(m, errors, groups, i);
      parser.Parse(errors[i].preRecoveryState.parsedTokens - parser.state.parsedTokens);
      assert parser.state == errors[i].preRecoveryState;
      var status := ApplyExpand(parser, errors[i].recovery);
      assert status == Ready;
    }
    assert groups[..|errors|] == groups;
    LastGroup(m, groups);
    parser.Parse(-1);
    assert parser.state.key.status == EOS;
    return parser.state;
  }

  lemma SomeReplay(m: Machine, errors: seq<RecoveredError>, groups: seq<RecoveryGroup>)
    requires ErrorsOf(m, errors, groups)
    ensures |errors| == |groups| && ReplayGroups(m, groups[..0]) == Some(StartState(m))
  {
  }

  lemma LastGroup(m: Machine, groups: seq<RecoveryGroup>)
    requires GroupsReachEnd(m, groups)
    ensures ReplayGroups(m, groups).Some? && m.RunAll(ReplayGroups(m, groups).value.key).status == EOS
  {
  }

  /** What replaying the groups says about the next one. */
  lemma NextGroup(m: Machine, errors: seq<RecoveredError>, groups: seq<RecoveryGroup>, i: nat)
    requires ErrorsOf(m, errors, groups) && GroupsReachEnd(m, groups) && i < |errors|
    requires ReplayGroups(m, groups[..i]).Some?
    ensures |errors| == |groups|
    ensures var s, pre := ReplayGroups(m, groups[..i]).value, errors[i].preRecoveryState;
            && pre.parsedTokens >= s.parsedTokens
            && pre == Advanced(m, s, pre.parsedTokens - s.parsedTokens)
            && ReadyIn(m, pre)
            && Expanded(m, pre, errors[i].recovery).key.status == Ready
            && ReplayGroups(m, groups[..i + 1]) == Some(Expanded(m, pre, errors[i].recovery))
  {
    hide Machine.Run, Machine.RunAll, Expanded;
    assert groups[..i + 1][..i] == groups[..i];
    PrefixReplays(m, groups, i + 1);
  }

  lemma {:induction false} PrefixReplays(m: Machine, groups: seq<RecoveryGroup>, i: nat)
    requires ReplayGroups(m, groups).Some? && i <= |groups|
    ensures ReplayGroups(m, groups[..i]).Some?
    decreases |groups|
  {
    hide AfterGroup;
    if i == |groups| {
      assert groups[..i] == groups;
    } else {
      assert groups[..|groups| - 1][..i] == groups[..i];
      PrefixReplays(m, groups[..|groups| - 1], i);
    }
  }
}
