/**
 Recovering from a parse error: searching the cheapest edits, reporting them as paths, and replaying the chosen one.
 */
module Recovery {
  import opened Options
  import opened TokenMachine
  import opened SearchGraph
  import opened Sequences
  import opened Frontier
  import opened RecoverySearch
  import opened RecoveryPaths
  import opened Completion
  import Replay

  // Replaying a path

  /** The state that the first `i` edges of a path lead to. */
  ghost function PathState(edges: seq<Edge>, path: seq<nat>, h: nat, i: nat): nat
    requires EdgeIds(edges, path) && i <= |path|
  {
    if i == |path| then h else edges[path[i]].parent
  }

  lemma {:induction false} PathPrefix(table: seq<StateData>, edges: seq<Edge>, ways: set<Way>, path: seq<nat>, h: nat,
                                      i: nat)
    requires KeptOk(table, edges, ways) && h < |table| && IsPath(table, edges, ways, path, h) && i <= |path|
    ensures EdgeIds(edges, path) && PathState(edges, path, h, i) < |table|
    ensures IsPath(table, edges, ways, path[..i], PathState(edges, path, h, i))
    decreases |path|
  {
    PathEdges(table, edges, ways, path, h);
    if i == |path| {
      assert path[..i] == path;
    } else {
      var n := |path| - 1;
      PathPrefix(table, edges, ways, path[..n], edges[path[n]].parent, i);
      assert path[..n][..i] == path[..i];
    }
  }

  /** What the finished search guarantees about its graph. */
  ghost predicate Searched(m: Machine, cores: set<Core>, table: seq<StateData>, ids: map<Key, nat>, edges: seq<Edge>,
                           ways: set<Way>) {
    && TableOk(m, cores, table, ids)
    && KeptOk(table, edges, ways)
    && WaysOk(m, table, ways)
    && TiesOk(table, edges, ways)
    && forall h :: 0 <= h < |table| && table[h].incomingEdges == 0 ==> IsRootKey(m, table[h].key)
  }

  /** Parsing on from `k` passes the state `to`. */
  ghost predicate Passes(m: Machine, k: Key, to: Key) {
    && m.InSource(k) && k.status == Ready && k.pos <= to.pos
    && to == m.Run(k, to.pos - k.pos)
  }

  /** An edge of a path can be applied to the state it starts from, and parsing on passes the state it leads to. */
  lemma KeptEdgeLeadsOn(m: Machine, table: seq<StateData>, edges: seq<Edge>, ways: set<Way>, e: nat, to: nat)
    requires e < |edges| && to < |table| && Tight(table, edges, ways, to, e) && WaysOk(m, table, ways)
    ensures edges[e].parent < |table|
    ensures var from := table[edges[e].parent].key;
            && m.InSource(from) && from.status == Ready && m.Apply(from, edges[e].recovery).status == Ready
            && Passes(m, m.Apply(from, edges[e].recovery), table[to].key)
  {
    hide Machine.Run, Machine.Apply, Machine.Targets, Machine.FailsSoon;
    var from := edges[e].parent;
    assert WayOk(m, table, Way(from, edges[e].recovery, to));
    m.TargetsAreStops(table[from].key, edges[e].recovery, table[to].key);
  }

  lemma EdgeLeadsOn(m: Machine, cores: set<Core>, table: seq<StateData>, ids: map<Key, nat>, edges: seq<Edge>,
                    ways: set<Way>, path: seq<nat>, h: nat, i: nat)
    requires Searched(m, cores, table, ids, edges, ways) && h < |table|
    requires IsPath(table, edges, ways, path, h) && i < |path|
    ensures EdgeIds(edges, path) && PathState(edges, path, h, i) == edges[path[i]].parent < |table|
    ensures PathState(edges, path, h, i + 1) < |table|
    ensures var from := table[edges[path[i]].parent];
            && from.sourceTokenIndex == from.key.pos
            && m.InSource(from.key) && from.key.status == Ready
            && m.Apply(from.key, edges[path[i]].recovery).status == Ready
            && Passes(m, m.Apply(from.key, edges[path[i]].recovery), table[PathState(edges, path, h, i + 1)].key)
  {
    hide KeyOk, WaysOk, Tight, Passes, Machine.Apply;
    PathPrefix(table, edges, ways, path, h, i + 1);
    var to := PathState(edges, path, h, i + 1);
    assert path[..i + 1][i] == path[i];
    KeptEdgeLeadsOn(m, table, edges, ways, path[i], to);
  }

  lemma PathStartsAtRoot(m: Machine, cores: set<Core>, table: seq<StateData>, ids: map<Key, nat>, edges: seq<Edge>,
                         ways: set<Way>, path: seq<nat>, h: nat)
    requires Searched(m, cores, table, ids, edges, ways) && h < |table| && IsPath(table, edges, ways, path, h)
    ensures EdgeIds(edges, path) && PathState(edges, path, h, 0) < |table|
    ensures Passes(m, Key(0, m.start, Ready), table[PathState(edges, path, h, 0)].key)
  {
    hide KeptOk, TableOk, WaysOk, IsPath, IsRootKey, Passes;
    PathPrefix(table, edges, ways, path, h, 0);
    var root := PathState(edges, path, h, 0);
    assert path[..0] == [];
    EmptyPathIsRoot(table, edges, ways, root);
    assert IsRootKey(m, table[root].key);
    RootIsPassed(m, table[root].key);
  }

  lemma EmptyPathIsRoot(table: seq<StateData>, edges: seq<Edge>, ways: set<Way>, h: nat)
    requires KeptOk(table, edges, ways) && h < |table| && IsPath(table, edges, ways, [], h)
    ensures table[h].incomingEdges == 0
  {
    hide KeptOk;
  }

  lemma RootIsPassed(m: Machine, k: Key)
    requires IsRootKey(m, k)
    ensures Passes(m, Key(0, m.start, Ready), k)
  {
    hide Machine.Run, Machine.RunAll;
    RootKeyIsPassed(m, k);
  }

  /** The roots are states that parsing from the start passes. */
  lemma RootKeyIsPassed(m: Machine, k: Key)
    requires k in RootKeys(m)
    ensures k == m.Run(Key(0, m.start, Ready), k.pos) && k.status == Ready
  {
    hide Machine.Run, Machine.RunAll, Machine.FailsSoon;
    var start := Key(0, m.start, Ready);
    m.RunUntilStop(start);
    var valid := m.RunAll(start).pos;
    m.StopsFailSoon(start);
    ReadyRunAdvances(m, start, valid);
    if valid > 1 {
      m.RunPrefixReady(start, valid - 1, valid);
      ReadyRunAdvances(m, start, valid - 1);
    }
  }

  lemma ReadyRunAdvances(m: Machine, k: Key, n: nat)
    requires m.InSource(k) && m.Run(k, n).status == Ready
    ensures m.Run(k, n).pos == k.pos + n
  {
    hide Machine.RunAll;
    if k.status == Ready {
      var cores := m.RunHasCores(k, n);
    }
  }

  /** Parsing on to a state that is passed and applying an edit there replays the element for that edit. */
  lemma PassedElement(m: Machine, s: SavedState, pre: SavedState, e: Replay.ReturnElement)
    requires Replay.ReadyIn(m, s) && Passes(m, s.key, pre.key) && Replay.ReadyIn(m, pre)
    requires pre.parsedTokens == s.parsedTokens + (pre.key.pos - s.key.pos)
    requires e.preRecoveryState == pre && AfterApply(m, pre, e.recovery).key.status == Ready
    ensures Replay.AfterElement(m, s, e) == Some(AfterApply(m, pre, e.recovery))
  {
    hide Machine.Run, AfterApply;
  }

  /** What applying an edit that fits does to the state and its counter. */
  lemma AppliedEdit(m: Machine, s: SavedState, e: Element)
    requires Replay.ReadyIn(m, s) && m.Apply(s.key, e).status == Ready
    ensures var after := AfterApply(m, s, e);
            && after.key == m.Apply(s.key, e) && after.key.pos == s.key.pos + e.Skips()
            && after.parsedTokens == s.parsedTokens + e.Inserts()
  {
  }

  /** The edits of a path with the states a parser is in when it meets them. */
  method BuildPath(m: Machine, ghost cores: set<Core>, table: seq<StateData>, ghost ids: map<Key, nat>,
                   edges: seq<Edge>, ghost ways: set<Way>, path: seq<nat>, ghost h: nat)
    returns (result: seq<Replay.ReturnElement>)
    requires Searched(m, cores, table, ids, edges, ways) && h < |table| && IsPath(table, edges, ways, path, h)
    requires EdgeIds(edges, path)
    ensures |result| == |path| && Replay.Counted(result)
    ensures forall i :: 0 <= i < |path| ==> IsElementFor(table, edges, path[i], result[i])
    ensures Replay.ReplayElements(m, result).Some?
    ensures Passes(m, Replay.ReplayElements(m, result).value.key, table[h].key)
  {
    hide Searched, IsPath, KeptOk, EdgeIds, Passes, Machine.Run, Machine.RunAll, Machine.Apply, AfterApply;
    hide Replay.Counted, Replay.AfterElement, Replay.Skipped, Replay.Inserted;
    var parser := new SimpleParser(m);
    result := [];
    var totalSkippedTokens, totalInsertedTokens := 0, 0;
    EmptyReplay(m);
    PathStartsAtRoot(m, cores, table, ids, edges, ways, path, h);
    for i := 0 to |path|
      invariant |result| == i && Replay.Counted(result) && parser.machine == m
      invariant totalSkippedTokens == Replay.Skipped(result) && totalInsertedTokens == Replay.Inserted(result)
      invariant parser.state.parsedTokens + totalSkippedTokens - totalInsertedTokens == parser.state.key.pos
      invariant Replay.ReplayElements(m, result) == Some(parser.state)
      invariant EdgeIds(edges, path) && PathState(edges, path, h, i) < |table|
      invariant Passes(m, parser.state.key, table[PathState(edges, path, h, i)].key)
      invariant forall j :: 0 <= j < i ==> IsElementFor(table, edges, path[j], result[j])
    {
      ghost var s := parser.state;
      EdgeLeadsOn(m, cores, table, ids, edges, ways, path, h, i);
      PathEdgeId(edges, path, i);
      var incoming := edges[path[i]];
      var state := table[incoming.parent];
      var advancedTokens := parser.state.parsedTokens + totalSkippedTokens - totalInsertedTokens;
      PassedState(m, s.key, state.key);
      parser.Parse(state.sourceTokenIndex - advancedTokens);
      assert parser.state.key == state.key;
      var element := Replay.ReturnElement(totalSkippedTokens, totalInsertedTokens, parser.state, incoming.recovery);
      AppliedEdit(m, parser.state, incoming.recovery);
      PassedElement(m, s, parser.state, element);
      Replay.ElementAppended(m, result, s, element);
      parser.Apply(incoming.recovery);
      assert parser.state.key.status == Ready;
      result := result + [element];
      totalSkippedTokens := totalSkippedTokens + incoming.recovery.Skips();
      totalInsertedTokens := totalInsertedTokens + incoming.recovery.Inserts();
    }
  }

  /** The element repeats the edit of an edge, in the state that was interned for its parent. */
  ghost predicate IsElementFor(table: seq<StateData>, edges: seq<Edge>, e: nat, element: Replay.ReturnElement) {
    && e < |edges| && edges[e].parent < |table|
    && element.recovery == edges[e].recovery
    && element.preRecoveryState.key == table[edges[e].parent].key
  }

  lemma EmptyReplay(m: Machine)
    ensures Replay.Counted([]) && Replay.Skipped([]) == 0 == Replay.Inserted([])
    ensures Replay.ReplayElements(m, []) == Some(Replay.StartState(m))
  {
  }

  lemma PathEdgeId(edges: seq<Edge>, path: seq<nat>, i: nat)
    requires EdgeIds(edges, path) && i < |path|
    ensures path[i] < |edges|
  {
  }

  lemma PassedState(m: Machine, k: Key, to: Key)
    requires Passes(m, k, to)
    ensures m.InSource(k) && k.status == Ready && k.pos <= to.pos && to == m.Run(k, to.pos - k.pos)
  {
  }

  // Recovering

  predicate IsEos(table: seq<StateData>, info: ErrorInfo) {
    info.state < |table| && table[info.state].key.status == EOS
  }

  /** The paths to all states at the end of the source in `best`. */
  ghost function EosPaths(table: seq<StateData>, edges: seq<Edge>, ways: set<Way>, best: seq<ErrorInfo>)
    : (paths: seq<seq<nat>>)
    requires KeptOk(table, edges, ways)
  {
    if best == [] then []
    else
      var n := |best| - 1;
      EosPaths(table, edges, ways, best[..n])
      + if IsEos(table, best[n]) then Paths(table, edges, ways, best[n].state) else []
  }

  /** Collects the first paths of all states at the end of the source. */
  method CollectEosPaths(table: seq<StateData>, edges: seq<Edge>, ghost ways: set<Way>, best: seq<ErrorInfo>)
    returns (paths: seq<seq<nat>>)
    requires KeptOk(table, edges, ways)
    requires RootsAreReady(table)
    ensures paths == Limited(EosPaths(table, edges, ways, best), MAX_RECOVERY_PATHS)
  {
    hide KeptOk, Collected;
    paths := [];
    for i := 0 to |best|
      invariant paths == Limited(EosPaths(table, edges, ways, best[..i]), MAX_RECOVERY_PATHS)
    {
      assert best[..i + 1][..i] == best[..i];
      if best[i].state < |table| && table[best[i].state].key.status == EOS {
        CollectedFromStart(table, edges, ways, best[i].state, EosPaths(table, edges, ways, best[..i]), paths);
        paths := CollectPaths(table, edges, ways, best[i].state, [], paths);
      } else {
        assert EosPaths(table, edges, ways, best[..i + 1]) == EosPaths(table, edges, ways, best[..i]);
      }
    }
    assert best[..|best|] == best;
  }

  lemma CollectedFromStart(table: seq<StateData>, edges: seq<Edge>, ways: set<Way>, h: nat, all: seq<seq<nat>>,
                           paths: seq<seq<nat>>)
    requires KeptOk(table, edges, ways) && h < |table| && table[h].incomingEdges != 0
    requires paths == Limited(all, MAX_RECOVERY_PATHS)
    ensures Collected(table, edges, ways, h, [], paths)
         == Limited(all + Paths(table, edges, ways, h), MAX_RECOVERY_PATHS)
  {
    hide KeptOk, Paths, Incoming;
    var more := Paths(table, edges, ways, h);
    assert Extended(more, Reversed([])) == more by {
      forall i | 0 <= i < |more|
        ensures Extended(more, Reversed([]))[i] == more[i]
      {
        assert more[i] + [] == more[i];
      }
    }
  }

  /** A search that ran to its end. */
  datatype Outcome = Outcome(view: SearchView, edges: seq<Edge>, best: seq<ErrorInfo>, inserted: set<ErrorInfo>)

  ghost predicate SearchDone(m: Machine, cores: set<Core>, o: Outcome) {
    && Finished(m, cores, o.view, o.inserted)
    && Searched(m, cores, o.view.table, o.view.ids, o.edges, o.view.ways)
    && IsFrontier(o.best, o.inserted)
    && o.view.table != [] && RootsKnown(m, o.view.table)
  }

  /** Every root is in the table, at no cost. */
  ghost predicate RootsKnown(m: Machine, table: seq<StateData>) {
    forall k :: k in RootKeys(m) ==> exists h :: IsRootAt(table, k, h)
  }

  ghost predicate IsRootAt(table: seq<StateData>, k: Key, h: nat) {
    h < |table| && table[h].key == k && table[h].modificationCost == 0
  }

  /** The walks of the search start at the roots: at all of them, and nowhere else. */
  lemma WalksStartAtRoots(m: Machine, cores: set<Core>, o: Outcome)
    requires SearchDone(m, cores, o)
    ensures forall k :: k in RootKeys(m) <==>
      exists h :: 0 <= h < |o.view.table| && o.view.table[h].key == k && IsWalk(o.view.table, o.view.ways, [], h)
  {
    hide Finished, TiesOk, WaysOk, IsFrontier, RootKeys;
    var table := o.view.table;
    forall k | k in RootKeys(m)
      ensures exists h :: 0 <= h < |table| && table[h].key == k && IsWalk(table, o.view.ways, [], h)
    {
      var h :| IsRootAt(table, k, h);
      FreeHasNoEdges(table, o.edges, o.view.ways, h);
      assert IsWalk(table, o.view.ways, [], h);
    }
  }

  /** Edges cost something, so none leads to a state that costs nothing. */
  lemma FreeHasNoEdges(table: seq<StateData>, edges: seq<Edge>, ways: set<Way>, h: nat)
    requires KeptOk(table, edges, ways) && h < |table|
    ensures table[h].modificationCost == 0 ==> table[h].incomingEdges == 0
  {
    assert IncomingOk(table, edges, ways, h);
    var incoming := Chain(edges, table[h].lastIncomingEdge);
    if incoming != [] {
      assert Tight(table, edges, ways, h, incoming[0]);
    }
  }

  lemma RootsStayKnown(m: Machine, table: seq<StateData>, table': seq<StateData>)
    requires RootsKnown(m, table) && Extends(table, table')
    ensures RootsKnown(m, table')
  {
    hide RootKeys;
    forall k | k in RootKeys(m)
      ensures exists h :: IsRootAt(table', k, h)
    {
      var h :| IsRootAt(table, k, h);
      assert IsRootAt(table', k, h);
    }
  }

  /** The paths that are reported. */
  ghost function Reported(o: Outcome): seq<seq<nat>>
    requires KeptOk(o.view.table, o.edges, o.view.ways)
  {
    Limited(EosPaths(o.view.table, o.edges, o.view.ways, o.best), MAX_RECOVERY_PATHS)
  }

  /** Replaying the elements and parsing on reaches the end of the source. */
  ghost predicate ReplaysToEnd(m: Machine, elements: seq<Replay.ReturnElement>) {
    && Replay.Counted(elements)
    && Replay.ReplayElements(m, elements).Some?
    && m.RunAll(Replay.ReplayElements(m, elements).value.key).status == EOS
  }

  ghost predicate IsRecoveryFor(m: Machine, o: Outcome, path: seq<nat>, elements: seq<Replay.ReturnElement>) {
    && |elements| == |path|
    && (forall i :: 0 <= i < |path| ==> IsElementFor(o.view.table, o.edges, path[i], elements[i]))
    && ReplaysToEnd(m, elements)
  }

  /** Interns the states in front of the first error as roots of the search. */
  method AddRoots(state: RecoveryState, parser: SimpleParser, errorState: SavedState)
    requires state.Searching(0) && state.stateTable == [] && state.ways == {}
    requires parser.machine == state.machine && parser.state == Replay.StartState(state.machine)
    requires errorState.key == state.machine.RunAll(Key(0, state.machine.start, Ready))
    requires IsError(errorState.key.status) && errorState.parsedTokens == errorState.key.pos
    modifies parser, state`stateTable, state`ids, state`queue
    ensures state.Searching(0) && state.stateTable != [] && parser.Valid()
    ensures AllSettled(state.machine, state.View(), state.inserted, {})
    ensures RootTable(state.machine, state.stateTable)
  {
    hide RecoveryState.Searching, Machine.Run, Machine.RunAll, KeyOk, AllSettled, IsRootKey, RootKeys;
    var validTokensUntilError := errorState.parsedTokens;
    RootsAreOk(state, errorState.key);
    StartIsValid(parser);
    if validTokensUntilError > 1 {
      parser.Parse(validTokensUntilError - 1);
      IsUnknownState(state, parser.state.key);
      state.AddRootState(parser.state, validTokensUntilError - 1);
      parser.Parse(1);
    } else {
      parser.Parse(validTokensUntilError);
    }
    IsUnknownState(state, parser.state.key);
    state.AddRootState(parser.state, validTokensUntilError);
    NothingExpanded(state);
    TheseAreTheRoots(state.machine, state.stateTable, validTokensUntilError);
  }

  lemma IsUnknownState(state: RecoveryState, k: Key)
    requires state.Searching(0)
    ensures (forall h :: 0 <= h < |state.stateTable| ==> state.stateTable[h].key != k) ==> k !in state.ids
  {
    hide KeyOk, GraphOk, TiesOk, IsFrontier, InsertedOk;
  }

  ghost function RootData(k: Key): StateData {
    StateData(k, k.pos, 0, None, 0, false)
  }

  lemma TheseAreTheRoots(m: Machine, table: seq<StateData>, valid: nat)
    requires valid == m.RunAll(Key(0, m.start, Ready)).pos && IsError(m.RunAll(Key(0, m.start, Ready)).status)
    requires var start := Key(0, m.start, Ready);
             && m.Run(start, valid).pos == valid
             && (valid > 1 ==> m.Run(start, valid - 1).pos == valid - 1)
             && table == (if valid > 1 then [RootData(m.Run(start, valid - 1))] else [])
                         + [RootData(m.Run(start, valid))]
    ensures RootTable(m, table)
  {
    hide Machine.Run, Machine.RunAll;
    var start := Key(0, m.start, Ready);
    assert IsRootAt(table, m.Run(start, valid), |table| - 1);
    if valid > 1 {
      assert IsRootAt(table, m.Run(start, valid - 1), 0);
    }
  }

  /** The table holds exactly the roots, each of them once and as it is added. */
  ghost predicate RootTable(m: Machine, table: seq<StateData>) {
    && (forall h :: 0 <= h < |table| ==>
          table[h].key in RootKeys(m) && table[h] == RootData(table[h].key))
    && (forall k :: k in RootKeys(m) ==> exists h :: IsRootAt(table, k, h))
    && (forall i, j :: 0 <= i < j < |table| ==> table[i].key != table[j].key)
  }

  lemma StartIsValid(parser: SimpleParser)
    requires parser.state == Replay.StartState(parser.machine)
    ensures parser.Valid() && parser.state.key == Key(0, parser.machine.start, Ready)
    ensures parser.machine.InSource(parser.state.key)
  {
  }

  /** The state in front of the first error, and the one a valid token earlier. */
  lemma RootsAreOk(state: RecoveryState, stop: Key)
    requires state.Searching(0) && state.stateTable == [] && state.ways == {}
    requires stop == state.machine.RunAll(Key(0, state.machine.start, Ready)) && IsError(stop.status)
    ensures state.inserted == {}
    ensures var m := state.machine;
            var start, valid := Key(0, m.start, Ready), stop.pos;
            && m.InSource(start)
            && RootOk(m, state.cores, m.Run(start, valid), valid)
            && (valid > 1 ==> RootOk(m, state.cores, m.Run(start, valid - 1), valid - 1)
                              && m.Run(m.Run(start, valid - 1), 1) == m.Run(start, valid))
  {
    var m := state.machine;
    var start, valid := Key(0, m.start, Ready), stop.pos;
    hide Machine.Run, Machine.RunAll, Machine.FailsSoon, GraphOk, IsFrontier;
    NoneInserted(state.inserted);
    m.StopsFailSoon(start);
    m.RunStays(state.cores, start, valid);
    m.RunStays(state.cores, start, if valid > 1 then valid - 1 else 0);
  }

  lemma NoneInserted(inserted: set<ErrorInfo>)
    requires InsertedOk([], inserted)
    ensures inserted == {}
  {
  }

  ghost predicate RootOk(m: Machine, cores: set<Core>, k: Key, pos: nat) {
    KeyOk(m, cores, k) && IsRootKey(m, k) && k.status == Ready && k.pos == pos
  }

  lemma NothingExpanded(state: RecoveryState)
    requires state.Searching(0) && state.inserted == {}
    ensures AllSettled(state.machine, state.View(), state.inserted, {})
  {
  }

  lemma SearchIsDone(state: RecoveryState, o: Outcome)
    requires state.Searching(|state.queue|) && AllSettled(state.machine, state.View(), state.inserted, {})
    requires forall h :: 0 <= h < |state.stateTable| ==> state.stateTable[h].expanded
    requires o == Outcome(state.View(), state.edges, state.bestErrors, state.inserted) && state.stateTable != []
    requires RootsKnown(state.machine, state.stateTable)
    ensures SearchDone(state.machine, state.cores, o)
    ensures KeptOk(state.stateTable, state.edges, state.ways)
    ensures RootsAreReady(state.stateTable)
  {
    hide TableOk, AllSettled, IsFrontier, InsertedOk, WaysOk, TiesOk, IncomingOk, Waits;
    var m := state.machine;
    GraphKeepsEdges(m, state.stateTable, state.edges, state.ways, state.queue, |state.queue|);
    forall h | 0 <= h < |state.stateTable| && state.stateTable[h].incomingEdges == 0
      ensures IsRootKey(m, state.stateTable[h].key) && state.stateTable[h].key.status == Ready
    {
      hide RootKeys, Machine.Run;
      assert StateOk(m, state.stateTable, state.edges, state.ways, state.queue, |state.queue|, h);
      RootKeyIsPassed(m, state.stateTable[h].key);
    }
  }

  /** The target of a reported path. */
  lemma {:induction false} EosPathTarget(table: seq<StateData>, edges: seq<Edge>, ways: set<Way>, best: seq<ErrorInfo>,
                                         path: seq<nat>) returns (info: ErrorInfo)
    requires KeptOk(table, edges, ways) && path in EosPaths(table, edges, ways, best)
    ensures info in best && IsEos(table, info) && IsPath(table, edges, ways, path, info.state)
    decreases |best|
  {
    hide KeptOk, IsPath;
    var n := |best| - 1;
    if path in EosPaths(table, edges, ways, best[..n]) {
      info := EosPathTarget(table, edges, ways, best[..n], path);
    } else {
      info := best[n];
      PathsAreExact(table, edges, ways, info.state);
    }
  }

  /** Running into the end of the source is all the parser can do. */
  lemma {:induction false} RunReachesEnd(m: Machine, k: Key, n: nat)
    requires m.InSource(k) && m.Run(k, n).status == EOS
    ensures m.RunAll(k).status == EOS
    decreases n
  {
    if n > 0 && k.status == Ready {
      RunReachesEnd(m, m.Step(k), n - 1);
    }
  }

  /** Rebuilds the i-th of the collected paths. */
  method BuildEosPath(m: Machine, ghost cores: set<Core>, table: seq<StateData>, edges: seq<Edge>, ghost o: Outcome,
                      paths: seq<seq<nat>>, i: nat) returns (elements: seq<Replay.ReturnElement>)
    requires SearchDone(m, cores, o) && table == o.view.table && edges == o.edges
    requires KeptOk(table, edges, o.view.ways) && paths == Reported(o) && i < |paths|
    ensures IsRecoveryFor(m, o, paths[i], elements)
  {
    hide KeptOk, EosPaths, Finished, IsPath, IsElementFor, Machine.Run, Machine.RunAll, IsFrontier;
    ghost var path := paths[i];
    assert path in EosPaths(table, edges, o.view.ways, o.best);
    ghost var info := EosPathTarget(table, edges, o.view.ways, o.best, path);
    PathEdges(table, edges, o.view.ways, path, info.state);
    elements := BuildPath(m, cores, table, o.view.ids, edges, o.view.ways, paths[i], info.state);
    ghost var last := Replay.ReplayElements(m, elements).value;
    RunReachesEnd(m, last.key, table[info.state].key.pos - last.key.pos);
  }

  ghost predicate RootsAreReady(table: seq<StateData>) {
    forall h :: 0 <= h < |table| && table[h].incomingEdges == 0 ==> table[h].key.status == Ready
  }

  lemma ReportedIsLimited(m: Machine, cores: set<Core>, o: Outcome)
    requires SearchDone(m, cores, o)
    ensures KeptOk(o.view.table, o.edges, o.view.ways)
    ensures Reported(o) == Limited(EosPaths(o.view.table, o.edges, o.view.ways, o.best), MAX_RECOVERY_PATHS)
  {
  }

  lemma RecoveryReplays(m: Machine, o: Outcome, path: seq<nat>, elements: seq<Replay.ReturnElement>)
    requires IsRecoveryFor(m, o, path, elements)
    ensures ReplaysToEnd(m, elements)
  {
  }

  /** All ways to reach the end of the source that the search found, as edits with the states in front of them. */
  method Recover(m: Machine, ghost cores: set<Core>, errorState: SavedState)
    returns (result: seq<seq<Replay.ReturnElement>>, ghost o: Outcome)
    requires m.Closed(cores)
    requires errorState.key == m.RunAll(Key(0, m.start, Ready)) && IsError(errorState.key.status)
    requires errorState.parsedTokens == errorState.key.pos
    ensures forall i :: 0 <= i < |result| ==> ReplaysToEnd(m, result[i])
    ensures |result| <= MAX_RECOVERY_PATHS && (Completable(m, cores) ==> result != [])
    ensures SearchDone(m, cores, o)
    ensures |result| == |Reported(o)|
    ensures forall i :: 0 <= i < |result| ==> IsRecoveryFor(m, o, Reported(o)[i], result[i])
  {
    hide RecoveryState.Searching, SearchDone, AllSettled, EosPaths, KeptOk, IsRecoveryFor, ReplaysToEnd, Completable;
    hide Machine.RunAll, RootsAreReady, RootKeys;
    var state := new RecoveryState(m, cores);
    var parser := new SimpleParser(m);
    AddRoots(state, parser, errorState);
    ghost var roots := state.stateTable;
    state.Grind(parser);
    RootsStayKnown(m, roots, state.stateTable);
    o := Outcome(state.View(), state.edges, state.bestErrors, state.inserted);
    SearchIsDone(state, o);
    var paths := CollectEosPaths(state.stateTable, state.edges, state.ways, state.bestErrors);
    ReportedIsLimited(m, cores, o);
    if Completable(m, cores) {
      CompletableIsReported(m, cores, o);
    }
    result := [];
    for i := 0 to |paths|
      invariant |result| == i && state.stateTable == o.view.table && state.edges == o.edges
      invariant forall j :: 0 <= j < i ==> IsRecoveryFor(m, o, paths[j], result[j]) && ReplaysToEnd(m, result[j])
    {
      var elements := BuildEosPath(m, cores, state.stateTable, state.edges, o, paths, i);
      RecoveryReplays(m, o, paths[i], elements);
      result := result + [elements];
    }
  }

  // What is reported

  function ElementsCost(elements: seq<Replay.ReturnElement>): nat {
    if elements == [] then 0
    else ElementsCost(elements[..|elements| - 1]) + elements[|elements| - 1].recovery.Cost()
  }

  lemma {:induction false} ElementsCostThePath(table: seq<StateData>, edges: seq<Edge>, path: seq<nat>,
                                               elements: seq<Replay.ReturnElement>)
    requires EdgeIds(edges, path) && |elements| == |path|
    requires forall i :: 0 <= i < |path| ==> IsElementFor(table, edges, path[i], elements[i])
    ensures ElementsCost(elements) == PathCost(edges, path)
    decreases |path|
  {
    if path != [] {
      var n := |path| - 1;
      assert IsElementFor(table, edges, path[n], elements[n]);
      ElementsCostThePath(table, edges, path[..n], elements[..n]);
    }
  }

  ghost predicate IsEosWalk(o: Outcome, walk: seq<Way>, h: nat) {
    IsWalk(o.view.table, o.view.ways, walk, h) && h < |o.view.table| && o.view.table[h].key.status == EOS
  }

  /** No state at the end of the source is cheaper than one in the frontier. */
  lemma EosCostIsMinimal(m: Machine, cores: set<Core>, o: Outcome, info: ErrorInfo, h: nat)
    requires SearchDone(m, cores, o) && info in o.best && IsEos(o.view.table, info)
    requires h < |o.view.table| && o.view.table[h].key.status == EOS
    ensures o.view.table[info.state].modificationCost <= o.view.table[h].modificationCost
  {
    hide AllSettled, KeptOk, WaysOk, IsFrontier;
    FrontierIsExact(o.best, o.inserted);
    assert KeyOk(m, cores, o.view.table[h].key) && KeyOk(m, cores, o.view.table[info.state].key);
    assert !Dominates(InfoOf(o.view.table, h), info);
  }

  /**
   Every reported recovery costs as much as some walk over generated edges to the end of the source, and no such walk
   is cheaper.
   */
  lemma RecoveryIsCheapest(m: Machine, cores: set<Core>, o: Outcome, i: nat, elements: seq<Replay.ReturnElement>)
    returns (walk: seq<Way>, h: nat)
    requires SearchDone(m, cores, o) && i < |Reported(o)| && IsRecoveryFor(m, o, Reported(o)[i], elements)
    ensures IsEosWalk(o, walk, h) && ElementsCost(elements) == WalkCost(walk)
    ensures forall other, k :: IsEosWalk(o, other, k) ==> WalkCost(walk) <= WalkCost(other)
  {
    hide Finished, EosPaths, KeptOk, WaysOk, IsPath, IsWalk, TableOk, IsFrontier, IsElementFor, ReplaysToEnd;
    var table, ways := o.view.table, o.view.ways;
    var path := Reported(o)[i];
    assert path in EosPaths(table, o.edges, ways, o.best);
    var info := EosPathTarget(table, o.edges, ways, o.best, path);
    PathIsWalk(table, o.edges, ways, path, info.state);
    PathCostsItsTarget(table, o.edges, ways, path, info.state);
    ElementsCostThePath(table, o.edges, path, elements);
    walk, h := WaysOf(o.edges, path, info.state), info.state;
    forall other, k | IsEosWalk(o, other, k)
      ensures WalkCost(walk) <= WalkCost(other)
    {
      NoCheaperWalk(m, table, o.edges, ways, other, k);
      EosCostIsMinimal(m, cores, o, info, k);
    }
  }

  // All cheapest recoveries are reported, unless there are too many

  /** All walks to the end of the source cost at least as much. */
  ghost predicate IsCheapestEosWalk(o: Outcome, walk: seq<Way>, h: nat) {
    IsEosWalk(o, walk, h) && forall other, k :: IsEosWalk(o, other, k) ==> WalkCost(walk) <= WalkCost(other)
  }

  /** Some walk to a state costs what the state costs. */
  lemma SomeTightWalk(o: Outcome, h: nat) returns (walk: seq<Way>)
    requires KeptOk(o.view.table, o.edges, o.view.ways) && h < |o.view.table|
    ensures IsWalk(o.view.table, o.view.ways, walk, h) && WalkCost(walk) == o.view.table[h].modificationCost
  {
    hide KeptOk, Paths, IsPath, IsWalk, WalkCost, WaysOf;
    var table, ways := o.view.table, o.view.ways;
    PathsExist(table, o.edges, ways, h);
    PathsAreExact(table, o.edges, ways, h);
    var path := Paths(table, o.edges, ways, h)[0];
    assert path in Paths(table, o.edges, ways, h);
    PathIsWalk(table, o.edges, ways, path, h);
    PathCostsItsTarget(table, o.edges, ways, path, h);
    walk := WaysOf(o.edges, path, h);
  }

  /** A cheapest walk costs what its target costs, and its target is in the frontier. */
  lemma CheapestTarget(m: Machine, cores: set<Core>, o: Outcome, walk: seq<Way>, h: nat)
    requires SearchDone(m, cores, o) && IsCheapestEosWalk(o, walk, h)
    ensures h < |o.view.table| && WalkCost(walk) == o.view.table[h].modificationCost
    ensures InfoOf(o.view.table, h) in o.best
  {
    hide KeptOk, WaysOk, TiesOk, AllSettled, IsWalk, WalkCost, IsFrontier, Machine.FailsSoon;
    var table := o.view.table;
    var tight := SomeTightWalk(o, h);
    assert IsEosWalk(o, tight, h);
    NoCheaperWalk(m, table, o.edges, o.view.ways, walk, h);
    FrontierIsExact(o.best, o.inserted);
    var info := InfoOf(table, h);
    forall y | y in o.inserted
      ensures !Dominates(y, info)
    {
      assert y == InfoOf(table, y.state) && KeyOk(m, cores, table[y.state].key) && KeyOk(m, cores, table[h].key);
      if y.totalAdvancedTokens >= info.totalAdvancedTokens {
        var other := SomeTightWalk(o, y.state);
        assert IsEosWalk(o, other, y.state);
      }
    }
  }

  lemma {:induction false} EosPathsHold(table: seq<StateData>, edges: seq<Edge>, ways: set<Way>, best: seq<ErrorInfo>,
                                        i: nat, path: seq<nat>)
    requires KeptOk(table, edges, ways) && i < |best| && IsEos(table, best[i])
    requires path in Paths(table, edges, ways, best[i].state)
    ensures path in EosPaths(table, edges, ways, best)
    decreases |best|
  {
    hide KeptOk, Paths;
    var n := |best| - 1;
    if i < n {
      EosPathsHold(table, edges, ways, best[..n], i, path);
    }
  }

  /**
   Unless there are more than eight paths, or a state on the way has more equally cheap edges than are kept, every
   cheapest walk to the end of the source is reported.
   */
  lemma EveryCheapestIsReported(m: Machine, cores: set<Core>, o: Outcome, walk: seq<Way>, h: nat) returns (i: nat)
    requires SearchDone(m, cores, o) && IsCheapestEosWalk(o, walk, h) && HasRoom(o.view.table, walk)
    requires |EosPaths(o.view.table, o.edges, o.view.ways, o.best)| <= MAX_RECOVERY_PATHS
    ensures i < |Reported(o)| && EdgeIds(o.edges, Reported(o)[i])
    ensures WaysOf(o.edges, Reported(o)[i], h) == walk
  {
    hide KeptOk, WaysOk, TiesOk, Finished, TableOk, IsFrontier, IsWalk, WalkCost, IsPath, WaysOf, EosPaths, Paths;
    hide HasRoom, Distinct, EdgeIds;
    CheapestTarget(m, cores, o, walk, h);
    var table, ways := o.view.table, o.view.ways;
    var path := CheapestWalkIsPath(m, table, o.edges, ways, walk, h);
    PathsAreExact(table, o.edges, ways, h);
    var k :| 0 <= k < |o.best| && o.best[k] == InfoOf(table, h);
    EosPathsHold(table, o.edges, ways, o.best, k, path);
    i :| 0 <= i < |Reported(o)| && Reported(o)[i] == path;
  }

  lemma {:induction false} PathsExist(table: seq<StateData>, edges: seq<Edge>, ways: set<Way>, h: nat)
    requires KeptOk(table, edges, ways) && h < |table|
    ensures Paths(table, edges, ways, h) != []
    decreases table[h].modificationCost
  {
    var incoming := Incoming(table, edges, ways, h);
    if incoming != [] {
      var via := Reversed(incoming);
      var n := |via| - 1;
      assert via[n] in incoming;
      PathsExist(table, edges, ways, edges[via[n]].parent);
      assert Paths(table, edges, ways, h) == PathsVia(table, edges, ways, h, via);
    }
  }

  lemma {:induction false} EosPathsExist(table: seq<StateData>, edges: seq<Edge>, ways: set<Way>, best: seq<ErrorInfo>,
                                         i: nat)
    requires KeptOk(table, edges, ways) && i < |best| && IsEos(table, best[i])
    ensures EosPaths(table, edges, ways, best) != []
  {
    hide KeptOk, Paths;
    var n := |best| - 1;
    if i < n {
      EosPathsExist(table, edges, ways, best[..n], i);
    } else {
      PathsExist(table, edges, ways, best[i].state);
    }
  }

  /** A recovery is reported exactly if the search reached the end of the source. */
  lemma ReportedUnlessUnreached(m: Machine, cores: set<Core>, o: Outcome)
    requires SearchDone(m, cores, o)
    ensures Reported(o) != [] <==> exists h :: 0 <= h < |o.view.table| && o.view.table[h].key.status == EOS
  {
    hide KeptOk, WaysOk, AllSettled, EosPaths;
    var table, ways := o.view.table, o.view.ways;
    if h :| 0 <= h < |table| && table[h].key.status == EOS {
      var x := InfoOf(table, h);
      assert x in o.inserted && KeyOk(m, cores, table[h].key);
      var b := if x in o.best then x else var b :| b in o.best && Dominates(b, x); b;
      assert b == InfoOf(table, b.state) && KeyOk(m, cores, table[b.state].key);
      var i :| 0 <= i < |o.best| && o.best[i] == b;
      EosPathsExist(table, o.edges, ways, o.best, i);
    } else {
      if Reported(o) != [] {
        var info := EosPathTarget(table, o.edges, ways, o.best, EosPaths(table, o.edges, ways, o.best)[0]);
        assert false;
      }
    }
  }

  /** If every parser state can be completed, a recovery is reported. */
  lemma CompletableIsReported(m: Machine, cores: set<Core>, o: Outcome)
    requires SearchDone(m, cores, o) && Completable(m, cores)
    ensures Reported(o) != []
  {
    hide Finished, Searched, IsFrontier, KeptOk, EosPaths;
    var eos := SearchReachesEnd(m, cores, o.view, o.inserted);
    ReportedUnlessUnreached(m, cores, o);
  }
}
