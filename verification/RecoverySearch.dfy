/**
 The search for the cheapest edits that let the parser reach the end of the source: a bucket queue over interned
 parser states.
 */
module RecoverySearch {
  import opened Options
  import opened TokenMachine
  import opened SearchGraph
  import opened Frontier

  const MAX_STATES: nat := 100000
  const UNKNOWN_COST: nat := 0xFFFF_FFFF

  function InfoOf(table: seq<StateData>, h: nat): ErrorInfo
    requires h < |table|
  {
    ErrorInfo(h, table[h].sourceTokenIndex, table[h].modificationCost)
  }

  /** The frontier has seen exactly the expanded states. */
  ghost predicate InsertedOk(table: seq<StateData>, inserted: set<ErrorInfo>) {
    && (forall h :: 0 <= h < |table| && table[h].expanded ==> InfoOf(table, h) in inserted)
    && (forall x :: x in inserted ==> x.state < |table| && table[x.state].expanded && x == InfoOf(table, x.state))
  }

  class RecoveryState {
    const machine: Machine
    ghost const cores: set<Core>
    var stateTable: seq<StateData>
    var ids: map<Key, nat>
    var edges: seq<Edge>
    /** One bucket of handles per cost; a handle counts only while its state is unexpanded and has that cost. */
    var queue: seq<seq<nat>>
    var bestErrors: seq<ErrorInfo>
    /** All edges that were ever generated. */
    ghost var ways: set<Way>
    /** All entries that were ever inserted into bestErrors. */
    ghost var inserted: set<ErrorInfo>

    ghost function View(): SearchView
      reads this
    {
      SearchView(stateTable, ids, ways, |queue|)
    }

    /** The invariant while the bucket of `cost` is drained. */
    ghost predicate Searching(cost: nat)
      reads this
    {
      && machine.Closed(cores)
      && TableOk(machine, cores, stateTable, ids)
      && GraphOk(machine, stateTable, edges, ways, queue, cost, {})
      && TiesOk(stateTable, edges, ways)
      && IsFrontier(bestErrors, inserted)
      && InsertedOk(stateTable, inserted)
    }

    constructor (machine: Machine, ghost cores: set<Core>)
      requires machine.Closed(cores)
      ensures this.machine == machine && this.cores == cores
      ensures Searching(0) && stateTable == [] && ways == {}
    {
      this.machine, this.cores := machine, cores;
      stateTable, ids, edges, queue, bestErrors := [], map[], [], [], [];
      ways, inserted := {}, {};
    }

    /** The handle of the state for `saved`, which is added to the table unless it is known. */
    method Intern(saved: SavedState, sourceTokenIndex: nat) returns (handle: nat, isNew: bool)
      requires TableOk(machine, cores, stateTable, ids)
      requires KeyOk(machine, cores, saved.key) && sourceTokenIndex == saved.key.pos
      modifies this`stateTable, this`ids
      ensures TableOk(machine, cores, stateTable, ids)
      ensures handle < |stateTable| && stateTable[handle].key == saved.key
      ensures stateTable[handle].sourceTokenIndex == sourceTokenIndex
      ensures isNew <==> old(saved.key !in ids)
      ensures Keeps(old(ids), ids)
      ensures isNew ==> handle == old(|stateTable|)
      ensures stateTable == if !isNew then old(stateTable) else
        old(stateTable) + [StateData(saved.key, sourceTokenIndex, UNKNOWN_COST, None, 0, false)]
    {
      isNew := saved.key !in ids;
      if isNew {
        handle := |stateTable|;
        ids := ids[saved.key := handle];
        stateTable := stateTable + [StateData(saved.key, sourceTokenIndex, UNKNOWN_COST, None, 0, false)];
      } else {
        handle := ids[saved.key];
      }
    }

    method Enqueue(handle: nat, modificationCost: nat)
      modifies this`queue
      ensures queue == Enqueued(old(queue), handle, modificationCost)
    {
      if modificationCost >= |queue| {
        queue := queue + seq(modificationCost + 1 - |queue|, _ => []);
      }
      queue := queue[modificationCost := queue[modificationCost] + [handle]];
    }

    /** Adds a state at no cost, which no edge leads to. */
    method AddRootState(saved: SavedState, sourceTokenIndex: nat)
      requires Searching(0) && ways == {} && inserted == {}
      requires KeyOk(machine, cores, saved.key) && sourceTokenIndex == saved.key.pos
      requires IsRootKey(machine, saved.key)
      modifies this`stateTable, this`ids, this`queue
      ensures Searching(0)
      ensures stateTable == if old(saved.key in ids) then old(stateTable) else
        old(stateTable) + [StateData(saved.key, sourceTokenIndex, 0, None, 0, false)]
      ensures saved.key in ids && Keeps(old(ids), ids)
    {
      hide TableOk, GraphOk, TiesOk, IsFrontier, InsertedOk, Enqueued, IsRootKey, KeyOk;
      ghost var table, queueBefore := stateTable, queue;
      var handle, isNew := Intern(saved, sourceTokenIndex);
      if !isNew {
        return;
      }
      ghost var interned := stateTable;
      stateTable := stateTable[handle := stateTable[handle].(modificationCost := 0)];
      Enqueue(handle, 0);
      InternKeepsGraph(machine, table, edges, ways, queueBefore, 0, stateTable[handle]);
      RootKeepsInvariants(machine, table, stateTable[handle], edges, queueBefore);
      SameCostsKeepTies(table, stateTable, edges, ways);
      SameKeysKeepTable(machine, cores, interned, stateTable, ids);
      assert stateTable == table + [stateTable[handle]];
    }

    /** The invariant when a state was interned that no edge leads to yet. */
    ghost predicate Interned(cost: nat, handle: nat, isNew: bool)
      reads this
    {
      && machine.Closed(cores)
      && TableOk(machine, cores, stateTable, ids)
      && GraphOk(machine, stateTable, edges, ways, queue, cost, if isNew then {handle} else {})
      && TiesOk(stateTable, edges, ways)
      && IsFrontier(bestErrors, inserted)
      && InsertedOk(stateTable, inserted)
      && handle < |stateTable|
      && (isNew ==> stateTable[handle].lastIncomingEdge == None && !stateTable[handle].expanded
                    && forall w :: w in ways ==> w.target != handle)
    }

    /** Records that applying `recovery` to the parent and parsing on leads to the state `saved`. */
    method AddState(parent: nat, recovery: Element, sourceTokenIndex: nat, saved: SavedState, ghost cost: nat)
      requires Searching(cost)
      requires parent < |stateTable| && stateTable[parent].expanded && stateTable[parent].modificationCost == cost
      requires KeyOk(machine, cores, saved.key) && sourceTokenIndex == saved.key.pos
      requires Leads(machine, stateTable[parent].key, recovery, saved.key)
      modifies this`stateTable, this`ids, this`edges, this`queue, this`ways
      ensures Searching(cost) && Grows(old(View()), View())
      ensures saved.key in ids && ways == old(ways) + {Way(parent, recovery, ids[saved.key])}
    {
      hide TableOk, GraphOk, TiesOk, IsFrontier, KeyOk, Leads, InsertedOk, Extends, SameExpanded, Keeps, LinkOutcome;
      ghost var table := stateTable;
      var modificationCost := stateTable[parent].modificationCost + recovery.Cost();
      var handle, isNew := Intern(saved, sourceTokenIndex);
      ghost var interned := stateTable;
      TableExtendsItself(table);
      if isNew {
        InternKeepsGraph(machine, table, edges, ways, queue, cost, stateTable[handle]);
        NoWayToNewState(machine, table, edges, ways, queue, cost);
        SameCostsKeepTies(table, stateTable, edges, ways);
        LinkExtends(table, interned, handle, interned[handle]);
        assert interned[handle := interned[handle]] == interned;
      }
      ExtensionKeepsInserted(table, stateTable, inserted);
      LinkOrDrop(parent, recovery, handle, isNew, modificationCost, cost);
      OutcomeExtends(table, interned, edges, queue, stateTable, handle, parent, recovery, isNew,
                     old(edges), old(queue));
    }

    /** Links the edge to a state that it makes cheaper, or keeps it as one of the ties there is room for. */
    method LinkOrDrop(parent: nat, recovery: Element, handle: nat, isNew: bool, modificationCost: nat, ghost cost: nat)
      requires Interned(cost, handle, isNew)
      requires parent < |stateTable| && stateTable[parent].expanded && stateTable[parent].modificationCost == cost
      requires Leads(machine, stateTable[parent].key, recovery, stateTable[handle].key)
      requires modificationCost == cost + recovery.Cost()
      modifies this`stateTable, this`edges, this`queue, this`ways
      ensures Searching(cost) && ways == old(ways) + {Way(parent, recovery, handle)}
      ensures LinkOutcome(old(stateTable), old(edges), old(queue), handle, parent, recovery, isNew,
                          stateTable, edges, queue)
    {
      hide TableOk, GraphOk, TiesOk, IsFrontier, Enqueued, Leads, InsertedOk, Extends, SameExpanded;
      ghost var interned, edgesBefore, queueBefore := stateTable, edges, queue;
      ghost var cheaper := isNew || modificationCost < stateTable[handle].modificationCost;
      KnownTarget(machine, interned, edges, ways, queue, cost, if isNew then {handle} else {}, handle);
      ways := ways + {Way(parent, recovery, handle)};
      if isNew || modificationCost < stateTable[handle].modificationCost {
        // `GraphOk` bounds the costs of expanded states by `cost`, which is less than the new one.
        assert !stateTable[handle].expanded;
        stateTable := stateTable[handle := stateTable[handle].(modificationCost := modificationCost,
                                                               lastIncomingEdge := None, incomingEdges := 0)];
        Enqueue(handle, modificationCost);
      } else if modificationCost > stateTable[handle].modificationCost
                || stateTable[handle].incomingEdges >= MAX_INCOMING_EDGES {
        WayKeepsGraph(machine, interned, edges, old(ways), queue, cost, {}, Way(parent, recovery, handle));
        DropKeepsTies(interned, edges, old(ways), Way(parent, recovery, handle));
        return;
      }
      edges := edges + [Edge(parent, recovery, stateTable[handle].lastIncomingEdge)];
      stateTable := stateTable[handle := stateTable[handle].(lastIncomingEdge := Some(|edges| - 1),
                                                             incomingEdges := stateTable[handle].incomingEdges + 1)];
      LinkKeepsGraph(machine, interned, edgesBefore, old(ways), queueBefore, cost, if isNew then {handle} else {},
                     handle, parent, recovery, cheaper);
      LinkKeepsTies(machine, interned, edgesBefore, old(ways), handle, parent, recovery, cheaper);
      var data := Linked(interned[handle], modificationCost, |edgesBefore|, cheaper);
      assert stateTable == interned[handle := data];
      SameKeysKeepTable(machine, cores, interned, stateTable, ids);
      UnexpandedIsNotInserted(interned, inserted, handle, data);
    }

    /** AddState, with what it did since `start`. */
    method RecordTarget(handle: nat, c: Element, sourceTokenIndex: nat, target: SavedState, ghost cost: nat,
                        ghost start: SearchView)
      requires Searching(cost) && Grows(start, View())
      requires IsTarget(machine, start, handle, cost, c, sourceTokenIndex, target.key)
      modifies this`stateTable, this`ids, this`edges, this`queue, this`ways
      ensures Searching(cost) && Grows(start, View())
      ensures Recorded(View(), handle, c, target.key)
      ensures forall t :: Recorded(old(View()), handle, c, t) ==> Recorded(View(), handle, c, t)
    {
      hide TableOk, GraphOk, IsFrontier, InsertedOk, KeyOk, Leads, Grows, Machine.Targets, Machine.Cases;
      ghost var between := View();
      GrowsKeepsState(start, between, handle);
      TargetIsOk(machine, cores, stateTable, ids, handle, c, target.key);
      AddState(handle, c, sourceTokenIndex, target, cost);
      GrowsTransitive(start, between, View());
      GrowsKeepsRecorded(between, View(), handle, c);
    }

    /** Records all states an edit leads to, each with the number of tokens parsed since the edit. */
    method RecordTargets(handle: nat, c: Element, index: nat, targets: seq<(nat, SavedState)>, ghost cost: nat,
                         ghost start: SearchView)
      requires Searching(cost) && Grows(start, View())
      requires AllTargets(machine, start, handle, cost, c, index, targets)
      modifies this`stateTable, this`ids, this`edges, this`queue, this`ways
      ensures Searching(cost) && Grows(start, View())
      ensures forall j :: 0 <= j < |targets| ==> Recorded(View(), handle, c, targets[j].1.key)
    {
      hide Searching, Grows, IsTarget, Recorded;
      for i := 0 to |targets|
        invariant Searching(cost) && Grows(start, View())
        invariant forall j :: 0 <= j < i ==> Recorded(View(), handle, c, targets[j].1.key)
      {
        RecordTarget(handle, c, index + targets[i].0, targets[i].1, cost, start);
      }
    }

    /** Tries one edit of a state and records the states it leads to. */
    method ExpandCase(parser: SimpleParser, handle: nat, savedState: SavedState, c: Element, ghost cost: nat)
      requires Searching(cost) && parser.Valid() && parser.machine == machine
      requires handle < |stateTable| && stateTable[handle].expanded && stateTable[handle].modificationCost == cost
      requires savedState.key == stateTable[handle].key && Expandable(machine, savedState.key, c)
      modifies parser, this`stateTable, this`ids, this`edges, this`queue, this`ways
      ensures Searching(cost) && parser.Valid() && Grows(old(View()), View())
      ensures CaseDone(machine, View(), handle, savedState.key, c)
    {
      StateIsOk(machine, cores, stateTable, ids, handle);
      GrowsFromItself(View());
      hide Searching, Grows, CaseDone, Recorded, AllTargets, KeyOk, Machine.Targets, Machine.Cases;
      ghost var start := View();
      var index := stateTable[handle].sourceTokenIndex + c.Skips();
      var targets := ParseTargets(parser, savedState, c);
      AreTargets(machine, start, handle, cost, savedState.key, c, targets);
      RecordTargets(handle, c, index, targets, cost, start);
      CaseIsDone(machine, View(), handle, savedState.key, c, targets);
    }

    /** Tries all edits of a state. */
    method ExpandState(parser: SimpleParser, handle: nat, ghost cost: nat)
      requires Searching(cost) && parser.Valid() && parser.machine == machine
      requires handle < |stateTable| && stateTable[handle].expanded && stateTable[handle].modificationCost == cost
      modifies parser, this`stateTable, this`ids, this`edges, this`queue, this`ways
      ensures Searching(cost) && parser.Valid() && Grows(old(View()), View())
      ensures StateDone(machine, View(), handle)
    {
      StateIsOk(machine, cores, stateTable, ids, handle);
      GrowsFromItself(View());
      ghost var start := View();
      var savedState := SavedState(stateTable[handle].key, stateTable[handle].sourceTokenIndex);
      var cases := machine.Cases(savedState.key);
      CasesAreExpandable(machine, cores, savedState.key);
      NoCaseDone(machine, View(), handle, savedState.key);
      hide *;
      assert cases[..0] == [];
      for i := 0 to |cases|
        invariant parser.Valid() && Searching(cost) && Grows(start, View())
        invariant CasesDone(machine, View(), handle, savedState.key, cases[..i])
      {
        ghost var between := View();
        GrowsKeepsState(start, between, handle);
        ExpandCase(parser, handle, savedState, cases[i], cost);
        CaseAdded(machine, start, between, View(), handle, savedState.key, cases, i);
      }
      assert cases[..|cases|] == cases;
      AllCasesDone(machine, start, View(), handle, savedState.key);
    }

    /** Drains one handle from the current bucket, and expands its state unless that was done or is not worth it. */
    method PopAndExpand(parser: SimpleParser, cost: nat)
      requires Searching(cost) && AllSettled(machine, View(), inserted, {})
      requires parser.Valid() && parser.machine == machine && cost < |queue| && queue[cost] != []
      modifies parser, this
      ensures Searching(cost) && AllSettled(machine, View(), inserted, {})
      ensures parser.Valid() && |queue| >= old(|queue|)
      ensures Extends(old(stateTable), stateTable) && ExpandedKeys(old(stateTable)) <= ExpandedKeys(stateTable)
      ensures ExpandedKeys(old(stateTable)) == ExpandedKeys(stateTable) ==>
        |queue| == old(|queue|) && |queue[cost]| < old(|queue[cost]|)
      ensures PopOutcome(machine, old(View()), old(edges), old(inserted), View(), edges, inserted,
                         old(queue[cost][|queue[cost]| - 1]), cost)
    {
      PopKeepsGraph(machine, stateTable, edges, ways, queue, cost);
      TableExtendsItself(stateTable);
      hide TableOk, GraphOk, TiesOk, IncomingOk, IsFrontier, InsertedOk, AllSettled, ExpandedKeys, Extends;
      hide SameExpanded, Grows, ExpandOutcome;
      var last := |queue[cost]| - 1;
      var handle := queue[cost][last];
      queue := queue[cost := queue[cost][..last]];
      if !stateTable[handle].expanded && stateTable[handle].modificationCost == cost {
        ghost var length := |queue|;
        ExpandNow(parser, handle, cost);
      }
    }

    /** Expands the state that was just taken out of its bucket, unless it is pruned. */
    method ExpandNow(parser: SimpleParser, handle: nat, cost: nat)
      requires Poppable(cost, handle) && AllSettled(machine, View(), inserted, {})
      requires parser.Valid() && parser.machine == machine
      modifies parser, this
      ensures Searching(cost) && AllSettled(machine, View(), inserted, {})
      ensures parser.Valid() && |queue| >= old(|queue|)
      ensures Extends(old(stateTable), stateTable) && ExpandedKeys(old(stateTable)) < ExpandedKeys(stateTable)
      ensures ExpandOutcome(machine, old(View()), old(edges), old(inserted), View(), edges, inserted, handle)
    {
      hide Searching, Poppable, IsFrontier, AllSettled, ExpandedKeys, Extends, Grows, StateDone, Superseded;
      ghost var table := stateTable;
      MarkExpanded(handle, cost);
      var conditions := ActiveConditions(|stateTable|);
      FrontierOf(cost);
      var pruned := IsPruned(bestErrors, conditions, stateTable[handle].sourceTokenIndex, cost, inserted);
      assert pruned == PrunedBy(inserted, |stateTable|, stateTable[handle].sourceTokenIndex, cost);
      assert pruned == SupersededNow(table, old(inserted), handle);
      if pruned {
        PrunedIsSettled(machine, View(), inserted, handle, conditions);
        return;
      }
      ghost var before := View();
      ExpandState(parser, handle, cost);
      ExpansionSettles(machine, table, before, View(), inserted, handle);
    }

    lemma FrontierOf(cost: nat)
      requires Searching(cost)
      ensures IsFrontier(bestErrors, inserted)
    {
    }

    /** The invariant when an unexpanded state is in no bucket any more. */
    ghost predicate Poppable(cost: nat, handle: nat)
      reads this
    {
      && machine.Closed(cores)
      && TableOk(machine, cores, stateTable, ids)
      && GraphOk(machine, stateTable, edges, ways, queue, cost, {handle})
      && TiesOk(stateTable, edges, ways)
      && IsFrontier(bestErrors, inserted)
      && InsertedOk(stateTable, inserted)
      && handle < |stateTable| && !stateTable[handle].expanded && stateTable[handle].modificationCost == cost
      && IncomingOk(stateTable, edges, ways, handle)
      && (stateTable[handle].incomingEdges == 0 ==> IsRootKey(machine, stateTable[handle].key))
    }

    method MarkExpanded(handle: nat, cost: nat)
      requires Poppable(cost, handle) && AllSettled(machine, View(), inserted, {})
      modifies this`stateTable, this`bestErrors, this`inserted
      ensures Searching(cost) && AllSettled(machine, View(), inserted, {handle})
      ensures handle < |stateTable| && stateTable[handle].expanded && stateTable[handle].modificationCost == cost
      ensures |stateTable| == |old(stateTable)|
      ensures stateTable == old(stateTable)[handle := old(stateTable)[handle].(expanded := true)]
      ensures inserted == old(inserted) + {InfoOf(stateTable, handle)}
      ensures Extends(old(stateTable), stateTable) && ExpandedKeys(old(stateTable)) < ExpandedKeys(stateTable)
    {
      hide TableOk, GraphOk, TiesOk, IncomingOk, IsFrontier, InsertedOk, AllSettled, ExpandedKeys, Extends, IsRootKey;
      ExpandKeepsGraph(machine, stateTable, edges, ways, queue, cost, handle);
      MarkKeepsInvariants(machine, cores, View(), inserted, handle);
      SameCostsKeepTies(stateTable, stateTable[handle := stateTable[handle].(expanded := true)], edges, ways);
      stateTable := stateTable[handle := stateTable[handle].(expanded := true)];
      var info := InfoOf(stateTable, handle);
      bestErrors := InsertBestError(bestErrors, info, inserted);
      inserted := inserted + {info};
    }

    /** Takes handles out of the buckets, cheapest bucket first, until all buckets are empty. */
    method Grind(parser: SimpleParser)
      requires Searching(0) && AllSettled(machine, View(), inserted, {})
      requires parser.Valid() && parser.machine == machine
      modifies parser, this
      ensures Searching(|queue|) && AllSettled(machine, View(), inserted, {})
      ensures Extends(old(stateTable), stateTable)
      ensures forall h :: 0 <= h < |stateTable| ==> stateTable[h].expanded
    {
      TableExtendsItself(stateTable);
      ghost var start := stateTable;
      var cost := 0;
      hide Searching, AllSettled, Extends, ExpandedKeys, Universe;
      while cost < |queue|
        invariant cost <= |queue| && parser.Valid()
        invariant Searching(cost) && AllSettled(machine, View(), inserted, {}) && Extends(start, stateTable)
        decreases Universe(machine, cores) - ExpandedKeys(stateTable), |queue| - cost
      {
        ghost var before, length := ExpandedKeys(stateTable), |queue|;
        SortBucket(cost);
        while queue[cost] != []
          invariant cost < |queue| && parser.Valid()
          invariant Searching(cost) && AllSettled(machine, View(), inserted, {}) && Extends(start, stateTable)
          invariant before <= ExpandedKeys(stateTable) && (before == ExpandedKeys(stateTable) ==> |queue| == length)
          decreases Universe(machine, cores) - ExpandedKeys(stateTable), |queue[cost]|
        {
          ghost var table := stateTable;
          PopAndExpand(parser, cost);
          ExtendsTransitive(start, table, stateTable);
          ExpandedInUniverse(cost);
        }
        NextCost(cost);
        cost := cost + 1;
        ExpandedInUniverse(cost);
      }
      AllExpanded(cost);
    }

    lemma ExpandedInUniverse(cost: nat)
      requires Searching(cost)
      ensures ExpandedKeys(stateTable) <= Universe(machine, cores)
    {
      forall k | k in ExpandedKeys(stateTable)
        ensures k in Universe(machine, cores)
      {
        var h :| 0 <= h < |stateTable| && stateTable[h].expanded && stateTable[h].key == k;
        assert KeyOk(machine, cores, stateTable[h].key);
      }
    }

    lemma NextCost(cost: nat)
      requires Searching(cost) && cost < |queue| && queue[cost] == []
      ensures Searching(cost + 1)
    {
      NextBucketKeepsGraph(machine, stateTable, edges, ways, queue, cost);
    }

    lemma AllExpanded(cost: nat)
      requires Searching(cost) && cost == |queue|
      ensures forall h :: 0 <= h < |stateTable| ==> stateTable[h].expanded
    {
      forall h | 0 <= h < |stateTable|
        ensures stateTable[h].expanded
      {
        assert StateOk(machine, stateTable, edges, ways, queue, cost, h);
      }
    }

    /** Sorts a bucket by source position, as handles are taken from its end. */
    method SortBucket(cost: nat)
      requires Searching(cost) && cost < |queue|
      modifies this`queue
      ensures Searching(cost) && |queue| == old(|queue|)
      ensures multiset(queue[cost]) == old(multiset(queue[cost]))
      ensures SortedByIndex(stateTable, queue[cost])
    {
      BucketInTable(cost);
      var sorted := Sorted(stateTable, queue[cost]);
      SortKeepsGraph(machine, stateTable, edges, ways, queue, cost, sorted);
      hide GraphOk, TiesOk, Sorted;
      queue := queue[cost := sorted];
    }

    lemma BucketInTable(cost: nat)
      requires Searching(cost) && cost < |queue|
      ensures forall i :: 0 <= i < |queue[cost]| ==> queue[cost][i] < |stateTable|
    {
      assert forall i :: 0 <= i < |queue[cost]| ==> queue[cost][i] in queue[cost];
    }
  }

  /** The states furthest into the source are last. */
  predicate SortedByIndex(table: seq<StateData>, bucket: seq<nat>) {
    && (forall i :: 0 <= i < |bucket| ==> bucket[i] < |table|)
    && (forall i, j :: 0 <= i < j < |bucket| ==> table[bucket[i]].sourceTokenIndex <= table[bucket[j]].sourceTokenIndex)
  }

  function Sorted(table: seq<StateData>, bucket: seq<nat>): (sorted: seq<nat>)
    requires forall i :: 0 <= i < |bucket| ==> bucket[i] < |table|
    ensures SortedByIndex(table, sorted) && multiset(sorted) == multiset(bucket)
  {
    if bucket == [] then []
    else
      assert bucket == [bucket[0]] + bucket[1..];
      Inserted(table, Sorted(table, bucket[1..]), bucket[0])
  }

  function Inserted(table: seq<StateData>, sorted: seq<nat>, h: nat): (sorted': seq<nat>)
    requires SortedByIndex(table, sorted) && h < |table|
    ensures SortedByIndex(table, sorted') && multiset(sorted') == multiset(sorted) + multiset{h}
  {
    if sorted == [] || table[h].sourceTokenIndex <= table[sorted[0]].sourceTokenIndex then [h] + sorted
    else
      var rest := Inserted(table, sorted[1..], h);
      assert sorted == [sorted[0]] + sorted[1..];
      InsertedBehind(table, sorted, h, rest);
      [sorted[0]] + rest
  }

  lemma InsertedBehind(table: seq<StateData>, sorted: seq<nat>, h: nat, rest: seq<nat>)
    requires SortedByIndex(table, sorted) && h < |table| && sorted != []
    requires table[sorted[0]].sourceTokenIndex <= table[h].sourceTokenIndex
    requires SortedByIndex(table, rest) && multiset(rest) == multiset(sorted[1..]) + multiset{h}
    ensures SortedByIndex(table, [sorted[0]] + rest)
  {
    forall j | 0 <= j < |rest|
      ensures table[sorted[0]].sourceTokenIndex <= table[rest[j]].sourceTokenIndex
    {
      assert rest[j] in multiset(rest);
      assert rest[j] == h || rest[j] in sorted[1..];
    }
  }

  /** All keys the search can meet; there are finitely many core states because the scope stack is bounded. */
  ghost function Universe(m: Machine, cores: set<Core>): set<Key> {
    set pos, core, status |
      0 <= pos <= |m.source| + 1 && core in cores && status in {Ready, EOS} :: Key(pos, core, status)
  }

  lemma ExtendsTransitive(a: seq<StateData>, b: seq<StateData>, c: seq<StateData>)
    requires Extends(a, b) && Extends(b, c)
    ensures Extends(a, c)
  {
  }

  ghost function ExpandedKeys(table: seq<StateData>): set<Key> {
    set h | 0 <= h < |table| && table[h].expanded :: table[h].key
  }

  /** The conditions that are active while so many states are known. */
  function ActiveConditions(states: nat): seq<PruneCondition> {
    if states > MAX_STATES then [STRICT_PRUNE_CONDITION] else PRUNE_CONDITIONS
  }

  /** Some entry of the frontier supersedes the state under a condition that is active. */
  ghost predicate PrunedBy(inserted: set<ErrorInfo>, states: nat, index: nat, cost: nat) {
    exists condition :: condition in ActiveConditions(states) && Superseded(inserted, index, cost, condition)
  }

  /** With its own entry in the frontier, one of the conditions that are active supersedes the state. */
  ghost predicate SupersededNow(table: seq<StateData>, inserted: set<ErrorInfo>, h: nat)
    requires h < |table|
  {
    PrunedBy(inserted + {InfoOf(table, h)}, |table|, table[h].sourceTokenIndex, table[h].modificationCost)
  }

  /** The state was expanded: none of its edits was tried if it was superseded, and all of them otherwise. */
  ghost predicate ExpandOutcome(m: Machine, a: SearchView, edges: seq<Edge>, inserted: set<ErrorInfo>, b: SearchView,
                                edges': seq<Edge>, inserted': set<ErrorInfo>, h: nat) {
    && h < |a.table|
    && inserted' == inserted + {InfoOf(a.table, h)}
    && if SupersededNow(a.table, inserted, h) then
         b.table == a.table[h := a.table[h].(expanded := true)] && edges' == edges && b.ways == a.ways
       else StateDone(m, b, h)
  }

  /** A state that was taken out of its bucket is expanded if it was waiting there, and left alone otherwise. */
  ghost predicate PopOutcome(m: Machine, a: SearchView, edges: seq<Edge>, inserted: set<ErrorInfo>, b: SearchView,
                             edges': seq<Edge>, inserted': set<ErrorInfo>, h: nat, cost: nat) {
    && h < |a.table|
    && if a.table[h].expanded || a.table[h].modificationCost != cost then
         b == a && edges' == edges && inserted' == inserted
       else ExpandOutcome(m, a, edges, inserted, b, edges', inserted', h)
  }

  /** The conditions that may have been active until so many states were known. */
  ghost function ConditionsFor(states: nat): seq<PruneCondition> {
    if states > MAX_STATES then PRUNE_CONDITIONS + [STRICT_PRUNE_CONDITION] else PRUNE_CONDITIONS
  }

  /** The state is so far behind that it was not expanded, or all its edits were tried. */
  ghost predicate Settled(m: Machine, view: SearchView, inserted: set<ErrorInfo>, h: nat)
    requires h < |view.table|
  {
    || StateDone(m, view, h)
    || exists condition :: condition in ConditionsFor(|view.table|)
         && Superseded(inserted, view.table[h].sourceTokenIndex, view.table[h].modificationCost, condition)
  }

  ghost predicate AllSettled(m: Machine, view: SearchView, inserted: set<ErrorInfo>, open: set<nat>) {
    forall h :: 0 <= h < |view.table| && view.table[h].expanded && h !in open ==> Settled(m, view, inserted, h)
  }

  /** Marking a state as expanded and inserting it into the frontier. */
  lemma MarkKeepsInvariants(m: Machine, cores: set<Core>, view: SearchView, inserted: set<ErrorInfo>, h: nat)
    requires TableOk(m, cores, view.table, view.ids) && InsertedOk(view.table, inserted)
    requires AllSettled(m, view, inserted, {}) && h < |view.table| && !view.table[h].expanded
    ensures var table := view.table[h := view.table[h].(expanded := true)];
            && TableOk(m, cores, table, view.ids)
            && InsertedOk(table, inserted + {InfoOf(table, h)})
            && AllSettled(m, view.(table := table), inserted + {InfoOf(table, h)}, {h})
            && Extends(view.table, table)
            && ExpandedKeys(view.table) < ExpandedKeys(table)
  {
    hide KeyOk, AllSettled, ExpandedKeys;
    MarkKeepsSettled(m, view, inserted, h);
    MarkExpandsKey(view.table, h);
  }

  lemma MarkExpandsKey(table: seq<StateData>, h: nat)
    requires h < |table| && !table[h].expanded
    requires forall i, j :: 0 <= i < |table| && 0 <= j < |table| && table[i].key == table[j].key ==> i == j
    ensures ExpandedKeys(table) < ExpandedKeys(table[h := table[h].(expanded := true)])
  {
    var table' := table[h := table[h].(expanded := true)];
    assert table'[h].key in ExpandedKeys(table');
    forall k | k in ExpandedKeys(table)
      ensures k in ExpandedKeys(table') && k != table[h].key
    {
      var i :| 0 <= i < |table| && table[i].expanded && table[i].key == k;
      assert table'[i].expanded && table'[i].key == k;
    }
  }

  lemma MarkKeepsSettled(m: Machine, view: SearchView, inserted: set<ErrorInfo>, h: nat)
    requires AllSettled(m, view, inserted, {}) && h < |view.table| && !view.table[h].expanded
    ensures var table := view.table[h := view.table[h].(expanded := true)];
            AllSettled(m, view.(table := table), inserted + {InfoOf(table, h)}, {h})
  {
    var view' := view.(table := view.table[h := view.table[h].(expanded := true)]);
    var inserted' := inserted + {InfoOf(view'.table, h)};
    forall k | 0 <= k < |view'.table| && view'.table[k].expanded && k != h
      ensures Settled(m, view', inserted', k)
    {
      assert Settled(m, view, inserted, k);
      GrownIsSettled(m, view, view', inserted, inserted', k);
    }
  }

  /** More edges and more insertions do not reopen a state. */
  lemma GrownIsSettled(m: Machine, a: SearchView, b: SearchView, inserted: set<ErrorInfo>, inserted': set<ErrorInfo>,
                       h: nat)
    requires h < |a.table| <= |b.table| && a.table[h] == b.table[h]
    requires Keeps(a.ids, b.ids) && a.ways <= b.ways && inserted <= inserted'
    requires Settled(m, a, inserted, h)
    ensures Settled(m, b, inserted', h)
  {
    hide Machine.Targets, Machine.Cases;
    if !StateDone(m, a, h) {
      var index, cost := a.table[h].sourceTokenIndex, a.table[h].modificationCost;
      var condition :| condition in ConditionsFor(|a.table|) && Superseded(inserted, index, cost, condition);
      assert Superseded(inserted', index, cost, condition);
    }
  }

  lemma PrunedIsSettled(m: Machine, view: SearchView, inserted: set<ErrorInfo>, h: nat,
                        conditions: seq<PruneCondition>)
    requires AllSettled(m, view, inserted, {h}) && h < |view.table|
    requires conditions == ActiveConditions(|view.table|)
    requires exists condition :: condition in conditions
               && Superseded(inserted, view.table[h].sourceTokenIndex, view.table[h].modificationCost, condition)
    ensures AllSettled(m, view, inserted, {})
  {
    var condition :| condition in conditions
      && Superseded(inserted, view.table[h].sourceTokenIndex, view.table[h].modificationCost, condition);
    assert condition in ConditionsFor(|view.table|);
  }

  lemma ExpansionSettles(m: Machine, table: seq<StateData>, a: SearchView, b: SearchView, inserted: set<ErrorInfo>,
                         h: nat)
    requires AllSettled(m, a, inserted, {h}) && Grows(a, b) && StateDone(m, b, h)
    requires Extends(table, a.table) && ExpandedKeys(table) < ExpandedKeys(a.table)
    ensures a.buckets <= b.buckets
    ensures AllSettled(m, b, inserted, {}) && Extends(table, b.table) && ExpandedKeys(table) < ExpandedKeys(b.table)
  {
    hide StateDone;
    forall k | 0 <= k < |b.table| && b.table[k].expanded && k != h
      ensures Settled(m, b, inserted, k)
    {
      assert Settled(m, a, inserted, k);
      GrownIsSettled(m, a, b, inserted, inserted, k);
    }
    forall k | k in ExpandedKeys(a.table)
      ensures k in ExpandedKeys(b.table)
    {
      var i :| 0 <= i < |a.table| && a.table[i].expanded && a.table[i].key == k;
      assert b.table[i] == a.table[i];
    }
  }

  ghost predicate CasesDone(m: Machine, view: SearchView, h: nat, k: Key, cases: seq<Element>) {
    forall c :: c in cases ==> k.status == Ready && m.InSource(k) && CaseDone(m, view, h, k, c)
  }

  /** All edits of a state were tried. */
  ghost predicate StateDone(m: Machine, view: SearchView, h: nat) {
    && h < |view.table|
    && m.InSource(view.table[h].key)
    && CasesDone(m, view, h, view.table[h].key, m.Cases(view.table[h].key))
  }

  lemma CasesAreExpandable(m: Machine, cores: set<Core>, k: Key)
    requires KeyOk(m, cores, k)
    ensures forall c :: c in m.Cases(k) ==> Expandable(m, k, c)
  {
  }

  lemma NoCaseDone(m: Machine, view: SearchView, h: nat, k: Key)
    ensures CasesDone(m, view, h, k, [])
  {
  }

  lemma CaseAdded(m: Machine, a: SearchView, b: SearchView, c: SearchView, h: nat, k: Key, cases: seq<Element>, i: nat)
    requires i < |cases| && Grows(a, b) && Grows(b, c) && CasesDone(m, b, h, k, cases[..i])
    requires k.status == Ready && m.InSource(k) && CaseDone(m, c, h, k, cases[i])
    ensures Grows(a, c) && CasesDone(m, c, h, k, cases[..i + 1])
  {
    hide Machine.Targets;
    GrowsTransitive(a, b, c);
    assert cases[..i + 1] == cases[..i] + [cases[i]];
  }

  lemma AllCasesDone(m: Machine, a: SearchView, b: SearchView, h: nat, k: Key)
    requires Grows(a, b) && h < |a.table| && a.table[h].expanded && a.table[h].key == k && m.InSource(k)
    requires CasesDone(m, b, h, k, m.Cases(k))
    ensures StateDone(m, b, h)
  {
  }

  ghost predicate Recorded(view: SearchView, h: nat, c: Element, t: Key) {
    t in view.ids && Way(h, c, view.ids[t]) in view.ways
  }

  /** The edit of an expanded state leads to `target`, which is at `index`. */
  ghost predicate IsTarget(m: Machine, view: SearchView, h: nat, cost: nat, c: Element, index: nat, target: Key) {
    && h < |view.table| && view.table[h].expanded && view.table[h].modificationCost == cost
    && Expandable(m, view.table[h].key, c) && target in m.Targets(view.table[h].key, c)
    && index == target.pos
  }

  lemma AreTargets(m: Machine, view: SearchView, h: nat, cost: nat, k: Key, c: Element, targets: seq<(nat, SavedState)>)
    requires h < |view.table| && view.table[h].expanded && view.table[h].modificationCost == cost
    requires view.table[h].key == k && Expandable(m, k, c) && |targets| == |m.Targets(k, c)|
    requires forall i :: 0 <= i < |targets| ==>
      targets[i].1.key == m.Targets(k, c)[i] && targets[i].1.key.pos == k.pos + c.Skips() + targets[i].0
    ensures AllTargets(m, view, h, cost, c, k.pos + c.Skips(), targets)
  {
    hide Machine.Targets, Machine.Cases;
  }

  ghost predicate AllTargets(m: Machine, view: SearchView, h: nat, cost: nat, c: Element, index: nat,
                             targets: seq<(nat, SavedState)>) {
    forall i :: 0 <= i < |targets| ==> IsTarget(m, view, h, cost, c, index + targets[i].0, targets[i].1.key)
  }

  lemma CaseIsDone(m: Machine, view: SearchView, h: nat, k: Key, c: Element, targets: seq<(nat, SavedState)>)
    requires k.status == Ready && m.InSource(k) && |targets| == |m.Targets(k, c)|
    requires forall i :: 0 <= i < |targets| ==> targets[i].1.key == m.Targets(k, c)[i]
    requires forall j :: 0 <= j < |targets| ==> Recorded(view, h, c, targets[j].1.key)
    ensures CaseDone(m, view, h, k, c)
  {
    hide Machine.Targets, Recorded;
    forall t | t in m.Targets(k, c)
      ensures Recorded(view, h, c, t)
    {
      var i :| 0 <= i < |targets| && m.Targets(k, c)[i] == t;
      assert targets[i].1.key == t;
    }
  }

  /**
   The states after an edit that the search continues from, found by parsing up to the next error, each with the
   number of tokens parsed since the edit.
   */
  method ParseTargets(parser: SimpleParser, savedState: SavedState, c: Element)
    returns (targets: seq<(nat, SavedState)>)
    requires parser.Valid() && savedState.key.status == Ready && parser.machine.InSource(savedState.key)
    modifies parser
    ensures parser.Valid()
    ensures |targets| == |parser.machine.Targets(savedState.key, c)|
    ensures forall i :: 0 <= i < |targets| ==>
      && targets[i].1.key == parser.machine.Targets(savedState.key, c)[i]
      && targets[i].1.key.pos == savedState.key.pos + c.Skips() + targets[i].0
  {
    hide Machine.Run, Machine.RunAll, Machine.Apply, Machine.Step, Machine.ParsesTo;
    parser.Restore(savedState);
    parser.Apply(c);
    if parser.state.key.status != Ready {
      return [];
    }
    parser.machine.TargetsShape(savedState.key, c);
    hide Machine.Targets;
    var prevParsedTokens := parser.state.parsedTokens;
    parser.Parse(-1);
    var validTokensUntilError := parser.state.parsedTokens - prevParsedTokens;
    if parser.state.key.status == EOS {
      return [(validTokensUntilError, parser.state)];
    }
    parser.Restore(savedState);
    parser.Apply(c);
    targets := [];
    if validTokensUntilError > 1 {
      parser.Parse(validTokensUntilError - 1);
      targets := [(validTokensUntilError - 1, parser.state)];
      parser.Parse(1);
    } else {
      parser.Parse(validTokensUntilError);
    }
    targets := targets + [(validTokensUntilError, parser.state)];
  }

  lemma GrowsKeepsRecorded(a: SearchView, b: SearchView, h: nat, c: Element)
    requires Grows(a, b)
    ensures forall t :: Recorded(a, h, c, t) ==> Recorded(b, h, c, t)
  {
  }

  datatype SearchView = SearchView(table: seq<StateData>, ids: map<Key, nat>, ways: set<Way>, buckets: nat)

  /** Recording edges only adds to what is known, apart from unexpanded states becoming cheaper. */
  ghost predicate Grows(a: SearchView, b: SearchView) {
    && Extends(a.table, b.table)
    && SameExpanded(a.table, b.table)
    && Keeps(a.ids, b.ids)
    && a.ways <= b.ways
    && a.buckets <= b.buckets
  }

  lemma GrowsFromItself(a: SearchView)
    ensures Grows(a, a)
  {
  }

  lemma GrowsTransitive(a: SearchView, b: SearchView, c: SearchView)
    requires Grows(a, b) && Grows(b, c)
    ensures Grows(a, c)
  {
  }

  lemma GrowsKeepsState(a: SearchView, b: SearchView, h: nat)
    requires Grows(a, b) && h < |a.table| && a.table[h].expanded
    ensures h < |b.table| && b.table[h] == a.table[h]
  {
  }

  /** All states that the edit leads to are known, and so are the edges to them. */
  ghost predicate CaseDone(m: Machine, view: SearchView, h: nat, k: Key, c: Element)
    requires k.status == Ready && m.InSource(k)
  {
    forall t :: t in m.Targets(k, c) ==> Recorded(view, h, c, t)
  }

  ghost predicate Keeps(old_: map<Key, nat>, new_: map<Key, nat>) {
    forall k :: k in old_ ==> k in new_ && new_[k] == old_[k]
  }

  predicate Expandable(m: Machine, k: Key, c: Element) {
    k.status == Ready && m.InSource(k) && c in m.Cases(k)
  }

  lemma StateIsOk(m: Machine, cores: set<Core>, table: seq<StateData>, ids: map<Key, nat>, h: nat)
    requires TableOk(m, cores, table, ids) && h < |table|
    ensures KeyOk(m, cores, table[h].key) && m.InSource(table[h].key) && table[h].sourceTokenIndex == table[h].key.pos
  {
  }

  lemma TargetIsOk(m: Machine, cores: set<Core>, table: seq<StateData>, ids: map<Key, nat>, h: nat, c: Element, t: Key)
    requires m.Closed(cores) && TableOk(m, cores, table, ids) && h < |table|
    requires Expandable(m, table[h].key, c) && t in m.Targets(table[h].key, c)
    ensures KeyOk(m, cores, t) && Leads(m, table[h].key, c, t)
  {
    StateIsOk(m, cores, table, ids, h);
    m.TargetsAreStops(table[h].key, c, t);
    m.TargetsStay(cores, table[h].key, c, t);
  }

  /** Old states kept their flag, and new states are not expanded. */
  ghost predicate SameExpanded(old_: seq<StateData>, new_: seq<StateData>) {
    |old_| <= |new_| && forall h :: 0 <= h < |new_| ==> (new_[h].expanded <==> h < |old_| && old_[h].expanded)
  }

  lemma LinkExtends(table: seq<StateData>, interned: seq<StateData>, h: nat, data: StateData)
    requires h < |interned| && (interned == table || (h == |table| && interned == table + [interned[h]]))
    requires h < |table| ==> data.key == table[h].key && data.modificationCost <= table[h].modificationCost
                             && !table[h].expanded
    requires !data.expanded
    ensures Extends(table, interned[h := data]) && SameExpanded(table, interned[h := data])
  {
  }

  lemma TableExtendsItself(table: seq<StateData>)
    ensures Extends(table, table) && SameExpanded(table, table)
  {
  }

  lemma ExtensionKeepsInserted(table: seq<StateData>, table': seq<StateData>, inserted: set<ErrorInfo>)
    requires InsertedOk(table, inserted) && Extends(table, table') && SameExpanded(table, table')
    ensures InsertedOk(table', inserted)
  {
  }

  lemma NoWayToNewState(m: Machine, table: seq<StateData>, edges: seq<Edge>, ways: set<Way>, queue: seq<seq<nat>>,
                        cost: nat)
    requires GraphOk(m, table, edges, ways, queue, cost, {})
    ensures forall w :: w in ways ==> w.target < |table|
  {
    forall w | w in ways
      ensures w.target < |table|
    {
      assert WayOk(m, table, w);
    }
  }

  /** Everything that is known about the target of an edge and that does not show in its data. */
  lemma KnownTarget(m: Machine, table: seq<StateData>, edges: seq<Edge>, ways: set<Way>, queue: seq<seq<nat>>,
                    cost: nat, added: set<nat>, h: nat)
    requires GraphOk(m, table, edges, ways, queue, cost, added) && h < |table|
    ensures WaysOk(m, table, ways)
    ensures h !in added && table[h].expanded ==> table[h].modificationCost <= cost
    ensures h !in added && table[h].lastIncomingEdge.Some? ==> table[h].lastIncomingEdge.value < |edges|
  {
    assert h !in added ==> StateOk(m, table, edges, ways, queue, cost, h);
  }

  /** What adding an edge to `h` does: it starts a new list, tops the list of ties, or is dropped. */
  ghost predicate LinkOutcome(table: seq<StateData>, edges: seq<Edge>, queue: seq<seq<nat>>, h: nat, parent: nat,
                              e: Element, isNew: bool, table': seq<StateData>, edges': seq<Edge>,
                              queue': seq<seq<nat>>) {
    && h < |table| && parent < |table|
    && var cost := table[parent].modificationCost + e.Cost();
       var cheaper := isNew || cost < table[h].modificationCost;
       if cheaper || (cost == table[h].modificationCost && table[h].incomingEdges < MAX_INCOMING_EDGES) then
         && !table[h].expanded
         && table' == table[h := Linked(table[h], cost, |edges|, cheaper)]
         && edges' == edges + [NewEdge(table[h], parent, e, cheaper)]
         && queue' == if cheaper then Enqueued(queue, h, cost) else queue
       else
         table' == table && edges' == edges && queue' == queue
  }

  /** Whatever happens to an edge, nothing is forgotten. */
  lemma OutcomeExtends(table: seq<StateData>, interned: seq<StateData>, edges': seq<Edge>, queue': seq<seq<nat>>,
                       table': seq<StateData>, h: nat, parent: nat, e: Element, isNew: bool, edges: seq<Edge>,
                       queue: seq<seq<nat>>)
    requires LinkOutcome(interned, edges, queue, h, parent, e, isNew, table', edges', queue')
    requires Extends(table, interned) && SameExpanded(table, interned)
    requires if isNew then interned == table + [interned[h]] && h == |table| && !interned[h].expanded
             else interned == table
    ensures Extends(table, table') && SameExpanded(table, table') && |queue| <= |queue'|
  {
    var cost := interned[parent].modificationCost + e.Cost();
    var cheaper := isNew || cost < interned[h].modificationCost;
    if cheaper || (cost == interned[h].modificationCost && interned[h].incomingEdges < MAX_INCOMING_EDGES) {
      var data := Linked(interned[h], cost, |edges|, cheaper);
      assert table' == interned[h := data];
    }
  }

  /** Only expanded states were inserted into the frontier. */
  lemma UnexpandedIsNotInserted(table: seq<StateData>, inserted: set<ErrorInfo>, h: nat, data: StateData)
    requires InsertedOk(table, inserted) && h < |table| && !table[h].expanded && !data.expanded
    ensures InsertedOk(table[h := data], inserted)
  {
  }

  lemma SameKeysKeepTable(m: Machine, cores: set<Core>, table: seq<StateData>, table': seq<StateData>,
                          ids: map<Key, nat>)
    requires TableOk(m, cores, table, ids) && |table'| == |table|
    requires forall h :: 0 <= h < |table| ==>
      table'[h].key == table[h].key && table'[h].sourceTokenIndex == table[h].sourceTokenIndex
    ensures TableOk(m, cores, table', ids)
  {
    hide KeyOk;
  }

  lemma RootKeepsInvariants(m: Machine, table: seq<StateData>, root: StateData, edges: seq<Edge>, queue: seq<seq<nat>>)
    requires GraphOk(m, table + [root], edges, {}, queue, 0, {|table|})
    requires IsRootKey(m, root.key) && InsertedOk(table, {})
    requires root.modificationCost == 0 && root.lastIncomingEdge == None && root.incomingEdges == 0 && !root.expanded
    ensures GraphOk(m, table + [root], edges, {}, Enqueued(queue, |table|, 0), 0, {})
    ensures InsertedOk(table + [root], {})
  {
    var table', queue' := table + [root], Enqueued(queue, |table|, 0);
    EnqueueKeepsWaiting(table', queue, |table|, 0);
    hide IsRootKey, BucketsOk, IncomingOk;
    forall h | 0 <= h < |table|
      ensures StateOk(m, table', edges, {}, queue', 0, h)
    {
      assert StateOk(m, table', edges, {}, queue, 0, h);
    }
  }
}
