/**
 The data of the recovery search as values, and what holds of it in every reachable state of the search.
 */
module SearchGraph {
  import opened Options
  import opened TokenMachine

  const MAX_INCOMING_EDGES: nat := 4

  datatype StateData = StateData(
    key: Key,
    /** `TableOk` keeps it equal to `key.pos`. */
    sourceTokenIndex: nat,
    /** `NoCheaperWalk` says what this is the minimum of. */
    modificationCost: nat,
    /** The head of the chain of kept edges, whose length is the next field. */
    lastIncomingEdge: Option<nat>,
    incomingEdges: nat,
    expanded: bool)

  /** A kept edge; the edges into one state form a chain over `prevIncomingEdge`. */
  datatype Edge = Edge(parent: nat, recovery: Element, prevIncomingEdge: Option<nat>)

  /** An edge the search ever generated, whether or not it was kept. */
  datatype Way = Way(parent: nat, recovery: Element, target: nat)

  ghost predicate TableOk(m: Machine, cores: set<Core>, table: seq<StateData>, ids: map<Key, nat>) {
    && (forall k :: k in ids ==> ids[k] < |table| && table[ids[k]].key == k)
    && (forall h :: 0 <= h < |table| ==> table[h].key in ids && ids[table[h].key] == h)
    && (forall h :: 0 <= h < |table| ==> KeyOk(m, cores, table[h].key) && table[h].sourceTokenIndex == table[h].key.pos)
  }

  /** Interned states are ready or done, and a ready one is at most one valid token in front of an error. */
  ghost predicate KeyOk(m: Machine, cores: set<Core>, k: Key) {
    && m.InSource(k)
    && (k.status == Ready || k.status == EOS)
    && k.core in cores
    && m.FailsSoon(k)
  }

  /** `to` is one of the states that the edit `e`, which is tried at `from`, leads to. */
  ghost predicate Leads(m: Machine, from: Key, e: Element, to: Key) {
    && from.status == Ready && m.InSource(from)
    && e in m.Cases(from)
    && to in m.Targets(from, e)
  }

  ghost predicate EdgesOk(edges: seq<Edge>) {
    forall e :: 0 <= e < |edges| && edges[e].prevIncomingEdge.Some? ==> edges[e].prevIncomingEdge.value < e
  }

  /** The linked list of edges that ends in `last`, latest edge first. */
  ghost function Chain(edges: seq<Edge>, last: Option<nat>): (chain: seq<nat>)
    requires EdgesOk(edges) && (last.Some? ==> last.value < |edges|)
    ensures forall e :: e in chain ==> e < |edges|
    decreases if last.Some? then last.value + 1 else 0
  {
    if last.None? then [] else [last.value] + Chain(edges, edges[last.value].prevIncomingEdge)
  }

  ghost predicate IncomingOk(table: seq<StateData>, edges: seq<Edge>, ways: set<Way>, h: nat)
    requires EdgesOk(edges) && h < |table|
  {
    && (table[h].lastIncomingEdge.Some? ==> table[h].lastIncomingEdge.value < |edges|)
    && var incoming := Chain(edges, table[h].lastIncomingEdge);
       && |incoming| == table[h].incomingEdges <= MAX_INCOMING_EDGES
       && (forall e :: e in incoming ==> Tight(table, edges, ways, h, e))
       && (incoming == [] ==> table[h].modificationCost == 0)
  }

  /** A kept edge was generated, comes from an expanded state and explains the cost of its target exactly. */
  ghost predicate Tight(table: seq<StateData>, edges: seq<Edge>, ways: set<Way>, h: nat, e: nat)
    requires h < |table| && e < |edges|
  {
    && edges[e].parent < |table|
    && Way(edges[e].parent, edges[e].recovery, h) in ways
    && table[edges[e].parent].expanded
    && table[edges[e].parent].modificationCost + edges[e].recovery.Cost() == table[h].modificationCost
  }

  /** A generated edge leads where the parser goes, and its target is never costlier than this way to it. */
  ghost predicate WayOk(m: Machine, table: seq<StateData>, w: Way) {
    && w.parent < |table| && w.target < |table|
    && table[w.parent].expanded
    && table[w.target].modificationCost <= table[w.parent].modificationCost + w.recovery.Cost()
    && Leads(m, table[w.parent].key, w.recovery, table[w.target].key)
  }

  ghost predicate WaysOk(m: Machine, table: seq<StateData>, ways: set<Way>) {
    forall w :: w in ways ==> WayOk(m, table, w)
  }

  /** The state in front of the first error, and the one a valid token earlier. */
  ghost function RootKeys(m: Machine): set<Key> {
    var start := Key(0, m.start, Ready);
    var stop := m.RunAll(start);
    if !IsError(stop.status) then {}
    else if stop.pos > 1 then {m.Run(start, stop.pos - 1), m.Run(start, stop.pos)}
    else {m.Run(start, stop.pos)}
  }

  ghost predicate IsRootKey(m: Machine, k: Key) {
    k in RootKeys(m)
  }

  /** The roots are the states in front of the first error of the source. */
  lemma RootKeysAreExact(m: Machine, k: Key)
    ensures k in RootKeys(m) <==>
      var start := Key(0, m.start, Ready);
      IsError(m.RunAll(start).status) && m.IsInFrontOfError(start, k)
  {
    hide Machine.Run, Machine.RunAll;
    var start := Key(0, m.start, Ready);
    if IsError(m.RunAll(start).status) {
      m.InFrontOfErrorIsExact(start, k);
    }
  }

  /** While the bucket of `cost` is drained, cheaper states are expanded and the others wait in their buckets. */
  ghost predicate Waits(data: StateData, h: nat, queue: seq<seq<nat>>, cost: nat) {
    if data.expanded then data.modificationCost <= cost
    else cost <= data.modificationCost < |queue| && h in queue[data.modificationCost]
  }

  ghost predicate StateOk(m: Machine, table: seq<StateData>, edges: seq<Edge>, ways: set<Way>, queue: seq<seq<nat>>,
                          cost: nat, h: nat)
    requires EdgesOk(edges) && h < |table|
  {
    && IncomingOk(table, edges, ways, h)
    && (table[h].incomingEdges == 0 ==> IsRootKey(m, table[h].key))
    && Waits(table[h], h, queue, cost)
  }

  ghost predicate BucketsOk(table: seq<StateData>, queue: seq<seq<nat>>) {
    forall c, h :: 0 <= c < |queue| && h in queue[c] ==> h < |table|
  }

  /** The invariant of the search graph, which a state that is just being added does not have to meet yet. */
  ghost predicate GraphOk(m: Machine, table: seq<StateData>, edges: seq<Edge>, ways: set<Way>, queue: seq<seq<nat>>,
                          cost: nat, added: set<nat>) {
    && EdgesOk(edges)
    && WaysOk(m, table, ways)
    && BucketsOk(table, queue)
    && forall h :: 0 <= h < |table| && h !in added ==> StateOk(m, table, edges, ways, queue, cost, h)
  }

  /** Handles keep their key for ever, costs only fall, and the cost of an expanded state is final. */
  ghost predicate Extends(old_: seq<StateData>, new_: seq<StateData>) {
    && |old_| <= |new_|
    && forall h :: 0 <= h < |old_| ==>
         && new_[h].key == old_[h].key
         && new_[h].modificationCost <= old_[h].modificationCost
         && (old_[h].expanded ==> new_[h] == old_[h])
  }

  // What interning, linking and expanding do to the invariants.

  lemma {:induction false} ChainStable(edges: seq<Edge>, edge: Edge, last: Option<nat>)
    requires EdgesOk(edges) && EdgesOk(edges + [edge]) && (last.Some? ==> last.value < |edges|)
    ensures Chain(edges + [edge], last) == Chain(edges, last)
    decreases if last.Some? then last.value + 1 else 0
  {
    if last.Some? {
      assert (edges + [edge])[last.value] == edges[last.value];
      ChainStable(edges, edge, edges[last.value].prevIncomingEdge);
    }
  }

  /** An interned state is of no concern to the others. */
  lemma InternKeepsGraph(m: Machine, table: seq<StateData>, edges: seq<Edge>, ways: set<Way>, queue: seq<seq<nat>>,
                         cost: nat, data: StateData)
    requires GraphOk(m, table, edges, ways, queue, cost, {})
    ensures GraphOk(m, table + [data], edges, ways, queue, cost, {|table|})
  {
    hide Leads, IsRootKey;
    var table' := table + [data];
    forall w | w in ways
      ensures WayOk(m, table', w)
    {
      assert WayOk(m, table, w);
    }
    forall h | 0 <= h < |table|
      ensures StateOk(m, table', edges, ways, queue, cost, h)
    {
      assert StateOk(m, table, edges, ways, queue, cost, h);
      forall e | e in Chain(edges, table[h].lastIncomingEdge)
        ensures Tight(table', edges, ways, h, e)
      {
        assert Tight(table, edges, ways, h, e);
      }
    }
  }

  /** Generating an edge that is not kept only adds to what the costs have to respect. */
  lemma WayKeepsGraph(m: Machine, table: seq<StateData>, edges: seq<Edge>, ways: set<Way>, queue: seq<seq<nat>>,
                      cost: nat, added: set<nat>, way: Way)
    requires GraphOk(m, table, edges, ways, queue, cost, added) && WayOk(m, table, way)
    ensures GraphOk(m, table, edges, ways + {way}, queue, cost, added)
  {
    hide WayOk, IsRootKey;
    forall h | 0 <= h < |table| && h !in added
      ensures StateOk(m, table, edges, ways + {way}, queue, cost, h)
    {
      assert StateOk(m, table, edges, ways, queue, cost, h);
      forall e | e in Chain(edges, table[h].lastIncomingEdge)
        ensures Tight(table, edges, ways + {way}, h, e)
      {
        assert Tight(table, edges, ways, h, e);
      }
    }
  }

  function Enqueued(queue: seq<seq<nat>>, h: nat, cost: nat): (queue': seq<seq<nat>>)
    ensures |queue| <= |queue'| && cost < |queue'|
    ensures forall c :: 0 <= c < |queue'| ==>
      queue'[c] == (if c < |queue| then queue[c] else []) + if c == cost then [h] else []
  {
    var resized := if cost >= |queue| then queue + seq(cost + 1 - |queue|, _ => []) else queue;
    resized[cost := resized[cost] + [h]]
  }

  lemma EnqueueKeepsWaiting(table: seq<StateData>, queue: seq<seq<nat>>, h: nat, cost: nat)
    requires BucketsOk(table, queue) && h < |table|
    ensures BucketsOk(table, Enqueued(queue, h, cost))
    ensures forall data, k, c :: Waits(data, k, queue, c) ==> Waits(data, k, Enqueued(queue, h, cost), c)
  {
    var queue' := Enqueued(queue, h, cost);
    forall c, k | 0 <= c < |queue'| && k in queue'[c]
      ensures k < |table|
    {
      assert k == h || (c < |queue| && k in queue[c]);
    }
  }

  /** What is known about `h` after the generated edge to it was put on its list of incoming edges. */
  function Linked(data: StateData, cost: nat, edge: nat, cheaper: bool): StateData {
    data.(modificationCost := cost, lastIncomingEdge := Some(edge),
          incomingEdges := (if cheaper then 0 else data.incomingEdges) + 1)
  }

  /** A tie goes on top of the list of its target, a cheaper way starts a new list. */
  function NewEdge(data: StateData, parent: nat, e: Element, cheaper: bool): Edge {
    Edge(parent, e, if cheaper then None else data.lastIncomingEdge)
  }

  /** The generated edge ties with the known cost of its target, or makes an unexpanded target cheaper. */
  ghost predicate Linkable(m: Machine, table: seq<StateData>, h: nat, parent: nat, e: Element, cheaper: bool) {
    && h < |table| && parent < |table|
    && table[parent].expanded && !table[h].expanded
    && Leads(m, table[parent].key, e, table[h].key)
    && var cost := table[parent].modificationCost + e.Cost();
       !cheaper ==> cost == table[h].modificationCost && table[h].incomingEdges < MAX_INCOMING_EDGES
  }

  /** `cost` is no more than what the ways to `h` that are known so far cost, if there are any. */
  ghost predicate CheapFor(table: seq<StateData>, ways: set<Way>, h: nat, cost: nat)
    requires h < |table|
  {
    cost <= table[h].modificationCost || forall w :: w in ways ==> w.target != h
  }

  lemma LinkKeepsWays(m: Machine, table: seq<StateData>, ways: set<Way>, h: nat, parent: nat, e: Element,
                      cheaper: bool, edge: nat)
    requires Linkable(m, table, h, parent, e, cheaper) && WaysOk(m, table, ways)
    requires CheapFor(table, ways, h, table[parent].modificationCost + e.Cost())
    ensures var data := Linked(table[h], table[parent].modificationCost + e.Cost(), edge, cheaper);
            WaysOk(m, table[h := data], ways + {Way(parent, e, h)})
  {
    hide Leads;
    var data := Linked(table[h], table[parent].modificationCost + e.Cost(), edge, cheaper);
    forall w | w in ways + {Way(parent, e, h)}
      ensures WayOk(m, table[h := data], w)
    {
      assert w in ways ==> WayOk(m, table, w);
    }
  }

  /** Every list of incoming edges stays tight: the edges of others do not start at the unexpanded target. */
  lemma LinkKeepsState(m: Machine, table: seq<StateData>, edges: seq<Edge>, ways: set<Way>, h: nat, parent: nat,
                       e: Element, cheaper: bool, k: nat)
    requires EdgesOk(edges) && k < |table|
    requires Linkable(m, table, h, parent, e, cheaper)
    requires !(cheaper && k == h) ==> IncomingOk(table, edges, ways, k)
    requires !cheaper ==> IncomingOk(table, edges, ways, h)
    ensures var data := Linked(table[h], table[parent].modificationCost + e.Cost(), |edges|, cheaper);
            var edges' := edges + [NewEdge(table[h], parent, e, cheaper)];
            EdgesOk(edges') && IncomingOk(table[h := data], edges', ways + {Way(parent, e, h)}, k)
  {
    hide Leads;
    var edge := NewEdge(table[h], parent, e, cheaper);
    var data := Linked(table[h], table[parent].modificationCost + e.Cost(), |edges|, cheaper);
    var table', edges', ways' := table[h := data], edges + [edge], ways + {Way(parent, e, h)};
    if k == h {
      ChainStable(edges, edge, edge.prevIncomingEdge);
      assert Chain(edges', Some(|edges|)) == [|edges|] + Chain(edges, edge.prevIncomingEdge);
      forall i | i in Chain(edges', Some(|edges|))
        ensures Tight(table', edges', ways', h, i)
      {
        if i != |edges| {
          assert Tight(table, edges, ways, h, i);
        }
      }
    } else {
      ChainStable(edges, edge, table[k].lastIncomingEdge);
      forall i | i in Chain(edges, table[k].lastIncomingEdge)
        ensures Tight(table', edges', ways', k, i)
      {
        assert Tight(table, edges, ways, k, i);
      }
    }
  }

  lemma LinkKeepsWaiting(m: Machine, table: seq<StateData>, edges: seq<Edge>, ways: set<Way>, queue: seq<seq<nat>>,
                         cost: nat, h: nat, parent: nat, e: Element, cheaper: bool, k: nat)
    requires EdgesOk(edges) && k < |table| && BucketsOk(table, queue)
    requires Linkable(m, table, h, parent, e, cheaper) && table[parent].modificationCost == cost
    requires !(cheaper && k == h) ==> StateOk(m, table, edges, ways, queue, cost, k)
    requires !cheaper ==> StateOk(m, table, edges, ways, queue, cost, h)
    ensures var newCost := cost + e.Cost();
            var data := Linked(table[h], newCost, |edges|, cheaper);
            var edges' := edges + [NewEdge(table[h], parent, e, cheaper)];
            var queue' := if cheaper then Enqueued(queue, h, newCost) else queue;
            EdgesOk(edges') && StateOk(m, table[h := data], edges', ways + {Way(parent, e, h)}, queue', cost, k)
  {
    hide IncomingOk, IsRootKey, Leads, Enqueued, EdgesOk, BucketsOk;
    LinkKeepsState(m, table, edges, ways, h, parent, e, cheaper, k);
    EnqueueKeepsWaiting(table, queue, h, cost + e.Cost());
  }

  lemma LinkKeepsGraph(m: Machine, table: seq<StateData>, edges: seq<Edge>, ways: set<Way>, queue: seq<seq<nat>>,
                       cost: nat, added: set<nat>, h: nat, parent: nat, e: Element, cheaper: bool)
    requires GraphOk(m, table, edges, ways, queue, cost, added)
    requires Linkable(m, table, h, parent, e, cheaper)
    requires h < |table| && parent < |table| && table[parent].modificationCost == cost
    requires CheapFor(table, ways, h, cost + e.Cost())
    requires added == {} || (added == {h} && cheaper)
    ensures var newCost := cost + e.Cost();
            var data := Linked(table[h], newCost, |edges|, cheaper);
            var edges' := edges + [NewEdge(table[h], parent, e, cheaper)];
            var queue' := if cheaper then Enqueued(queue, h, newCost) else queue;
            GraphOk(m, table[h := data], edges', ways + {Way(parent, e, h)}, queue', cost, {})
  {
    hide WaysOk, StateOk, Enqueued, Linked, NewEdge, EdgesOk, Linkable, CheapFor;
    var newCost := cost + e.Cost();
    var data := Linked(table[h], newCost, |edges|, cheaper);
    var edges' := edges + [NewEdge(table[h], parent, e, cheaper)];
    var queue' := if cheaper then Enqueued(queue, h, newCost) else queue;
    var table', ways' := table[h := data], ways + {Way(parent, e, h)};
    LinkKeepsWays(m, table, ways, h, parent, e, cheaper, |edges|);
    EnqueueKeepsWaiting(table, queue, h, newCost);
    assert BucketsOk(table', queue');
    LinkKeepsWaiting(m, table, edges, ways, queue, cost, h, parent, e, cheaper, h);
    hide BucketsOk;
    forall k | 0 <= k < |table|
      ensures EdgesOk(edges') && StateOk(m, table', edges', ways', queue', cost, k)
    {
      LinkKeepsWaiting(m, table, edges, ways, queue, cost, h, parent, e, cheaper, k);
    }
  }

  /** Expanding a state keeps everything, as only edges that start at it are to come. */
  lemma ExpandKeepsGraph(m: Machine, table: seq<StateData>, edges: seq<Edge>, ways: set<Way>, queue: seq<seq<nat>>,
                         cost: nat, h: nat)
    requires h < |table| && GraphOk(m, table, edges, ways, queue, cost, {h})
    requires IncomingOk(table, edges, ways, h) && (table[h].incomingEdges == 0 ==> IsRootKey(m, table[h].key))
    requires table[h].modificationCost == cost
    ensures GraphOk(m, table[h := table[h].(expanded := true)], edges, ways, queue, cost, {})
  {
    hide Leads, IsRootKey;
    var table' := table[h := table[h].(expanded := true)];
    forall w | w in ways
      ensures WayOk(m, table', w)
    {
      assert WayOk(m, table, w);
    }
    forall k | 0 <= k < |table|
      ensures StateOk(m, table', edges, ways, queue, cost, k)
    {
      assert k != h ==> StateOk(m, table, edges, ways, queue, cost, k);
      forall e | e in Chain(edges, table[k].lastIncomingEdge)
        ensures Tight(table', edges, ways, k, e)
      {
        assert Tight(table, edges, ways, k, e);
      }
    }
  }

  /** Taking the last handle out of the current bucket matters only if that state is expanded next. */
  lemma PopKeepsGraph(m: Machine, table: seq<StateData>, edges: seq<Edge>, ways: set<Way>, queue: seq<seq<nat>>,
                      cost: nat)
    requires cost < |queue| && queue[cost] != [] && GraphOk(m, table, edges, ways, queue, cost, {})
    ensures var n := |queue[cost]| - 1;
            var h := queue[cost][n];
            var queue' := queue[cost := queue[cost][..n]];
            && h < |table|
            && GraphOk(m, table, edges, ways, queue', cost, {h})
            && (table[h].expanded || table[h].modificationCost != cost ==>
                  GraphOk(m, table, edges, ways, queue', cost, {}))
            && IncomingOk(table, edges, ways, h)
            && (table[h].incomingEdges == 0 ==> IsRootKey(m, table[h].key))
  {
    hide WaysOk, IncomingOk, IsRootKey;
    var n := |queue[cost]| - 1;
    var h := queue[cost][n];
    var queue' := queue[cost := queue[cost][..n]];
    assert h in queue[cost];
    assert StateOk(m, table, edges, ways, queue, cost, h);
    forall c, k | 0 <= c < |queue'| && k in queue'[c]
      ensures k in queue[c]
    {
    }
    forall k | 0 <= k < |table| && (k == h ==> table[h].expanded || table[h].modificationCost != cost)
      ensures StateOk(m, table, edges, ways, queue', cost, k)
    {
      assert StateOk(m, table, edges, ways, queue, cost, k);
      assert k in queue[cost] && k != h ==> k in queue'[cost];
    }
  }

  lemma SortKeepsGraph(m: Machine, table: seq<StateData>, edges: seq<Edge>, ways: set<Way>, queue: seq<seq<nat>>,
                       cost: nat, sorted: seq<nat>)
    requires cost < |queue| && GraphOk(m, table, edges, ways, queue, cost, {})
    requires multiset(sorted) == multiset(queue[cost])
    ensures GraphOk(m, table, edges, ways, queue[cost := sorted], cost, {})
  {
    hide WaysOk, IncomingOk, IsRootKey;
    forall k
      ensures k in sorted <==> k in queue[cost]
    {
      assert k in multiset(sorted) <==> k in multiset(queue[cost]);
    }
    var queue' := queue[cost := sorted];
    forall h | 0 <= h < |table|
      ensures StateOk(m, table, edges, ways, queue', cost, h)
    {
      assert StateOk(m, table, edges, ways, queue, cost, h);
    }
  }

  /** Once the current bucket is empty, no unexpanded state is that cheap. */
  lemma NextBucketKeepsGraph(m: Machine, table: seq<StateData>, edges: seq<Edge>, ways: set<Way>, queue: seq<seq<nat>>,
                             cost: nat)
    requires cost < |queue| && queue[cost] == [] && GraphOk(m, table, edges, ways, queue, cost, {})
    ensures GraphOk(m, table, edges, ways, queue, cost + 1, {})
  {
    hide WaysOk, IncomingOk, IsRootKey, BucketsOk;
    var next := cost + 1;
    forall h | 0 <= h < |table|
      ensures StateOk(m, table, edges, ways, queue, next, h)
    {
      assert StateOk(m, table, edges, ways, queue, cost, h);
    }
  }

  // Equally cheap ways

  /** The way explains the cost of its target. */
  ghost predicate IsTie(table: seq<StateData>, w: Way)
    requires w.parent < |table| && w.target < |table|
  {
    table[w.parent].modificationCost + w.recovery.Cost() == table[w.target].modificationCost
  }

  /** One of the edges stands for the way. */
  ghost predicate HasEdgeFor(edges: seq<Edge>, chain: seq<nat>, w: Way)
    requires forall e :: e in chain ==> e < |edges|
  {
    exists e :: e in chain && edges[e].parent == w.parent && edges[e].recovery == w.recovery
  }

  /** As long as there is room, all equally cheap ways to a state are kept. */
  ghost predicate TieOk(table: seq<StateData>, edges: seq<Edge>, w: Way)
    requires EdgesOk(edges)
  {
    && w.parent < |table| && w.target < |table|
    && var last := table[w.target].lastIncomingEdge;
       && (last.Some? ==> last.value < |edges|)
       && (IsTie(table, w) && table[w.target].incomingEdges < MAX_INCOMING_EDGES ==>
             HasEdgeFor(edges, Chain(edges, last), w))
  }

  ghost predicate TiesOk(table: seq<StateData>, edges: seq<Edge>, ways: set<Way>) {
    EdgesOk(edges) && forall w :: w in ways ==> TieOk(table, edges, w)
  }

  /** Neither new states nor the flags of expanded states matter for the ways. */
  lemma SameCostsKeepTies(table: seq<StateData>, table': seq<StateData>, edges: seq<Edge>, ways: set<Way>)
    requires TiesOk(table, edges, ways) && |table| <= |table'|
    requires forall h :: 0 <= h < |table| ==>
      && table'[h].modificationCost == table[h].modificationCost
      && table'[h].lastIncomingEdge == table[h].lastIncomingEdge
      && table'[h].incomingEdges == table[h].incomingEdges
    ensures TiesOk(table', edges, ways)
  {
    forall w | w in ways
      ensures TieOk(table', edges, w)
    {
      assert TieOk(table, edges, w);
    }
  }

  /** A way that is dropped is no tie, or there is no room for it. */
  lemma DropKeepsTies(table: seq<StateData>, edges: seq<Edge>, ways: set<Way>, w: Way)
    requires TiesOk(table, edges, ways) && w.parent < |table| && w.target < |table|
    requires table[w.target].lastIncomingEdge.Some? ==> table[w.target].lastIncomingEdge.value < |edges|
    requires !IsTie(table, w) || table[w.target].incomingEdges >= MAX_INCOMING_EDGES
    ensures TiesOk(table, edges, ways + {w})
  {
  }

  /** A way that is linked is kept on top of the ties of its target, or instead of more expensive ways. */
  lemma LinkKeepsTies(m: Machine, table: seq<StateData>, edges: seq<Edge>, ways: set<Way>, h: nat, parent: nat,
                      e: Element, cheaper: bool)
    requires TiesOk(table, edges, ways) && Linkable(m, table, h, parent, e, cheaper)
    requires WaysOk(m, table, ways)
    requires table[h].lastIncomingEdge.Some? ==> table[h].lastIncomingEdge.value < |edges|
    requires var cost := table[parent].modificationCost + e.Cost();
             cheaper ==> cost < table[h].modificationCost || forall w :: w in ways ==> w.target != h
    ensures var data := Linked(table[h], table[parent].modificationCost + e.Cost(), |edges|, cheaper);
            var edges' := edges + [NewEdge(table[h], parent, e, cheaper)];
            TiesOk(table[h := data], edges', ways + {Way(parent, e, h)})
  {
    hide Leads;
    var cost := table[parent].modificationCost + e.Cost();
    var edge := NewEdge(table[h], parent, e, cheaper);
    var edges', table' := edges + [edge], table[h := Linked(table[h], cost, |edges|, cheaper)];
    var last := table[h].lastIncomingEdge;
    assert EdgesOk(edges');
    ChainStable(edges, edge, edge.prevIncomingEdge);
    assert Chain(edges', Some(|edges|)) == [|edges|] + Chain(edges, edge.prevIncomingEdge);
    forall w | w in ways + {Way(parent, e, h)}
      ensures TieOk(table', edges', w)
    {
      if w == Way(parent, e, h) {
        NewEdgeIsFound(edges', Chain(edges', Some(|edges|)), w, |edges|);
      } else {
        assert TieOk(table, edges, w) && WayOk(m, table, w);
        if w.target == h {
          OldEdgesAreFound(edges, edges', Chain(edges, edge.prevIncomingEdge), Chain(edges', Some(|edges|)), w);
        } else {
          ChainStable(edges, edge, table[w.target].lastIncomingEdge);
          OldEdgesAreFound(edges, edges', Chain(edges, table[w.target].lastIncomingEdge),
                           Chain(edges', table[w.target].lastIncomingEdge), w);
        }
      }
    }
  }

  lemma NewEdgeIsFound(edges: seq<Edge>, chain: seq<nat>, w: Way, e: nat)
    requires (forall e :: e in chain ==> e < |edges|) && e in chain
    requires edges[e].parent == w.parent && edges[e].recovery == w.recovery
    ensures HasEdgeFor(edges, chain, w)
  {
  }

  lemma OldEdgesAreFound(edges: seq<Edge>, edges': seq<Edge>, chain: seq<nat>, chain': seq<nat>, w: Way)
    requires |edges| <= |edges'| && edges'[..|edges|] == edges
    requires (forall e :: e in chain ==> e < |edges| && e in chain') && forall e :: e in chain' ==> e < |edges'|
    ensures HasEdgeFor(edges, chain, w) ==> HasEdgeFor(edges', chain', w)
  {
    if HasEdgeFor(edges, chain, w) {
      var e :| e in chain && edges[e].parent == w.parent && edges[e].recovery == w.recovery;
      assert edges'[..|edges|][e] == edges'[e];
    }
  }
}
