/**
 The ways from the first error to a state over the edges that were kept, all of which cost the same, and why no
 generated way is cheaper.
 */
module RecoveryPaths {
  import opened Options
  import opened TokenMachine
  import opened SearchGraph
  import opened Sequences

  const MAX_RECOVERY_PATHS: nat := 8

  ghost predicate KeptOk(table: seq<StateData>, edges: seq<Edge>, ways: set<Way>) {
    EdgesOk(edges) && forall h :: 0 <= h < |table| ==> IncomingOk(table, edges, ways, h)
  }

  lemma GraphKeepsEdges(m: Machine, table: seq<StateData>, edges: seq<Edge>, ways: set<Way>, queue: seq<seq<nat>>,
                        cost: nat)
    requires GraphOk(m, table, edges, ways, queue, cost, {})
    ensures KeptOk(table, edges, ways)
  {
    forall h | 0 <= h < |table|
      ensures IncomingOk(table, edges, ways, h)
    {
      assert StateOk(m, table, edges, ways, queue, cost, h);
    }
  }

  // Walks over generated edges

  /** `walk` leads from a state without incoming edges to `h` over generated edges. */
  ghost predicate IsWalk(table: seq<StateData>, ways: set<Way>, walk: seq<Way>, h: nat) {
    if walk == [] then h < |table| && table[h].incomingEdges == 0
    else
      var n := |walk| - 1;
      walk[n] in ways && walk[n].target == h && IsWalk(table, ways, walk[..n], walk[n].parent)
  }

  ghost function WalkCost(walk: seq<Way>): nat {
    if walk == [] then 0 else WalkCost(walk[..|walk| - 1]) + walk[|walk| - 1].recovery.Cost()
  }

  /** No walk over edges that were ever generated is cheaper than the cost of the state it leads to. */
  lemma {:induction false} NoCheaperWalk(m: Machine, table: seq<StateData>, edges: seq<Edge>, ways: set<Way>,
                                         walk: seq<Way>, h: nat)
    requires KeptOk(table, edges, ways) && WaysOk(m, table, ways) && IsWalk(table, ways, walk, h)
    ensures h < |table| && table[h].modificationCost <= WalkCost(walk)
  {
    hide Leads;
    if walk == [] {
      assert IncomingOk(table, edges, ways, h);
    } else {
      var n := |walk| - 1;
      assert WayOk(m, table, walk[n]);
      NoCheaperWalk(m, table, edges, ways, walk[..n], walk[n].parent);
    }
  }

  // Paths over kept edges

  ghost function Incoming(table: seq<StateData>, edges: seq<Edge>, ways: set<Way>, h: nat): (incoming: seq<nat>)
    requires KeptOk(table, edges, ways) && h < |table|
    ensures forall e :: e in incoming ==> e < |edges| && Tight(table, edges, ways, h, e)
    ensures |incoming| == table[h].incomingEdges <= MAX_INCOMING_EDGES
    ensures incoming == [] ==> table[h].modificationCost == 0
  {
    assert IncomingOk(table, edges, ways, h);
    Chain(edges, table[h].lastIncomingEdge)
  }

  /** `path` is a sequence of kept edges from a state without incoming edges to `h`. */
  ghost predicate IsPath(table: seq<StateData>, edges: seq<Edge>, ways: set<Way>, path: seq<nat>, h: nat)
    requires KeptOk(table, edges, ways) && h < |table|
    decreases |path|
  {
    if path == [] then Incoming(table, edges, ways, h) == []
    else
      var n := |path| - 1;
      path[n] in Incoming(table, edges, ways, h) && IsPath(table, edges, ways, path[..n], edges[path[n]].parent)
  }

  predicate EdgeIds(edges: seq<Edge>, path: seq<nat>) {
    forall i :: 0 <= i < |path| ==> path[i] < |edges|
  }

  ghost function PathCost(edges: seq<Edge>, path: seq<nat>): nat
    requires EdgeIds(edges, path)
  {
    if path == [] then 0 else PathCost(edges, path[..|path| - 1]) + edges[path[|path| - 1]].recovery.Cost()
  }

  lemma PathEdges(table: seq<StateData>, edges: seq<Edge>, ways: set<Way>, path: seq<nat>, h: nat)
    requires KeptOk(table, edges, ways) && h < |table| && IsPath(table, edges, ways, path, h)
    ensures EdgeIds(edges, path)
    decreases |path|
  {
    if path != [] {
      var n := |path| - 1;
      PathEdges(table, edges, ways, path[..n], edges[path[n]].parent);
    }
  }

  /** Every path costs exactly what its target costs. */
  lemma {:induction false} PathCostsItsTarget(table: seq<StateData>, edges: seq<Edge>, ways: set<Way>, path: seq<nat>,
                                              h: nat)
    requires KeptOk(table, edges, ways) && h < |table| && IsPath(table, edges, ways, path, h)
    ensures EdgeIds(edges, path) && PathCost(edges, path) == table[h].modificationCost
    decreases |path|
  {
    PathEdges(table, edges, ways, path, h);
    if path != [] {
      var n := |path| - 1;
      PathCostsItsTarget(table, edges, ways, path[..n], edges[path[n]].parent);
    }
  }

  ghost function WaysOf(edges: seq<Edge>, path: seq<nat>, h: nat): seq<Way>
    requires EdgeIds(edges, path)
  {
    if path == [] then []
    else
      var n := |path| - 1;
      WaysOf(edges, path[..n], edges[path[n]].parent) + [Way(edges[path[n]].parent, edges[path[n]].recovery, h)]
  }

  /** Every path is a walk of the same cost, so by NoCheaperWalk it is a shortest one. */
  lemma {:induction false} PathIsWalk(table: seq<StateData>, edges: seq<Edge>, ways: set<Way>, path: seq<nat>, h: nat)
    requires KeptOk(table, edges, ways) && h < |table| && IsPath(table, edges, ways, path, h)
    ensures EdgeIds(edges, path)
    ensures IsWalk(table, ways, WaysOf(edges, path, h), h)
    ensures WalkCost(WaysOf(edges, path, h)) == PathCost(edges, path)
    decreases |path|
  {
    PathEdges(table, edges, ways, path, h);
    if path != [] {
      var n := |path| - 1;
      PathIsWalk(table, edges, ways, path[..n], edges[path[n]].parent);
      var walk := WaysOf(edges, path, h);
      assert walk[..|walk| - 1] == WaysOf(edges, path[..n], edges[path[n]].parent);
    }
  }

  /** Along the walk, no state has as many incoming edges as are kept at most. */
  ghost predicate HasRoom(table: seq<StateData>, walk: seq<Way>) {
    forall i :: 0 <= i < |walk| ==>
      walk[i].target < |table| && table[walk[i].target].incomingEdges < MAX_INCOMING_EDGES
  }

  /** The last way of a cheapest walk is a tie, and the walk in front of it is a cheapest one, too. */
  lemma CheapestWalkEndsWithTie(m: Machine, table: seq<StateData>, edges: seq<Edge>, ways: set<Way>, walk: seq<Way>,
                                h: nat)
    requires KeptOk(table, edges, ways) && WaysOk(m, table, ways) && IsWalk(table, ways, walk, h) && walk != []
    requires h < |table| && WalkCost(walk) == table[h].modificationCost
    ensures var n := |walk| - 1;
            && walk[n] in ways && walk[n].target == h && walk[n].parent < |table| && IsTie(table, walk[n])
            && IsWalk(table, ways, walk[..n], walk[n].parent)
            && WalkCost(walk[..n]) == table[walk[n].parent].modificationCost
  {
    hide Leads, KeptOk;
    var n := |walk| - 1;
    assert WayOk(m, table, walk[n]);
    NoCheaperWalk(m, table, edges, ways, walk[..n], walk[n].parent);
  }

  /** A cheapest walk is a path over kept edges, wherever there was room to keep all ties. */
  lemma {:induction false} CheapestWalkIsPath(m: Machine, table: seq<StateData>, edges: seq<Edge>, ways: set<Way>,
                                              walk: seq<Way>, h: nat) returns (path: seq<nat>)
    requires KeptOk(table, edges, ways) && WaysOk(m, table, ways) && TiesOk(table, edges, ways)
    requires IsWalk(table, ways, walk, h) && h < |table| && WalkCost(walk) == table[h].modificationCost
    requires HasRoom(table, walk)
    ensures IsPath(table, edges, ways, path, h) && EdgeIds(edges, path) && WaysOf(edges, path, h) == walk
    decreases |walk|
  {
    hide KeptOk, TiesOk, WaysOk, IsWalk, HasRoom, IsPath, WaysOf, EdgeIds, Incoming, WalkCost, IsTie;
    if walk == [] {
      path := [];
      EmptyWalkIsPath(table, edges, ways, h);
    } else {
      var n := |walk| - 1;
      CheapestWalkEndsWithTie(m, table, edges, ways, walk, h);
      RoomInFront(table, walk);
      var e := TiedEdge(table, edges, ways, walk[n]);
      var front := CheapestWalkIsPath(m, table, edges, ways, walk[..n], walk[n].parent);
      path := front + [e];
      PathSnoc(table, edges, ways, front, e, h);
      assert walk == walk[..n] + [walk[n]];
    }
  }

  lemma EmptyWalkIsPath(table: seq<StateData>, edges: seq<Edge>, ways: set<Way>, h: nat)
    requires KeptOk(table, edges, ways) && IsWalk(table, ways, [], h)
    ensures h < |table| && IsPath(table, edges, ways, [], h) && EdgeIds(edges, []) && WaysOf(edges, [], h) == []
  {
    hide KeptOk;
  }

  lemma RoomInFront(table: seq<StateData>, walk: seq<Way>)
    requires HasRoom(table, walk) && walk != []
    ensures HasRoom(table, walk[..|walk| - 1])
    ensures var w := walk[|walk| - 1];
            w.target < |table| && table[w.target].incomingEdges < MAX_INCOMING_EDGES
  {
  }

  /** The edge that was kept for a tie. */
  lemma TiedEdge(table: seq<StateData>, edges: seq<Edge>, ways: set<Way>, w: Way) returns (e: nat)
    requires KeptOk(table, edges, ways) && TiesOk(table, edges, ways) && w in ways
    requires w.parent < |table| && w.target < |table|
    requires IsTie(table, w) && table[w.target].incomingEdges < MAX_INCOMING_EDGES
    ensures e in Incoming(table, edges, ways, w.target) && e < |edges|
    ensures edges[e].parent == w.parent && edges[e].recovery == w.recovery
  {
    assert TieOk(table, edges, w);
    assert IncomingOk(table, edges, ways, w.target);
    var chain := Chain(edges, table[w.target].lastIncomingEdge);
    e :| e in chain && edges[e].parent == w.parent && edges[e].recovery == w.recovery;
  }

  lemma PathSnoc(table: seq<StateData>, edges: seq<Edge>, ways: set<Way>, front: seq<nat>, e: nat, h: nat)
    requires KeptOk(table, edges, ways) && h < |table| && e in Incoming(table, edges, ways, h)
    requires IsPath(table, edges, ways, front, edges[e].parent) && EdgeIds(edges, front)
    ensures IsPath(table, edges, ways, front + [e], h) && EdgeIds(edges, front + [e])
    ensures WaysOf(edges, front + [e], h)
         == WaysOf(edges, front, edges[e].parent) + [Way(edges[e].parent, edges[e].recovery, h)]
  {
    var path := front + [e];
    assert path[..|path| - 1] == front;
  }

  // All paths, in the order in which they are collected

  ghost function Extended(paths: seq<seq<nat>>, suffix: seq<nat>): (r: seq<seq<nat>>)
    ensures |r| == |paths| && forall i :: 0 <= i < |paths| ==> r[i] == paths[i] + suffix
  {
    seq(|paths|, i requires 0 <= i < |paths| => paths[i] + suffix)
  }

  function Reversed(s: seq<nat>): (r: seq<nat>)
    ensures |r| == |s| && forall i :: 0 <= i < |s| ==> r[i] == s[|s| - 1 - i]
  {
    seq(|s|, i requires 0 <= i < |s| => s[|s| - 1 - i])
  }

  ghost function Paths(table: seq<StateData>, edges: seq<Edge>, ways: set<Way>, h: nat): seq<seq<nat>>
    requires KeptOk(table, edges, ways) && h < |table|
    decreases table[h].modificationCost, 1, 0
  {
    var incoming := Incoming(table, edges, ways, h);
    if incoming == [] then [[]] else PathsVia(table, edges, ways, h, Reversed(incoming))
  }

  /** The paths to `h` whose last edge is one of `via`. */
  ghost function PathsVia(table: seq<StateData>, edges: seq<Edge>, ways: set<Way>, h: nat, via: seq<nat>)
    : seq<seq<nat>>
    requires KeptOk(table, edges, ways) && h < |table|
    requires forall i :: 0 <= i < |via| ==> via[i] in Incoming(table, edges, ways, h)
    decreases table[h].modificationCost, 0, |via|
  {
    if via == [] then []
    else
      var n := |via| - 1;
      assert via[n] in Incoming(table, edges, ways, h);
      PathsVia(table, edges, ways, h, via[..n])
      + Extended(Paths(table, edges, ways, edges[via[n]].parent), [via[n]])
  }

  ghost predicate IsDecreasing(s: seq<nat>) {
    forall i, j :: 0 <= i < j < |s| ==> s[i] > s[j]
  }

  lemma {:induction false} ChainIsDecreasing(edges: seq<Edge>, last: Option<nat>)
    requires EdgesOk(edges) && (last.Some? ==> last.value < |edges|)
    ensures forall e :: e in Chain(edges, last) ==> last.Some? && e <= last.value
    ensures Distinct(Chain(edges, last))
    ensures IsDecreasing(Chain(edges, last))
    decreases if last.Some? then last.value + 1 else 0
  {
    if last.Some? {
      var prev := edges[last.value].prevIncomingEdge;
      ChainIsDecreasing(edges, prev);
      var chain, rest := Chain(edges, last), Chain(edges, prev);
      assert chain == [last.value] + rest;
      forall i, j | 0 <= i < j < |chain|
        ensures chain[i] > chain[j]
      {
        assert chain[j] == rest[j - 1] && rest[j - 1] in rest;
        if i == 0 {
          assert chain[i] == last.value;
        } else {
          assert chain[i] == rest[i - 1] > rest[j - 1];
        }
      }
    }
  }

  /** Where the paths differ last, `p` takes the edge that was found earlier. */
  ghost predicate IsFoundBefore(p: seq<nat>, q: seq<nat>)
    decreases |p|
  {
    && p != [] && q != []
    && var i, j := |p| - 1, |q| - 1;
       p[i] < q[j] || (p[i] == q[j] && IsFoundBefore(p[..i], q[..j]))
  }

  ghost predicate InFoundOrder(paths: seq<seq<nat>>) {
    forall i, j :: 0 <= i < j < |paths| ==> IsFoundBefore(paths[i], paths[j])
  }

  /** Paths are collected in the order in which their edges were found, starting from the last ones. */
  lemma {:induction false} PathsInOrder(table: seq<StateData>, edges: seq<Edge>, ways: set<Way>, h: nat)
    requires KeptOk(table, edges, ways) && h < |table|
    ensures InFoundOrder(Paths(table, edges, ways, h))
    decreases table[h].modificationCost, 1, 0
  {
    var incoming := Incoming(table, edges, ways, h);
    if incoming != [] {
      assert IncomingOk(table, edges, ways, h);
      ChainIsDecreasing(edges, table[h].lastIncomingEdge);
      assert incoming == Chain(edges, table[h].lastIncomingEdge);
      var via := Reversed(incoming);
      forall i, j | 0 <= i < j < |via|
        ensures via[i] < via[j]
      {
        assert incoming[|incoming| - 1 - j] > incoming[|incoming| - 1 - i];
      }
      hide KeptOk, Incoming;
      PathsViaInOrder(table, edges, ways, h, via);
    }
  }

  lemma {:induction false} PathsViaInOrder(table: seq<StateData>, edges: seq<Edge>, ways: set<Way>, h: nat,
                                           via: seq<nat>)
    requires KeptOk(table, edges, ways) && h < |table|
    requires forall i :: 0 <= i < |via| ==> via[i] in Incoming(table, edges, ways, h)
    requires forall i, j :: 0 <= i < j < |via| ==> via[i] < via[j]
    ensures InFoundOrder(PathsVia(table, edges, ways, h, via))
    ensures forall p :: p in PathsVia(table, edges, ways, h, via) ==>
      p != [] && via != [] && p[|p| - 1] <= via[|via| - 1]
    decreases table[h].modificationCost, 0, |via|
  {
    if via != [] {
      var n := |via| - 1;
      EdgeGoesDown(table, edges, ways, h, via[n]);
      PathsViaInOrder(table, edges, ways, h, via[..n]);
      var parent := edges[via[n]].parent;
      PathsInOrder(table, edges, ways, parent);
      hide KeptOk, Incoming, Paths;
      FoundLater(PathsVia(table, edges, ways, h, via[..n]), Paths(table, edges, ways, parent), via[n]);
    }
  }

  /** Paths over a later edge come behind the others, and are ordered as before it. */
  lemma FoundLater(front: seq<seq<nat>>, back: seq<seq<nat>>, e: nat)
    requires InFoundOrder(front) && InFoundOrder(back)
    requires forall p :: p in front ==> p != [] && p[|p| - 1] < e
    ensures InFoundOrder(front + Extended(back, [e]))
    ensures forall p :: p in front + Extended(back, [e]) ==> p != [] && p[|p| - 1] <= e
  {
    var all := front + Extended(back, [e]);
    forall i, j | 0 <= i < j < |all|
      ensures IsFoundBefore(all[i], all[j])
    {
      if i < |front| {
        assert all[i] in front;
        if j >= |front| {
          assert all[j][|all[j]| - 1] == e;
        }
      } else {
        var p, q := back[i - |front|], back[j - |front|];
        assert all[i] == p + [e] && all[j] == q + [e];
        assert (p + [e])[..|p|] == p && (q + [e])[..|q|] == q;
      }
    }
  }

  /** `path` ends with one of `via`. */
  ghost predicate IsPathVia(table: seq<StateData>, edges: seq<Edge>, ways: set<Way>, path: seq<nat>, h: nat,
                            via: seq<nat>)
    requires KeptOk(table, edges, ways) && h < |table|
    requires forall i :: 0 <= i < |via| ==> via[i] in Incoming(table, edges, ways, h)
  {
    path != [] && path[|path| - 1] in via && path[|path| - 1] in Incoming(table, edges, ways, h)
    && IsPath(table, edges, ways, path[..|path| - 1], edges[path[|path| - 1]].parent)
  }

  /** The collected paths are all paths, each of them once. */
  lemma {:induction false} PathsAreExact(table: seq<StateData>, edges: seq<Edge>, ways: set<Way>, h: nat)
    requires KeptOk(table, edges, ways) && h < |table|
    ensures forall p :: p in Paths(table, edges, ways, h) <==> IsPath(table, edges, ways, p, h)
    ensures Distinct(Paths(table, edges, ways, h))
    decreases table[h].modificationCost, 1, 0
  {
    var incoming := Incoming(table, edges, ways, h);
    if incoming == [] {
      assert Paths(table, edges, ways, h) == [[]];
      forall p
        ensures p in [[]] <==> IsPath(table, edges, ways, p, h)
      {
      }
    } else {
      assert IncomingOk(table, edges, ways, h);
      ChainIsDecreasing(edges, table[h].lastIncomingEdge);
      var via := Reversed(incoming);
      assert Distinct(via);
      PathsViaAreExact(table, edges, ways, h, via);
      forall e
        ensures e in via <==> e in incoming
      {
        if e in incoming {
          var i :| 0 <= i < |incoming| && incoming[i] == e;
          assert via[|incoming| - 1 - i] == e;
        }
      }
    }
  }

  lemma {:induction false} PathsViaAreExact(table: seq<StateData>, edges: seq<Edge>, ways: set<Way>, h: nat,
                                            via: seq<nat>)
    requires KeptOk(table, edges, ways) && h < |table|
    requires forall i :: 0 <= i < |via| ==> via[i] in Incoming(table, edges, ways, h)
    requires Distinct(via)
    ensures forall p :: p in PathsVia(table, edges, ways, h, via) <==> IsPathVia(table, edges, ways, p, h, via)
    ensures Distinct(PathsVia(table, edges, ways, h, via))
    decreases table[h].modificationCost, 0, |via|
  {
    if via != [] {
      var n := |via| - 1;
      var last := via[n];
      assert last in Incoming(table, edges, ways, h);
      PathsViaAreExact(table, edges, ways, h, via[..n]);
      PathsAreExact(table, edges, ways, edges[last].parent);
      ExtendedIsExact(Paths(table, edges, ways, edges[last].parent), last);
      ViaStep(table, edges, ways, h, via, PathsVia(table, edges, ways, h, via[..n]),
              Extended(Paths(table, edges, ways, edges[last].parent), [last]));
    }
  }

  lemma ViaStep(table: seq<StateData>, edges: seq<Edge>, ways: set<Way>, h: nat, via: seq<nat>,
                front: seq<seq<nat>>, back: seq<seq<nat>>)
    requires KeptOk(table, edges, ways) && h < |table| && via != [] && Distinct(via)
    requires forall i :: 0 <= i < |via| ==> via[i] in Incoming(table, edges, ways, h)
    requires forall p :: p in front <==> IsPathVia(table, edges, ways, p, h, via[..|via| - 1])
    requires via[|via| - 1] < |edges| && edges[via[|via| - 1]].parent < |table|
    requires forall p :: p in back <==>
      p != [] && p[|p| - 1] == via[|via| - 1] && IsPath(table, edges, ways, p[..|p| - 1], edges[via[|via| - 1]].parent)
    requires Distinct(front) && Distinct(back)
    ensures forall p :: p in front + back <==> IsPathVia(table, edges, ways, p, h, via)
    ensures Distinct(front + back)
  {
    hide IsPath, Incoming, KeptOk;
    var n := |via| - 1;
    assert via[n] !in via[..n];
    DistinctConcat(front, back);
    forall p
      ensures p in front + back <==> IsPathVia(table, edges, ways, p, h, via)
    {
      ViaLastOrBefore(table, edges, ways, p, h, via);
    }
  }

  lemma ViaLastOrBefore(table: seq<StateData>, edges: seq<Edge>, ways: set<Way>, p: seq<nat>, h: nat, via: seq<nat>)
    requires KeptOk(table, edges, ways) && h < |table| && via != []
    requires forall i :: 0 <= i < |via| ==> via[i] in Incoming(table, edges, ways, h)
    ensures var n := |via| - 1;
            IsPathVia(table, edges, ways, p, h, via) <==>
              || IsPathVia(table, edges, ways, p, h, via[..n])
              || (p != [] && p[|p| - 1] == via[n] && IsPath(table, edges, ways, p[..|p| - 1], edges[via[n]].parent))
  {
    hide IsPath, Incoming;
    var n := |via| - 1;
    assert via[n] in Incoming(table, edges, ways, h);
    assert via == via[..n] + [via[n]];
  }

  lemma ExtendedIsExact(paths: seq<seq<nat>>, last: nat)
    requires Distinct(paths)
    ensures Distinct(Extended(paths, [last]))
    ensures forall p :: p in Extended(paths, [last]) <==> p != [] && p[|p| - 1] == last && p[..|p| - 1] in paths
  {
    var r := Extended(paths, [last]);
    forall i, j | 0 <= i < j < |r|
      ensures r[i] != r[j]
    {
      assert r[i][..|r[i]| - 1] == paths[i] && r[j][..|r[j]| - 1] == paths[j];
    }
    forall p
      ensures p in r <==> p != [] && p[|p| - 1] == last && p[..|p| - 1] in paths
    {
      if p in r {
        var i :| 0 <= i < |r| && r[i] == p;
        assert p[..|p| - 1] == paths[i];
      }
      if p != [] && p[|p| - 1] == last && p[..|p| - 1] in paths {
        var i :| 0 <= i < |paths| && paths[i] == p[..|p| - 1];
        assert r[i] == p;
      }
    }
  }

  // Collecting

  /** The first `limit` paths. */
  function Limited(paths: seq<seq<nat>>, limit: nat): seq<seq<nat>> {
    if |paths| <= limit then paths else paths[..limit]
  }

  function Limit(result: seq<seq<nat>>): nat {
    if |result| > MAX_RECOVERY_PATHS then |result| else MAX_RECOVERY_PATHS
  }

  /** The edges of a chain as a sequence, which starts with `last`. */
  method ReadChain(edges: seq<Edge>, last: Option<nat>) returns (incoming: seq<nat>)
    requires EdgesOk(edges) && (last.Some? ==> last.value < |edges|)
    ensures incoming == Chain(edges, last)
  {
    incoming := [];
    var edge := last;
    while edge.Some?
      invariant edge.Some? ==> edge.value < |edges|
      invariant incoming + Chain(edges, edge) == Chain(edges, last)
      decreases if edge.Some? then edge.value + 1 else 0
    {
      incoming := incoming + [edge.value];
      edge := edges[edge.value].prevIncomingEdge;
    }
  }

  /** `result` followed by the paths whose last edge is one of `via`, as far as there is room for them. */
  ghost function CollectedVia(table: seq<StateData>, edges: seq<Edge>, ways: set<Way>, h: nat, via: seq<nat>,
                              path: seq<nat>, result: seq<seq<nat>>): seq<seq<nat>>
    requires KeptOk(table, edges, ways) && h < |table|
    requires forall i :: 0 <= i < |via| ==> via[i] in Incoming(table, edges, ways, h)
  {
    Limited(result + Extended(PathsVia(table, edges, ways, h, via), Reversed(path)), Limit(result))
  }

  ghost function Collected(table: seq<StateData>, edges: seq<Edge>, ways: set<Way>, h: nat, path: seq<nat>,
                           result: seq<seq<nat>>): seq<seq<nat>>
    requires KeptOk(table, edges, ways) && h < |table|
  {
    if table[h].incomingEdges == 0 then result + [Reversed(path)]
    else Limited(result + Extended(Paths(table, edges, ways, h), Reversed(path)), Limit(result))
  }

  /** Appends the paths to a state, each followed by the reversed `path`, until the result holds eight. */
  method CollectPaths(table: seq<StateData>, edges: seq<Edge>, ghost ways: set<Way>, h: nat, path: seq<nat>,
                      result: seq<seq<nat>>) returns (result': seq<seq<nat>>)
    requires KeptOk(table, edges, ways) && h < |table|
    ensures result' == Collected(table, edges, ways, h, path, result)
    decreases table[h].modificationCost
  {
    IncomingIsChain(table, edges, ways, h, path, result);
    hide *;
    var incoming := ReadChain(edges, table[h].lastIncomingEdge);
    if incoming == [] {
      return result + [Reversed(path)];
    }
    ghost var via := Reversed(incoming);
    assert via[..0] == [] && via[..|incoming|] == via;
    result' := result;
    for i := 0 to |incoming|
      invariant result' == CollectedVia(table, edges, ways, h, via[..i], path, result)
    {
      if |result'| >= MAX_RECOVERY_PATHS {
        FullStays(table, edges, ways, h, via, i, path, result);
        return;
      }
      var edge := incoming[|incoming| - 1 - i];
      assert edge == via[i] && edge in incoming;
      EdgeGoesDown(table, edges, ways, h, edge);
      CollectStep(table, edges, ways, h, via, i, path, result);
      result' := CollectPaths(table, edges, ways, edges[edge].parent, path + [edge], result');
    }
  }

  lemma {:induction false} IncomingIsChain(table: seq<StateData>, edges: seq<Edge>, ways: set<Way>, h: nat, path: seq<nat>,
                        result: seq<seq<nat>>)
    requires KeptOk(table, edges, ways) && h < |table|
    ensures EdgesOk(edges)
    ensures table[h].lastIncomingEdge.Some? ==> table[h].lastIncomingEdge.value < |edges|
    ensures var incoming := Chain(edges, table[h].lastIncomingEdge);
            && (forall e :: e in incoming ==> e in Incoming(table, edges, ways, h))
            && (incoming == [] ==> Collected(table, edges, ways, h, path, result) == result + [Reversed(path)])
            && (incoming != [] ==>
                  CollectedVia(table, edges, ways, h, Reversed(incoming), path, result)
                  == Collected(table, edges, ways, h, path, result))
            && CollectedVia(table, edges, ways, h, [], path, result) == result
  {
    assert IncomingOk(table, edges, ways, h);
    assert Extended([], Reversed(path)) == [];
    assert result + [] == result;
  }

  lemma EdgeGoesDown(table: seq<StateData>, edges: seq<Edge>, ways: set<Way>, h: nat, e: nat)
    requires KeptOk(table, edges, ways) && h < |table| && e in Incoming(table, edges, ways, h)
    ensures e < |edges| && edges[e].parent < |table|
    ensures table[edges[e].parent].modificationCost < table[h].modificationCost
  {
  }

  lemma ViaSplit(table: seq<StateData>, edges: seq<Edge>, ways: set<Way>, h: nat, via: seq<nat>, i: nat, path: seq<nat>)
    requires KeptOk(table, edges, ways) && h < |table| && i < |via|
    requires forall i :: 0 <= i < |via| ==> via[i] in Incoming(table, edges, ways, h)
    ensures via[i] < |edges| && edges[via[i]].parent < |table|
    ensures Extended(PathsVia(table, edges, ways, h, via[..i + 1]), Reversed(path))
         == Extended(PathsVia(table, edges, ways, h, via[..i]), Reversed(path))
            + Extended(Paths(table, edges, ways, edges[via[i]].parent), Reversed(path + [via[i]]))
  {
    EdgeGoesDown(table, edges, ways, h, via[i]);
    assert via[..i + 1][..i] == via[..i];
    assert Reversed(path + [via[i]]) == [via[i]] + Reversed(path);
    var front := PathsVia(table, edges, ways, h, via[..i]);
    var back := Paths(table, edges, ways, edges[via[i]].parent);
    assert PathsVia(table, edges, ways, h, via[..i + 1]) == front + Extended(back, [via[i]]);
    ExtendedConcat(front, back, [via[i]], Reversed(path));
  }

  lemma ExtendedConcat(a: seq<seq<nat>>, b: seq<seq<nat>>, s: seq<nat>, t: seq<nat>)
    ensures Extended(a + Extended(b, s), t) == Extended(a, t) + Extended(b, s + t)
  {
    var left, right := Extended(a + Extended(b, s), t), Extended(a, t) + Extended(b, s + t);
    forall i | 0 <= i < |left|
      ensures left[i] == right[i]
    {
      if i >= |a| {
        assert left[i] == (b[i - |a|] + s) + t == b[i - |a|] + (s + t);
      }
    }
  }

  /** Collecting over one more edge continues where the edges before it stopped. */
  lemma CollectStep(table: seq<StateData>, edges: seq<Edge>, ways: set<Way>, h: nat, via: seq<nat>, i: nat,
                    path: seq<nat>, result: seq<seq<nat>>)
    requires KeptOk(table, edges, ways) && h < |table| && i < |via|
    requires forall i :: 0 <= i < |via| ==> via[i] in Incoming(table, edges, ways, h)
    requires |CollectedVia(table, edges, ways, h, via[..i], path, result)| < MAX_RECOVERY_PATHS
    ensures via[i] < |edges| && edges[via[i]].parent < |table|
    ensures CollectedVia(table, edges, ways, h, via[..i + 1], path, result)
         == Collected(table, edges, ways, edges[via[i]].parent, path + [via[i]],
                      CollectedVia(table, edges, ways, h, via[..i], path, result))
  {
    hide Paths, PathsVia, Incoming, KeptOk, Extended, Reversed, Limited, Limit;
    ViaSplit(table, edges, ways, h, via, i, path);
    var x := Extended(PathsVia(table, edges, ways, h, via[..i]), Reversed(path));
    var parent := edges[via[i]].parent;
    var y := Extended(Paths(table, edges, ways, parent), Reversed(path + [via[i]]));
    RootPath(table, edges, ways, parent, Reversed(path + [via[i]]));
    LimitedStep(result, x, y);
  }

  /** While there is room, what is added comes behind what was collected before. */
  lemma LimitedStep(result: seq<seq<nat>>, x: seq<seq<nat>>, y: seq<seq<nat>>)
    requires |Limited(result + x, Limit(result))| < MAX_RECOVERY_PATHS
    ensures Limited(result + x, Limit(result)) == result + x
    ensures Limited(result + (x + y), Limit(result)) == Limited((result + x) + y, Limit(result + x))
    ensures |y| == 1 ==> Limited(result + (x + y), Limit(result)) == (result + x) + y
  {
    assert result + (x + y) == (result + x) + y;
  }

  lemma RootPath(table: seq<StateData>, edges: seq<Edge>, ways: set<Way>, h: nat, suffix: seq<nat>)
    requires KeptOk(table, edges, ways) && h < |table|
    ensures table[h].incomingEdges == 0 ==> Extended(Paths(table, edges, ways, h), suffix) == [suffix]
  {
    if table[h].incomingEdges == 0 {
      assert Incoming(table, edges, ways, h) == [];
      assert Paths(table, edges, ways, h) == [[]];
      assert [] + suffix == suffix;
    }
  }

  /** Once there is no more room, further edges add nothing. */
  lemma FullStays(table: seq<StateData>, edges: seq<Edge>, ways: set<Way>, h: nat, via: seq<nat>, i: nat,
                  path: seq<nat>, result: seq<seq<nat>>)
    requires KeptOk(table, edges, ways) && h < |table| && i <= |via|
    requires forall i :: 0 <= i < |via| ==> via[i] in Incoming(table, edges, ways, h)
    requires |CollectedVia(table, edges, ways, h, via[..i], path, result)| >= MAX_RECOVERY_PATHS
    ensures CollectedVia(table, edges, ways, h, via, path, result)
         == CollectedVia(table, edges, ways, h, via[..i], path, result)
    decreases |via|
  {
    hide Paths, PathsVia, Incoming, KeptOk, Extended, Reversed, Limited, Limit;
    var n := |via|;
    if i == n {
      assert via[..i] == via;
    } else {
      var shorter := via[..n - 1];
      assert shorter[..i] == via[..i] && via[..n] == via;
      FullStays(table, edges, ways, h, shorter, i, path, result);
      ViaSplit(table, edges, ways, h, via, n - 1, path);
      var x := Extended(PathsVia(table, edges, ways, h, shorter), Reversed(path));
      var y := Extended(Paths(table, edges, ways, edges[via[n - 1]].parent), Reversed(path + [via[n - 1]]));
      LimitedFull(result, x, y);
    }
  }

  lemma LimitedFull(result: seq<seq<nat>>, x: seq<seq<nat>>, y: seq<seq<nat>>)
    requires |Limited(result + x, Limit(result))| >= MAX_RECOVERY_PATHS
    ensures Limited(result + (x + y), Limit(result)) == Limited(result + x, Limit(result))
  {
    assert result + (x + y) == (result + x) + y;
  }
}
