/**
 Parameterize constants, interned in a binary search tree that is never rebalanced.  The labels of its nodes compare
 constants in constant time, where the structural comparison would have to descend into their arguments.
 */
module ParameterizeSets {
  import opened Options
  import opened Orderings
  import opened Powers
  import opened Terms
  import opened TreeLabels

  /** A constant is compared by a value, or refers to the parameterize with the given id. */
  datatype Constant = Simple(kind: nat, value: int) | Ref(kind: nat, id: nat)

  datatype Parameterize = Parameterize(base: Constant, arguments: seq<Constant>)

  datatype Node = Node(leftChild: Option<nat>, rightChild: Option<nat>, treeLabel: Bits, data: Parameterize)

  const PARAMETERIZE_KIND: nat := 0

  // What constants stand for

  predicate RefsBelow(c: Constant, n: nat) {
    c.Ref? ==> c.id < n
  }

  predicate AllBelow(p: Parameterize, n: nat) {
    RefsBelow(p.base, n) && forall i :: 0 <= i < |p.arguments| ==> RefsBelow(p.arguments[i], n)
  }

  /** Parameterizes are interned after the constants in them. */
  ghost predicate Acyclic(data: seq<Parameterize>) {
    forall i :: 0 <= i < |data| ==> AllBelow(data[i], i)
  }

  ghost function Unfold(data: seq<Parameterize>, c: Constant): Term
    requires Acyclic(data) && RefsBelow(c, |data|)
    decreases if c.Ref? then c.id + 1 else 0, 0
  {
    match c
    case Simple(kind, value) => Plain(kind, value)
    case Ref(kind, id) => UnfoldAll(data, kind, data[id], id)
  }

  ghost function UnfoldAll(data: seq<Parameterize>, kind: nat, p: Parameterize, n: nat): Term
    requires Acyclic(data) && n <= |data| && AllBelow(p, n)
    decreases n, 1
  {
    Parameterized(kind, Unfold(data, p.base),
                  seq(|p.arguments|, i requires 0 <= i < |p.arguments| => Unfold(data, p.arguments[i])))
  }

  /** The term of a parameterize whose constants are interned. */
  ghost function TermOf(data: seq<Parameterize>, p: Parameterize): Term
    requires Acyclic(data) && AllBelow(p, |data|)
  {
    UnfoldAll(data, PARAMETERIZE_KIND, p, |data|)
  }

  /** Interning more parameterizes does not change what a constant stands for. */
  lemma {:induction false} UnfoldStays(data: seq<Parameterize>, p: Parameterize, c: Constant)
    requires Acyclic(data) && AllBelow(p, |data|) && RefsBelow(c, |data|)
    ensures Acyclic(data + [p]) && Unfold(data + [p], c) == Unfold(data, c)
    decreases if c.Ref? then c.id + 1 else 0
  {
    var more := data + [p];
    assert Acyclic(more);
    if c.Ref? {
      var q := data[c.id];
      assert AllBelow(q, c.id);
      UnfoldStays(data, p, q.base);
      forall i | 0 <= i < |q.arguments|
        ensures Unfold(more, q.arguments[i]) == Unfold(data, q.arguments[i])
      {
        assert RefsBelow(q.arguments[i], c.id);
        UnfoldStays(data, p, q.arguments[i]);
      }
      assert more[c.id] == q;
      assert Unfold(more, c) == Unfold(data, c);
    }
  }

  lemma TermStays(data: seq<Parameterize>, p: Parameterize, q: Parameterize)
    requires Acyclic(data) && AllBelow(p, |data|) && AllBelow(q, |data|)
    ensures Acyclic(data + [p]) && AllBelow(q, |data| + 1) && TermOf(data + [p], q) == TermOf(data, q)
  {
    UnfoldStays(data, p, q.base);
    forall i | 0 <= i < |q.arguments|
      ensures Unfold(data + [p], q.arguments[i]) == Unfold(data, q.arguments[i])
    {
      UnfoldStays(data, p, q.arguments[i]);
    }
  }

  // The tree

  ghost function Child(at: map<Path, nat>, path: Path): Option<nat> {
    if path in at then Some(at[path]) else None
  }

  ghost function DataOf(nodes: seq<Node>): (data: seq<Parameterize>)
    ensures |data| == |nodes| && forall i :: 0 <= i < |data| ==> data[i] == nodes[i].data
  {
    seq(|nodes|, i requires 0 <= i < |nodes| => nodes[i].data)
  }

  /** `paths` and `at` say where the nodes are. */
  ghost predicate PathsOk(paths: seq<Path>, at: map<Path, nat>) {
    && (forall i :: 0 <= i < |paths| ==> paths[i] in at && at[paths[i]] == i)
    && (forall p :: p in at ==> at[p] < |paths| && paths[at[p]] == p)
    && (forall p :: p in at && p != [] ==> p[..|p| - 1] in at)
  }

  ghost predicate ShapeOk(nodes: seq<Node>, root: Option<nat>, paths: seq<Path>, at: map<Path, nat>) {
    && |paths| == |nodes|
    && PathsOk(paths, at)
    && root == Child(at, []) && (nodes != [] ==> root.Some?)
  }

  ghost predicate NodeOk(node: Node, path: Path, at: map<Path, nat>) {
    && |path| <= 31
    && node.leftChild == Child(at, path + [false])
    && node.rightChild == Child(at, path + [true])
    && node.treeLabel == LabelOf(path, LABEL_BITS)
  }

  ghost predicate NodesOk(nodes: seq<Node>, paths: seq<Path>, at: map<Path, nat>) {
    |paths| == |nodes| && forall i :: 0 <= i < |nodes| ==> NodeOk(nodes[i], paths[i], at)
  }

  ghost function NodeTerm(data: seq<Parameterize>, i: nat): Term
    requires Acyclic(data) && i < |data|
  {
    Unfold(data, Ref(PARAMETERIZE_KIND, i))
  }

  ghost predicate TermLess(data: seq<Parameterize>, i: nat, j: nat)
    requires Acyclic(data) && i < |data| && j < |data|
  {
    Compare(NodeTerm(data, i), NodeTerm(data, j)) == Less
  }

  /** The in-order of the nodes is the structural order of the terms. */
  ghost predicate Ordered(data: seq<Parameterize>, paths: seq<Path>)
    requires Acyclic(data) && |paths| == |data|
  {
    forall i, j :: 0 <= i < |data| && 0 <= j < |data| && PathLess(paths[i], paths[j]) ==> TermLess(data, i, j)
  }

  ghost predicate TreeOk(nodes: seq<Node>, root: Option<nat>, paths: seq<Path>, at: map<Path, nat>) {
    && ShapeOk(nodes, root, paths, at)
    && NodesOk(nodes, paths, at)
    && Acyclic(DataOf(nodes))
    && Ordered(DataOf(nodes), paths)
  }

  /** Labels order the nodes as the structural comparison orders what they stand for. */
  lemma LabelOrderIsStructural(nodes: seq<Node>, root: Option<nat>, paths: seq<Path>, at: map<Path, nat>,
                               i: nat, j: nat)
    requires TreeOk(nodes, root, paths, at) && i < |nodes| && j < |nodes|
    ensures var data := DataOf(nodes);
            CompareInt(Value(nodes[i].treeLabel), Value(nodes[j].treeLabel))
            == Compare(NodeTerm(data, i), NodeTerm(data, j))
    ensures NodeTerm(DataOf(nodes), i) == NodeTerm(DataOf(nodes), j) ==> i == j
  {
    var data := DataOf(nodes);
    var p, q := paths[i], paths[j];
    assert NodeOk(nodes[i], p, at) && NodeOk(nodes[j], q, at);
    assert i != j ==> p != q;
    var a, b := NodeTerm(data, i), NodeTerm(data, j);
    OrderedAt(data, paths, i, j);
    OrderedAt(data, paths, j, i);
    hide *;
    LabelOrderIsInOrder(p, q, LABEL_BITS);
    LabelOrderIsInOrder(q, p, LABEL_BITS);
    PathOrderIsTotal(p, q);
    CompareIsAntisymmetric(a, b);
    hide NodeTerm;
    OrderingsAgree(Value(nodes[i].treeLabel), Value(nodes[j].treeLabel), a, b);
  }

  lemma OrderedAt(data: seq<Parameterize>, paths: seq<Path>, i: nat, j: nat)
    requires Acyclic(data) && |paths| == |data| && Ordered(data, paths) && i < |data| && j < |data|
    ensures PathLess(paths[i], paths[j]) ==> Compare(NodeTerm(data, i), NodeTerm(data, j)) == Less
  {
    hide Compare, NodeTerm, PathLess;
    assert PathLess(paths[i], paths[j]) ==> TermLess(data, i, j);
  }

  lemma OrderingsAgree(x: nat, y: nat, a: Term, b: Term)
    requires x < y ==> Compare(a, b) == Less
    requires y < x ==> Compare(b, a) == Less
    requires x == y ==> a == b
    ensures CompareInt(x, y) == Compare(a, b)
  {
    CompareIsAntisymmetric(a, b);
  }

  // Growing the tree

  /** On the way along `path` the term was behind the nodes where the path turns right, and in front of the others. */
  ghost predicate Directions(data: seq<Parameterize>, at: map<Path, nat>, term: Term, path: Path)
    requires Acyclic(data) && forall p :: p in at ==> at[p] < |data|
  {
    forall m :: 0 <= m < |path| ==>
      path[..m] in at && Compare(term, NodeTerm(data, at[path[..m]])) == if path[m] then Greater else Less
  }

  lemma {:induction false} PrefixesAreNodes(at: map<Path, nat>, p: Path, m: nat)
    requires p in at && m <= |p| && forall q :: q in at && q != [] ==> q[..|q| - 1] in at
    ensures p[..m] in at
    decreases |p|
  {
    if m == |p| {
      assert p[..m] == p;
    } else {
      PrefixesAreNodes(at, p[..|p| - 1], m);
      assert p[..|p| - 1][..m] == p[..m];
    }
  }

  /** A term at the end of its way is where the order puts it, seen from any other node. */
  lemma PlaceIsOrdered(data: seq<Parameterize>, paths: seq<Path>, at: map<Path, nat>, term: Term, path: Path, j: nat)
    requires Acyclic(data) && PathsOk(paths, at) && |paths| == |data| && Ordered(data, paths)
    requires j < |data| && path !in at && Directions(data, at, term, path)
    ensures PathLess(path, paths[j]) ==> Compare(term, NodeTerm(data, j)) == Less
    ensures PathLess(paths[j], path) ==> Compare(NodeTerm(data, j), term) == Less
  {
    hide Compare, NodeTerm, Acyclic, PathLess;
    var q := paths[j];
    var m := CommonPrefix(path, q);
    PrefixesAreNodes(at, q, m);
    assert path[..|path|] == path;
    OrderAtParting(path, q);
    hide CommonPrefix;
    var node := at[path[..m]];
    var above, other := NodeTerm(data, node), NodeTerm(data, j);
    assert Compare(term, above) == if path[m] then Greater else Less;
    CompareIsAntisymmetric(term, above);
    if m == |q| {
      assert node == j;
    } else if path[m] {
      assert TermLess(data, j, node);
      CompareIsTransitive(other, above, term);
    } else {
      assert TermLess(data, node, j);
      CompareIsTransitive(term, above, other);
    }
  }

  lemma NodeTermStays(data: seq<Parameterize>, p: Parameterize, i: nat)
    requires Acyclic(data) && AllBelow(p, |data|) && i < |data|
    ensures Acyclic(data + [p]) && NodeTerm(data + [p], i) == NodeTerm(data, i)
  {
    UnfoldStays(data, p, Ref(PARAMETERIZE_KIND, i));
  }

  /** The last parameterize stands for its term. */
  lemma LastNodeTerm(data: seq<Parameterize>, p: Parameterize)
    requires Acyclic(data) && AllBelow(p, |data|)
    ensures Acyclic(data + [p]) && NodeTerm(data + [p], |data|) == TermOf(data, p)
  {
    var more := data + [p];
    UnfoldStays(data, p, p.base);
    forall i | 0 <= i < |p.arguments|
      ensures Unfold(more, p.arguments[i]) == Unfold(data, p.arguments[i])
    {
      UnfoldStays(data, p, p.arguments[i]);
    }
    assert more[|data|] == p;
    var a, b := UnfoldAll(more, PARAMETERIZE_KIND, p, |data|), UnfoldAll(data, PARAMETERIZE_KIND, p, |data|);
    assert NodeTerm(more, |data|) == a;
    assert |a.args| == |b.args| && forall i :: 0 <= i < |a.args| ==> a.args[i] == b.args[i];
  }

  lemma GrownPathsOk(paths: seq<Path>, at: map<Path, nat>, path: Path)
    requires PathsOk(paths, at) && path !in at && (path != [] ==> path[..|path| - 1] in at)
    ensures PathsOk(paths + [path], at[path := |paths|])
  {
  }

  lemma GrownOrder(data: seq<Parameterize>, paths: seq<Path>, at: map<Path, nat>, p: Parameterize, path: Path)
    requires Acyclic(data) && PathsOk(paths, at) && |paths| == |data| && Ordered(data, paths)
    requires AllBelow(p, |data|) && path !in at && Directions(data, at, TermOf(data, p), path)
    ensures Acyclic(data + [p]) && Ordered(data + [p], paths + [path])
  {
    var n, data', paths' := |data|, data + [p], paths + [path];
    LastNodeTerm(data, p);
    PathOrderIsTotal(path, path);
    hide TermOf, Unfold, NodeTerm, PathLess, Compare, Acyclic, AllBelow, PathsOk, Directions;
    forall i, j | 0 <= i <= n && 0 <= j <= n && PathLess(paths'[i], paths'[j])
      ensures TermLess(data', i, j)
    {
      if i < n {
        NodeTermStays(data, p, i);
        if j < n {
          NodeTermStays(data, p, j);
          assert TermLess(data, i, j);
        } else {
          PlaceIsOrdered(data, paths, at, TermOf(data, p), path, i);
        }
      } else if j < n {
        NodeTermStays(data, p, j);
        PlaceIsOrdered(data, paths, at, TermOf(data, p), path, j);
      }
    }
  }

  function NewNode(treeLabel: Bits, data: Parameterize): Node {
    Node(None, None, treeLabel, data)
  }

  function WithChild(node: Node, right: bool, child: nat): Node {
    if right then node.(rightChild := Some(child)) else node.(leftChild := Some(child))
  }

  /** A node that gets a child, and nothing else changes. */
  lemma ParentOk(node: Node, path: Path, at: map<Path, nat>, right: bool, child: nat)
    requires NodeOk(node, path, at) && path + [right] !in at
    ensures NodeOk(WithChild(node, right, child), path, at[path + [right] := child])
  {
    ChildPaths(path, path, right);
    hide LabelOf;
  }

  lemma OtherOk(node: Node, path: Path, at: map<Path, nat>, parent: Path, right: bool, child: nat)
    requires NodeOk(node, path, at) && path != parent
    ensures NodeOk(node, path, at[parent + [right] := child])
  {
    ChildPaths(path, parent, right);
    hide LabelOf;
  }

  /** A node without children gets the label of its path. */
  lemma NewNodeOk(node: Node, parent: Path, paths: seq<Path>, at: map<Path, nat>, right: bool, p: Parameterize)
    requires NodeOk(node, parent, at) && PathsOk(paths, at) && |parent| < 31 && parent + [right] !in at
    ensures |node.treeLabel| == LABEL_BITS
    ensures NodeOk(NewNode(Extend(node.treeLabel, right), p), parent + [right], at[parent + [right] := |paths|])
  {
    hide Extend, LabelOf, PathsOk;
    ExtendIsChildLabel(parent, right);
    NoGrandchildren(paths, at, parent + [right]);
  }

  lemma GrownNodesOk(nodes: seq<Node>, paths: seq<Path>, at: map<Path, nat>, parent: nat, right: bool, p: Parameterize)
    requires NodesOk(nodes, paths, at) && PathsOk(paths, at) && parent < |nodes| && |paths[parent]| < 31
    requires |nodes[parent].treeLabel| == LABEL_BITS && paths[parent] + [right] !in at
    ensures var path := paths[parent] + [right];
            NodesOk(nodes[parent := WithChild(nodes[parent], right, |nodes|)]
                    + [NewNode(Extend(nodes[parent].treeLabel, right), p)], paths + [path], at[path := |nodes|])
  {
    var n, path := |nodes|, paths[parent] + [right];
    var nodes' := nodes[parent := WithChild(nodes[parent], right, n)]
                  + [NewNode(Extend(nodes[parent].treeLabel, right), p)];
    hide NodeOk, Extend, LabelOf;
    NewNodeOk(nodes[parent], paths[parent], paths, at, right, p);
    forall i | 0 <= i < n
      ensures NodeOk(nodes'[i], paths[i], at[path := n])
    {
      assert NodeOk(nodes[i], paths[i], at);
      if i == parent {
        ParentOk(nodes[i], paths[i], at, right, n);
      } else {
        assert paths[i] != paths[parent];
        OtherOk(nodes[i], paths[i], at, paths[parent], right, n);
      }
    }
  }

  /** Linking a new node where its way through the tree ends. */
  lemma GrowKeepsTree(nodes: seq<Node>, root: Option<nat>, paths: seq<Path>, at: map<Path, nat>, parent: nat,
                      right: bool, p: Parameterize)
    requires TreeOk(nodes, root, paths, at) && parent < |nodes| && |paths[parent]| < 31
    requires AllBelow(p, |nodes|) && |nodes[parent].treeLabel| == LABEL_BITS
    requires var path := paths[parent] + [right];
             path !in at && Directions(DataOf(nodes), at, TermOf(DataOf(nodes), p), path)
    ensures var path := paths[parent] + [right];
            var nodes' := nodes[parent := WithChild(nodes[parent], right, |nodes|)]
                          + [NewNode(Extend(nodes[parent].treeLabel, right), p)];
            && TreeOk(nodes', root, paths + [path], at[path := |nodes|])
            && DataOf(nodes') == DataOf(nodes) + [p]
  {
    hide NodeOk, Ordered, Directions, Acyclic, TermOf, Extend, PathsOk;
    var n, data := |nodes|, DataOf(nodes);
    var path := paths[parent] + [right];
    var nodes' := nodes[parent := WithChild(nodes[parent], right, n)]
                  + [NewNode(Extend(nodes[parent].treeLabel, right), p)];
    assert path[..|path| - 1] == paths[parent];
    ParentIsNode(paths, at, parent);
    GrownPathsOk(paths, at, path);
    GrownOrder(data, paths, at, p, path);
    GrownNodesOk(nodes, paths, at, parent, right, p);
    assert DataOf(nodes') == data + [p];
    assert path != [];
  }

  lemma ParentIsNode(paths: seq<Path>, at: map<Path, nat>, i: nat)
    requires PathsOk(paths, at) && i < |paths|
    ensures paths[i] in at
  {
  }

  lemma ChildPaths(p: Path, q: Path, right: bool)
    ensures forall b :: p + [b] == q + [right] <==> p == q && b == right
  {
    forall b | p + [b] == q + [right]
      ensures p == q && b == right
    {
      assert (p + [b])[..|p|] == p && (q + [right])[..|q|] == q;
      assert (p + [b])[|p|] == b && (q + [right])[|q|] == right;
    }
  }

  lemma NoGrandchildren(paths: seq<Path>, at: map<Path, nat>, path: Path)
    requires PathsOk(paths, at) && path !in at
    ensures forall b :: path + [b] !in at && path + [b] != path
  {
    forall b
      ensures path + [b] !in at
    {
      assert (path + [b])[..|path|] == path;
    }
  }

  lemma RootTreeOk(p: Parameterize)
    requires AllBelow(p, 0)
    ensures TreeOk([NewNode(RootLabel(), p)], Some(0), [[]], map[[] := 0])
  {
    RootHasRootLabel();
    PathOrderIsTotal([], []);
  }

  // Comparing by labels

  function CompareParameterizes(nodes: seq<Node>, a: nat, b: nat): Ordering
    requires a < |nodes| && b < |nodes|
  {
    CompareInt(Value(nodes[a].treeLabel), Value(nodes[b].treeLabel))
  }

  function CompareConstants(nodes: seq<Node>, a: Constant, b: Constant): Ordering
    requires RefsBelow(a, |nodes|) && RefsBelow(b, |nodes|)
  {
    if a.kind != b.kind then CompareInt(a.kind, b.kind)
    else
      match (a, b)
      case (Simple(_, x), Simple(_, y)) => CompareInt(x, y)
      case (Ref(_, i), Ref(_, j)) => CompareParameterizes(nodes, i, j)
      // Constants of the same kind are both simple or both refer to parameterizes.
      case (Simple(_, _), Ref(_, _)) => Less
      case (Ref(_, _), Simple(_, _)) => Greater
  }

  lemma UnfoldOfKind(data: seq<Parameterize>, kind: nat, id: nat)
    requires Acyclic(data) && id < |data|
    ensures var t := NodeTerm(data, id);
            t.Parameterized? && t.kind == PARAMETERIZE_KIND
            && Unfold(data, Ref(kind, id)) == Parameterized(kind, t.base, t.args)
  {
    var a, b := UnfoldAll(data, kind, data[id], id), UnfoldAll(data, PARAMETERIZE_KIND, data[id], id);
    assert NodeTerm(data, id) == b && Unfold(data, Ref(kind, id)) == a;
    assert a.args == b.args;
  }

  /** The term of the data of a node is that of the node. */
  lemma DataTerm(data: seq<Parameterize>, id: nat)
    requires Acyclic(data) && id < |data|
    ensures AllBelow(data[id], |data|) && TermOf(data, data[id]) == NodeTerm(data, id)
  {
    assert AllBelow(data[id], id);
    var a, b := UnfoldAll(data, PARAMETERIZE_KIND, data[id], |data|), UnfoldAll(data, PARAMETERIZE_KIND, data[id], id);
    assert NodeTerm(data, id) == b;
    assert a.args == b.args;
  }

  /** Comparing labels is comparing what the constants stand for. */
  lemma ConstantsCompareDeeply(nodes: seq<Node>, root: Option<nat>, paths: seq<Path>, at: map<Path, nat>,
                               a: Constant, b: Constant)
    requires TreeOk(nodes, root, paths, at) && RefsBelow(a, |nodes|) && RefsBelow(b, |nodes|)
    ensures CompareConstants(nodes, a, b) == Compare(Unfold(DataOf(nodes), a), Unfold(DataOf(nodes), b))
  {
    if a.Ref? && b.Ref? && a.kind == b.kind {
      var data := DataOf(nodes);
      LabelOrderIsStructural(nodes, root, paths, at, a.id, b.id);
      UnfoldOfKind(data, a.kind, a.id);
      UnfoldOfKind(data, b.kind, b.id);
      hide TreeOk, Unfold, NodeTerm, Compare;
      var x, y := NodeTerm(data, a.id), NodeTerm(data, b.id);
      CompareOfSameKind(PARAMETERIZE_KIND, a.kind, x.base, x.args, y.base, y.args);
    }
  }

  /** The first arguments are equal, and the rest decides. */
  lemma CompareArgsStep(whole: Term, x: seq<Term>, y: seq<Term>, i: nat)
    requires |x| == |y| && i < |x| && forall k :: 0 <= k < |x| ==> x[k] < whole
    ensures CompareArgs(whole, x[i..], y[i..]) == if Compare(x[i], y[i]) != Equal then Compare(x[i], y[i])
                                                  else CompareArgs(whole, x[i + 1..], y[i + 1..])
  {
    assert x[i..][1..] == x[i + 1..] && y[i..][1..] == y[i + 1..];
  }

  /** Compares two parameterizes by their bases, the number of their arguments, and the arguments. */
  method CompareShallow(nodes: seq<Node>, ghost root: Option<nat>, ghost paths: seq<Path>, ghost at: map<Path, nat>,
                        a: Parameterize, b: Parameterize) returns (ordering: Ordering)
    requires TreeOk(nodes, root, paths, at) && AllBelow(a, |nodes|) && AllBelow(b, |nodes|)
    ensures ordering == Compare(TermOf(DataOf(nodes), a), TermOf(DataOf(nodes), b))
  {
    ghost var x, y := TermOf(DataOf(nodes), a), TermOf(DataOf(nodes), b);
    ConstantsCompareDeeply(nodes, root, paths, at, a.base, b.base);
    var baseOrdering := CompareConstants(nodes, a.base, b.base);
    if baseOrdering != Equal {
      return baseOrdering;
    }
    if |a.arguments| != |b.arguments| {
      return if |a.arguments| < |b.arguments| then Greater else Less;
    }
    assert Compare(x, y) == CompareArgs(x, x.args, y.args);
    assert x.args[0..] == x.args && y.args[0..] == y.args;
    hide TreeOk, Compare, CompareArgs;
    for i := 0 to |a.arguments|
      invariant Compare(x, y) == CompareArgs(x, x.args[i..], y.args[i..])
    {
      ConstantsCompareDeeply(nodes, root, paths, at, a.arguments[i], b.arguments[i]);
      CompareArgsStep(x, x.args, y.args, i);
      ordering := CompareConstants(nodes, a.arguments[i], b.arguments[i]);
      if ordering != Equal {
        return ordering;
      }
    }
    NoArgsAreEqual(x, x.args[|a.arguments|..], y.args[|a.arguments|..]);
    return Equal;
  }

  lemma NoArgsAreEqual(whole: Term, x: seq<Term>, y: seq<Term>)
    requires |x| == |y| == 0
    ensures CompareArgs(whole, x, y) == Equal
  {
  }

  // The set

  class ParameterizeSet {
    var nodes: seq<Node>
    var rootNode: Option<nat>
    ghost var paths: seq<Path>
    ghost var at: map<Path, nat>

    ghost predicate Valid()
      reads this
    {
      TreeOk(nodes, rootNode, paths, at)
    }

    ghost function Data(): seq<Parameterize>
      reads this
    {
      DataOf(nodes)
    }

    constructor ()
      ensures Valid() && nodes == []
    {
      nodes, rootNode, paths, at := [], None, [], map[];
    }

    /** The search for a parameterize ends below depth 31. */
    ghost predicate TooDeep(para: Parameterize)
      reads this
    {
      exists path :: IsPlace(nodes, rootNode, paths, at, para, path) && |path| == 32
    }

    lemma NotTooDeep(para: Parameterize, path: Path)
      requires Valid() && AllBelow(para, |nodes|) && |path| < 32
      requires forall q :: IsPlace(nodes, rootNode, paths, at, para, q) ==> q == path
      ensures !TooDeep(para)
    {
      hide IsPlace, TreeOk, DataOf, TermOf;
    }

    /** The handle of a parameterize, which is added unless an equal one is known, or unless it had to be too deep. */
    method Get(para: Parameterize) returns (handle: Option<nat>)
      requires Valid() && AllBelow(para, |nodes|)
      modifies this
      ensures Valid()
      ensures handle.None? <==> old(TooDeep(para))
      ensures handle.None? ==> nodes == old(nodes) && forall i: nat :: !Known(nodes, para, i)
      ensures forall i: nat :: Known(old(nodes), para, i) ==> nodes == old(nodes) && handle == Some(i)
      ensures handle.Some? ==>
        || (nodes == old(nodes) && Known(nodes, para, handle.value))
        || (handle.value == |old(nodes)| && Grown(old(nodes), old(paths), para, nodes, paths))
    {
      hide TreeOk, TermOf, NodeTerm, Compare, Directions, DataOf, AllBelow, Acyclic, Grown, Known, WayOk, IsPlace;
      if rootNode.None? {
        NoNodes(nodes, rootNode, paths, at, para);
        AddRoot(para);
        return Some(0);
      }
      var node: nat := rootNode.value;
      RootIsNode(nodes, rootNode, paths, at, para);
      while true
        invariant WayOk(nodes, rootNode, paths, at, para, node) && unchanged(this)
        decreases 32 - Height(paths, node)
      {
        NodeFacts(nodes, rootNode, paths, at, para, node);
        var c := CompareShallow(nodes, rootNode, paths, at, para, nodes[node].data);
        if c == Equal {
          EqualIsKnown(nodes, rootNode, paths, at, para, node);
          KnownHasNoPlace(nodes, rootNode, paths, at, para, node);
          NotTooDeep(para, []);
          return Some(node);
        }
        var right := c == Greater;
        var next := if right then nodes[node].rightChild else nodes[node].leftChild;
        StepDown(nodes, rootNode, paths, at, para, node, right, next);
        if next.Some? {
          node := next.value;
          continue;
        }
        PlaceIsOnlyOne(nodes, rootNode, paths, at, para, paths[node] + [right]);
        if Depth(nodes[node].treeLabel) == 31 {
          assert TooDeep(para);
          return None;
        } else {
          NotTooDeep(para, paths[node] + [right]);
          handle := Some(|nodes|);
          AddChild(node, right, para);
          return;
        }
      }
    }

    /** Interns a parameterize as a constant, which stands for the same term for ever. */
    method AddParameterize(para: Parameterize) returns (c: Option<Constant>)
      requires Valid() && AllBelow(para, |nodes|) && para.arguments != []
      modifies this
      ensures Valid() && Acyclic(Data()) && AllBelow(para, |nodes|) && |old(nodes)| <= |nodes|
      ensures c.None? <==> old(TooDeep(para))
      ensures c.None? ==> nodes == old(nodes) && forall i: nat :: !Known(nodes, para, i)
      ensures forall i: nat :: Known(old(nodes), para, i) ==>
        nodes == old(nodes) && c == Some(Ref(PARAMETERIZE_KIND, i))
      ensures c.Some? ==> c.value.kind == PARAMETERIZE_KIND && RefsBelow(c.value, |nodes|)
                          && Unfold(Data(), c.value) == TermOf(Data(), para)
    {
      hide NodesOk, Ordered, PathsOk, TermOf, Unfold;
      var handle := Get(para);
      c := if handle.Some? then Some(Ref(PARAMETERIZE_KIND, handle.value)) else None;
    }

    method AddRoot(para: Parameterize)
      requires Valid() && AllBelow(para, |nodes|) && rootNode.None?
      modifies this
      ensures Valid() && old(nodes) == [] && Grown([], [], para, nodes, paths) && old(paths) == []
    {
      RootTreeOk(para);
      LastNodeTerm([], para);
      TermStays([], para, para);
      nodes, rootNode, paths, at := [NewNode(RootLabel(), para)], Some(0), [[]], map[[] := 0];
      assert [] + [para] == [para] == Data();
    }

    /** Appends a node and links it to its parent. */
    method AddChild(parent: nat, right: bool, para: Parameterize)
      requires Growable(nodes, rootNode, paths, at, parent, right, para)
      modifies this
      ensures Valid() && Grown(old(nodes), old(paths), para, nodes, paths)
    {
      hide Growable, TreeOk, Grown, Extend;
      GrownTree(nodes, rootNode, paths, at, parent, right, para);
      paths, at := paths + [paths[parent] + [right]], at[paths[parent] + [right] := |nodes|];
      nodes := nodes[parent := WithChild(nodes[parent], right, |nodes|)]
               + [NewNode(Extend(nodes[parent].treeLabel, right), para)];
    }
  }

  /** A parameterize was appended, and the nodes from before kept what they stand for, their places and labels. */
  ghost predicate Grown(nodes: seq<Node>, paths: seq<Path>, p: Parameterize, nodes': seq<Node>, paths': seq<Path>) {
    && Acyclic(DataOf(nodes')) && AllBelow(p, |nodes'|) && |nodes'| == |nodes| + 1
    && DataOf(nodes') == DataOf(nodes) + [p]
    && NodeTerm(DataOf(nodes'), |nodes|) == TermOf(DataOf(nodes'), p)
    && |paths| == |nodes| && paths <= paths'
    && forall i :: 0 <= i < |nodes| ==> nodes'[i].treeLabel == nodes[i].treeLabel
  }

  ghost predicate Growable(nodes: seq<Node>, root: Option<nat>, paths: seq<Path>, at: map<Path, nat>, parent: nat,
                           right: bool, p: Parameterize) {
    && TreeOk(nodes, root, paths, at) && AllBelow(p, |nodes|) && parent < |nodes| && |paths[parent]| < 31
    && |nodes[parent].treeLabel| == LABEL_BITS
    && paths[parent] + [right] !in at
    && Directions(DataOf(nodes), at, TermOf(DataOf(nodes), p), paths[parent] + [right])
  }

  lemma TreeSizes(nodes: seq<Node>, root: Option<nat>, paths: seq<Path>, at: map<Path, nat>)
    requires TreeOk(nodes, root, paths, at)
    ensures |paths| == |nodes| == |DataOf(nodes)| && Acyclic(DataOf(nodes))
  {
  }

  lemma LabelsStay(nodes: seq<Node>, parent: nat, right: bool, p: Parameterize)
    requires parent < |nodes| && |nodes[parent].treeLabel| == LABEL_BITS
    ensures var nodes' := nodes[parent := WithChild(nodes[parent], right, |nodes|)]
                          + [NewNode(Extend(nodes[parent].treeLabel, right), p)];
            forall i :: 0 <= i < |nodes| ==> nodes'[i].treeLabel == nodes[i].treeLabel
  {
    hide Extend;
  }

  lemma GrownTree(nodes: seq<Node>, root: Option<nat>, paths: seq<Path>, at: map<Path, nat>, parent: nat, right: bool,
                  p: Parameterize)
    requires Growable(nodes, root, paths, at, parent, right, p)
    ensures parent < |nodes| == |paths| && |nodes[parent].treeLabel| == LABEL_BITS
    ensures var path := paths[parent] + [right];
            var nodes' := nodes[parent := WithChild(nodes[parent], right, |nodes|)]
                          + [NewNode(Extend(nodes[parent].treeLabel, right), p)];
            && TreeOk(nodes', root, paths + [path], at[path := |nodes|])
            && Grown(nodes, paths, p, nodes', paths + [path])
  {
    TreeSizes(nodes, root, paths, at);
    LabelsStay(nodes, parent, right, p);
    GrowKeepsTree(nodes, root, paths, at, parent, right, p);
    hide *;
    var nodes' := nodes[parent := WithChild(nodes[parent], right, |nodes|)]
                  + [NewNode(Extend(nodes[parent].treeLabel, right), p)];
    GrownFrom(nodes, paths, p, nodes', paths + [paths[parent] + [right]]);
  }

  lemma GrownFrom(nodes: seq<Node>, paths: seq<Path>, p: Parameterize, nodes': seq<Node>, paths': seq<Path>)
    requires Acyclic(DataOf(nodes)) && AllBelow(p, |nodes|) && |nodes'| == |nodes| + 1
    requires DataOf(nodes') == DataOf(nodes) + [p]
    requires |paths| == |nodes| && paths <= paths'
    requires forall i :: 0 <= i < |nodes| ==> nodes'[i].treeLabel == nodes[i].treeLabel
    ensures Grown(nodes, paths, p, nodes', paths')
  {
    LastNodeTerm(DataOf(nodes), p);
    TermStays(DataOf(nodes), p, p);
    hide Acyclic, AllBelow, NodeTerm, TermOf, DataOf;
  }

  /** A parameterize with the same term is interned. */
  ghost predicate Known(nodes: seq<Node>, p: Parameterize, handle: nat) {
    && Acyclic(DataOf(nodes)) && AllBelow(p, |nodes|) && handle < |nodes|
    && NodeTerm(DataOf(nodes), handle) == TermOf(DataOf(nodes), p)
  }

  /** The way of a parameterize ends at `path`, where there is no node. */
  ghost predicate IsPlace(nodes: seq<Node>, root: Option<nat>, paths: seq<Path>, at: map<Path, nat>, p: Parameterize,
                          path: Path) {
    && TreeOk(nodes, root, paths, at) && AllBelow(p, |nodes|)
    && path !in at && Directions(DataOf(nodes), at, TermOf(DataOf(nodes), p), path)
  }

  ghost function Height(paths: seq<Path>, i: nat): nat {
    if i < |paths| then |paths[i]| else 0
  }

  /** The search for a parameterize reached a node. */
  ghost predicate WayOk(nodes: seq<Node>, root: Option<nat>, paths: seq<Path>, at: map<Path, nat>, p: Parameterize,
                        node: nat) {
    && TreeOk(nodes, root, paths, at) && node < |nodes| && AllBelow(p, |nodes|)
    && Directions(DataOf(nodes), at, TermOf(DataOf(nodes), p), paths[node])
  }

  lemma RootIsNode(nodes: seq<Node>, root: Option<nat>, paths: seq<Path>, at: map<Path, nat>, p: Parameterize)
    requires TreeOk(nodes, root, paths, at) && root.Some? && AllBelow(p, |nodes|)
    ensures WayOk(nodes, root, paths, at, p, root.value)
  {
    hide NodesOk, Ordered;
    assert paths[root.value] == [];
  }

  lemma NodeFacts(nodes: seq<Node>, root: Option<nat>, paths: seq<Path>, at: map<Path, nat>, p: Parameterize, node: nat)
    requires WayOk(nodes, root, paths, at, p, node)
    ensures TreeOk(nodes, root, paths, at) && node < |nodes| == |paths| && Height(paths, node) == |paths[node]| <= 31
    ensures |nodes[node].treeLabel| == LABEL_BITS && Depth(nodes[node].treeLabel) == |paths[node]|
    ensures AllBelow(nodes[node].data, |nodes|) && AllBelow(p, |nodes|)
    ensures Acyclic(DataOf(nodes))
    ensures TermOf(DataOf(nodes), nodes[node].data) == NodeTerm(DataOf(nodes), node)
  {
    assert NodeOk(nodes[node], paths[node], at);
    DepthIsPathLength(paths[node]);
    DataTerm(DataOf(nodes), node);
  }

  lemma EqualIsKnown(nodes: seq<Node>, root: Option<nat>, paths: seq<Path>, at: map<Path, nat>, p: Parameterize,
                     node: nat)
    requires WayOk(nodes, root, paths, at, p, node)
    requires Compare(TermOf(DataOf(nodes), p), NodeTerm(DataOf(nodes), node)) == Equal
    ensures Known(nodes, p, node)
  {
    hide NodesOk, Ordered, PathsOk;
    CompareIsAntisymmetric(TermOf(DataOf(nodes), p), NodeTerm(DataOf(nodes), node));
  }

  /** A tree without a root has no nodes. */
  lemma NoNodes(nodes: seq<Node>, root: Option<nat>, paths: seq<Path>, at: map<Path, nat>, p: Parameterize)
    requires TreeOk(nodes, root, paths, at) && AllBelow(p, |nodes|) && root.None?
    ensures forall i: nat :: !Known(nodes, p, i)
    ensures forall path :: IsPlace(nodes, root, paths, at, p, path) ==> path == []
  {
    hide Compare, TermOf, NodeTerm, NodesOk, Ordered;
    forall path | IsPlace(nodes, root, paths, at, p, path)
      ensures path == []
    {
      assert path[..0] == [];
    }
  }

  /** Two ways of one term end at the same place. */
  lemma PlaceIsUnique(data: seq<Parameterize>, at: map<Path, nat>, term: Term, p: Path, q: Path)
    requires Acyclic(data) && forall r :: r in at ==> at[r] < |data|
    requires p !in at && Directions(data, at, term, p) && q !in at && Directions(data, at, term, q)
    ensures p == q
  {
    hide Compare, NodeTerm, Acyclic;
    var m := CommonPrefix(p, q);
    hide CommonPrefix;
    assert p[..|p|] == p && q[..|q|] == q;
    assert m == |p| || m == |q|;
  }

  /** Seen from where its way ends, a term is unknown. */
  lemma PlaceIsOnlyOne(nodes: seq<Node>, root: Option<nat>, paths: seq<Path>, at: map<Path, nat>, p: Parameterize,
                       path: Path)
    requires IsPlace(nodes, root, paths, at, p, path)
    ensures forall i: nat :: !Known(nodes, p, i)
    ensures forall q :: IsPlace(nodes, root, paths, at, p, q) ==> q == path
  {
    hide Compare, TermOf, NodeTerm, NodesOk, Acyclic, DataOf, Directions, PathLess, Ordered, AllBelow;
    var data, term := DataOf(nodes), TermOf(DataOf(nodes), p);
    forall i: nat
      ensures !Known(nodes, p, i)
    {
      if Known(nodes, p, i) {
        ParentIsNode(paths, at, i);
        PathOrderIsTotal(path, paths[i]);
        PlaceIsOrdered(data, paths, at, term, path, i);
        CompareIsAntisymmetric(term, term);
      }
    }
    forall q | IsPlace(nodes, root, paths, at, p, q)
      ensures q == path
    {
      PlaceIsUnique(data, at, term, path, q);
    }
  }

  /** The way of a known term does not end, and only one node stands for the term. */
  lemma KnownHasNoPlace(nodes: seq<Node>, root: Option<nat>, paths: seq<Path>, at: map<Path, nat>, p: Parameterize,
                        node: nat)
    requires TreeOk(nodes, root, paths, at) && AllBelow(p, |nodes|) && Known(nodes, p, node)
    ensures forall i: nat :: Known(nodes, p, i) ==> i == node
    ensures forall q :: !IsPlace(nodes, root, paths, at, p, q)
  {
    hide Compare, TermOf, NodeTerm, TreeOk, DataOf, AllBelow, Acyclic, IsPlace;
    TreeSizes(nodes, root, paths, at);
    forall i: nat | Known(nodes, p, i)
      ensures i == node
    {
      LabelOrderIsStructural(nodes, root, paths, at, i, node);
    }
    forall q
      ensures !IsPlace(nodes, root, paths, at, p, q)
    {
      if IsPlace(nodes, root, paths, at, p, q) {
        PlaceIsOnlyOne(nodes, root, paths, at, p, q);
      }
    }
  }

  lemma DirectionsStep(data: seq<Parameterize>, at: map<Path, nat>, term: Term, p: Path, right: bool)
    requires Acyclic(data) && forall q :: q in at ==> at[q] < |data|
    requires Directions(data, at, term, p) && p in at
    requires Compare(term, NodeTerm(data, at[p])) == if right then Greater else Less
    ensures Directions(data, at, term, p + [right])
  {
    hide Compare, NodeTerm, Acyclic;
    var path := p + [right];
    forall m | 0 <= m < |path|
      ensures path[..m] in at && Compare(term, NodeTerm(data, at[path[..m]])) == if path[m] then Greater else Less
    {
      assert path[..m] == if m < |p| then p[..m] else p;
    }
  }

  /** Where the links of a node lead. */
  lemma LinkedNode(nodes: seq<Node>, root: Option<nat>, paths: seq<Path>, at: map<Path, nat>, node: nat, right: bool)
    requires TreeOk(nodes, root, paths, at) && node < |nodes|
    ensures paths[node] in at && at[paths[node]] == node
    ensures var next := if right then nodes[node].rightChild else nodes[node].leftChild;
            && next == Child(at, paths[node] + [right])
            && (next.Some? ==> next.value < |nodes| && paths[next.value] == paths[node] + [right])
    ensures forall q :: q in at ==> at[q] < |nodes|
  {
    hide Ordered, Acyclic, LabelOf;
    assert NodeOk(nodes[node], paths[node], at);
  }

  /** Following the link to a child, or to where a child would be. */
  lemma StepDown(nodes: seq<Node>, root: Option<nat>, paths: seq<Path>, at: map<Path, nat>, p: Parameterize, node: nat,
                 right: bool, next: Option<nat>)
    requires WayOk(nodes, root, paths, at, p, node) && TreeOk(nodes, root, paths, at)
    requires next == if right then nodes[node].rightChild else nodes[node].leftChild
    requires Compare(TermOf(DataOf(nodes), p), NodeTerm(DataOf(nodes), node)) == if right then Greater else Less
    ensures next.Some? ==> WayOk(nodes, root, paths, at, p, next.value)
                           && Height(paths, next.value) == Height(paths, node) + 1
    ensures next.None? && |paths[node]| < 31 ==> Growable(nodes, root, paths, at, node, right, p)
    ensures next.None? ==> IsPlace(nodes, root, paths, at, p, paths[node] + [right])
  {
    hide TreeOk, Compare, NodeTerm, TermOf, Directions, DataOf, AllBelow, Acyclic;
    NodeFacts(nodes, root, paths, at, p, node);
    LinkedNode(nodes, root, paths, at, node, right);
    DirectionsStep(DataOf(nodes), at, TermOf(DataOf(nodes), p), paths[node], right);
  }

  // A tree that runs out of labels

  /** Constants in descending order. */
  function Descending(i: int): Parameterize {
    Parameterize(Simple(1, -i), [Simple(1, 0)])
  }

  ghost predicate AreDescending(data: seq<Parameterize>) {
    forall i :: 0 <= i < |data| ==> data[i] == Descending(i)
  }

  /** Every node is the left child of the one before it. */
  ghost predicate IsLeftChain(paths: seq<Path>) {
    forall i :: 0 <= i < |paths| ==> paths[i] == Repeat(false, i)
  }

  lemma DescendingTerm(data: seq<Parameterize>, i: int)
    requires Acyclic(data) && 0 <= i < |data| && data[i] == Descending(i)
    ensures NodeTerm(data, i) == Parameterized(PARAMETERIZE_KIND, Plain(1, -i), [Plain(1, 0)])
  {
    var p, term := Descending(i), UnfoldAll(data, PARAMETERIZE_KIND, Descending(i), i);
    assert NodeTerm(data, i) == term;
    assert Unfold(data, p.base) == Plain(1, -i) && Unfold(data, p.arguments[0]) == Plain(1, 0);
    assert term.args == [Plain(1, 0)];
  }

  lemma DescendingOrder(data: seq<Parameterize>, i: nat, j: nat)
    requires Acyclic(data) && AreDescending(data) && i < j < |data|
    ensures Compare(NodeTerm(data, j), NodeTerm(data, i)) == Less
    ensures Compare(NodeTerm(data, i), NodeTerm(data, j)) == Greater
    ensures NodeTerm(data, i) != NodeTerm(data, j)
  {
    DescendingTerm(data, i);
    DescendingTerm(data, j);
  }

  /** The next of the descending constants becomes the left child of the last one. */
  lemma ChainGrows(nodes: seq<Node>, root: Option<nat>, paths: seq<Path>, at: map<Path, nat>)
    requires TreeOk(nodes, root, paths, at) && AreDescending(DataOf(nodes)) && nodes != []
    requires IsLeftChain(paths[..|paths| - 1])
    ensures IsLeftChain(paths) && |nodes| <= 32
  {
    hide Compare, NodeTerm, LabelOf, PathLess, Acyclic, DataOf, AreDescending, NodesOk, Ordered, PathsOk;
    var n := |nodes| - 1;
    forall k | 0 <= k < n
      ensures paths[k] == Repeat(false, k) && !PathLess(paths[k], paths[n])
    {
      assert paths[..n][k] == paths[k];
      NotInFront(nodes, root, paths, at, k, n);
    }
    var k := ParentOf(nodes, root, paths, at, n);
    ChainContinues(paths, n, k);
  }

  lemma NotInFront(nodes: seq<Node>, root: Option<nat>, paths: seq<Path>, at: map<Path, nat>, k: nat, n: nat)
    requires TreeOk(nodes, root, paths, at) && AreDescending(DataOf(nodes)) && k < n < |nodes|
    ensures !PathLess(paths[k], paths[n])
  {
    hide Compare, NodeTerm, PathLess, Acyclic, NodesOk, PathsOk;
    DescendingOrder(DataOf(nodes), k, n);
    OrderedAt(DataOf(nodes), paths, k, n);
  }

  lemma ParentOf(nodes: seq<Node>, root: Option<nat>, paths: seq<Path>, at: map<Path, nat>, n: nat) returns (k: nat)
    requires TreeOk(nodes, root, paths, at) && n < |nodes|
    ensures k < |nodes| == |paths| && |paths[n]| <= 31
    ensures if paths[n] == [] then paths[k] == [] else paths[k] == paths[n][..|paths[n]| - 1]
    ensures forall i, j :: 0 <= i < |nodes| && 0 <= j < |nodes| && paths[i] == paths[j] ==> i == j
  {
    hide Ordered, Acyclic, LabelOf;
    assert NodeOk(nodes[n], paths[n], at);
    k := if paths[n] == [] then n else at[paths[n][..|paths[n]| - 1]];
  }

  lemma ChainContinues(paths: seq<Path>, n: nat, k: nat)
    requires k < |paths| == n + 1
    requires forall i :: 0 <= i < n ==> paths[i] == Repeat(false, i) && !PathLess(paths[i], paths[n])
    requires forall i, j :: 0 <= i <= n && 0 <= j <= n && paths[i] == paths[j] ==> i == j
    requires if paths[n] == [] then paths[k] == [] else paths[k] == paths[n][..|paths[n]| - 1]
    ensures paths[n] == Repeat(false, n)
  {
    hide PathLess;
    var p := paths[n];
    forall i | 0 <= i < n
      ensures Repeat(false, i) != p
    {
      assert paths[i] != paths[n];
    }
    if p == [] {
      assert p == Repeat(false, 0);
    } else {
      BelowIsOrdered(paths[k], p);
      assert p == Repeat(false, k + 1);
    }
  }

  /** A right child is behind its parent. */
  lemma {:induction false} BelowIsOrdered(parent: Path, path: Path)
    requires path != [] && parent == path[..|path| - 1]
    ensures PathLess(parent, path) == path[|path| - 1]
  {
    if parent != [] {
      assert parent[1..] == path[1..][..|path| - 2];
      BelowIsOrdered(parent[1..], path[1..]);
    }
  }

  lemma DescendingIsNew(nodes: seq<Node>, i: nat)
    requires Acyclic(DataOf(nodes)) && AreDescending(DataOf(nodes))
    ensures !Known(nodes, Descending(|nodes|), i)
  {
    if i < |nodes| {
      var data, n, p := DataOf(nodes), |nodes|, Descending(|nodes|);
      DescendingTerm(data, i);
      assert TermOf(data, p) == UnfoldAll(data, PARAMETERIZE_KIND, p, n);
      assert Unfold(data, p.base) == Plain(1, -(n as int));
    }
  }

  /** A way through a short chain ends above depth 32. */
  lemma ShortChain(nodes: seq<Node>, root: Option<nat>, paths: seq<Path>, at: map<Path, nat>, p: Parameterize,
                   path: Path)
    requires IsPlace(nodes, root, paths, at, p, path) && IsLeftChain(paths) && |nodes| < 32
    ensures |path| < 32
  {
    hide Compare, NodeTerm, TermOf, NodesOk, Ordered;
    if path != [] {
      var parent := path[..|path| - 1];
      assert paths[at[parent]] == parent;
    }
  }

  /** Interns 33 constants in descending order, and the last one gets no handle. */
  method InternDescending() returns (last: Option<nat>)
    ensures last.None?
  {
    var constants := new ParameterizeSet();
    EmptyChain(constants.nodes, constants.rootNode, constants.paths, constants.at);
    hide HoldsChain, TreeOk;
    for i := 0 to 32
      invariant fresh(constants) && HoldsChain(constants, i)
    {
      var handle := InternNext(constants, i);
      assert handle.Some?;
    }
    last := InternNext(constants, 32);
  }

  lemma EmptyChain(nodes: seq<Node>, root: Option<nat>, paths: seq<Path>, at: map<Path, nat>)
    requires TreeOk(nodes, root, paths, at) && nodes == []
    ensures Acyclic(DataOf(nodes)) && AreDescending(DataOf(nodes)) && IsLeftChain(paths) && paths == []
  {
  }

  lemma SimpleIsBelow(n: nat)
    ensures AllBelow(Descending(n), n)
  {
  }

  /** The first `n` descending constants, each linked to the one before it. */
  ghost predicate HoldsChain(constants: ParameterizeSet, n: nat)
    reads constants
  {
    && constants.Valid() && |constants.nodes| == n == |constants.paths|
    && Acyclic(constants.Data()) && AreDescending(constants.Data()) && IsLeftChain(constants.paths)
  }

  method InternNext(constants: ParameterizeSet, n: nat) returns (handle: Option<nat>)
    requires HoldsChain(constants, n) && n <= 32
    modifies constants
    ensures handle.Some? <==> n < 32
    ensures handle.Some? ==> HoldsChain(constants, n + 1)
  {
    hide TreeOk, Known, Acyclic, IsLeftChain, AreDescending, IsPlace, DataOf, Grown, NodeTerm, TermOf, AllBelow;
    hide ParameterizeSet.TooDeep;
    if n < 32 {
      NotTooDeepYet(constants);
    }
    ghost var nodes, paths := constants.nodes, constants.paths;
    SimpleIsBelow(n);
    handle := constants.Get(Descending(n));
    if handle.Some? {
      DescendingIsNew(nodes, handle.value);
      GrownChain(nodes, paths, constants.nodes, constants.rootNode, constants.paths, constants.at);
    }
  }

  lemma NotTooDeepYet(constants: ParameterizeSet)
    requires constants.Valid() && |constants.nodes| < 32 && IsLeftChain(constants.paths)
    ensures !constants.TooDeep(Descending(|constants.nodes|))
  {
    hide TreeOk, IsPlace, IsLeftChain;
    var p := Descending(|constants.nodes|);
    forall path | IsPlace(constants.nodes, constants.rootNode, constants.paths, constants.at, p, path)
      ensures |path| < 32
    {
      ShortChain(constants.nodes, constants.rootNode, constants.paths, constants.at, p, path);
    }
  }

  lemma GrownChain(nodes: seq<Node>, paths: seq<Path>, nodes': seq<Node>, root: Option<nat>, paths': seq<Path>,
                   at: map<Path, nat>)
    requires Grown(nodes, paths, Descending(|nodes|), nodes', paths')
    requires AreDescending(DataOf(nodes)) && IsLeftChain(paths)
    requires TreeOk(nodes', root, paths', at)
    ensures Acyclic(DataOf(nodes')) && AreDescending(DataOf(nodes')) && IsLeftChain(paths') && |nodes'| <= 32
    ensures |nodes'| == |paths'| == |nodes| + 1
  {
    hide TreeOk, Acyclic, NodeTerm, TermOf, AllBelow, IsLeftChain, PathLess, Compare;
    TreeSizes(nodes', root, paths', at);
    assert paths'[..|paths'| - 1] == paths;
    ChainGrows(nodes', root, paths', at);
  }
}
