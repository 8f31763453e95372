/**
 Labels of tree nodes: 32 bit integers whose unsigned order is the in-order of the nodes.
 */
module TreeLabels {
  import opened Powers

  const LABEL_BITS := 32

  /** An unsigned integer as its bits, the highest first. */
  type Bits = seq<bool>

  function Value(bits: Bits): (v: nat)
    ensures v < Pow2(|bits|)
  {
    if bits == [] then 0 else (if bits[0] then Pow2(|bits| - 1) else 0) + Value(bits[1..])
  }

  // Operations on unsigned integers

  /** Adding one wraps around. */
  function Increment(bits: Bits): (r: Bits)
    ensures |r| == |bits|
  {
    if bits == [] then []
    else
      var n := |bits| - 1;
      if bits[n] then Increment(bits[..n]) + [false] else bits[..n] + [true]
  }

  function And(a: Bits, b: Bits): (r: Bits)
    requires |a| == |b|
    ensures |r| == |a| && forall i :: 0 <= i < |r| ==> r[i] == (a[i] && b[i])
  {
    seq(|a|, i requires 0 <= i < |a| => a[i] && b[i])
  }

  function Or(a: Bits, b: Bits): (r: Bits)
    requires |a| == |b|
    ensures |r| == |a| && forall i :: 0 <= i < |r| ==> r[i] == (a[i] || b[i])
  {
    seq(|a|, i requires 0 <= i < |a| => a[i] || b[i])
  }

  function Xor(a: Bits, b: Bits): (r: Bits)
    requires |a| == |b|
    ensures |r| == |a| && forall i :: 0 <= i < |r| ==> r[i] == (a[i] != b[i])
  {
    seq(|a|, i requires 0 <= i < |a| => a[i] != b[i])
  }

  function ShiftRight(a: Bits, n: nat): (r: Bits)
    requires n <= |a|
    ensures |r| == |a| && forall i :: 0 <= i < |r| ==> r[i] == (i >= n && a[i - n])
  {
    seq(|a|, i requires 0 <= i < |a| => i >= n && a[i - n])
  }

  function Repeat(bit: bool, n: nat): (r: Bits)
    ensures |r| == n && forall i :: 0 <= i < n ==> r[i] == bit
  {
    seq(n, _ => bit)
  }

  function CountTrailingOnes(bits: Bits): (n: nat)
    ensures n <= |bits|
  {
    if bits == [] || !bits[|bits| - 1] then 0 else 1 + CountTrailingOnes(bits[..|bits| - 1])
  }

  lemma {:induction false} ValueAtEnd(bits: Bits)
    requires bits != []
    ensures var n := |bits| - 1;
            Value(bits) == 2 * Value(bits[..n]) + if bits[n] then 1 else 0
  {
    var n := |bits| - 1;
    if n > 0 {
      ValueAtEnd(bits[1..]);
      assert bits[1..][..n - 1] == bits[..n][1..];
    }
  }

  /** Incrementing is adding one, modulo the size of the integer. */
  lemma {:induction false} IncrementAddsOne(bits: Bits)
    ensures Value(Increment(bits)) == if Value(bits) + 1 == Pow2(|bits|) then 0 else Value(bits) + 1
  {
    if bits != [] {
      var n := |bits| - 1;
      var r := Increment(bits);
      IncrementAddsOne(bits[..n]);
      ValueAtEnd(bits);
      ValueAtEnd(r);
      assert r[..n] == if bits[n] then Increment(bits[..n]) else bits[..n];
    }
  }

  // Labels

  function RootLabel(): (r: Bits)
    ensures |r| == LABEL_BITS
  {
    ShiftRight(Repeat(true, LABEL_BITS), 1)
  }

  /** The label of the left or right child. */
  function Extend(parent: Bits, right: bool): (r: Bits)
    requires |parent| == LABEL_BITS
    ensures |r| == LABEL_BITS
  {
    var next := Increment(parent);
    var extended := And(next, if right then Repeat(true, LABEL_BITS) else parent);
    Or(extended, ShiftRight(Xor(next, parent), 2))
  }

  function Depth(treeLabel: Bits): int
    requires |treeLabel| == LABEL_BITS
  {
    31 - CountTrailingOnes(treeLabel)
  }

  // What labels mean

  /** The turns from the root to a node; `true` is a turn to the right. */
  type Path = seq<bool>

  /** The label of a node: its path, a zero, and ones. */
  ghost function LabelOf(path: Path, width: nat): (r: Bits)
    requires |path| < width
    ensures |r| == width
  {
    path + [false] + Repeat(true, width - |path| - 1)
  }

  /** In-order: the left children of a node, the node, its right children. */
  predicate PathLess(p: Path, q: Path)
    decreases |p|
  {
    if q == [] then p != [] && !p[0]
    else if p == [] then q[0]
    else if p[0] == q[0] then PathLess(p[1..], q[1..])
    else q[0]
  }

  lemma {:induction false} IncrementOnes(front: Bits, k: nat)
    ensures Increment(front + [false] + Repeat(true, k)) == front + [true] + Repeat(false, k)
  {
    var bits := front + [false] + Repeat(true, k);
    var n := |bits| - 1;
    if k == 0 {
      assert bits[..n] == front;
    } else {
      assert bits[..n] == front + [false] + Repeat(true, k - 1);
      IncrementOnes(front, k - 1);
      assert Repeat(false, k) == Repeat(false, k - 1) + [false];
    }
  }

  lemma {:induction false} CountOnes(front: Bits, k: nat)
    ensures CountTrailingOnes(front + [false] + Repeat(true, k)) == k
  {
    var bits := front + [false] + Repeat(true, k);
    if k > 0 {
      assert bits[..|bits| - 1] == front + [false] + Repeat(true, k - 1);
      CountOnes(front, k - 1);
    }
  }

  lemma RootHasRootLabel()
    ensures RootLabel() == LabelOf([], LABEL_BITS) && Depth(RootLabel()) == 0
  {
    CountOnes([], 31);
  }

  /** The bits of a label and of its successor. */
  lemma LabelBit(path: Path, i: nat)
    requires |path| < LABEL_BITS && i < LABEL_BITS
    ensures LabelOf(path, LABEL_BITS)[i] == if i < |path| then path[i] else i > |path|
    ensures Increment(LabelOf(path, LABEL_BITS))[i] == if i < |path| then path[i] else i == |path|
  {
    IncrementOnes(path, 31 - |path|);
  }

  /** Extending the label of a node gives the label of its child, down to depth 31. */
  lemma ExtendIsChildLabel(path: Path, right: bool)
    requires |path| < 31
    ensures Extend(LabelOf(path, LABEL_BITS), right) == LabelOf(path + [right], LABEL_BITS)
  {
    var parent, child := LabelOf(path, LABEL_BITS), LabelOf(path + [right], LABEL_BITS);
    var next := Increment(parent);
    hide Increment, LabelOf;
    forall i | 0 <= i < LABEL_BITS
      ensures Extend(parent, right)[i] == child[i]
    {
      LabelBit(path, i);
      LabelBit(path + [right], i);
      if i >= 2 {
        LabelBit(path, i - 2);
        assert Xor(next, parent)[i - 2] == (i - 2 >= |path|);
      }
    }
  }

  lemma DepthIsPathLength(path: Path)
    requires |path| <= 31
    ensures Depth(LabelOf(path, LABEL_BITS)) == |path|
  {
    CountOnes(path, 31 - |path|);
  }

  /** At depth 31 the left child gets the label of its parent, and the right child that label plus one. */
  lemma ExtendAtDepth31(path: Path, right: bool)
    requires |path| == 31
    ensures Extend(LabelOf(path, LABEL_BITS), right) == if right then path + [true] else LabelOf(path, LABEL_BITS)
  {
    IncrementOnes(path, 0);
  }

  predicate AllRight(path: Path) {
    forall i :: 0 <= i < |path| ==> path[i]
  }

  lemma {:induction false} LastLeftTurn(path: Path) returns (k: nat)
    requires !AllRight(path)
    ensures k < |path| && !path[k] && AllRight(path[k + 1..])
  {
    var n := |path| - 1;
    if path[n] {
      k := LastLeftTurn(path[..n]);
      assert path[k + 1..] == path[..n][k + 1..] + [path[n]];
    } else {
      k := n;
    }
  }

  /** At depth 31 the right child gets the label of the node where its path turned left for the last time. */
  lemma RightLabelAtDepth31(path: Path, k: nat)
    requires |path| == 31 && k < 31 && !path[k] && AllRight(path[k + 1..])
    ensures Extend(LabelOf(path, LABEL_BITS), true) == LabelOf(path[..k], LABEL_BITS)
  {
    ExtendAtDepth31(path, true);
    var treeLabel, repeated := path + [true], LabelOf(path[..k], LABEL_BITS);
    forall i | 0 <= i < LABEL_BITS
      ensures treeLabel[i] == repeated[i]
    {
      assert k < i < 31 ==> path[i] == path[k + 1..][i - k - 1];
    }
  }

  /** If the path never turned left, the right child at depth 31 still gets a label of its own: all ones. */
  lemma LastLabel(path: Path)
    requires |path| == 31 && AllRight(path)
    ensures Extend(LabelOf(path, LABEL_BITS), true) == Repeat(true, LABEL_BITS)
  {
    ExtendAtDepth31(path, true);
  }

  lemma LabelTail(path: Path, width: nat)
    requires 0 < |path| < width
    ensures LabelOf(path, width)[0] == path[0] && LabelOf(path, width)[1..] == LabelOf(path[1..], width - 1)
  {
  }

  lemma {:induction false} OnesValue(n: nat)
    ensures Value(Repeat(true, n)) == Pow2(n) - 1
  {
    if n > 0 {
      assert Repeat(true, n)[1..] == Repeat(true, n - 1);
      OnesValue(n - 1);
    }
  }

  lemma OwnLabelValue(width: nat)
    requires width > 0
    ensures Value(LabelOf([], width)) == Pow2(width - 1) - 1
  {
    assert LabelOf([], width)[1..] == Repeat(true, width - 1);
    OnesValue(width - 1);
  }

  /** A label contains a zero. */
  lemma {:induction false} LabelIsNotAllOnes(path: Path, width: nat)
    requires |path| < width
    ensures Value(LabelOf(path, width)) < Pow2(width) - 1
  {
    if path == [] {
      OwnLabelValue(width);
    } else {
      LabelTail(path, width);
      LabelIsNotAllOnes(path[1..], width - 1);
    }
  }

  /** The unsigned order of labels is the in-order of the nodes. */
  lemma {:induction false} LabelOrderIsInOrder(p: Path, q: Path, width: nat)
    requires |p| < width && |q| < width
    ensures Value(LabelOf(p, width)) < Value(LabelOf(q, width)) <==> PathLess(p, q)
    decreases width
  {
    if p == [] || q == [] {
      OwnLabelValue(width);
      if p != [] {
        LabelTail(p, width);
        LabelIsNotAllOnes(p[1..], width - 1);
      }
      if q != [] {
        LabelTail(q, width);
        LabelIsNotAllOnes(q[1..], width - 1);
      }
    } else {
      LabelTail(p, width);
      LabelTail(q, width);
      LabelOrderIsInOrder(p[1..], q[1..], width - 1);
    }
  }

  /** Different nodes have different labels. */
  lemma {:induction false} PathOrderIsTotal(p: Path, q: Path)
    ensures p == q || PathLess(p, q) || PathLess(q, p)
    ensures !(PathLess(p, q) && PathLess(q, p)) && !PathLess(p, p)
    decreases |p|
  {
    if p != [] && q != [] {
      PathOrderIsTotal(p[1..], q[1..]);
      PathOrderIsTotal(p[1..], p[1..]);
    } else if p != [] {
      PathOrderIsTotal(p[1..], p[1..]);
    }
  }

  /** The label differs from those of all nodes down to depth 31, and compares to them as the path does. */
  ghost predicate IsRightLabel(treeLabel: Bits, path: Path) {
    && |treeLabel| == LABEL_BITS
    && forall q: Path :: |q| < LABEL_BITS && q != path ==>
         && treeLabel != LabelOf(q, LABEL_BITS)
         && (Value(treeLabel) < Value(LabelOf(q, LABEL_BITS)) <==> PathLess(path, q))
         && (Value(LabelOf(q, LABEL_BITS)) < Value(treeLabel) <==> PathLess(q, path))
  }

  lemma LabelIsRight(path: Path)
    requires |path| < LABEL_BITS
    ensures IsRightLabel(LabelOf(path, LABEL_BITS), path)
  {
    hide LabelOf, PathLess, Value;
    forall q: Path | |q| < LABEL_BITS && q != path
      ensures LabelOf(path, LABEL_BITS) != LabelOf(q, LABEL_BITS)
      ensures Value(LabelOf(path, LABEL_BITS)) < Value(LabelOf(q, LABEL_BITS)) <==> PathLess(path, q)
      ensures Value(LabelOf(q, LABEL_BITS)) < Value(LabelOf(path, LABEL_BITS)) <==> PathLess(q, path)
    {
      LabelOrderIsInOrder(path, q, LABEL_BITS);
      LabelOrderIsInOrder(q, path, LABEL_BITS);
      PathOrderIsTotal(path, q);
    }
  }

  lemma {:induction false} AllRightIsLast(path: Path, q: Path)
    requires AllRight(path) && |q| < |path|
    ensures PathLess(q, path)
  {
    if q != [] && q[0] {
      assert AllRight(path[1..]);
      AllRightIsLast(path[1..], q[1..]);
    }
  }

  lemma LastLabelIsRight(path: Path)
    requires |path| == LABEL_BITS && AllRight(path)
    ensures IsRightLabel(Repeat(true, LABEL_BITS), path)
  {
    hide LabelOf, PathLess, Value;
    OnesValue(LABEL_BITS);
    forall q: Path | |q| < LABEL_BITS
      ensures Value(LabelOf(q, LABEL_BITS)) < Value(Repeat(true, LABEL_BITS)) && PathLess(q, path) && !PathLess(path, q)
    {
      LabelIsNotAllOnes(q, LABEL_BITS);
      AllRightIsLast(path, q);
      PathOrderIsTotal(path, q);
    }
  }

  /** A child gets a right label exactly if its parent is above depth 31, or if its path turns right all the way. */
  lemma ChildLabelIsRightIff(path: Path, right: bool)
    requires |path| <= 31
    ensures IsRightLabel(Extend(LabelOf(path, LABEL_BITS), right), path + [right])
       <==> |path| < 31 || (right && AllRight(path))
  {
    hide Extend, LabelOf, IsRightLabel;
    if |path| < 31 {
      ExtendIsChildLabel(path, right);
      LabelIsRight(path + [right]);
    } else if !right {
      ExtendAtDepth31(path, false);
      RepeatedIsNotRight(path, path + [right]);
    } else if AllRight(path) {
      LastLabel(path);
      LastLabelIsRight(path + [true]);
    } else {
      var k := LastLeftTurn(path);
      RightLabelAtDepth31(path, k);
      RepeatedIsNotRight(path[..k], path + [right]);
    }
  }

  lemma RepeatedIsNotRight(q: Path, path: Path)
    requires |q| < |path| && |q| < LABEL_BITS
    ensures !IsRightLabel(LabelOf(q, LABEL_BITS), path)
  {
    hide LabelOf, PathLess, Value;
  }

  /** A chain of left children: the node below depth 31 gets the label of its parent or that of its grandparent. */
  lemma LeftChainRepeatsLabels()
    ensures var path := Repeat(false, 31);
            && Extend(LabelOf(path, LABEL_BITS), false) == LabelOf(path, LABEL_BITS)
            && Extend(LabelOf(path, LABEL_BITS), true) == LabelOf(Repeat(false, 30), LABEL_BITS)
  {
    var path := Repeat(false, 31);
    ExtendAtDepth31(path, false);
    RightLabelAtDepth31(path, 30);
    assert path[..30] == Repeat(false, 30);
  }

  /** The length of the longest common prefix. */
  function CommonPrefix(p: Path, q: Path): (m: nat)
    ensures m <= |p| && m <= |q| && p[..m] == q[..m]
    ensures m < |p| && m < |q| ==> p[m] != q[m]
    decreases |p|
  {
    if p == [] || q == [] || p[0] != q[0] then 0
    else
      var m := CommonPrefix(p[1..], q[1..]);
      assert p[..m + 1] == [p[0]] + p[1..][..m] && q[..m + 1] == [q[0]] + q[1..][..m];
      m + 1
  }

  /** The order of two nodes is decided where their paths part. */
  lemma {:induction false} OrderAfterPrefix(p: Path, q: Path, m: nat)
    requires m <= |p| && m <= |q| && p[..m] == q[..m]
    ensures PathLess(p, q) == PathLess(p[m..], q[m..])
    decreases m
  {
    if m > 0 {
      assert p[0] == p[..m][0] && q[0] == q[..m][0];
      assert p[1..][..m - 1] == p[..m][1..] && q[1..][..m - 1] == q[..m][1..];
      assert p[1..][m - 1..] == p[m..] && q[1..][m - 1..] == q[m..];
      OrderAfterPrefix(p[1..], q[1..], m - 1);
    } else {
      assert p[0..] == p && q[0..] == q;
    }
  }

  /** Two paths, and the node above both where they part. */
  lemma OrderAtParting(p: Path, q: Path)
    requires CommonPrefix(p, q) < |p|
    ensures var m := CommonPrefix(p, q);
            && PathLess(p, q) == !p[m]
            && PathLess(q, p) == p[m]
            && (m == |q| ==> q == p[..m])
            && (m < |q| ==> PathLess(q, p[..m]) == p[m] && PathLess(p[..m], q) == !p[m])
  {
    var m := CommonPrefix(p, q);
    OrderAfterPrefix(p, q, m);
    OrderAfterPrefix(q, p, m);
    var r := p[..m];
    assert r[m..] == [];
    if m == |q| {
      assert q[m..] == [];
    } else {
      assert r[..m] == q[..m];
      OrderAfterPrefix(q, r, m);
      OrderAfterPrefix(r, q, m);
    }
  }
}
