/**
 Constants as deep terms, and their structural order.
 */
module Terms {
  import opened Orderings

  /**
   What a constant stands for once all parameterizes in it are spelled out.  The values of plain constants are those
   they are compared by, and `kind` tells the kinds of constants apart.
   */
  datatype Term = Plain(kind: nat, value: int) | Parameterized(kind: nat, base: Term, args: seq<Term>)

  /** Compares kinds first, and then values, or the parts of parameterizes; more arguments come first. */
  function Compare(a: Term, b: Term): Ordering
    decreases a, 1, 0
  {
    if a.kind != b.kind then CompareInt(a.kind, b.kind)
    else
      match (a, b)
      case (Plain(_, x), Plain(_, y)) => CompareInt(x, y)
      case (Parameterized(_, base1, args1), Parameterized(_, base2, args2)) =>
        var baseOrdering := Compare(base1, base2);
        if baseOrdering != Equal then baseOrdering
        else if |args1| != |args2| then (if |args1| < |args2| then Greater else Less)
        else CompareArgs(a, args1, args2)
      // Constants of the same kind are both plain or both parameterizes.
      case (Plain(_, _), Parameterized(_, _, _)) => Less
      case (Parameterized(_, _, _), Plain(_, _)) => Greater
  }

  /** Compares arguments of the constant `whole` from left to right. */
  function CompareArgs(ghost whole: Term, a: seq<Term>, b: seq<Term>): Ordering
    requires |a| == |b| && forall i :: 0 <= i < |a| ==> a[i] < whole
    decreases whole, 0, |a|
  {
    if a == [] then Equal
    else
      var ordering := Compare(a[0], b[0]);
      if ordering != Equal then ordering else CompareArgs(whole, a[1..], b[1..])
  }

  /** Only equal terms compare equal, and swapping the operands turns the order around. */
  lemma {:induction false} CompareIsAntisymmetric(a: Term, b: Term)
    ensures Compare(a, b) == Equal <==> a == b
    ensures Compare(b, a) == Compare(a, b).Flip()
    decreases a, 1, 0
  {
    if a.Parameterized? && b.Parameterized? && a.kind == b.kind {
      CompareIsAntisymmetric(a.base, b.base);
      if |a.args| == |b.args| {
        CompareArgsIsAntisymmetric(a, b, a.args, b.args);
      }
    }
  }

  lemma {:induction false} CompareArgsIsAntisymmetric(a: Term, b: Term, x: seq<Term>, y: seq<Term>)
    requires |x| == |y|
    requires (forall i :: 0 <= i < |x| ==> x[i] < a) && (forall i :: 0 <= i < |y| ==> y[i] < b)
    ensures CompareArgs(a, x, y) == Equal <==> x == y
    ensures CompareArgs(b, y, x) == CompareArgs(a, x, y).Flip()
    decreases a, 0, |x|
  {
    if x != [] {
      CompareIsAntisymmetric(x[0], y[0]);
      CompareArgsIsAntisymmetric(a, b, x[1..], y[1..]);
      assert x == [x[0]] + x[1..] && y == [y[0]] + y[1..];
    }
  }

  /** What makes a term precede another one of the same kind that is parameterized as well. */
  ghost predicate PrecedesByParts(a: Term, b: Term)
    requires a.Parameterized? && b.Parameterized?
  {
    || Compare(a.base, b.base) == Less
    || (a.base == b.base && |a.args| > |b.args|)
    || (a.base == b.base && |a.args| == |b.args| && FirstDifferencePrecedes(a.args, b.args))
  }

  ghost predicate FirstDifferencePrecedes(x: seq<Term>, y: seq<Term>) {
    exists k :: 0 <= k < |x| && k < |y| && x[..k] == y[..k] && Compare(x[k], y[k]) == Less
  }

  /** The smaller kind precedes, then the smaller value or base, then more arguments, then the first that differs. */
  lemma FirstDifferenceDecides(a: Term, b: Term)
    ensures Compare(a, b) == Less <==>
      || a.kind < b.kind
      || (a.kind == b.kind && a.Plain? && (b.Plain? ==> a.value < b.value))
      || (a.kind == b.kind && a.Parameterized? && b.Parameterized? && PrecedesByParts(a, b))
  {
    if a.kind == b.kind && a.Parameterized? && b.Parameterized? {
      CompareIsAntisymmetric(a.base, b.base);
      if |a.args| == |b.args| {
        FirstArgumentDecides(a, a.args, b.args);
      }
    }
  }

  lemma {:induction false} FirstArgumentDecides(whole: Term, x: seq<Term>, y: seq<Term>)
    requires |x| == |y| && forall i :: 0 <= i < |x| ==> x[i] < whole
    ensures CompareArgs(whole, x, y) == Less <==> FirstDifferencePrecedes(x, y)
    decreases |x|
  {
    if x != [] {
      CompareIsAntisymmetric(x[0], y[0]);
      var x', y' := x[1..], y[1..];
      FirstArgumentDecides(whole, x', y');
      hide Compare;
      if FirstDifferencePrecedes(x', y') && x[0] == y[0] {
        var k :| 0 <= k < |x'| && k < |y'| && x'[..k] == y'[..k] && Compare(x'[k], y'[k]) == Less;
        assert x[..k + 1] == [x[0]] + x'[..k] && y[..k + 1] == [y[0]] + y'[..k];
        assert Compare(x[k + 1], y[k + 1]) == Less;
      }
      if FirstDifferencePrecedes(x, y) {
        var k :| 0 <= k < |x| && k < |y| && x[..k] == y[..k] && Compare(x[k], y[k]) == Less;
        if k > 0 {
          assert x[0] == x[..k][0] == y[..k][0] == y[0];
          assert x'[..k - 1] == x[..k][1..] && y'[..k - 1] == y[..k][1..];
          assert Compare(x'[k - 1], y'[k - 1]) == Less;
        } else {
          assert x[..0] == y[..0];
        }
      }
      if Compare(x[0], y[0]) == Less {
        assert x[..0] == y[..0];
      }
    }
  }

  /** The structural order is transitive. */
  lemma {:induction false} CompareIsTransitive(a: Term, b: Term, c: Term)
    requires Compare(a, b) == Less && Compare(b, c) == Less
    ensures Compare(a, c) == Less
    decreases a, 1, 0
  {
    if a.kind == b.kind == c.kind && a.Parameterized? && b.Parameterized? && c.Parameterized? {
      CompareIsAntisymmetric(a.base, b.base);
      CompareIsAntisymmetric(b.base, c.base);
      if Compare(a.base, b.base) == Less && Compare(b.base, c.base) == Less {
        CompareIsTransitive(a.base, b.base, c.base);
      }
      if a.base == b.base == c.base && |a.args| == |b.args| == |c.args| {
        CompareArgsIsTransitive(a, b, a.args, b.args, c.args);
      }
    }
  }

  lemma {:induction false} CompareArgsIsTransitive(a: Term, b: Term, x: seq<Term>, y: seq<Term>, z: seq<Term>)
    requires |x| == |y| == |z|
    requires (forall i :: 0 <= i < |x| ==> x[i] < a) && (forall i :: 0 <= i < |y| ==> y[i] < b)
    requires CompareArgs(a, x, y) == Less && CompareArgs(b, y, z) == Less
    ensures CompareArgs(a, x, z) == Less
    decreases a, 0, |x|
  {
    CompareIsAntisymmetric(x[0], y[0]);
    CompareIsAntisymmetric(y[0], z[0]);
    if Compare(x[0], y[0]) == Less && Compare(y[0], z[0]) == Less {
      CompareIsTransitive(x[0], y[0], z[0]);
    }
    if x[0] == y[0] == z[0] {
      CompareArgsIsTransitive(a, b, x[1..], y[1..], z[1..]);
    }
  }

  lemma {:induction false} CompareArgsAnywhere(v: Term, w: Term, a: seq<Term>, b: seq<Term>)
    requires |a| == |b| && (forall i :: 0 <= i < |a| ==> a[i] < v && a[i] < w)
    ensures CompareArgs(v, a, b) == CompareArgs(w, a, b)
    decreases |a|
  {
    if a != [] {
      CompareArgsAnywhere(v, w, a[1..], b[1..]);
    }
  }

  /** The kind does not matter for how two parameterizes of the same kind compare. */
  lemma CompareOfSameKind(j: nat, k: nat, base1: Term, args1: seq<Term>, base2: Term, args2: seq<Term>)
    ensures Compare(Parameterized(j, base1, args1), Parameterized(j, base2, args2))
         == Compare(Parameterized(k, base1, args1), Parameterized(k, base2, args2))
  {
    if |args1| == |args2| {
      CompareArgsAnywhere(Parameterized(j, base1, args1), Parameterized(k, base1, args1), args1, args2);
    }
  }
}
