/**
 The magnitude of an allocated number: little endian 64-bit limbs and the natural number they stand for.
 */
module Limbs {

  const BASE: int := 0x1_0000_0000_0000_0000

  type Limb = x: int | 0 <= x < BASE

  /** Multiplication by name, so that proofs about limb sequences need not look into products. */
  ghost function Times(x: int, y: int): int {
    x * y
  }

  ghost function Pow(n: nat): (p: int)
    ensures p >= 1
  {
    if n == 0 then 1 else BASE * Pow(n - 1)
  }

  /** The number that the limbs in `s` store, least significant limb first. */
  ghost function Val(s: seq<Limb>): (v: int)
    ensures 0 <= v < Pow(|s|)
  {
    if s == [] then 0
    else
      var top, p := s[|s| - 1], Pow(|s| - 1);
      TimesLess(-1, top, p);
      TimesLess(top, BASE, p);
      Val(s[..|s| - 1]) + Times(top, p)
  }

  /** No shorter sequence of limbs has the same value. */
  predicate Trimmed(s: seq<Limb>) {
    |s| > 0 ==> s[|s| - 1] != 0
  }

  lemma TimesLess(x: int, y: int, p: int)
    requires x < y && 0 <= p
    ensures Times(x, p) + p <= Times(y, p)
    ensures x == -1 ==> Times(x, p) == -p
    ensures y == BASE ==> Times(y, p) == BASE * p
  {
    Distribute(x, 1, p);
    MulMonotonic(x + 1, y, p);
  }

  lemma MulMonotonic(x: int, y: int, p: int)
    requires x <= y && 0 <= p
    ensures x * p <= y * p
  {
  }

  lemma Distribute(x: int, y: int, p: int)
    ensures (x + y) * p == x * p + y * p
  {
  }

  lemma DistributeThree(x: int, y: int, z: int, p: int)
    ensures (x + y + z) * p == x * p + y * p + z * p
  {
  }

  lemma ScaleSum(p: int, v: int, x: int, q: int)
    ensures Times(p, v + Times(x, q)) == Times(p, v) + Times(x, Times(p, q))
  {
    Distribute(v, x * q, p);
    assert p * (x * q) == x * (p * q);
  }

  lemma ValPush(s: seq<Limb>, x: Limb)
    ensures Val(s + [x]) == Val(s) + Times(x, Pow(|s|))
  {
    hide Times, Pow;
    assert (s + [x])[..|s|] == s;
  }

  lemma {:induction false} PowAdd(m: nat, n: nat)
    ensures Pow(m + n) == Times(Pow(m), Pow(n))
  {
    if n > 0 {
      PowAdd(m, n - 1);
      var p, q := Pow(m), Pow(n - 1);
      assert BASE * (p * q) == p * (BASE * q);
    }
  }

  lemma {:induction false} ValConcat(s: seq<Limb>, t: seq<Limb>)
    ensures Val(s + t) == Val(s) + Times(Pow(|s|), Val(t))
  {
    if t == [] {
      assert s + t == s;
    } else {
      hide Times, Pow;
      var n := |t| - 1;
      var init, top := t[..n], t[n];
      assert s + t == (s + init) + [top] && t == init + [top];
      ValConcat(s, init);
      ValPush(s + init, top);
      ValPush(init, top);
      PowAdd(|s|, n);
      ScaleSum(Pow(|s|), Val(init), top, Pow(n));
    }
  }

  lemma PowMonotonic(m: nat, n: nat)
    requires m <= n
    ensures Pow(m) <= Pow(n)
  {
    if m < n {
      PowMonotonic(m, n - 1);
    }
  }

  /** A trimmed magnitude is at least the weight of its most significant limb. */
  lemma TrimmedAtLeast(s: seq<Limb>)
    requires Trimmed(s) && s != []
    ensures Val(s) >= Pow(|s| - 1)
  {
    TimesLess(0, s[|s| - 1], Pow(|s| - 1));
  }

  /** Zero limbs on top do not change the number. */
  lemma {:induction false} ZerosOnTop(s: seq<Limb>, n: nat)
    requires n <= |s|
    requires forall k :: n <= k < |s| ==> s[k] == 0
    ensures Val(s) == Val(s[..n])
  {
    if n == |s| {
      assert s[..n] == s;
    } else {
      ZerosOnTop(s[..|s| - 1], n);
      assert s[..|s| - 1][..n] == s[..n];
    }
  }

  lemma ValSplit(s: seq<Limb>, n: nat)
    requires n <= |s|
    ensures Val(s) == Val(s[..n]) + Times(Pow(n), Val(s[n..]))
  {
    assert s == s[..n] + s[n..];
    ValConcat(s[..n], s[n..]);
  }

  lemma TakePush(a: seq<Limb>, i: nat)
    requires i < |a|
    ensures Val(a[..i + 1]) == Val(a[..i]) + Times(a[i], Pow(i))
  {
    assert a[..i + 1] == a[..i] + [a[i]];
    ValPush(a[..i], a[i]);
  }

  /** Longer trimmed magnitudes are larger. */
  lemma LongerIsLarger(a: seq<Limb>, b: seq<Limb>)
    requires |a| < |b| && Trimmed(b)
    ensures Val(a) < Val(b)
  {
    TrimmedAtLeast(b);
    PowMonotonic(|a|, |b| - 1);
  }

  /** Equally long magnitudes are ordered by the highest limb in which they differ. */
  lemma HighestDifferenceDecides(a: seq<Limb>, b: seq<Limb>, i: nat)
    requires i < |a| == |b|
    requires a[i + 1..] == b[i + 1..] && a[i] < b[i]
    ensures Val(a) < Val(b)
  {
    hide Val, Pow, Times;
    ValSplit(a, i + 1);
    ValSplit(b, i + 1);
    TakePush(a, i);
    TakePush(b, i);
    assert |a[..i]| == i && |b[..i]| == i;
    TimesLess(a[i], b[i], Pow(i));
  }

  /** Equally long limbs of the same number are the same limbs. */
  lemma {:induction false} ValInjective(a: seq<Limb>, b: seq<Limb>)
    requires |a| == |b| && Val(a) == Val(b)
    ensures a == b
  {
    if a != [] {
      var n := |a| - 1;
      if a[n] < b[n] {
        HighestDifferenceDecides(a, b, n);
      } else if b[n] < a[n] {
        HighestDifferenceDecides(b, a, n);
      }
      ValInjective(a[..n], b[..n]);
      assert a == a[..n] + [a[n]] && b == b[..n] + [b[n]];
    }
  }
}
