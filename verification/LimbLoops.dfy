/**
 The loops over limb buffers.  A magnitude is the first `n` limbs of an array.  The output may be the same
 array as an operand: every loop writes a limb only after it has read the operand limbs at that index.
 */
module LimbLoops {
  import opened Limbs
  import opened Orderings

  const MAX_LIMB: Limb := BASE - 1

  /** What a carry or borrow out of the first `i` limbs is worth. */
  ghost function CarryWeight(carry: Limb, i: nat): int {
    if carry == 1 then Pow(i) else 0
  }

  /** One position of a carry chain, weighted with the power of the position. */
  lemma CarryStep(x: int, y: int, c: Limb, r: int, c': Limb, i: nat)
    requires x + y + c == r + BASE * c' && c <= 1 && c' <= 1
    ensures Times(x, Pow(i)) + Times(y, Pow(i)) + CarryWeight(c, i) == Times(r, Pow(i)) + CarryWeight(c', i + 1)
  {
    DistributeThree(x, y, c, Pow(i));
    Distribute(r, BASE * c', Pow(i));
  }

  lemma MulStep(x: int, b: int, o: int, c: int, r: int, c': int, v: int, i: nat)
    requires x * b + o + c == r + BASE * c'
    ensures Times(v + Times(x, Pow(i)), b) + Times(o, Pow(i)) + Times(c, Pow(i))
         == Times(v, b) + Times(r, Pow(i)) + Times(c', Pow(i + 1))
  {
    var p := Pow(i);
    DistributeThree(x * b, o, c, p);
    Distribute(r, BASE * c', p);
    Distribute(v, x * p, b);
    assert (x * b) * p == (x * p) * b && (BASE * c') * p == c' * (BASE * p);
  }

  lemma AddPush(a: seq<Limb>, b: seq<Limb>, i: nat, low: seq<Limb>, c: Limb, r: Limb, c': Limb)
    requires i < |a| && i < |b| && |low| == i && c <= 1 && c' <= 1
    requires a[i] + b[i] + c == r + BASE * c'
    requires Val(low) + CarryWeight(c, i) == Val(a[..i]) + Val(b[..i])
    ensures Val(low + [r]) + CarryWeight(c', i + 1) == Val(a[..i + 1]) + Val(b[..i + 1])
  {
    hide Val, Pow, Times, CarryWeight;
    ValPush(low, r);
    TakePush(a, i);
    TakePush(b, i);
    CarryStep(a[i], b[i], c, r, c', i);
  }

  lemma SubPush(a: seq<Limb>, b: seq<Limb>, i: nat, low: seq<Limb>, c: Limb, r: Limb, c': Limb)
    requires i < |a| && i < |b| && |low| == i && c <= 1 && c' <= 1
    requires a[i] - b[i] - c == r - BASE * c'
    requires Val(low) - CarryWeight(c, i) == Val(a[..i]) - Val(b[..i])
    ensures Val(low + [r]) - CarryWeight(c', i + 1) == Val(a[..i + 1]) - Val(b[..i + 1])
  {
    hide Val, Pow, Times, CarryWeight;
    ValPush(low, r);
    TakePush(a, i);
    TakePush(b, i);
    CarryStep(r, b[i], c, a[i], c', i);
  }

  /** One addition with carry in and carry out. */
  function AddCarry(x: Limb, y: Limb, c: Limb): (sum: (Limb, Limb))
    requires c <= 1
    ensures x + y + c == sum.0 + BASE * sum.1 && sum.1 <= 1
  {
    ((x + y + c) % BASE, (x + y + c) / BASE)
  }

  /** One subtraction with borrow in and borrow out. */
  function SubBorrow(x: Limb, y: Limb, c: Limb): (difference: (Limb, Limb))
    requires c <= 1
    ensures x - y - c == difference.0 - BASE * difference.1 && difference.1 <= 1
  {
    ((x - y - c) % BASE, if x - y - c < 0 then 1 else 0)
  }

  method AddCommonLimbs(out: array<Limb>, a: array<Limb>, b: array<Limb>, count: nat) returns (carry: Limb)
    requires count <= out.Length && count <= a.Length && count <= b.Length
    modifies out
    ensures carry <= 1
    ensures Val(out[..count]) + CarryWeight(carry, count) == Val(old(a[..count])) + Val(old(b[..count]))
    ensures forall k :: count <= k < out.Length ==> out[k] == old(out[k])
  {
    assert Val([]) == 0 && CarryWeight(0, 0) == 0;
    hide Val, Pow, CarryWeight, AddCarry, SubBorrow;
    carry := 0;
    ghost var aw, bw := a[..], b[..];
    assert out[..0] == aw[..0] == bw[..0] == [];
    var i := 0;
    while i < count
      invariant i <= count && carry <= 1
      invariant forall k :: i <= k < out.Length ==> out[k] == old(out[k])
      invariant Val(out[..i]) + CarryWeight(carry, i) == Val(aw[..i]) + Val(bw[..i])
    {
      assert a[i] == aw[i] && b[i] == bw[i];
      var (r, carry') := AddCarry(a[i], b[i], carry);
      ghost var low := out[..i];
      AddPush(aw, bw, i, low, carry, r, carry');
      out[i] := r;
      assert out[..i + 1] == low + [r];
      carry := carry';
      i := i + 1;
    }
    assert aw[..count] == old(a[..count]) && bw[..count] == old(b[..count]);
  }

  method SubCommonLimbs(out: array<Limb>, a: array<Limb>, b: array<Limb>, count: nat) returns (borrow: Limb)
    requires count <= out.Length && count <= a.Length && count <= b.Length
    modifies out
    ensures borrow <= 1
    ensures Val(out[..count]) - CarryWeight(borrow, count) == Val(old(a[..count])) - Val(old(b[..count]))
    ensures forall k :: count <= k < out.Length ==> out[k] == old(out[k])
  {
    assert Val([]) == 0 && CarryWeight(0, 0) == 0;
    hide Val, Pow, CarryWeight, AddCarry, SubBorrow;
    borrow := 0;
    ghost var aw, bw := a[..], b[..];
    assert out[..0] == aw[..0] == bw[..0] == [];
    var i := 0;
    while i < count
      invariant i <= count && borrow <= 1
      invariant forall k :: i <= k < out.Length ==> out[k] == old(out[k])
      invariant Val(out[..i]) - CarryWeight(borrow, i) == Val(aw[..i]) - Val(bw[..i])
    {
      assert a[i] == aw[i] && b[i] == bw[i];
      var (r, borrow') := SubBorrow(a[i], b[i], borrow);
      ghost var low := out[..i];
      SubPush(aw, bw, i, low, borrow, r, borrow');
      out[i] := r;
      assert out[..i + 1] == low + [r];
      borrow := borrow';
      i := i + 1;
    }
    assert aw[..count] == old(a[..count]) && bw[..count] == old(b[..count]);
  }

  /** Writing limb `i` extends the finished part of the output by that limb. */
  lemma WritePush(out: array<Limb>, i: nat, r: Limb)
    requires i < out.Length
    ensures Val(out[..][i := r][..i + 1]) == Val(out[..i]) + Times(r, Pow(i))
  {
    var s := out[..][i := r];
    assert s[..i] == out[..i];
    TakePush(s, i);
  }

  /**
   Adds a carry into limb `start` while copying a, up to and including the limb that absorbs it.  `i` is the first
   limb that is not written, a.Length + 1 when the carry runs out of the operand and becomes a limb of its own.
   */
  method PropagateCarry(out: array<Limb>, a: array<Limb>, aLen: nat, start: nat) returns (i: nat)
    requires start <= aLen <= a.Length && aLen < out.Length
    modifies out
    ensures start < i <= aLen + 1
    ensures forall k :: i <= k < out.Length ==> out[k] == old(out[k])
    ensures var s, n := old(a[..aLen]), if i <= aLen then i else aLen;
            Val(out[..i]) == Val(old(out[..start])) + Pow(start) + Val(s[..n]) - Val(s[..start])
  {
    hide Val, Pow;
    ghost var aw := a[..aLen];
    ghost var start' := Val(out[..start]) + Pow(start) - Val(aw[..start]);
    i := start;
    while i < aLen && a[i] == MAX_LIMB
      invariant start <= i <= aLen
      invariant forall k :: i <= k < out.Length ==> out[k] == old(out[k])
      invariant Val(out[..i]) + Pow(i) == Val(aw[..i]) + start'
    {
      CarryThrough(aw, i);
      WriteZero(out, i);
      out[i] := 0;
      i := i + 1;
    }
    if i == aLen {
      WriteOver(out, i, []);
      out[i] := 1;
    } else {
      WriteOver(out, i, aw);
      out[i] := a[i] + 1;
    }
    i := i + 1;
  }

  lemma CarryThrough(s: seq<Limb>, i: nat)
    requires i < |s| && s[i] == MAX_LIMB
    ensures Val(s[..i + 1]) + Pow(i) == Val(s[..i]) + Pow(i + 1)
  {
    TakePush(s, i);
    CarryStep(MAX_LIMB, 0, 1, 0, 1, i);
  }

  lemma WriteZero(out: array<Limb>, i: nat)
    requires i < out.Length
    ensures Val(out[..][i := 0][..i + 1]) == Val(out[..i])
  {
    WritePush(out, i, 0);
  }

  /** Writing one more than limb `i` of `s`, where limbs behind the end of `s` count as zero. */
  lemma WriteOver(out: array<Limb>, i: nat, s: seq<Limb>)
    requires i < out.Length && (s != [] ==> i < |s| && s[i] < MAX_LIMB)
    ensures var r: Limb := if s == [] then 1 else s[i] + 1;
            var was := if s == [] then 0 else Val(s[..i + 1]) - Val(s[..i]);
            Val(out[..][i := r][..i + 1]) == Val(out[..i]) + was + Pow(i)
  {
    if s == [] {
      WritePush(out, i, 1);
    } else {
      WritePush(out, i, s[i] + 1);
      TakePush(s, i);
      Distribute(s[i], 1, Pow(i));
    }
  }

  /** Copies the limbs of `a` that no carry or borrow has reached, which are already in place when out is a. */
  method CopyRest(out: array<Limb>, a: array<Limb>, aLen: nat, start: nat)
    requires start <= aLen <= a.Length && aLen <= out.Length
    modifies out
    ensures out[..start] == old(out[..start]) && out[aLen..] == old(out[aLen..])
    ensures out[start..aLen] == old(a[start..aLen])
  {
    if out != a && start < aLen {
      forall k | start <= k < aLen {
        out[k] := a[k];
      }
    }
  }

  /** The sum of two magnitudes takes one limb more than the longer one. */
  method AddLimbs(out: array<Limb>, a: array<Limb>, aLen: nat, b: array<Limb>, bLen: nat)
    requires bLen <= aLen <= a.Length && bLen <= b.Length && aLen < out.Length
    modifies out
    ensures Val(out[..aLen + 1]) == Val(old(a[..aLen])) + Val(old(b[..bLen]))
  {
    hide Val, Pow;
    ghost var aw := a[..aLen];
    var carry := AddCommonLimbs(out, a, b, bLen);
    ghost var mid := a[..aLen];
    assert forall k :: bLen <= k < aLen ==> mid[k] == a[k] == aw[k];
    var i := bLen;
    assert aw[..bLen] == old(a[..bLen]) && aw[..aLen] == aw;
    if carry != 0 {
      i := PropagateCarry(out, a, aLen, bLen);
      TailGrowth(mid, aw, bLen, if i <= aLen then i else aLen);
      if i == aLen + 1 {
        return;
      }
    }
    assert forall k :: i <= k < aLen ==> a[k] == aw[k];
    ghost var low := out[..i];
    CopyRest(out, a, aLen, i);
    assert out[..aLen][..i] == low && out[..aLen][i..] == aw[i..];
    SameTop(out[..aLen], aw, i);
    WriteZero(out, aLen);
    out[aLen] := 0;
  }

  /**
   Takes a borrow out of limb `start` while copying a, up to and including the first non-zero limb.  The magnitude
   is large enough to pay for the borrow exactly when there is such a limb, so the loop stays inside the operand.
   */
  method PropagateBorrow(out: array<Limb>, a: array<Limb>, aLen: nat, start: nat) returns (i: nat)
    requires start <= aLen <= a.Length && aLen <= out.Length
    requires exists k :: start <= k < aLen && a[k] != 0
    modifies out
    ensures start < i <= aLen
    ensures forall k :: i <= k < out.Length ==> out[k] == old(out[k])
    ensures var s := old(a[..aLen]);
            Val(out[..i]) == Val(old(out[..start])) - Pow(start) + Val(s[..i]) - Val(s[..start])
  {
    hide Val, Pow;
    ghost var aw := a[..aLen];
    ghost var start' := Val(out[..start]) - Pow(start) - Val(aw[..start]);
    ghost var paying :| start <= paying < aLen && a[paying] != 0;
    i := start;
    while a[i] == 0
      invariant start <= i <= paying && a[paying] != 0
      invariant forall k :: i <= k < out.Length ==> out[k] == old(out[k])
      invariant Val(out[..i]) - Pow(i) == Val(aw[..i]) + start'
      decreases aLen - i
    {
      BorrowThrough(aw, out, i);
      out[i] := MAX_LIMB;
      i := i + 1;
    }
    WriteUnder(out, i, aw);
    out[i] := a[i] - 1;
    i := i + 1;
  }

  lemma BorrowThrough(s: seq<Limb>, out: array<Limb>, i: nat)
    requires i < |s| && i < out.Length && s[i] == 0
    ensures Val(s[..i + 1]) == Val(s[..i])
    ensures Val(out[..][i := MAX_LIMB][..i + 1]) - Pow(i + 1) == Val(out[..i]) - Pow(i)
  {
    TakePush(s, i);
    WritePush(out, i, MAX_LIMB);
    CarryStep(MAX_LIMB, 0, 1, 0, 1, i);
  }

  lemma WriteUnder(out: array<Limb>, i: nat, s: seq<Limb>)
    requires i < out.Length && i < |s| && s[i] > 0
    ensures Val(out[..][i := s[i] - 1][..i + 1]) == Val(out[..i]) + Val(s[..i + 1]) - Val(s[..i]) - Pow(i)
  {
    WritePush(out, i, s[i] - 1);
    TakePush(s, i);
    Distribute(s[i] - 1, 1, Pow(i));
  }

  /** The difference of two magnitudes takes as many limbs as the larger one. */
  method SubLimbs(out: array<Limb>, a: array<Limb>, aLen: nat, b: array<Limb>, bLen: nat)
    requires bLen <= aLen <= a.Length && bLen <= b.Length && aLen <= out.Length
    requires Val(a[..aLen]) >= Val(b[..bLen])
    modifies out
    ensures Val(out[..aLen]) == Val(old(a[..aLen])) - Val(old(b[..bLen]))
  {
    hide Val, Pow;
    ghost var aw := a[..aLen];
    assert aw[..bLen] == a[..bLen] && aw[..aLen] == aw;
    var borrow := SubCommonLimbs(out, a, b, bLen);
    ghost var mid := a[..aLen];
    assert forall k :: bLen <= k < aLen ==> mid[k] == a[k] == aw[k];
    var i := bLen;
    if borrow != 0 {
      BorrowIsPaid(aw, bLen, Val(old(b[..bLen])), out[..bLen]);
      i := PropagateBorrow(out, a, aLen, bLen);
      TailGrowth(mid, aw, bLen, i);
    }
    assert forall k :: i <= k < aLen ==> a[k] == aw[k];
    ghost var low := out[..i];
    CopyRest(out, a, aLen, i);
    assert out[..aLen][..i] == low && out[..aLen][i..] == aw[i..];
    SameTop(out[..aLen], aw, i);
  }

  lemma BorrowIsPaid(a: seq<Limb>, n: nat, b: int, low: seq<Limb>)
    requires n <= |a| && |low| == n && Val(a) >= b
    requires Val(low) - Pow(n) == Val(a[..n]) - b
    ensures exists k :: n <= k < |a| && a[k] != 0
  {
    if forall k :: n <= k < |a| ==> a[k] == 0 {
      ZerosOnTop(a, n);
      assert false;
    }
  }

  /** What the limbs in start..n add to the number does not depend on the limbs below. */
  lemma TailGrowth(s: seq<Limb>, t: seq<Limb>, start: nat, n: nat)
    requires start <= n <= |s| == |t|
    requires forall k :: start <= k < |s| ==> s[k] == t[k]
    ensures Val(s[..n]) - Val(s[..start]) == Val(t[..n]) - Val(t[..start])
  {
    assert s[..n][start..] == t[..n][start..];
    SameTop(s[..n], t[..n], start);
    assert s[..n][..start] == s[..start] && t[..n][..start] == t[..start];
  }

  /** Replacing only the limbs below `i` changes the number by the difference of the replaced parts. */
  lemma SameTop(s: seq<Limb>, t: seq<Limb>, i: nat)
    requires i <= |s| == |t| && s[i..] == t[i..]
    ensures Val(s) - Val(s[..i]) == Val(t) - Val(t[..i])
  {
    ValSplit(s, i);
    ValSplit(t, i);
  }

  /** Compares trimmed magnitudes. */
  method CompareMagnitude(a: array<Limb>, aLen: nat, b: array<Limb>, bLen: nat) returns (order: Ordering)
    requires aLen <= a.Length && bLen <= b.Length
    requires Trimmed(a[..aLen]) && Trimmed(b[..bLen])
    ensures order == CompareInt(Val(a[..aLen]), Val(b[..bLen]))
  {
    hide Val, Pow;
    if aLen != bLen {
      if aLen < bLen {
        LongerIsLarger(a[..aLen], b[..bLen]);
      } else {
        LongerIsLarger(b[..bLen], a[..aLen]);
      }
      return CompareInt(aLen, bLen);
    }
    var i := aLen;
    while i > 0
      invariant 0 <= i <= aLen == bLen
      invariant a[i..aLen] == b[i..bLen]
    {
      i := i - 1;
      if a[i] != b[i] {
        ghost var aw, bw := a[..aLen], b[..bLen];
        assert aw[i + 1..] == a[i + 1..aLen] && bw[i + 1..] == b[i + 1..bLen];
        if a[i] < b[i] {
          HighestDifferenceDecides(aw, bw, i);
        } else {
          HighestDifferenceDecides(bw, aw, i);
        }
        return CompareInt(a[i], b[i]);
      }
      assert a[i..aLen] == [a[i]] + a[i + 1..aLen] && b[i..bLen] == [b[i]] + b[i + 1..bLen];
    }
    assert a[..aLen] == b[..bLen];
    return Equal;
  }

  /** The low and the high limb of x * y + o + c, which never exceeds an unsigned 128-bit integer. */
  function MulAdd(x: Limb, y: Limb, o: Limb, c: Limb): (product: (Limb, Limb))
    ensures x * y + o + c == product.0 + BASE * product.1
  {
    InnerTermFits(x, y, o, c);
    var product := x * y + o + c;
    (product % BASE, product / BASE)
  }

  lemma InnerTermFits(x: Limb, y: Limb, o: Limb, c: Limb)
    ensures 0 <= x * y + o + c < BASE * BASE
  {
    MulMonotonic(0, x, y);
    MulMonotonic(x, BASE - 1, y);
    assert (BASE - 1) * y <= (BASE - 1) * (BASE - 1);
  }

  /**
   One step of a multiplication row: the finished limbs with the carry on top are the exact partial product
   plus the limbs that were there before.
   */
  lemma MulPush(a: seq<Limb>, b: Limb, row: seq<Limb>, i: nat, low: seq<Limb>, carry: Limb)
    requires i < |a| && i < |row| && |low| == i
    requires Val(low + [carry]) == Times(Val(a[..i]), b) + Val(row[..i])
    ensures var (r, carry') := MulAdd(a[i], b, row[i], carry);
            Val(low + [r] + [carry']) == Times(Val(a[..i + 1]), b) + Val(row[..i + 1])
  {
    hide Val, Pow, Times;
    var (r, carry') := MulAdd(a[i], b, row[i], carry);
    ValPush(low, carry);
    ValPush(low, r);
    ValPush(low + [r], carry');
    TakePush(a, i);
    TakePush(row, i);
    MulStep(a[i], b, row[i], carry, r, carry', Val(a[..i]), i);
  }

  lemma EmptyRow(b: Limb)
    ensures Val([]) == Val([0]) == 0 && Times(0, b) == 0
  {
  }

  /** The product with a single limb, of which the highest limb is returned. */
  method MulLimb(out: array<Limb>, a: array<Limb>, aLen: nat, b: Limb) returns (carry: Limb)
    requires aLen <= a.Length && aLen <= out.Length && out != a
    modifies out
    ensures Val(out[..aLen] + [carry]) == Times(Val(a[..aLen]), b)
    ensures forall k :: aLen <= k < out.Length ==> out[k] == old(out[k])
  {
    hide Val, Pow, MulAdd, Times;
    ghost var aw := a[..aLen];
    ghost var zeros: seq<Limb> := seq(aLen, _ => 0);
    ZerosOnTop(zeros, 0);
    EmptyRow(b);
    carry := 0;
    var i := 0;
    assert out[..0] + [carry] == [0] && aw[..0] == zeros[..0] == [];
    while i < aLen
      invariant i <= aLen
      invariant forall k :: i <= k < out.Length ==> out[k] == old(out[k])
      invariant Val(out[..i] + [carry]) == Times(Val(aw[..i]), b) + Val(zeros[..i])
    {
      MulPush(aw, b, zeros, i, out[..i], carry);
      ghost var low := out[..i];
      var (r, carry') := MulAdd(a[i], b, 0, carry);
      out[i] := r;
      assert out[..i + 1] == low + [r];
      carry := carry';
      i := i + 1;
    }
    assert zeros[..aLen] == zeros && aw[..aLen] == aw;
  }

  /** Accumulates the product with a single limb, from the limb `start` on. */
  method AddMulLimb(out: array<Limb>, start: nat, a: array<Limb>, aLen: nat, b: Limb) returns (carry: Limb)
    requires aLen <= a.Length && start + aLen <= out.Length && out != a
    modifies out
    ensures Val(out[start..start + aLen] + [carry]) == Times(Val(a[..aLen]), b) + Val(old(out[start..start + aLen]))
    ensures forall k :: 0 <= k < start || start + aLen <= k < out.Length ==> out[k] == old(out[k])
  {
    hide Val, Pow, MulAdd, Times;
    EmptyRow(b);
    carry := 0;
    ghost var row, aw := out[start..start + aLen], a[..aLen];
    var i := 0;
    assert out[start..start] + [carry] == [0] && aw[..0] == row[..0] == [];
    while i < aLen
      invariant i <= aLen
      invariant forall k :: 0 <= k < start || start + i <= k < out.Length ==> out[k] == old(out[k])
      invariant Val(out[start..start + i] + [carry]) == Times(Val(aw[..i]), b) + Val(row[..i])
    {
      assert out[start + i] == row[i];
      MulPush(aw, b, row, i, out[start..start + i], carry);
      ghost var low := out[start..start + i];
      var (r, carry') := MulAdd(a[i], b, out[start + i], carry);
      out[start + i] := r;
      assert out[start..start + i + 1] == low + [r];
      carry := carry';
      i := i + 1;
    }
    assert row[..aLen] == row && aw[..aLen] == aw;
  }

  /** Adding a shifted row to a partial product multiplies by one more limb of `a`. */
  lemma RowAdded(was: seq<Limb>, now: seq<Limb>, a: seq<Limb>, i: nat, n: nat, b: int)
    requires i < |a| && |was| == i + n && |now| == i + n + 1 && now[..i] == was[..i]
    requires Val(now[i..]) == Times(b, a[i]) + Val(was[i..])
    requires Val(was) == Times(Val(a[..i]), b)
    ensures Val(now) == Times(Val(a[..i + 1]), b)
  {
    hide Val, Pow, Times;
    RowSum(was, now, a, i, b, Pow(i));
  }

  lemma RowSum(was: seq<Limb>, now: seq<Limb>, a: seq<Limb>, i: nat, b: int, p: int)
    requires i < |a| && i <= |was| && i <= |now| && now[..i] == was[..i] && p == Pow(i)
    ensures Val(now) - Val(was) == Times(Val(now[i..]) - Val(was[i..]), p)
    ensures Times(Val(a[..i + 1]), b) == Times(Val(a[..i]), b) + Times(Times(b, a[i]), p)
  {
    hide Val, Pow;
    ValSplit(was, i);
    ValSplit(now, i);
    Distribute(Val(now[i..]), -Val(was[i..]), p);
    TakePush(a, i);
    Distribute(Val(a[..i]), a[i] * p, b);
    assert (b * a[i]) * p == (a[i] * p) * b;
  }

  /** Extends the product with the first `i` limbs of `a` to the product with the first i + 1. */
  method AddRow(out: array<Limb>, i: nat, a: array<Limb>, aLen: nat, b: array<Limb>, bLen: nat)
    requires i < aLen <= a.Length && bLen <= b.Length && i + bLen < out.Length
    requires out != a && out != b
    requires Val(out[..i + bLen]) == Times(Val(a[..i]), Val(b[..bLen]))
    modifies out
    ensures Val(out[..i + bLen + 1]) == Times(Val(a[..i + 1]), Val(b[..bLen]))
  {
    hide Val, Pow, Times;
    ghost var was, aw := out[..i + bLen], a[..aLen];
    assert was[i..] == out[i..i + bLen];
    var carry := AddMulLimb(out, i, b, bLen, a[i]);
    ghost var row := out[i..i + bLen];
    out[i + bLen] := carry;
    ghost var now := out[..i + bLen + 1];
    assert now[i..] == row + [carry] && now[..i] == was[..i];
    assert aw[..i] == a[..i] && aw[..i + 1] == a[..i + 1];
    RowAdded(was, now, aw, i, bLen, Val(b[..bLen]));
  }

  /** Schoolbook multiplication, one row of the product for each limb of `b`. */
  method MulMagnitudes(out: array<Limb>, a: array<Limb>, aLen: nat, b: array<Limb>, bLen: nat)
    requires 0 < aLen <= a.Length && bLen <= b.Length && aLen + bLen <= out.Length
    requires out != a && out != b
    modifies out
    ensures Val(out[..aLen + bLen]) == Times(Val(a[..aLen]), Val(b[..bLen]))
  {
    FirstLimb(a[..]);
    assert Times(Val(b[..bLen]), a[0]) == Times(a[0], Val(b[..bLen]));
    hide Val, Pow, Times;
    var carry := MulLimb(out, b, bLen, a[0]);
    assert out[..bLen][..bLen] == out[..bLen] && a[..][..1] == a[..1];
    ghost var row := out[..bLen];
    out[bLen] := carry;
    assert out[..1 + bLen] == row + [carry];
    var i := 1;
    while i < aLen
      invariant 1 <= i <= aLen
      invariant Val(out[..i + bLen]) == Times(Val(a[..i]), Val(b[..bLen]))
    {
      AddRow(out, i, a, aLen, b, bLen);
      i := i + 1;
    }
  }

  lemma FirstLimb(s: seq<Limb>)
    requires s != []
    ensures Val(s[..1]) == s[0]
  {
    TakePush(s, 0);
    assert s[..0] == [];
  }
}
