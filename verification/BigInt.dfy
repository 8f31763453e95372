/**
 Arbitrary precision integers.  Numbers in [-2^126, 2^126) are stored inline, all others as sign and magnitude in
 an array of limbs.  `Valid` admits one representation per value, and all methods below keep it.
 */
module BigInts {
  import opened Limbs
  import opened LimbLoops
  import opened Orderings
  import opened Fields

  function Signed(negative: bool, magnitude: int): int {
    if negative then -magnitude else magnitude
  }

  function Max(a: nat, b: nat): nat {
    if a < b then b else a
  }

  /** A sum gets a limb more than its longer operand if the magnitudes are added, and as many otherwise. */
  function AddCapacity(aCount: nat, aNegative: bool, bCount: nat, bNegative: bool): nat {
    Max(aCount, bCount) + if aNegative == bNegative then 1 else 0
  }

  /** Number of limbs of a number that is stored inline. */
  function InlineLimbCount(value: int): nat {
    var magnitude := if value < 0 then -value else value;
    if magnitude >= BASE then 2 else if magnitude > 0 then 1 else 0
  }

  lemma ValTwo(s: seq<Limb>)
    requires |s| == 2
    ensures Val(s) == s[0] + BASE * s[1]
    ensures Val(s[..1]) == s[0] && Val(s[..0]) == 0
  {
    assert s[..1][..0] == [] && s[..2] == s;
    assert Pow(1) == BASE * Pow(0);
  }

  /** The number of limbs without the leading zeros. */
  method TrimmedCount(data: array<Limb>, count: nat) returns (n: nat)
    requires count <= data.Length
    ensures n <= count && Trimmed(data[..n])
    ensures Val(data[..n]) == Val(data[..count])
  {
    n := count;
    while n > 0 && data[n - 1] == 0
      invariant n <= count
      invariant Val(data[..n]) == Val(data[..count])
    {
      ZerosOnTop(data[..n], n - 1);
      assert data[..n][..n - 1] == data[..n - 1];
      n := n - 1;
    }
  }

  class BigInt {
    var fields: Fields
    /** What the address in the low word points to. */
    var limbs: array?<Limb>

    /** The fields describe an allocation, which need not hold a finished number. */
    ghost predicate Allocated()
      reads this
    {
      && !fields.StoredInline()
      && limbs != null
      && fields.low < TWO_63
      && fields.Capacity() == limbs.Length
      && 0 < limbs.Length <= MAX_LIMBS
      && fields.LimbCount() <= limbs.Length
    }

    ghost predicate Valid()
      reads this, limbs
    {
      if fields.StoredInline() then
        limbs == null
      else
        && Allocated()
        && fields.LimbCount() >= 2
        && limbs[fields.LimbCount() - 1] != 0
        && !FitsInline(Signed(fields.IsNegative(), Val(limbs[..fields.LimbCount()])))
    }

    ghost function Value(): int
      requires Valid()
      reads this, limbs
    {
      if fields.StoredInline() then fields.InlineValue()
      else Signed(fields.IsNegative(), Val(limbs[..fields.LimbCount()]))
    }

    /** The number of limbs of the magnitude. */
    function MagnitudeCount(): nat
      reads this
    {
      if fields.StoredInline() then InlineLimbCount(fields.InlineValue()) else fields.LimbCount()
    }

    /** Different numbers own different allocations. */
    ghost predicate Apart(other: BigInt)
      reads this, other
    {
      this != other && limbs != null ==> limbs != other.limbs
    }

    /** Constructs zero. */
    constructor ()
      ensures Valid() && Value() == 0 && limbs == null
    {
      fields := Fields(0, 0);
      limbs := null;
    }

    /** Makes room for `capacity` limbs; `Valid` does not hold before `Finish` was called. */
    constructor WithCapacity(capacity: nat)
      requires 0 < capacity <= MAX_LIMBS
      ensures Allocated() && limbs.Length == capacity && fresh(limbs)
    {
      var address: Word64 :| address < TWO_63 && address % 2 == 0;
      PackRoundTrip(address + 1, 0, capacity);
      fields := Fields(address + 1, PackSize(0, capacity));
      limbs := new Limb[capacity];
    }

    constructor Inline(f: Fields)
      requires f.StoredInline()
      ensures Valid() && fields == f && limbs == null
    {
      fields := f;
      limbs := null;
    }

    method SetLimbCountAndSign(count: nat, negative: bool)
      requires Allocated() && count <= limbs.Length && (negative ==> count > 0)
      modifies this`fields
      ensures Allocated() && fields.LimbCount() == count && (fields.IsNegative() <==> negative)
      ensures fields.low == old(fields.low)
    {
      var n := if negative then -(count as int) else count as int;
      PackRoundTrip(fields.low, n, fields.Capacity());
      fields := Fields(fields.low, PackSize(n, fields.Capacity()));
    }

    /** Turns the first `count` limbs and a sign into the one valid representation of their value. */
    method Finish(negative: bool, count: nat)
      requires Allocated() && count <= limbs.Length
      modifies this
      ensures Valid() && Value() == Signed(negative, Val(old(limbs[..count])))
      ensures limbs == null || limbs == old(limbs)
    {
      hide Val, Pow;
      var data := limbs;
      var n := TrimmedCount(data, count);
      if n <= 2 {
        var magnitude := 0;
        if n >= 1 {
          magnitude := data[0];
        }
        if n == 2 {
          magnitude := magnitude + data[1] * BASE;
        }
        ValSmall(data[..n]);
        if magnitude < INLINE_LIMIT || (negative && magnitude == INLINE_LIMIT) {
          InlineRoundTrip(Signed(negative, magnitude));
          fields := MakeInlineUnchecked(Signed(negative, magnitude));
          limbs := null;
          return;
        }
      } else {
        LongIsLarge(data[..n]);
      }
      SetLimbCountAndSign(n, negative);
    }

    /** A copy of an allocated number in an allocation of the given capacity. */
    static method CopyWithCapacity(other: BigInt, capacity: nat) returns (result: BigInt)
      requires other.Valid() && !other.fields.StoredInline()
      requires other.fields.LimbCount() <= capacity <= MAX_LIMBS
      ensures fresh(result) && result.Valid() && result.limbs != null && fresh(result.limbs)
      ensures result.limbs.Length == capacity && result.Value() == old(other.Value())
      ensures result.fields.LimbCount() == other.fields.LimbCount()
      ensures result.fields.IsNegative() == other.fields.IsNegative()
    {
      hide Val, FitsInline;
      var count := other.fields.LimbCount();
      ghost var magnitude := other.limbs[..count];
      result := new BigInt.WithCapacity(capacity);
      forall k | 0 <= k < count {
        result.limbs[k] := other.limbs[k];
      }
      assert result.limbs[..count] == magnitude && magnitude[count - 1] == result.limbs[count - 1];
      result.SetLimbCountAndSign(count, other.fields.IsNegative());
    }

    /** Afterwards the array has `minCapacity` limbs or more, and the value is what it was. */
    method Reserve(minCapacity: nat)
      requires Valid() && !fields.StoredInline() && minCapacity <= MAX_LIMBS
      modifies this
      ensures Valid() && Allocated() && Value() == old(Value())
      ensures fields.LimbCount() == old(fields.LimbCount()) && fields.IsNegative() == old(fields.IsNegative())
      ensures limbs.Length >= minCapacity
      ensures limbs == old(limbs) || fresh(limbs)
    {
      hide Val, FitsInline;
      var oldCapacity := fields.Capacity();
      if oldCapacity >= minCapacity {
        return;
      }
      var grown := oldCapacity + oldCapacity / 2;
      assert grown < 0x1_0000_0000;
      var newCapacity := Max(minCapacity, if MAX_LIMBS < grown then MAX_LIMBS else grown);
      var newNumber := CopyWithCapacity(this, newCapacity);
      fields, limbs := newNumber.fields, newNumber.limbs;
    }

    /** An array that starts with the trimmed magnitude, which is a fresh one for inline numbers. */
    method Magnitude() returns (data: array<Limb>, count: nat)
      requires Valid()
      ensures if fields.StoredInline() then fresh(data) else data == limbs
      ensures count == MagnitudeCount() <= data.Length
      ensures Trimmed(data[..count]) && Signed(fields.IsNegative(), Val(data[..count])) == old(Value())
    {
      if !fields.StoredInline() {
        return limbs, fields.LimbCount();
      }
      InlineIsCanonical(fields);
      var value := fields.InlineValue();
      var magnitude := if value < 0 then -value else value;
      data := new Limb[2];
      data[0], data[1] := magnitude % BASE, magnitude / BASE;
      count := if data[1] != 0 then 2 else if data[0] != 0 then 1 else 0;
      ValTwo(data[..]);
      assert data[..][..count] == data[..count] && data[..] == data[..2];
    }

    /** The magnitude of this number or its negation with the sign of that. */
    method SignedMagnitude(negate: bool) returns (data: array<Limb>, count: nat, negative: bool)
      requires Valid()
      ensures if fields.StoredInline() then fresh(data) else data == limbs
      ensures count == MagnitudeCount() <= data.Length && negative == (fields.IsNegative() != negate)
      ensures Trimmed(data[..count]) && Signed(negative, Val(data[..count])) == old(Signed(negate, Value()))
    {
      data, count := Magnitude();
      negative := fields.IsNegative() != negate;
    }

    /**
     Stores the sum of two signed magnitudes into this number.  Either magnitude may lie in this number's own
     allocation.
     */
    method StoreSignedAddition(a: array<Limb>, aLen: nat, aNegative: bool,
                               b: array<Limb>, bLen: nat, bNegative: bool)
      requires Allocated() && AddCapacity(aLen, aNegative, bLen, bNegative) <= limbs.Length
      requires aLen <= a.Length && bLen <= b.Length
      requires Trimmed(a[..aLen]) && Trimmed(b[..bLen])
      modifies this, limbs
      ensures Valid() && (limbs == null || limbs == old(limbs))
      ensures Value() == Signed(aNegative, Val(old(a[..aLen]))) + Signed(bNegative, Val(old(b[..bLen])))
    {
      hide Val;
      if aNegative == bNegative {
        if aLen < bLen {
          AddLimbs(limbs, b, bLen, a, aLen);
          Finish(bNegative, bLen + 1);
        } else {
          AddLimbs(limbs, a, aLen, b, bLen);
          Finish(aNegative, aLen + 1);
        }
      } else {
        var order := CompareMagnitude(a, aLen, b, bLen);
        if order == Less {
          LongerOfOrdered(a[..aLen], b[..bLen]);
          SubLimbs(limbs, b, bLen, a, aLen);
          Finish(bNegative, bLen);
        } else {
          LongerOfOrdered(b[..bLen], a[..aLen]);
          SubLimbs(limbs, a, aLen, b, bLen);
          Finish(aNegative, aLen);
        }
      }
    }

    /** Takes over the contents of `other`, which becomes zero. */
    method MoveFrom(other: BigInt)
      requires other.Valid() && other != this
      modifies this, other
      ensures Valid() && Value() == old(other.Value()) && limbs == old(other.limbs) && fields == old(other.fields)
      ensures other.Valid() && other.Value() == 0 && other.limbs == null
    {
      fields, limbs := other.fields, other.limbs;
      InlineRoundTrip(0);
      other.fields, other.limbs := MakeInlineUnchecked(0), null;
    }

    static method SumOfMagnitudes(a: array<Limb>, aLen: nat, aNegative: bool,
                                  b: array<Limb>, bLen: nat, bNegative: bool) returns (result: BigInt)
      requires aLen <= a.Length && bLen <= b.Length
      requires 0 < AddCapacity(aLen, aNegative, bLen, bNegative) <= MAX_LIMBS
      requires Trimmed(a[..aLen]) && Trimmed(b[..bLen])
      ensures fresh(result) && result.Valid() && (result.limbs == null || fresh(result.limbs))
      ensures result.Value() == old(Signed(aNegative, Val(a[..aLen])) + Signed(bNegative, Val(b[..bLen])))
    {
      result := new BigInt.WithCapacity(AddCapacity(aLen, aNegative, bLen, bNegative));
      result.StoreSignedAddition(a, aLen, aNegative, b, bLen, bNegative);
    }

    /** The sum of two signed operands as a new number, unless both operands and the sum are inline. */
    static method AddSlow(a: BigInt, negateA: bool, b: BigInt, negateB: bool) returns (result: BigInt)
      requires a.Valid() && b.Valid() && a.RoomToAdd(negateA, b, negateB)
      requires a.fields.StoredInline() && b.fields.StoredInline() ==>
                 !FitsInline(Signed(negateA, a.Value()) + Signed(negateB, b.Value()))
      ensures fresh(result) && result.Valid() && (result.limbs == null || fresh(result.limbs))
      ensures result.Value() == old(Signed(negateA, a.Value()) + Signed(negateB, b.Value()))
    {
      SomeCapacity(a, negateA, b, negateB);
      hide *;
      var aData, aCount, aNegative := a.SignedMagnitude(negateA);
      var bData, bCount, bNegative := b.SignedMagnitude(negateB);
      result := SumOfMagnitudes(aData, aCount, aNegative, bData, bCount, bNegative);
    }

    /** The limbs of the sum can be counted in 31 bits. */
    predicate RoomToAdd(negateThis: bool, b: BigInt, negateB: bool)
      reads this, b
    {
      AddCapacity(MagnitudeCount(), fields.IsNegative() != negateThis,
                  b.MagnitudeCount(), b.fields.IsNegative() != negateB) <= MAX_LIMBS
    }

    /** The part of AddAssignSlow after Reserve; taking the magnitudes earlier would miss that b may be this number. */
    method AddWithRoom(negateThis: bool, b: BigInt, negateB: bool)
      requires Valid() && b.Valid() && Apart(b) && !fields.StoredInline()
      requires AddCapacity(MagnitudeCount(), fields.IsNegative() != negateThis,
                           b.MagnitudeCount(), b.fields.IsNegative() != negateB) <= limbs.Length
      modifies this, limbs
      ensures Valid() && (limbs == null || limbs == old(limbs))
      ensures Value() == old(Signed(negateThis, Value()) + Signed(negateB, b.Value()))
    {
      assert Allocated();
      hide *;
      var aData, aCount, aNegative := SignedMagnitude(negateThis);
      var bData, bCount, bNegative := b.SignedMagnitude(negateB);
      StoreSignedAddition(aData, aCount, aNegative, bData, bCount, bNegative);
    }

    /** The same sum in the array of this number, which has room for it. */
    method AddInPlace(negateThis: bool, b: BigInt, negateB: bool)
      requires Valid() && b.Valid() && Apart(b) && RoomToAdd(negateThis, b, negateB)
      requires !fields.StoredInline()
      modifies this, limbs
      ensures Valid() && (limbs == null || limbs == old(limbs) || fresh(limbs))
      ensures Value() == old(Signed(negateThis, Value()) + Signed(negateB, b.Value()))
    {
      var aNegative, bNegative := fields.IsNegative() != negateThis, b.fields.IsNegative() != negateB;
      var bCount := if b.fields.StoredInline() then 2 else b.fields.LimbCount();
      CapacitySuffices(this, b, aNegative, bNegative);
      hide Val, FitsInline, AddCapacity, Fields.InlineValue, Fields.SignedLimbCount;
      Reserve(AddCapacity(fields.LimbCount(), aNegative, bCount, bNegative));
      AddWithRoom(negateThis, b, negateB);
    }

    /** The same sum, left in this number, whose representation may change. */
    method AddAssignSlow(negateThis: bool, b: BigInt, negateB: bool)
      requires Valid() && b.Valid() && Apart(b) && RoomToAdd(negateThis, b, negateB)
      requires fields.StoredInline() && b.fields.StoredInline() ==>
                 !FitsInline(Signed(negateThis, Value()) + Signed(negateB, b.Value()))
      modifies this, limbs
      ensures Valid() && (limbs == null || limbs == old(limbs) || fresh(limbs))
      ensures Value() == old(Signed(negateThis, Value()) + Signed(negateB, b.Value()))
    {
      hide *;
      if fields.StoredInline() {
        var sum := AddSlow(this, negateThis, b, negateB);
        MoveFrom(sum);
        return;
      }
      AddInPlace(negateThis, b, negateB);
    }

    /** Allocates a two-limb number whose value is known not to fit inline. */
    static method AllocateMagnitude128(magnitude: int, negative: bool) returns (result: BigInt)
      requires 0 <= magnitude < TWO_128 && !FitsInline(Signed(negative, magnitude))
      ensures fresh(result) && result.Valid() && result.limbs != null && fresh(result.limbs)
      ensures result.Value() == Signed(negative, magnitude)
    {
      result := new BigInt.WithCapacity(2);
      result.limbs[0], result.limbs[1] := magnitude % BASE, magnitude / BASE;
      ValTwo(result.limbs[..]);
      assert result.limbs[..] == result.limbs[..2];
      result.SetLimbCountAndSign(2, negative);
    }

    /** A number for any signed or unsigned 128-bit integer. */
    static method For128(value: int) returns (result: BigInt)
      requires -TWO_127 <= value < TWO_128
      ensures fresh(result) && result.Valid() && (result.limbs == null || fresh(result.limbs))
      ensures result.Value() == value
    {
      if FitsInline(value) {
        InlineRoundTrip(value);
        result := new BigInt.Inline(MakeInlineUnchecked(value));
      } else {
        result := AllocateMagnitude128(if value < 0 then -value else value, value < 0);
      }
    }

    // Assignment

    /** A copy whose allocation, if any, has exactly the limbs in use. */
    static method Copy(other: BigInt) returns (result: BigInt)
      requires other.Valid()
      ensures fresh(result) && result.Valid() && (result.limbs == null || fresh(result.limbs))
      ensures result.Value() == old(other.Value())
    {
      hide Val, FitsInline;
      if other.fields.StoredInline() {
        result := new BigInt.Inline(other.fields);
        return;
      }
      result := CopyWithCapacity(other, other.fields.LimbCount());
    }

    /** The limbs of `other` fit into the array of this number. */
    predicate HasRoomFor(other: BigInt)
      reads this, other
    {
      && !fields.StoredInline() && !other.fields.StoredInline()
      && fields.Capacity() >= other.fields.LimbCount()
    }

    /** Copy assignment, which keeps the array if the limbs of the other number fit into it, and only then. */
    method Assign(other: BigInt)
      requires Valid() && other.Valid() && Apart(other)
      modifies this, limbs
      ensures Valid() && Value() == old(other.Value())
      ensures this != other ==> (limbs != null && limbs == old(limbs) <==> old(HasRoomFor(other)))
      ensures old(HasRoomFor(other)) ==> fields.Capacity() == old(fields.Capacity())
      ensures limbs == null || limbs == old(limbs) || fresh(limbs)
    {
      hide Val, FitsInline;
      if this == other {
        return;
      }
      if other.fields.StoredInline() {
        SetInline(other.fields);
      } else if !fields.StoredInline() && fields.Capacity() >= other.fields.LimbCount() {
        var count := other.fields.LimbCount();
        ghost var magnitude := other.limbs[..count];
        forall k | 0 <= k < count {
          limbs[k] := other.limbs[k];
        }
        assert limbs[..count] == magnitude && magnitude[count - 1] == limbs[count - 1];
        SetLimbCountAndSign(count, other.fields.IsNegative());
      } else {
        var copy := Copy(other);
        MoveFrom(copy);
      }
    }

    // Unary minus

    method NegateInPlaceSlow()
      requires Valid() && (fields.StoredInline() ==> Value() == -INLINE_LIMIT)
      modifies this
      ensures Valid() && Value() == -old(Value())
      ensures limbs == null || limbs == old(limbs) || fresh(limbs)
    {
      if fields.StoredInline() {
        var positive := AllocateMagnitude128(INLINE_LIMIT, false);
        MoveFrom(positive);
      } else {
        Finish(!fields.IsNegative(), fields.LimbCount());
      }
    }

    method NegateInPlace()
      requires Valid()
      modifies this
      ensures Valid() && Value() == -old(Value())
      ensures limbs == null || limbs == old(limbs) || fresh(limbs)
    {
      FastSub(Fields(0, 0), fields);
      hide *;
      var (word, overflow) := Checked128(0 - fields.ScaledBits());
      if fields.StoredInline() && !overflow {
        SetInline(FromScaled(word));
      } else {
        NegateInPlaceSlow();
      }
    }

    method SetInline(f: Fields)
      requires f.StoredInline()
      modifies this
      ensures Valid() && fields == f && limbs == null && Value() == f.InlineValue()
    {
      fields, limbs := f, null;
    }

    // Addition and subtraction

    method AddAssign(b: BigInt)
      requires Valid() && b.Valid() && Apart(b) && RoomToAdd(false, b, false)
      modifies this, limbs
      ensures Valid() && (limbs == null || limbs == old(limbs) || fresh(limbs))
      ensures Value() == old(Value() + b.Value())
    {
      FastAdd(fields, b.fields);
      InlineValues(this, b);
      hide *;
      var (word, overflow) := Checked128(fields.ScaledBits() + b.fields.ScaledBits());
      if fields.StoredInline() && b.fields.StoredInline() && !overflow {
        SetInline(FromScaled(word));
      } else {
        AddAssignSlow(false, b, false);
      }
    }

    method SubAssign(b: BigInt)
      requires Valid() && b.Valid() && Apart(b) && RoomToAdd(false, b, true)
      modifies this, limbs
      ensures Valid() && (limbs == null || limbs == old(limbs) || fresh(limbs))
      ensures Value() == old(Value() - b.Value())
    {
      FastSub(fields, b.fields);
      InlineValues(this, b);
      hide *;
      var (word, overflow) := Checked128(fields.ScaledBits() - b.fields.ScaledBits());
      if fields.StoredInline() && b.fields.StoredInline() && !overflow {
        SetInline(FromScaled(word));
      } else {
        AddAssignSlow(false, b, true);
      }
    }

    /** Subtracts the value of this number from that of `a`, and leaves the difference here. */
    method SubtractFrom(a: BigInt)
      requires Valid() && a.Valid() && Apart(a) && RoomToAdd(true, a, false)
      modifies this, limbs
      ensures Valid() && (limbs == null || limbs == old(limbs) || fresh(limbs))
      ensures Value() == old(a.Value() - Value())
    {
      FastSub(a.fields, fields);
      InlineValues(this, a);
      hide *;
      var (word, overflow) := Checked128(a.fields.ScaledBits() - fields.ScaledBits());
      if fields.StoredInline() && a.fields.StoredInline() && !overflow {
        SetInline(FromScaled(word));
      } else {
        AddAssignSlow(true, a, false);
      }
    }

    static method Add(a: BigInt, b: BigInt) returns (result: BigInt)
      requires a.Valid() && b.Valid() && a.RoomToAdd(false, b, false)
      ensures fresh(result) && result.Valid() && (result.limbs == null || fresh(result.limbs))
      ensures result.Value() == old(a.Value() + b.Value())
    {
      FastAdd(a.fields, b.fields);
      InlineValues(a, b);
      hide *;
      var (word, overflow) := Checked128(a.fields.ScaledBits() + b.fields.ScaledBits());
      if a.fields.StoredInline() && b.fields.StoredInline() && !overflow {
        result := new BigInt.Inline(FromScaled(word));
      } else {
        result := AddSlow(a, false, b, false);
      }
    }

    static method Sub(a: BigInt, b: BigInt) returns (result: BigInt)
      requires a.Valid() && b.Valid() && a.RoomToAdd(false, b, true)
      ensures fresh(result) && result.Valid() && (result.limbs == null || fresh(result.limbs))
      ensures result.Value() == old(a.Value() - b.Value())
    {
      FastSub(a.fields, b.fields);
      InlineValues(a, b);
      hide *;
      var (word, overflow) := Checked128(a.fields.ScaledBits() - b.fields.ScaledBits());
      if a.fields.StoredInline() && b.fields.StoredInline() && !overflow {
        result := new BigInt.Inline(FromScaled(word));
      } else {
        result := AddSlow(a, false, b, true);
      }
    }

    /** a - b where both operands may be consumed: the difference is left in whichever of them has an allocation. */
    static method SubConsuming(a: BigInt, b: BigInt) returns (result: BigInt)
      requires a.Valid() && b.Valid() && a.Apart(b)
      requires a.RoomToAdd(false, b, true) && b.RoomToAdd(true, a, false)
      modifies a, a.limbs, b, b.limbs
      ensures result == a || result == b
      ensures result.Valid() && result.Value() == old(a.Value() - b.Value())
    {
      assert b.Apart(a);
      hide *;
      if a.fields.StoredInline() && !b.fields.StoredInline() {
        b.SubtractFrom(a);
        result := b;
      } else {
        a.SubAssign(b);
        result := a;
      }
    }

    // Multiplication

    /** The product as a new number, unless both factors are tiny. */
    static method MulSlow(a: BigInt, b: BigInt) returns (result: BigInt)
      requires a.Valid() && b.Valid() && a.MagnitudeCount() + b.MagnitudeCount() <= MAX_LIMBS
      ensures fresh(result) && result.Valid() && (result.limbs == null || fresh(result.limbs))
      ensures result.Value() == old(a.Value() * b.Value())
    {
      FastMul(a.fields, b.fields);
      InlineValues(a, b);
      hide *;
      var (word, overflow) := Checked128(a.fields.ScaledBits() * (b.fields.ScaledBits() / 2));
      if a.fields.StoredInline() && b.fields.StoredInline() && !overflow {
        result := new BigInt.Inline(FromScaled(word));
        return;
      }
      var aData, aCount := a.Magnitude();
      var bData, bCount := b.Magnitude();
      ProductOfSigned(a.fields.IsNegative(), Val(aData[..aCount]), b.fields.IsNegative(), Val(bData[..bCount]));
      result := ProductOfMagnitudes(aData, aCount, bData, bCount, a.fields.IsNegative() != b.fields.IsNegative());
    }

    static method ProductOfMagnitudes(a: array<Limb>, aLen: nat, b: array<Limb>, bLen: nat, negative: bool)
      returns (result: BigInt)
      requires aLen <= a.Length && bLen <= b.Length && aLen + bLen <= MAX_LIMBS
      ensures fresh(result) && result.Valid() && (result.limbs == null || fresh(result.limbs))
      ensures result.Value() == old(Signed(negative, Times(Val(a[..aLen]), Val(b[..bLen]))))
    {
      ProductOfSigned(false, Val(a[..aLen]), false, Val(b[..bLen]));
      if aLen == 0 || bLen == 0 {
        EmptyIsZero(a[..aLen], b[..bLen], negative);
        result := new BigInt();
        return;
      }
      hide Val, Times, FitsInline;
      var inner, innerLen, outer, outerLen := b, bLen, a, aLen;
      if aLen > bLen {
        inner, innerLen, outer, outerLen := a, aLen, b, bLen;
      }
      result := new BigInt.WithCapacity(aLen + bLen);
      MulMagnitudes(result.limbs, outer, outerLen, inner, innerLen);
      result.Finish(negative, aLen + bLen);
    }

    static method Mul(a: BigInt, b: BigInt) returns (result: BigInt)
      requires a.Valid() && b.Valid() && a.MagnitudeCount() + b.MagnitudeCount() <= MAX_LIMBS
      ensures fresh(result) && result.Valid() && (result.limbs == null || fresh(result.limbs))
      ensures result.Value() == old(a.Value() * b.Value())
    {
      TinyProduct(a, b);
      hide *;
      if a.fields.Tiny() && b.fields.Tiny() {
        result := new BigInt.Inline(FromScaled(a.fields.MulTinyScaled(b.fields)));
      } else {
        result := MulSlow(a, b);
      }
    }

    method MulAssign(b: BigInt)
      requires Valid() && b.Valid() && MagnitudeCount() + b.MagnitudeCount() <= MAX_LIMBS
      modifies this
      ensures Valid() && (limbs == null || fresh(limbs))
      ensures Value() == old(Value() * b.Value())
    {
      TinyProduct(this, b);
      hide *;
      if fields.Tiny() && b.fields.Tiny() {
        SetInline(FromScaled(fields.MulTinyScaled(b.fields)));
      } else {
        var product := MulSlow(this, b);
        MoveFrom(product);
      }
    }

    // Comparison

    static method EqualSlow(a: BigInt, b: BigInt) returns (equal: bool)
      requires a.Valid() && b.Valid() && !a.fields.StoredInline() && !b.fields.StoredInline()
      ensures equal <==> a.Value() == b.Value()
    {
      hide Val, FitsInline;
      SignOfCount(a.fields);
      SignOfCount(b.fields);
      if a.fields.SignedLimbCount() != b.fields.SignedLimbCount() {
        DifferentKeys(a, b);
        return false;
      }
      var n := a.fields.LimbCount();
      for i := 0 to n
        invariant a.limbs[..i] == b.limbs[..i]
      {
        if a.limbs[i] != b.limbs[i] {
          DifferentLimbs(a.limbs[..n], b.limbs[..n], i);
          return false;
        }
      }
      return true;
    }

    static method Equals(a: BigInt, b: BigInt) returns (equal: bool)
      requires a.Valid() && b.Valid()
      ensures equal <==> a.Value() == b.Value()
    {
      hide Val;
      if a.fields.StoredInline() || b.fields.StoredInline() {
        if a.fields.StoredInline() {
          InlineIsCanonical(a.fields);
        }
        if b.fields.StoredInline() {
          InlineIsCanonical(b.fields);
        }
        if a.fields.ScaledBits() == b.fields.ScaledBits() {
          ScaledInjective(a.fields, b.fields);
        }
        return a.fields.ScaledBits() == b.fields.ScaledBits();
      }
      equal := EqualSlow(a, b);
    }

    static method CompareSlow(a: BigInt, b: BigInt) returns (order: Ordering)
      requires a.Valid() && b.Valid() && !(a.fields.StoredInline() && b.fields.StoredInline())
      ensures order == CompareInt(a.Value(), b.Value())
    {
      hide Val;
      var aKey := if a.fields.StoredInline() then 0 else a.fields.SignedLimbCount();
      var bKey := if b.fields.StoredInline() then 0 else b.fields.SignedLimbCount();
      if aKey != bKey {
        DifferentKeys(a, b);
        return CompareInt(aKey, bKey);
      }
      SignOfCount(a.fields);
      SignOfCount(b.fields);
      var magnitudeOrder := CompareMagnitude(a.limbs, a.fields.LimbCount(), b.limbs, b.fields.LimbCount());
      order := if aKey < 0 then magnitudeOrder.Flip() else magnitudeOrder;
    }

    static method Compare(a: BigInt, b: BigInt) returns (order: Ordering)
      requires a.Valid() && b.Valid()
      ensures order == CompareInt(a.Value(), b.Value())
      ensures (order == Less <==> a.Value() < b.Value()) && (order == Greater <==> a.Value() > b.Value())
    {
      if a.fields.StoredInline() && b.fields.StoredInline() {
        InlineIsCanonical(a.fields);
        InlineIsCanonical(b.fields);
        return CompareInt(a.fields.ScaledBits(), b.fields.ScaledBits());
      }
      order := CompareSlow(a, b);
    }
  }

  /** Unless the keys of two numbers agree, the keys are ordered as the values are. */
  lemma DifferentKeys(a: BigInt, b: BigInt)
    requires a.Valid() && b.Valid()
    ensures var aKey := if a.fields.StoredInline() then 0 else a.fields.SignedLimbCount();
            var bKey := if b.fields.StoredInline() then 0 else b.fields.SignedLimbCount();
            aKey < bKey ==> a.Value() < b.Value()
    ensures var aKey := if a.fields.StoredInline() then 0 else a.fields.SignedLimbCount();
            var bKey := if b.fields.StoredInline() then 0 else b.fields.SignedLimbCount();
            aKey > bKey ==> a.Value() > b.Value()
  {
    hide Val;
    if a.fields.StoredInline() {
      InlineIsCanonical(a.fields);
    } else {
      SignOfCount(a.fields);
    }
    if b.fields.StoredInline() {
      InlineIsCanonical(b.fields);
    } else {
      SignOfCount(b.fields);
    }
    if !a.fields.StoredInline() && !b.fields.StoredInline() {
      if a.fields.LimbCount() < b.fields.LimbCount() {
        LongerIsLarger(a.limbs[..a.fields.LimbCount()], b.limbs[..b.fields.LimbCount()]);
      } else if b.fields.LimbCount() < a.fields.LimbCount() {
        LongerIsLarger(b.limbs[..b.fields.LimbCount()], a.limbs[..a.fields.LimbCount()]);
      }
    }
  }

  lemma DifferentLimbs(a: seq<Limb>, b: seq<Limb>, i: nat)
    requires i < |a| == |b| && a[i] != b[i]
    ensures Val(a) != Val(b)
  {
    if Val(a) == Val(b) {
      ValInjective(a, b);
    }
  }

  lemma EmptyIsZero(a: seq<Limb>, b: seq<Limb>, negative: bool)
    requires a == [] || b == []
    ensures Signed(negative, Times(Val(a), Val(b))) == 0
  {
  }

  lemma ProductOfSigned(aNegative: bool, a: int, bNegative: bool, b: int)
    ensures Signed(aNegative, a) * Signed(bNegative, b) == Signed(aNegative != bNegative, Times(a, b))
    ensures Times(a, b) == Times(b, a)
  {
  }

  /** `Valid` leaves no choice between the two forms: the range of the value decides. */
  lemma InlineIffFits(a: BigInt)
    requires a.Valid()
    ensures a.fields.StoredInline() <==> FitsInline(a.Value())
  {
    hide Val;
    if a.fields.StoredInline() {
      InlineIsCanonical(a.fields);
    }
  }

  /** Numbers with the same value agree in all fields but the address and the capacity, and in all limbs. */
  lemma UniqueRepresentation(a: BigInt, b: BigInt)
    requires a.Valid() && b.Valid() && a.Value() == b.Value()
    ensures a.fields.StoredInline() <==> b.fields.StoredInline()
    ensures a.fields.StoredInline() ==> a.fields == b.fields
    ensures !a.fields.StoredInline() ==>
              a.fields.SignedLimbCount() == b.fields.SignedLimbCount()
              && a.limbs[..a.fields.LimbCount()] == b.limbs[..b.fields.LimbCount()]
  {
    hide Val;
    InlineIffFits(a);
    InlineIffFits(b);
    if a.fields.StoredInline() {
      InlineIsCanonical(a.fields);
      InlineIsCanonical(b.fields);
    } else {
      DifferentKeys(a, b);
      ValInjective(a.limbs[..a.fields.LimbCount()], b.limbs[..b.fields.LimbCount()]);
    }
  }

  lemma TinyProduct(a: BigInt, b: BigInt)
    requires a.Valid() && b.Valid()
    ensures a.fields.Tiny() && b.fields.Tiny() ==>
              -TWO_127 <= a.fields.MulTinyScaled(b.fields) < TWO_127
              && FromScaled(a.fields.MulTinyScaled(b.fields)).StoredInline()
              && FromScaled(a.fields.MulTinyScaled(b.fields)).InlineValue() == a.Value() * b.Value()
  {
    hide Val;
    TinyExact(a.fields);
    TinyExact(b.fields);
    if a.fields.Tiny() && b.fields.Tiny() {
      MulTinyExact(a.fields, b.fields);
      InlineRoundTrip(a.fields.InlineValue() * b.fields.InlineValue());
    }
  }

  lemma InlineValues(a: BigInt, b: BigInt)
    requires a.Valid() && b.Valid()
    ensures a.fields.StoredInline() && b.fields.StoredInline() ==>
              a.Value() == a.fields.InlineValue() && b.Value() == b.fields.InlineValue()
    ensures forall v :: Signed(false, v) == v && Signed(true, v) == -v
  {
  }

  /** Counting an inline operand as two limbs never asks for more room than the sum with an allocated number needs. */
  lemma CapacitySuffices(a: BigInt, b: BigInt, aNegative: bool, bNegative: bool)
    requires a.Valid() && b.Valid() && !a.fields.StoredInline()
    ensures AddCapacity(a.fields.LimbCount(), aNegative,
                        if b.fields.StoredInline() then 2 else b.fields.LimbCount(), bNegative)
         == AddCapacity(a.MagnitudeCount(), aNegative, b.MagnitudeCount(), bNegative)
  {
  }

  lemma SomeCapacity(a: BigInt, negateA: bool, b: BigInt, negateB: bool)
    requires a.Valid() && b.Valid()
    requires a.fields.StoredInline() && b.fields.StoredInline() ==>
               !FitsInline(Signed(negateA, a.Value()) + Signed(negateB, b.Value()))
    ensures AddCapacity(a.MagnitudeCount(), a.fields.IsNegative() != negateA,
                        b.MagnitudeCount(), b.fields.IsNegative() != negateB) > 0
  {
    hide Val;
    if a.fields.StoredInline() && b.fields.StoredInline() {
      InlineIsCanonical(a.fields);
      InlineIsCanonical(b.fields);
    }
  }

  lemma LongerOfOrdered(a: seq<Limb>, b: seq<Limb>)
    requires Trimmed(a) && Val(a) <= Val(b)
    ensures |a| <= |b|
  {
    if |b| < |a| {
      LongerIsLarger(b, a);
    }
  }

  lemma ValSmall(s: seq<Limb>)
    requires |s| <= 2
    ensures Val(s) == (if |s| >= 1 then s[0] else 0) + (if |s| == 2 then s[1] * BASE else 0)
    ensures |s| < 2 ==> Val(s) < BASE
  {
    if |s| == 1 {
      assert s + [0] == [s[0], 0];
      ValTwo(s + [0]);
      assert (s + [0])[..1] == s;
    } else if |s| == 2 {
      ValTwo(s);
    }
  }

  lemma LongIsLarge(s: seq<Limb>)
    requires |s| > 2 && Trimmed(s)
    ensures Val(s) > INLINE_LIMIT
  {
    TrimmedAtLeast(s);
    PowMonotonic(2, |s| - 1);
    assert Pow(2) == BASE * (BASE * Pow(0));
  }
}
