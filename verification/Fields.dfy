/**
 The two 64-bit words of a big integer, read as an inline 127-bit number, as one "scaled" 128-bit word, or as the
 tagged address and packed size of an allocated number.
 */
module Fields {
  import opened Limbs

  const TWO_62: int := 0x4000_0000_0000_0000
  const TWO_63: int := 0x8000_0000_0000_0000
  const TWO_127: int := TWO_63 * BASE
  const TWO_128: int := BASE * BASE
  const INLINE_LIMIT: int := TWO_62 * BASE
  const MAX_LIMBS: nat := 0x7FFF_FFFF

  type Word64 = x: int | 0 <= x < BASE
  type Int128 = x: int | -TWO_127 <= x < TWO_127

  predicate FitsInline(value: int) {
    -INLINE_LIMIT <= value < INLINE_LIMIT
  }

  /** A 128-bit word reinterpreted as a signed number, after wrapping around. */
  function Wrap128(x: int): (r: Int128)
    ensures (r - x) % TWO_128 == 0
    ensures -TWO_127 <= x < TWO_127 ==> r == x
  {
    var u := x % TWO_128;
    if u >= TWO_127 then u - TWO_128 else u
  }

  function Signed64(x: Word64): (r: int)
    ensures -TWO_63 <= r < TWO_63 && (r == x || r == x - BASE)
  {
    if x >= TWO_63 then x - BASE else x
  }

  /** The value of an overflow-checked operation with exact result `x`: the wrapped word and the overflow flag. */
  function Checked128(x: int): (r: (Int128, bool)) {
    (Wrap128(x), x != Wrap128(x))
  }

  datatype Fields = Fields(low: Word64, high: Word64) {

    predicate StoredInline() {
      low % 2 == 0
    }

    predicate IsNegative() {
      high >= TWO_63
    }

    /** Both words as one signed 128-bit integer, twice the value of an inline number. */
    function ScaledBits(): Int128 {
      Signed64(high) * BASE + low
    }

    function InlineValue(): int
      requires StoredInline()
    {
      ScaledBits() / 2
    }

    /** The low word alone determines the number: the high word only repeats its sign. */
    predicate Tiny() {
      high == if low >= TWO_63 then BASE - 1 else 0
    }

    /** What the fast multiplication computes from the low words. */
    function MulTinyScaled(other: Fields): int {
      Signed64(low) * (Signed64(other.low) / 2)
    }

    function SignedLimbCount(): int {
      var n := high / 0x1_0000_0000;
      if n >= 0x8000_0000 then n - 0x1_0000_0000 else n
    }

    function LimbCount(): nat {
      var n := SignedLimbCount();
      if n < 0 then -n else n
    }

    function Capacity(): nat {
      high % 0x1_0000_0000
    }
  }

  function MakeInlineUnchecked(value: int): Fields {
    Fields((value % BASE) * 2 % BASE, (value / TWO_63) % BASE)
  }

  function FromScaled(scaled: Int128): Fields {
    var u := scaled % TWO_128;
    Fields(u % BASE, u / BASE)
  }

  function PackSize(signedLimbCount: int, capacity: nat): Word64
    requires -(MAX_LIMBS as int) <= signedLimbCount <= MAX_LIMBS && capacity <= MAX_LIMBS
  {
    (signedLimbCount % 0x1_0000_0000) * 0x1_0000_0000 + capacity
  }

  /** Inline numbers are exactly the even scaled words, and the two conversions are inverse to each other. */
  lemma InlineRoundTrip(value: int)
    requires FitsInline(value)
    ensures var f := MakeInlineUnchecked(value);
            f.StoredInline() && f.ScaledBits() == 2 * value && f.InlineValue() == value
            && f == FromScaled(2 * value) && (f.IsNegative() <==> value < 0)
  {
    var l, h := value % TWO_63, value / TWO_63;
    var f := MakeInlineUnchecked(value);
    InlineWords(value, h, l);
    hide MakeInlineUnchecked, FromScaled;
    assert f.ScaledBits() == h * BASE + 2 * l == 2 * value;
    ScaledRoundTrip(2 * value);
    ScaledInjective(f, FromScaled(2 * value));
  }

  /** The words of an inline number. */
  lemma InlineWords(value: int, h: int, l: int)
    requires FitsInline(value) && l == value % TWO_63 && h == value / TWO_63
    ensures var f := MakeInlineUnchecked(value);
            f.low == 2 * l && f.high == if h < 0 then h + BASE else h
    ensures value == h * TWO_63 + l && -TWO_63 <= h < TWO_63
  {
    assert value == h * TWO_63 + l;
    LowBits(value, h, l);
  }

  lemma LowBits(value: int, h: int, l: int)
    requires 0 <= l < TWO_63 && value == h * TWO_63 + l
    ensures value % BASE == l || value % BASE == l + TWO_63
  {
    var k, b := h / 2, h % 2;
    assert value == k * BASE + (b * TWO_63 + l);
  }

  lemma ScaledRoundTrip(scaled: Int128)
    ensures FromScaled(scaled).ScaledBits() == scaled
    ensures FromScaled(scaled).StoredInline() <==> scaled % 2 == 0
  {
    var u := scaled % TWO_128;
    assert u == scaled || u == scaled + TWO_128;
    assert u == (u / BASE) * BASE + u % BASE;
  }

  /** The scaled word determines both fields, so comparing scaled words compares numbers. */
  lemma ScaledInjective(a: Fields, b: Fields)
    requires a.ScaledBits() == b.ScaledBits()
    ensures a == b
  {
  }

  /** Any inline fields hold a number in the inline range, and hold it in the only possible way. */
  lemma InlineIsCanonical(f: Fields)
    requires f.StoredInline()
    ensures FitsInline(f.InlineValue()) && 2 * f.InlineValue() == f.ScaledBits()
    ensures f == MakeInlineUnchecked(f.InlineValue())
    ensures f.IsNegative() <==> f.InlineValue() < 0
  {
    InlineRoundTrip(f.InlineValue());
    ScaledInjective(f, MakeInlineUnchecked(f.InlineValue()));
  }

  /** A tiny number is inline and lies in [-2^62, 2^62); no allocated number looks tiny. */
  lemma TinyExact(f: Fields)
    ensures f.StoredInline() ==> (f.Tiny() <==> -TWO_62 <= f.InlineValue() < TWO_62)
    ensures f.low < TWO_63 && f.Capacity() > 0 ==> !f.Tiny()
  {
    if f.StoredInline() {
      assert f.ScaledBits() == Signed64(f.high) * BASE + f.low;
      assert 2 * f.InlineValue() == f.ScaledBits();
    }
  }

  /** The operation on scaled words overflowed, or it left the inline fields of `result`. */
  predicate FastResult(word: Int128, overflow: bool, result: int) {
    && (!overflow <==> FitsInline(result))
    && (!overflow ==> FromScaled(word).StoredInline() && FromScaled(word).InlineValue() == result)
  }

  /** Overflow of an operation on scaled words means exactly that the result does not fit inline. */
  lemma CheckedIsExact(result: int)
    ensures var (word, overflow) := Checked128(2 * result);
            FastResult(word, overflow, result)
  {
    if FitsInline(result) {
      InlineRoundTrip(result);
    }
  }

  lemma FastAdd(a: Fields, b: Fields)
    ensures var (word, overflow) := Checked128(a.ScaledBits() + b.ScaledBits());
            a.StoredInline() && b.StoredInline() ==>
              FastResult(word, overflow, a.InlineValue() + b.InlineValue())
  {
    if a.StoredInline() && b.StoredInline() {
      InlineIsCanonical(a);
      InlineIsCanonical(b);
      CheckedIsExact(a.InlineValue() + b.InlineValue());
    }
  }

  lemma FastSub(a: Fields, b: Fields)
    ensures var (word, overflow) := Checked128(a.ScaledBits() - b.ScaledBits());
            a.StoredInline() && b.StoredInline() ==>
              FastResult(word, overflow, a.InlineValue() - b.InlineValue())
  {
    if a.StoredInline() && b.StoredInline() {
      InlineIsCanonical(a);
      InlineIsCanonical(b);
      CheckedIsExact(a.InlineValue() - b.InlineValue());
    }
  }

  lemma FastMul(a: Fields, b: Fields)
    ensures var (word, overflow) := Checked128(a.ScaledBits() * (b.ScaledBits() / 2));
            a.StoredInline() && b.StoredInline() ==>
              FastResult(word, overflow, a.InlineValue() * b.InlineValue())
  {
    if a.StoredInline() && b.StoredInline() {
      InlineIsCanonical(a);
      InlineIsCanonical(b);
      hide Fields.ScaledBits, Fields.InlineValue, Fields.StoredInline;
      var x, y := a.InlineValue(), b.InlineValue();
      DoubledProduct(x, y);
      CheckedIsExact(x * y);
    }
  }

  lemma DoubledProduct(x: int, y: int)
    ensures (2 * x) * y == 2 * (x * y)
  {
  }

  /** The sign bit of the packed size is the sign of the limb count. */
  lemma SignOfCount(f: Fields)
    ensures f.IsNegative() <==> f.SignedLimbCount() < 0
  {
  }

  /** The product of tiny numbers fits inline and is exact. */
  lemma MulTinyExact(a: Fields, b: Fields)
    requires a.StoredInline() && a.Tiny() && b.StoredInline() && b.Tiny()
    ensures a.MulTinyScaled(b) == 2 * (a.InlineValue() * b.InlineValue())
    ensures FitsInline(a.InlineValue() * b.InlineValue())
  {
    TinyExact(a);
    TinyExact(b);
    var x, y := a.InlineValue(), b.InlineValue();
    assert Signed64(a.low) == 2 * x && Signed64(b.low) == 2 * y;
    assert (2 * x) * y == 2 * (x * y);
    TinyProductBound(x, y);
  }

  lemma TinyProductBound(x: int, y: int)
    requires -TWO_62 <= x < TWO_62 && -TWO_62 <= y < TWO_62
    ensures FitsInline(x * y)
  {
    var m := if x < 0 then -x else x;
    var n := if y < 0 then -y else y;
    MulMonotonic(m, TWO_62, n);
    MulMonotonic(n, TWO_62, TWO_62);
    assert x * y == m * n || x * y == -(m * n);
    MulMonotonic(0, m, n);
  }

  lemma PackRoundTrip(low: Word64, signedLimbCount: int, capacity: nat)
    requires -(MAX_LIMBS as int) <= signedLimbCount <= MAX_LIMBS && capacity <= MAX_LIMBS
    ensures var f := Fields(low, PackSize(signedLimbCount, capacity));
            f.SignedLimbCount() == signedLimbCount && f.Capacity() == capacity
            && (f.IsNegative() <==> signedLimbCount < 0)
  {
  }
}
