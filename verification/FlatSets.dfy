/**
 A set as a sorted array with a gap in front of or behind the elements.  Unions merge into the gap and over the
 elements that were read already, which moves the gap to the other side.
 */
module FlatSets {
  import opened Powers
  import opened SortedSets

  // Merging into a buffer that may hold the operands

  /** `n` elements of `operand` from `begin` on lie so far behind `insert` that `reserve` writes do not reach them. */
  predicate BehindOf(dest: array<Entry>, insert: nat, reserve: nat, operand: array<Entry>, begin: nat) {
    operand == dest ==> insert + reserve <= begin
  }

  predicate InFrontOf(dest: array<Entry>, target: int, reserve: nat, operand: array<Entry>, end: nat) {
    operand == dest ==> end + reserve <= target + 1
  }

  /** Part of a buffer is unread and still holds the operand from index `i` on. */
  ghost predicate Unread(buffer: array<Entry>, begin: nat, end: nat, operand: seq<Entry>, i: nat)
    reads buffer
  {
    begin <= i <= end <= buffer.Length && |operand| == end - begin
    && forall k :: i <= k < end ==> buffer[k] == operand[k - begin]
  }

  ghost predicate Written(dest: array<Entry>, insert: nat, merged: seq<Entry>)
    reads dest
  {
    insert + |merged| <= dest.Length && forall k :: insert <= k < insert + |merged| ==> dest[k] == merged[k - insert]
  }

  /** Merges until one of the operands was read completely. */
  method ForwardMerge(dest: array<Entry>, insert: nat, aBuffer: array<Entry>, aBegin: nat, aEnd: nat,
                      bBuffer: array<Entry>, bBegin: nat, bEnd: nat, ghost a: seq<Entry>, ghost b: seq<Entry>)
    returns (i: nat, j: nat, insert': nat, ghost merged: seq<Entry>)
    requires Unread(aBuffer, aBegin, aEnd, a, aBegin) && Unread(bBuffer, bBegin, bEnd, b, bBegin)
    requires insert + (aEnd - aBegin) + (bEnd - bBegin) <= dest.Length
    requires BehindOf(dest, insert, bEnd - bBegin, aBuffer, aBegin)
    requires BehindOf(dest, insert, aEnd - aBegin, bBuffer, bBegin)
    modifies dest
    ensures aBegin <= i <= aEnd && bBegin <= j <= bEnd && (i == aEnd || j == bEnd)
    ensures insert' == insert + |merged| <= insert + (i - aBegin) + (j - bBegin)
    ensures Unread(aBuffer, aBegin, aEnd, a, i) && Unread(bBuffer, bBegin, bEnd, b, j)
    ensures Written(dest, insert, merged) && Merged(a, b, i - aBegin, j - bBegin, merged)
    ensures forall k :: 0 <= k < insert || insert' <= k < dest.Length ==> dest[k] == old(dest[k])
  {
    hide Union, Merged;
    i, j, insert', merged := aBegin, bBegin, insert, [];
    MergeStart(a, b);
    while i != aEnd && j != bEnd
      invariant aBegin <= i <= aEnd && bBegin <= j <= bEnd
      invariant insert' == insert + |merged| <= insert + (i - aBegin) + (j - bBegin)
      invariant Unread(aBuffer, aBegin, aEnd, a, i) && Unread(bBuffer, bBegin, bEnd, b, j)
      invariant Written(dest, insert, merged) && Merged(a, b, i - aBegin, j - bBegin, merged)
      invariant forall k :: 0 <= k < insert || insert' <= k < dest.Length ==> dest[k] == old(dest[k])
      decreases aEnd - i + bEnd - j
    {
      var x, y := aBuffer[i], bBuffer[j];
      MergeStep(a, b, i - aBegin, j - bBegin, merged);
      if x.key < y.key {
        dest[insert'] := x;
        i := i + 1;
      } else if x.key > y.key {
        dest[insert'] := y;
        j := j + 1;
      } else {
        dest[insert'] := x;
        i := i + 1;
        j := j + 1;
      }
      merged := merged + [dest[insert']];
      insert' := insert' + 1;
    }
  }

  /** Writes the union of two sorted ranges to `dest`, from `insert` on. */
  method ForwardUnion(dest: array<Entry>, insert: nat, aBuffer: array<Entry>, aBegin: nat, aEnd: nat,
                      bBuffer: array<Entry>, bBegin: nat, bEnd: nat) returns (insert': nat)
    requires aBegin <= aEnd <= aBuffer.Length && bBegin <= bEnd <= bBuffer.Length
    requires insert + (aEnd - aBegin) + (bEnd - bBegin) <= dest.Length
    requires BehindOf(dest, insert, bEnd - bBegin, aBuffer, aBegin)
    requires BehindOf(dest, insert, aEnd - aBegin, bBuffer, bBegin)
    modifies dest
    ensures insert <= insert' <= dest.Length
    ensures dest[insert..insert'] == Union(old(aBuffer[aBegin..aEnd]), old(bBuffer[bBegin..bEnd]))
    ensures forall k :: 0 <= k < insert || insert' <= k < dest.Length ==> dest[k] == old(dest[k])
  {
    hide Union, Merged;
    ghost var a, b := aBuffer[aBegin..aEnd], bBuffer[bBegin..bEnd];
    var i, j, middle, merged := ForwardMerge(dest, insert, aBuffer, aBegin, aEnd, bBuffer, bBegin, bEnd, a, b);
    MergeEnd(a, b, i - aBegin, j - bBegin, merged);
    if i == aEnd {
      insert' := CopyForward(dest, middle, bBuffer, j, bEnd, b[j - bBegin..]);
    } else {
      insert' := CopyForward(dest, middle, aBuffer, i, aEnd, a[i - aBegin..]);
    }
    assert Written(dest, insert, Union(a, b));
  }

  /** Copies the range that holds `rest` to lower addresses. */
  method CopyForward(dest: array<Entry>, insert: nat, buffer: array<Entry>, begin: nat, end: nat,
                     ghost rest: seq<Entry>) returns (insert': nat)
    requires Unread(buffer, begin, end, rest, begin) && insert + (end - begin) <= dest.Length
    requires buffer == dest ==> insert <= begin
    modifies dest
    ensures insert' == insert + |rest| && Written(dest, insert, rest)
    ensures forall k :: 0 <= k < insert || insert' <= k < dest.Length ==> dest[k] == old(dest[k])
  {
    var i := begin;
    insert' := insert;
    while i != end
      invariant begin <= i <= end && insert' == insert + (i - begin)
      invariant Unread(buffer, begin, end, rest, i) && Written(dest, insert, rest[..i - begin])
      invariant forall k :: 0 <= k < insert || insert' <= k < dest.Length ==> dest[k] == old(dest[k])
    {
      dest[insert'] := buffer[i];
      i, insert' := i + 1, insert' + 1;
    }
    assert rest[..i - begin] == rest;
  }

  /** Copies a range to the start of another buffer, with one more element in front of `it`. */
  method CopyWith(dest: array<Entry>, buffer: array<Entry>, begin: nat, it: nat, end: nat, newEntry: Entry)
    returns (insert': nat)
    requires begin <= it <= end <= buffer.Length && end - begin < dest.Length && buffer != dest
    modifies dest
    ensures insert' == end - begin + 1
    ensures dest[..insert'] == InsertedAt(buffer[begin..end], newEntry, it - begin)
  {
    hide InsertedAt;
    insert' := CopyForward(dest, 0, buffer, begin, it, buffer[begin..it]);
    dest[insert'] := newEntry;
    insert' := CopyForward(dest, insert' + 1, buffer, it, end, buffer[it..end]);
    ShiftedRight(buffer[begin..end], newEntry, it - begin, dest[..insert']);
  }

  // Merging from the back

  ghost predicate UnreadFront(buffer: array<Entry>, begin: nat, end: nat, operand: seq<Entry>, i: nat)
    reads buffer
  {
    begin <= i <= end <= buffer.Length && |operand| == end - begin
    && forall k :: begin <= k < i ==> buffer[k] == operand[k - begin]
  }

  /** Merges from the last elements on until one of the operands was read completely. */
  method BackwardMerge(dest: array<Entry>, target: int, aBuffer: array<Entry>, aBegin: nat, aEnd: nat,
                       bBuffer: array<Entry>, bBegin: nat, bEnd: nat, ghost a: seq<Entry>, ghost b: seq<Entry>)
    returns (i: nat, j: nat, insert: int, ghost merged: seq<Entry>)
    requires Sorted(a) && Sorted(b)
    requires UnreadFront(aBuffer, aBegin, aEnd, a, aEnd) && UnreadFront(bBuffer, bBegin, bEnd, b, bEnd)
    requires (aEnd - aBegin) + (bEnd - bBegin) <= target + 1 <= dest.Length
    requires InFrontOf(dest, target, bEnd - bBegin, aBuffer, aEnd)
    requires InFrontOf(dest, target, aEnd - aBegin, bBuffer, bEnd)
    modifies dest
    ensures aBegin <= i <= aEnd && bBegin <= j <= bEnd && (i == aBegin || j == bBegin)
    ensures |merged| <= (aEnd - i) + (bEnd - j) && insert == target - |merged|
    ensures UnreadFront(aBuffer, aBegin, aEnd, a, i) && UnreadFront(bBuffer, bBegin, bEnd, b, j)
    ensures Written(dest, insert + 1, merged) && MergedBack(a, b, i - aBegin, j - bBegin, merged)
    ensures forall k :: 0 <= k <= insert || target < k < dest.Length ==> dest[k] == old(dest[k])
  {
    hide Union, MergedBack, Sorted;
    i, j, insert, merged := aEnd, bEnd, target, [];
    MergeBackStart(a, b);
    while i != aBegin && j != bBegin
      invariant aBegin <= i <= aEnd && bBegin <= j <= bEnd
      invariant |merged| <= (aEnd - i) + (bEnd - j) && insert == target - |merged|
      invariant UnreadFront(aBuffer, aBegin, aEnd, a, i) && UnreadFront(bBuffer, bBegin, bEnd, b, j)
      invariant Written(dest, insert + 1, merged) && MergedBack(a, b, i - aBegin, j - bBegin, merged)
      invariant forall k :: 0 <= k <= insert || target < k < dest.Length ==> dest[k] == old(dest[k])
      decreases i + j
    {
      var x, y := aBuffer[i - 1], bBuffer[j - 1];
      MergeBackStep(a, b, i - aBegin, j - bBegin, merged);
      if x.key > y.key {
        dest[insert] := x;
        i := i - 1;
      } else if x.key < y.key {
        dest[insert] := y;
        j := j - 1;
      } else {
        dest[insert] := x;
        i := i - 1;
        j := j - 1;
      }
      WrittenInFront(dest, insert, merged);
      merged := [dest[insert]] + merged;
      insert := insert - 1;
    }
  }

  lemma WrittenInFront(dest: array<Entry>, insert: nat, merged: seq<Entry>)
    requires Written(dest, insert + 1, merged)
    ensures insert < dest.Length && Written(dest, insert, [dest[insert]] + merged)
  {
  }

  /** Writes the union of two sorted ranges to `dest`, such that it ends at `target`. */
  method BackwardUnion(dest: array<Entry>, target: int, aBuffer: array<Entry>, aBegin: nat, aEnd: nat,
                       bBuffer: array<Entry>, bBegin: nat, bEnd: nat) returns (insert: int)
    requires aBegin <= aEnd <= aBuffer.Length && bBegin <= bEnd <= bBuffer.Length
    requires Sorted(aBuffer[aBegin..aEnd]) && Sorted(bBuffer[bBegin..bEnd])
    requires (aEnd - aBegin) + (bEnd - bBegin) <= target + 1 <= dest.Length
    requires InFrontOf(dest, target, bEnd - bBegin, aBuffer, aEnd)
    requires InFrontOf(dest, target, aEnd - aBegin, bBuffer, bEnd)
    modifies dest
    ensures -1 <= insert <= target
    ensures dest[insert + 1..target + 1] == Union(old(aBuffer[aBegin..aEnd]), old(bBuffer[bBegin..bEnd]))
    ensures forall k :: 0 <= k <= insert || target < k < dest.Length ==> dest[k] == old(dest[k])
  {
    hide Union, MergedBack, Sorted;
    ghost var a, b := aBuffer[aBegin..aEnd], bBuffer[bBegin..bEnd];
    var i, j, middle, merged := BackwardMerge(dest, target, aBuffer, aBegin, aEnd, bBuffer, bBegin, bEnd, a, b);
    MergeBackEnd(a, b, i - aBegin, j - bBegin, merged);
    if i == aBegin {
      insert := CopyBackward(dest, middle, bBuffer, bBegin, j, b[..j - bBegin], merged);
    } else {
      insert := CopyBackward(dest, middle, aBuffer, aBegin, i, a[..i - aBegin], merged);
    }
    assert Written(dest, insert + 1, Union(a, b));
  }

  /** Copies the range that holds `rest` to higher addresses, in front of what was written before. */
  method CopyBackward(dest: array<Entry>, target: int, buffer: array<Entry>, begin: nat, end: nat,
                      ghost rest: seq<Entry>, ghost written: seq<Entry>) returns (insert: int)
    requires UnreadFront(buffer, begin, end, rest, end) && end - begin <= target + 1
    requires Written(dest, target + 1, written)
    requires buffer == dest ==> end <= target + 1
    modifies dest
    ensures insert == target - |rest| && Written(dest, insert + 1, rest + written)
    ensures forall k :: 0 <= k <= insert || target < k < dest.Length ==> dest[k] == old(dest[k])
  {
    var i := end;
    insert := target;
    ghost var all := written;
    while i != begin
      invariant begin <= i <= end && insert == target - (end - i)
      invariant UnreadFront(buffer, begin, end, rest, i)
      invariant all == rest[i - begin..] + written && Written(dest, insert + 1, all)
      invariant forall k :: 0 <= k <= insert || target < k < dest.Length ==> dest[k] == old(dest[k])
      decreases i
    {
      dest[insert] := buffer[i - 1];
      WrittenInFront(dest, insert, all);
      ConsSlice(rest, i - 1 - begin, written);
      all := [dest[insert]] + all;
      i, insert := i - 1, insert - 1;
    }
  }

  lemma ConsSlice(rest: seq<Entry>, k: nat, written: seq<Entry>)
    requires k < |rest|
    ensures [rest[k]] + (rest[k + 1..] + written) == rest[k..] + written
  {
  }

  // Intersecting

  /** Writes the intersection of two sorted ranges to `dest`, from `insert` on. */
  method IntersectionTo(dest: array<Entry>, insert: nat, aBuffer: array<Entry>, aBegin: nat, aEnd: nat,
                        bBuffer: array<Entry>, bBegin: nat, bEnd: nat) returns (insert': nat)
    requires aBegin <= aEnd <= aBuffer.Length && bBegin <= bEnd <= bBuffer.Length
    requires insert + (aEnd - aBegin) <= dest.Length || insert + (bEnd - bBegin) <= dest.Length
    requires BehindOf(dest, insert, 0, aBuffer, aBegin) && BehindOf(dest, insert, 0, bBuffer, bBegin)
    modifies dest
    ensures insert <= insert' <= dest.Length
    ensures dest[insert..insert'] == Intersection(old(aBuffer[aBegin..aEnd]), old(bBuffer[bBegin..bEnd]))
    ensures forall k :: 0 <= k < insert || insert' <= k < dest.Length ==> dest[k] == old(dest[k])
  {
    hide Intersected, Intersection, Sorted, HasKey;
    ghost var a, b := aBuffer[aBegin..aEnd], bBuffer[bBegin..bEnd];
    var i, j := aBegin, bBegin;
    insert' := insert;
    ghost var kept: seq<Entry> := [];
    IntersectStart(a, b);
    while i != aEnd && j != bEnd
      invariant aBegin <= i <= aEnd && bBegin <= j <= bEnd
      invariant insert' == insert + |kept| && |kept| <= i - aBegin && |kept| <= j - bBegin
      invariant Unread(aBuffer, aBegin, aEnd, a, i) && Unread(bBuffer, bBegin, bEnd, b, j)
      invariant Written(dest, insert, kept) && Intersected(a, b, i - aBegin, j - bBegin, kept)
      invariant forall k :: 0 <= k < insert || insert' <= k < dest.Length ==> dest[k] == old(dest[k])
      decreases aEnd - i + bEnd - j
    {
      var x, y := aBuffer[i], bBuffer[j];
      IntersectStep(a, b, i - aBegin, j - bBegin, kept);
      if x.key < y.key {
        i := i + 1;
      } else if x.key > y.key {
        j := j + 1;
      } else {
        assert insert' < dest.Length;
        dest[insert'] := x;
        i := i + 1;
        j := j + 1;
        kept := kept + [dest[insert']];
        insert' := insert' + 1;
      }
    }
    IntersectEnd(a, b, i - aBegin, j - bBegin, kept);
    assert Written(dest, insert, Intersection(a, b));
  }

  /** Nothing is behind a key whose place is the end. */
  lemma LastIsBelow(s: seq<Entry>, key: int, k: nat)
    requires IsLowerBound(s, key, k)
    ensures AllBelow(s, key) <==> k == |s|
  {
    assert k < |s| ==> s[k].key >= key;
  }

  // The set

  class FlatSet {
    var buffer: array<Entry>
    var begin: nat
    var end: nat
    /** The end of the gap: in front of `begin` if the gap is in front of the elements, otherwise behind them. */
    var capacity: nat

    /** After a union filled the buffer completely, `capacity` and `begin` coincide and no gap is known any more. */
    ghost predicate InBuffer()
      reads this
    {
      && begin <= end <= buffer.Length
      && (if capacity < begin then capacity == 0 && end == buffer.Length
          else begin == 0 && (capacity == buffer.Length || capacity == 0))
    }

    ghost predicate Valid()
      reads this, buffer
    {
      InBuffer() && Sorted(Contents())
    }

    ghost function Contents(): seq<Entry>
      reads this, buffer
      requires InBuffer()
    {
      buffer[begin..end]
    }

    ghost predicate GapInFront()
      reads this
    {
      capacity < begin
    }

    function Size(): (size: nat)
      requires InBuffer()
      reads this, buffer
      ensures size == |Contents()|
    {
      end - begin
    }

    constructor Allocate(requiredSize: nat)
      ensures fresh(buffer) && buffer.Length == BitCeil(requiredSize)
      ensures begin == end == 0 && capacity == buffer.Length
      ensures InBuffer() && Contents() == []
    {
      var size := BitCeil(requiredSize);
      buffer := new Entry[size];
      begin, end, capacity := 0, 0, size;
    }

    constructor ()
      ensures Valid() && Contents() == [] && fresh(buffer)
    {
      buffer := new Entry[0];
      begin, end, capacity := 0, 0, 0;
    }

    constructor FromSorted(sorted: seq<Entry>)
      requires Sorted(sorted)
      ensures Valid() && Contents() == sorted && fresh(buffer)
      ensures begin == 0 && capacity == buffer.Length == BitCeil(|sorted|)
    {
      var size := BitCeil(|sorted|);
      buffer := new Entry[size];
      begin, end, capacity := 0, |sorted|, size;
      new;
      for i := 0 to |sorted|
        invariant InBuffer() && end == |sorted| && begin == 0 && fresh(buffer)
        invariant capacity == buffer.Length == BitCeil(|sorted|)
        invariant forall k :: 0 <= k < i ==> buffer[k] == sorted[k]
      {
        buffer[i] := sorted[i];
      }
      assert Contents() == sorted;
    }

    /** A new set with the elements of both. */
    static method UnionOf(a: FlatSet, b: FlatSet) returns (result: FlatSet)
      requires a.Valid() && b.Valid()
      ensures fresh(result) && fresh(result.buffer) && result.Valid() && !result.GapInFront()
      ensures result.Contents() == Union(a.Contents(), b.Contents())
    {
      UnionIsExact(a.Contents(), b.Contents());
      hide Union, Sorted;
      result := new FlatSet.Allocate(a.Size() + b.Size());
      result.end := ForwardUnion(result.buffer, result.begin, a.buffer, a.begin, a.end, b.buffer, b.begin, b.end);
    }

    /** A new set with the elements of `a` whose keys are in `b`. */
    static method IntersectionOf(a: FlatSet, b: FlatSet) returns (result: FlatSet)
      requires a.Valid() && b.Valid()
      ensures fresh(result) && fresh(result.buffer) && result.Valid() && !result.GapInFront()
      ensures result.Contents() == Intersection(a.Contents(), b.Contents())
    {
      IntersectionIsExact(a.Contents(), b.Contents());
      hide Intersection, Sorted;
      var aSize, bSize := a.Size(), b.Size();
      result := new FlatSet.Allocate(if bSize < aSize then bSize else aSize);
      result.end := IntersectionTo(result.buffer, result.begin, a.buffer, a.begin, a.end, b.buffer, b.begin, b.end);
    }

    /** Takes over the storage of a set that is not used any more. */
    method MoveFrom(other: FlatSet)
      requires other.Valid()
      modifies this
      ensures Valid() && buffer == other.buffer && Contents() == other.Contents()
      ensures GapInFront() == other.GapInFront()
    {
      buffer, begin, end, capacity := other.buffer, other.begin, other.end, other.capacity;
    }

    /** Merges into the gap in front of the elements, which moves it behind them. */
    method UnionIntoFrontGap(other: FlatSet)
      requires Valid() && other.Valid() && (other != this ==> other.buffer != buffer)
      requires capacity < begin && other.Size() <= begin - capacity
      modifies this, buffer
      ensures Valid() && buffer == old(buffer) && !GapInFront()
      ensures Contents() == Union(old(Contents()), old(other.Contents()))
      ensures other != this ==> other.Valid() && other.Contents() == old(other.Contents())
    {
      ghost var was, added := Contents(), other.Contents();
      UnionIsExact(was, added);
      hide Union, Sorted;
      assert capacity == 0 && end == buffer.Length && other.Valid();
      var capacityEnd := end;
      end := ForwardUnion(buffer, capacity, buffer, begin, end, other.buffer, other.begin, other.end);
      assert other != this ==> other.Contents() == added;
      begin := capacity;
      capacity := capacityEnd;
      assert Contents() == Union(was, added);
    }

    /** Merges from the end of the gap behind the elements, which moves it in front of them. */
    method UnionIntoBackGap(other: FlatSet)
      requires Valid() && other.Valid() && (other != this ==> other.buffer != buffer)
      requires begin <= capacity && other.Size() <= capacity - end
      modifies this, buffer
      ensures Valid() && buffer == old(buffer) && capacity == 0 && end == old(capacity)
      ensures Contents() == Union(old(Contents()), old(other.Contents()))
      ensures other != this ==> other.Valid() && other.Contents() == old(other.Contents())
    {
      ghost var was, added := Contents(), other.Contents();
      UnionIsExact(was, added);
      assert begin == 0 && other.Valid();
      hide Union, Sorted;
      var capacityBegin := begin;
      var last := BackwardUnion(buffer, capacity - 1, buffer, begin, end, other.buffer, other.begin, other.end);
      assert other != this ==> other.Contents() == added;
      begin := last + 1;
      end := capacity;
      capacity := capacityBegin;
      assert Contents() == Union(was, added);
    }

    /** Adds the elements of `other`, which may be this set. */
    method UnionWith(other: FlatSet)
      requires Valid() && other.Valid() && (other != this ==> other.buffer != buffer)
      modifies this, buffer
      ensures Valid() && (buffer == old(buffer) || fresh(buffer))
      ensures Contents() == Union(old(Contents()), old(other.Contents()))
      ensures old(begin <= capacity && other.Size() <= capacity - end) ==>
        buffer == old(buffer) && capacity == 0 && end == old(capacity)
      ensures other != this ==> other.Valid() && other.Contents() == old(other.Contents())
    {
      hide Union, Sorted;
      if capacity < begin {
        if begin - capacity < other.Size() {
          var r := UnionOf(this, other);
          MoveFrom(r);
        } else {
          UnionIntoFrontGap(other);
        }
      } else {
        if capacity - end < other.Size() {
          var r := UnionOf(this, other);
          MoveFrom(r);
        } else {
          UnionIntoBackGap(other);
        }
      }
    }

    /** Keeps the elements whose keys are in `other`, which may be this set. */
    method IntersectionWith(other: FlatSet)
      requires Valid() && other.Valid() && (other != this ==> other.buffer != buffer)
      modifies this, buffer
      ensures Valid() && buffer == old(buffer) && !GapInFront()
      ensures Contents() == Intersection(old(Contents()), old(other.Contents()))
      ensures other != this ==> other.Valid() && other.Contents() == old(other.Contents())
    {
      ghost var was, kept := Contents(), other.Contents();
      IntersectionIsExact(was, kept);
      hide Intersection, Sorted;
      if capacity < begin {
        var capacityEnd := end;
        end := IntersectionTo(buffer, capacity, buffer, begin, end, other.buffer, other.begin, other.end);
        begin := capacity;
        capacity := capacityEnd;
      } else {
        end := IntersectionTo(buffer, begin, buffer, begin, end, other.buffer, other.begin, other.end);
      }
      assert Contents() == Intersection(was, kept);
    }
  
    function Capacity(): int
      reads this
    {
      if capacity < begin then end - capacity else capacity - begin
    }

    /** Index of the first element that is not before `key`. */
    method LowerBound(key: int) returns (it: nat)
      requires Valid()
      ensures begin <= it <= end && IsLowerBound(Contents(), key, it - begin)
    {
      ghost var s := Contents();
      it := begin;
      var high := end;
      while it < high
        invariant begin <= it <= high <= end
        invariant forall k :: 0 <= k < it - begin ==> s[k].key < key
        invariant forall k :: high - begin <= k < |s| ==> s[k].key >= key
      {
        var mid := (it + high) / 2;
        assert buffer[mid] == s[mid - begin];
        if buffer[mid].key < key {
          it := mid + 1;
        } else {
          high := mid;
        }
      }
    }

    /** Storing a new element needs a free slot behind the elements, or is done in a new buffer. */
    ghost predicate HasRoom()
      reads this, buffer
      requires InBuffer()
    {
      Capacity() == Size() || end < buffer.Length
    }

    /** When adding an element gives the set with the element. */
    ghost predicate AddsRight(newEntry: Entry)
      reads this, buffer
      requires InBuffer()
    {
      HasKey(Contents(), newEntry.key) || (!GapInFront() && HasRoom())
    }

    /**
     Adds an element unless its key is known.  `inside` says that nothing has to be stored behind the end of the buffer,
     which is where the method gives up.
     */
    method Add(newEntry: Entry) returns (inside: bool)
      requires Valid()
      modifies this, buffer
      ensures InBuffer() && (buffer == old(buffer) || fresh(buffer))
      ensures inside && Contents() == Union(old(Contents()), [newEntry]) <==> old(AddsRight(newEntry))
      ensures old(AddsRight(newEntry)) ==> Valid()
      ensures !inside <==>
        && !old(HasKey(Contents(), newEntry.key))
        && (if old(GapInFront()) then old(AllBelow(Contents(), newEntry.key)) else !old(HasRoom()))
      ensures !inside ==> Contents() == old(Contents())
    {
      hide Union, Sorted, InsertedAt, OverwrittenAt, IsLowerBound, HasKey, AllBelow;
      var it := LowerBound(newEntry.key);
      ghost var was, k := Contents(), it - begin;
      ghost var gap := if GapInFront() then buffer[begin - 1] else newEntry;
      AddOutcome(was, newEntry, k, gap);
      LastIsBelow(was, newEntry.key, k);
      assert it < end ==> buffer[it] == was[k];
      if it != end && buffer[it].key == newEntry.key {
        return true;
      }
      if Capacity() == Size() {
        GrowWith(it, newEntry);
        return true;
      } else if capacity < begin {
        inside := StoreShiftedLeft(it, newEntry);
      } else {
        inside := StoreShiftedRight(it, newEntry);
      }
    }

    /** Shifts the elements in front of `it` into the gap, and stores the new one at `it`, unless that is the end. */
    method StoreShiftedLeft(it: nat, newEntry: Entry) returns (inside: bool)
      requires InBuffer() && GapInFront() && begin <= it <= end
      modifies this`begin, buffer
      ensures InBuffer() && (inside <==> it < buffer.Length)
      ensures Contents() ==
        if inside then OverwrittenAt(old(Contents()), newEntry, it - old(begin), old(buffer[begin - 1]))
        else old(Contents())
    {
      hide OverwrittenAt;
      if it == buffer.Length {
        return false;
      }
      ghost var was, gap := Contents(), buffer[begin - 1];
      ShiftLeft(begin, it);
      begin := begin - 1;
      buffer[it] := newEntry;
      ShiftedLeft(was, newEntry, it - begin - 1, gap, buffer[begin..end]);
      return true;
    }

    /** Shifts the elements from `it` on into the gap, and stores the new one at `it`, unless there is no gap. */
    method StoreShiftedRight(it: nat, newEntry: Entry) returns (inside: bool)
      requires InBuffer() && !GapInFront() && begin <= it <= end
      modifies this`end, buffer
      ensures InBuffer() && !GapInFront() && (inside <==> old(end) < buffer.Length)
      ensures Contents() == if inside then InsertedAt(old(Contents()), newEntry, it - begin) else old(Contents())
    {
      hide InsertedAt;
      if end == buffer.Length {
        return false;
      }
      ghost var was := Contents();
      ShiftRight(it, end);
      end := end + 1;
      buffer[it] := newEntry;
      ShiftedRight(was, newEntry, it - begin, buffer[begin..end]);
      return true;
    }

    /** Copies the elements to a new buffer, with another one in front of `it`. */
    method GrowWith(it: nat, newEntry: Entry)
      requires InBuffer() && begin <= it <= end
      modifies this
      ensures InBuffer() && fresh(buffer) && !GapInFront()
      ensures Contents() == InsertedAt(old(Contents()), newEntry, it - old(begin))
    {
      hide InsertedAt;
      var newStorage := new FlatSet.Allocate(Size() + 1);
      newStorage.end := CopyWith(newStorage.buffer, buffer, begin, it, end, newEntry);
      MoveStorage(newStorage);
    }

    method MoveStorage(other: FlatSet)
      requires other.InBuffer()
      modifies this
      ensures buffer == other.buffer && begin == other.begin && end == other.end && capacity == other.capacity
    {
      buffer, begin, end, capacity := other.buffer, other.begin, other.end, other.capacity;
    }

    method ShiftLeft(from: nat, to: nat)
      requires 0 < from <= to <= buffer.Length
      modifies buffer
      ensures forall k :: 0 <= k < buffer.Length ==>
        buffer[k] == if from - 1 <= k < to - 1 then old(buffer[k + 1]) else old(buffer[k])
    {
      for i := from to to
        invariant forall k :: 0 <= k < buffer.Length ==>
          buffer[k] == if from - 1 <= k < i - 1 then old(buffer[k + 1]) else old(buffer[k])
      {
        buffer[i - 1] := buffer[i];
      }
    }

    method ShiftRight(from: nat, to: nat)
      requires from <= to < buffer.Length
      modifies buffer
      ensures forall k :: 0 <= k < buffer.Length ==>
        buffer[k] == if from < k <= to then old(buffer[k - 1]) else old(buffer[k])
    {
      for i := to downto from
        invariant forall k :: 0 <= k < buffer.Length ==>
          buffer[k] == if i < k <= to then old(buffer[k - 1]) else old(buffer[k])
      {
        buffer[i + 1] := buffer[i];
      }
    }

    /** Whether two sets are the same. */
    method Equals(other: FlatSet) returns (equal: bool)
      requires Valid() && other.Valid()
      ensures equal <==> forall e :: e in Contents() <==> e in other.Contents()
    {
      hide Sorted;
      if forall e :: e in Contents() <==> e in other.Contents() {
        SortedIsUnique(Contents(), other.Contents());
      }
      if Size() != other.Size() {
        return false;
      }
      var size := Size();
      for i := 0 to size
        invariant forall k :: 0 <= k < i ==> Contents()[k] == other.Contents()[k]
      {
        if buffer[begin + i] != other.buffer[other.begin + i] {
          assert Contents()[i] != other.Contents()[i];
          return false;
        }
      }
      assert Contents() == other.Contents();
      return true;
    }
  }

  /** Three elements in a buffer of four, with the gap in front after a union with a known element. */
  method ThreeWithFrontGap() returns (numbers: FlatSet)
    ensures fresh(numbers) && fresh(numbers.buffer) && numbers.Valid() && numbers.GapInFront()
    ensures numbers.Contents() == [Entry(1, 0), Entry(3, 0), Entry(5, 0)]
  {
    hide Union;
    var three, known := [Entry(1, 0), Entry(3, 0), Entry(5, 0)], [Entry(3, 0)];
    UnionWithOne(three, known[0], 1);
    assert BitCeil(3) == 4;
    numbers := new FlatSet.FromSorted(three);
    var other := new FlatSet.FromSorted(known);
    numbers.UnionWith(other);
  }

  /** With the gap in front, a new element that is not the largest overwrites another one. */
  method AddBetween() returns (numbers: FlatSet, inside: bool)
    ensures numbers.InBuffer() && inside
    ensures numbers.Contents() != Union([Entry(1, 0), Entry(3, 0), Entry(5, 0)], [Entry(2, 0)])
  {
    hide Union;
    numbers := ThreeWithFrontGap();
    assert numbers.Contents()[2].key == 5;
    inside := numbers.Add(Entry(2, 0));
  }

  /** With the gap in front, a new largest element is stored behind the buffer. */
  method AddLargest() returns (inside: bool)
    ensures !inside
  {
    hide Union;
    var numbers := ThreeWithFrontGap();
    inside := numbers.Add(Entry(9, 0));
  }

  /** After a union filled the buffer, the next new element is stored behind it. */
  method AddToFull() returns (inside: bool)
    ensures !inside
  {
    hide Union;
    var three, fourth := [Entry(1, 0), Entry(3, 0), Entry(5, 0)], [Entry(7, 0)];
    UnionWithOne(three, fourth[0], 3);
    assert BitCeil(3) == 4;
    var numbers := new FlatSet.FromSorted(three);
    var other := new FlatSet.FromSorted(fourth);
    numbers.UnionWith(other);
    assert |numbers.Contents()| == 4;
    inside := numbers.Add(Entry(9, 0));
  }
}
