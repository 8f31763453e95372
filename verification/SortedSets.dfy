/**
 Strictly sorted sequences as sets: what a union and an intersection of two of them are.
 */
module SortedSets {

  /** An element and what it is compared by.  Elements with equal keys may still differ. */
  datatype Entry = Entry(key: int, tag: nat)

  ghost predicate Sorted(s: seq<Entry>) {
    forall i, j :: 0 <= i < j < |s| ==> s[i].key < s[j].key
  }

  ghost predicate HasKey(s: seq<Entry>, key: int) {
    exists e :: e in s && e.key == key
  }

  ghost function Keys(s: seq<Entry>): set<int> {
    set i | 0 <= i < |s| :: s[i].key
  }

  /** Merges two sorted sequences, of elements with equal keys that of `a` is kept. */
  ghost function Union(a: seq<Entry>, b: seq<Entry>): (r: seq<Entry>)
    ensures |r| <= |a| + |b|
  {
    if a == [] then b
    else if b == [] then a
    else if a[0].key < b[0].key then [a[0]] + Union(a[1..], b)
    else if a[0].key > b[0].key then [b[0]] + Union(a, b[1..])
    else [a[0]] + Union(a[1..], b[1..])
  }

  /** The elements of `a` with a key that is in `b`. */
  ghost function Intersection(a: seq<Entry>, b: seq<Entry>): (r: seq<Entry>)
    ensures |r| <= |a| && |r| <= |b|
  {
    if a == [] || b == [] then []
    else if a[0].key < b[0].key then Intersection(a[1..], b)
    else if a[0].key > b[0].key then Intersection(a, b[1..])
    else [a[0]] + Intersection(a[1..], b[1..])
  }

  lemma UnionWithNothing(a: seq<Entry>)
    ensures Union(a, []) == a && Union([], a) == a
  {
  }

  /** `merged` is the union of what precedes the i-th element of `a` and the j-th of `b`. */
  ghost predicate Merged(a: seq<Entry>, b: seq<Entry>, i: nat, j: nat, merged: seq<Entry>) {
    i <= |a| && j <= |b| && merged + Union(a[i..], b[j..]) == Union(a, b)
  }

  lemma MergeStep(a: seq<Entry>, b: seq<Entry>, i: nat, j: nat, merged: seq<Entry>)
    requires Merged(a, b, i, j, merged) && i < |a| && j < |b|
    ensures a[i].key < b[j].key ==> Merged(a, b, i + 1, j, merged + [a[i]])
    ensures a[i].key > b[j].key ==> Merged(a, b, i, j + 1, merged + [b[j]])
    ensures a[i].key == b[j].key ==> Merged(a, b, i + 1, j + 1, merged + [a[i]])
  {
    hide Union;
    assert a[i..][1..] == a[i + 1..] && b[j..][1..] == b[j + 1..];
    UnionUnfolds(a[i..], b[j..]);
    var rest := Union(a[i..], b[j..]);
    if a[i].key < b[j].key {
      MovedOver(merged, a[i], Union(a[i + 1..], b[j..]));
    } else if a[i].key > b[j].key {
      MovedOver(merged, b[j], Union(a[i..], b[j + 1..]));
    } else {
      MovedOver(merged, a[i], Union(a[i + 1..], b[j + 1..]));
    }
  }

  lemma MovedOver(merged: seq<Entry>, e: Entry, rest: seq<Entry>)
    ensures merged + ([e] + rest) == (merged + [e]) + rest
  {
  }

  lemma MergeEnd(a: seq<Entry>, b: seq<Entry>, i: nat, j: nat, merged: seq<Entry>)
    requires Merged(a, b, i, j, merged)
    ensures i == |a| ==> merged + b[j..] == Union(a, b)
    ensures j == |b| ==> merged + a[i..] == Union(a, b)
  {
    UnionWithNothing(a[i..]);
    UnionWithNothing(b[j..]);
  }

  lemma MergeStart(a: seq<Entry>, b: seq<Entry>)
    ensures Merged(a, b, 0, 0, [])
  {
    assert a[0..] == a && b[0..] == b;
  }

  // Meaning

  lemma SortedTail(s: seq<Entry>)
    requires Sorted(s) && s != []
    ensures Sorted(s[1..]) && forall e :: e in s[1..] ==> s[0].key < e.key
  {
  }

  lemma SortedCons(x: Entry, s: seq<Entry>)
    requires Sorted(s) && forall e :: e in s ==> x.key < e.key
    ensures Sorted([x] + s)
  {
  }

  lemma Cons(s: seq<Entry>)
    requires s != []
    ensures forall e :: e in s <==> e == s[0] || e in s[1..]
  {
    assert s == [s[0]] + s[1..];
  }

  /** The union is sorted and holds the elements of `a`, and those of `b` with keys that `a` lacks. */
  lemma {:induction false} UnionIsExact(a: seq<Entry>, b: seq<Entry>)
    requires Sorted(a) && Sorted(b)
    ensures Sorted(Union(a, b))
    ensures forall e :: e in Union(a, b) <==> e in a || (e in b && !HasKey(a, e.key))
  {
    var r := Union(a, b);
    if a == [] || b == [] {
    } else {
      Cons(a);
      Cons(b);
      SortedTail(a);
      SortedTail(b);
      hide Sorted, Union;
      if a[0].key < b[0].key {
        UnionIsExact(a[1..], b);
        assert r == [a[0]] + Union(a[1..], b) by { UnionUnfolds(a, b); }
        SortedCons(a[0], Union(a[1..], b));
      } else if a[0].key > b[0].key {
        UnionIsExact(a, b[1..]);
        assert r == [b[0]] + Union(a, b[1..]) by { UnionUnfolds(a, b); }
        SortedCons(b[0], Union(a, b[1..]));
      } else {
        UnionIsExact(a[1..], b[1..]);
        assert r == [a[0]] + Union(a[1..], b[1..]) by { UnionUnfolds(a, b); }
        SortedCons(a[0], Union(a[1..], b[1..]));
      }
    }
  }

  lemma UnionUnfolds(a: seq<Entry>, b: seq<Entry>)
    requires a != [] && b != []
    ensures Union(a, b) == if a[0].key < b[0].key then [a[0]] + Union(a[1..], b)
                           else if a[0].key > b[0].key then [b[0]] + Union(a, b[1..])
                           else [a[0]] + Union(a[1..], b[1..])
  {
  }

  /** The intersection is sorted and holds the elements of `a` with keys that `b` has. */
  lemma {:induction false} IntersectionIsExact(a: seq<Entry>, b: seq<Entry>)
    requires Sorted(a) && Sorted(b)
    ensures Sorted(Intersection(a, b))
    ensures forall e :: e in Intersection(a, b) <==> e in a && HasKey(b, e.key)
  {
    if a == [] || b == [] {
    } else {
      Cons(a);
      Cons(b);
      SortedTail(a);
      SortedTail(b);
      hide Sorted;
      if a[0].key < b[0].key {
        IntersectionIsExact(a[1..], b);
      } else if a[0].key > b[0].key {
        IntersectionIsExact(a, b[1..]);
      } else {
        IntersectionIsExact(a[1..], b[1..]);
        SortedCons(a[0], Intersection(a[1..], b[1..]));
      }
    }
  }

  /** A set has only one sorted sequence. */
  lemma {:induction false} SortedIsUnique(a: seq<Entry>, b: seq<Entry>)
    requires Sorted(a) && Sorted(b) && forall e :: e in a <==> e in b
    ensures a == b
  {
    if a == [] {
      assert forall i :: 0 <= i < |b| ==> b[i] in b;
    } else {
      assert a[0] in b && b[0] in a;
      SortedTail(a);
      SortedTail(b);
      Cons(a);
      Cons(b);
      SortedIsUnique(a[1..], b[1..]);
    }
  }

  lemma UnionKeys(a: seq<Entry>, b: seq<Entry>)
    requires Sorted(a) && Sorted(b)
    ensures Keys(Union(a, b)) == Keys(a) + Keys(b)
    ensures Keys(Intersection(a, b)) == Keys(a) * Keys(b)
  {
    UnionIsExact(a, b);
    IntersectionIsExact(a, b);
    KeysAreExact(a);
    KeysAreExact(b);
    KeysAreExact(Union(a, b));
    KeysAreExact(Intersection(a, b));
    hide Keys, Union, Intersection, Sorted;
    forall k
      ensures HasKey(Union(a, b), k) <==> HasKey(a, k) || HasKey(b, k)
      ensures HasKey(Intersection(a, b), k) <==> HasKey(a, k) && HasKey(b, k)
    {
    }
  }

  lemma KeysAreExact(s: seq<Entry>)
    ensures forall k :: k in Keys(s) <==> HasKey(s, k)
  {
    forall k | k in Keys(s)
      ensures HasKey(s, k)
    {
      var i :| 0 <= i < |s| && s[i].key == k;
      assert s[i] in s;
    }
  }

  /** The order in which unions are formed does not matter. */
  lemma UnionAssociates(a: seq<Entry>, b: seq<Entry>, c: seq<Entry>)
    requires Sorted(a) && Sorted(b) && Sorted(c)
    ensures Union(Union(a, b), c) == Union(a, Union(b, c))
  {
    UnionIsExact(a, b);
    UnionIsExact(b, c);
    UnionIsExact(Union(a, b), c);
    UnionIsExact(a, Union(b, c));
    hide Union, Sorted;
    SortedIsUnique(Union(Union(a, b), c), Union(a, Union(b, c)));
  }

  /** Intersecting a union with one of its parts gives the part back, where the other part does not replace elements. */
  lemma UnionThenIntersection(a: seq<Entry>, b: seq<Entry>)
    requires Sorted(a) && Sorted(b)
    ensures Intersection(Union(a, b), a) == a
  {
    UnionIsExact(a, b);
    IntersectionIsExact(Union(a, b), a);
    hide Union, Intersection, Sorted;
    forall e | e in Union(a, b) && HasKey(a, e.key)
      ensures e in a
    {
    }
    SortedIsUnique(Intersection(Union(a, b), a), a);
  }

  // Runs

  datatype Operation = UnionWith(other: seq<Entry>) | IntersectionWith(other: seq<Entry>)

  ghost function After(s: seq<Entry>, operations: seq<Operation>): seq<Entry> {
    if operations == [] then s
    else
      var n := |operations| - 1;
      match operations[n]
      case UnionWith(other) => Union(After(s, operations[..n]), other)
      case IntersectionWith(other) => Intersection(After(s, operations[..n]), other)
  }

  ghost function KeysAfter(keys: set<int>, operations: seq<Operation>): set<int> {
    if operations == [] then keys
    else
      var n := |operations| - 1;
      match operations[n]
      case UnionWith(other) => KeysAfter(keys, operations[..n]) + Keys(other)
      case IntersectionWith(other) => KeysAfter(keys, operations[..n]) * Keys(other)
  }

  /** Any sequence of unions and intersections leaves the sorted sequence of the mathematical set. */
  lemma {:induction false} RunsAreExact(s: seq<Entry>, operations: seq<Operation>)
    requires Sorted(s) && forall i :: 0 <= i < |operations| ==> Sorted(operations[i].other)
    ensures Sorted(After(s, operations)) && Keys(After(s, operations)) == KeysAfter(Keys(s), operations)
    decreases |operations|
  {
    hide Sorted, Keys, Union, Intersection;
    if operations != [] {
      var n := |operations| - 1;
      var before, other := After(s, operations[..n]), operations[n].other;
      RunsAreExact(s, operations[..n]);
      UnionIsExact(before, other);
      IntersectionIsExact(before, other);
      UnionKeys(before, other);
    }
  }

  // Merging from the back

  ghost predicate AllBelow(s: seq<Entry>, key: int) {
    forall i :: 0 <= i < |s| ==> s[i].key < key
  }

  lemma FrontOfTail(s: seq<Entry>)
    requires |s| > 1
    ensures s[1..][..|s| - 2] == s[..|s| - 1][1..]
    ensures s[..|s| - 1][0] == s[0] && s[1..][|s| - 2] == s[|s| - 1]
  {
  }

  /** If the last element of `a` is behind all of `b`, it is also the last one of the union. */
  lemma {:induction false} UnionEndsWithA(a: seq<Entry>, b: seq<Entry>)
    requires a != [] && AllBelow(b, a[|a| - 1].key)
    ensures Union(a, b) == Union(a[..|a| - 1], b) + [a[|a| - 1]]
    decreases |a| + |b|
  {
    hide Union;
    var n := |a| - 1;
    var front, last := a[..n], a[n];
    UnionWithNothing(a);
    UnionWithNothing(front);
    UnionWithNothing(b);
    if b == [] {
      assert a == front + [last];
    } else {
      UnionUnfolds(a, b);
      if n == 0 {
        UnionEndsWithA(a, b[1..]);
        assert front == [];
        UnionWithNothing(b[1..]);
        assert b == [b[0]] + b[1..];
      } else {
        FrontOfTail(a);
        UnionUnfolds(front, b);
        if a[0].key < b[0].key {
          UnionEndsWithA(a[1..], b);
        } else if a[0].key > b[0].key {
          UnionEndsWithA(a, b[1..]);
        } else {
          UnionEndsWithA(a[1..], b[1..]);
        }
      }
    }
  }

  lemma {:induction false} UnionEndsWithB(a: seq<Entry>, b: seq<Entry>)
    requires b != [] && AllBelow(a, b[|b| - 1].key)
    ensures Union(a, b) == Union(a, b[..|b| - 1]) + [b[|b| - 1]]
    decreases |a| + |b|
  {
    if a == [] {
    } else if a[0].key < b[0].key {
      UnionEndsWithB(a[1..], b);
    } else if a[0].key > b[0].key {
      FrontOfTail(b);
      UnionEndsWithB(a, b[1..]);
    } else {
      FrontOfTail(b);
      UnionEndsWithB(a[1..], b[1..]);
    }
  }

  /** Of two last elements with the same key, that of `a` ends the union. */
  lemma {:induction false} UnionEndsWithBoth(a: seq<Entry>, b: seq<Entry>, x: Entry, y: Entry)
    requires x.key == y.key && AllBelow(a, x.key) && AllBelow(b, x.key)
    ensures Union(a + [x], b + [y]) == Union(a, b) + [x]
    decreases |a| + |b|
  {
    var a', b' := a + [x], b + [y];
    assert a != [] ==> a'[1..] == a[1..] + [x];
    assert b != [] ==> b'[1..] == b[1..] + [y];
    if a'[0].key < b'[0].key {
      UnionEndsWithBoth(a[1..], b, x, y);
    } else if a'[0].key > b'[0].key {
      UnionEndsWithBoth(a, b[1..], x, y);
    } else if a != [] {
      UnionEndsWithBoth(a[1..], b[1..], x, y);
    }
  }

  /** `merged` is the part of the union behind the first `i` elements of `a` and the first `j` of `b`. */
  ghost predicate MergedBack(a: seq<Entry>, b: seq<Entry>, i: nat, j: nat, merged: seq<Entry>) {
    i <= |a| && j <= |b| && Union(a[..i], b[..j]) + merged == Union(a, b)
  }

  lemma MergeBackStep(a: seq<Entry>, b: seq<Entry>, i: nat, j: nat, merged: seq<Entry>)
    requires Sorted(a) && Sorted(b) && MergedBack(a, b, i, j, merged) && i > 0 && j > 0
    ensures a[i - 1].key > b[j - 1].key ==> MergedBack(a, b, i - 1, j, [a[i - 1]] + merged)
    ensures a[i - 1].key < b[j - 1].key ==> MergedBack(a, b, i, j - 1, [b[j - 1]] + merged)
    ensures a[i - 1].key == b[j - 1].key ==> MergedBack(a, b, i - 1, j - 1, [a[i - 1]] + merged)
  {
    hide Union;
    var a', b' := a[..i], b[..j];
    assert a'[..i - 1] == a[..i - 1] && b'[..j - 1] == b[..j - 1];
    if a[i - 1].key > b[j - 1].key {
      UnionEndsWithA(a', b');
    } else if a[i - 1].key < b[j - 1].key {
      UnionEndsWithB(a', b');
    } else {
      var x, y := a[i - 1], b[j - 1];
      UnionEndsWithBoth(a[..i - 1], b[..j - 1], x, y);
      assert a' == a[..i - 1] + [x] && b' == b[..j - 1] + [y];
    }
  }

  lemma MergeBackEnd(a: seq<Entry>, b: seq<Entry>, i: nat, j: nat, merged: seq<Entry>)
    requires MergedBack(a, b, i, j, merged)
    ensures i == 0 ==> b[..j] + merged == Union(a, b)
    ensures j == 0 ==> a[..i] + merged == Union(a, b)
  {
    UnionWithNothing(a[..i]);
    UnionWithNothing(b[..j]);
  }

  lemma MergeBackStart(a: seq<Entry>, b: seq<Entry>)
    ensures MergedBack(a, b, |a|, |b|, [])
  {
    assert a[..|a|] == a && b[..|b|] == b;
  }

  // Intersecting

  /** `kept` is what the elements in front of the i-th of `a` and the j-th of `b` have in common. */
  ghost predicate Intersected(a: seq<Entry>, b: seq<Entry>, i: nat, j: nat, kept: seq<Entry>) {
    i <= |a| && j <= |b| && kept + Intersection(a[i..], b[j..]) == Intersection(a, b)
  }

  lemma IntersectStep(a: seq<Entry>, b: seq<Entry>, i: nat, j: nat, kept: seq<Entry>)
    requires Intersected(a, b, i, j, kept) && i < |a| && j < |b|
    ensures a[i].key < b[j].key ==> Intersected(a, b, i + 1, j, kept)
    ensures a[i].key > b[j].key ==> Intersected(a, b, i, j + 1, kept)
    ensures a[i].key == b[j].key ==> Intersected(a, b, i + 1, j + 1, kept + [a[i]])
  {
    assert a[i..][1..] == a[i + 1..] && b[j..][1..] == b[j + 1..];
  }

  lemma IntersectStart(a: seq<Entry>, b: seq<Entry>)
    ensures Intersected(a, b, 0, 0, [])
  {
    assert a[0..] == a && b[0..] == b;
  }

  lemma IntersectEnd(a: seq<Entry>, b: seq<Entry>, i: nat, j: nat, kept: seq<Entry>)
    requires Intersected(a, b, i, j, kept) && (i == |a| || j == |b|)
    ensures kept == Intersection(a, b)
  {
  }

  // Adding one element

  /** `k` is the index of the first element of `s` that is not before `key`. */
  ghost predicate IsLowerBound(s: seq<Entry>, key: int, k: nat) {
    && k <= |s|
    && (forall i :: 0 <= i < k ==> s[i].key < key)
    && (forall i :: k <= i < |s| ==> s[i].key >= key)
  }

  /** `r` is the union of `a` and `b`. */
  ghost predicate IsUnion(a: seq<Entry>, b: seq<Entry>, r: seq<Entry>) {
    && Sorted(r)
    && forall e :: e in r <==> e in a || (e in b && !HasKey(a, e.key))
  }

  lemma UnionIsUnique(a: seq<Entry>, b: seq<Entry>, r: seq<Entry>)
    requires Sorted(a) && Sorted(b) && IsUnion(a, b, r)
    ensures Union(a, b) == r
  {
    UnionIsExact(a, b);
    hide Union, Sorted, HasKey;
    SortedIsUnique(Union(a, b), r);
  }

  /** `s` with an element in front of the k-th. */
  ghost function InsertedAt(s: seq<Entry>, e: Entry, k: nat): seq<Entry>
    requires k <= |s|
  {
    s[..k] + [e] + s[k..]
  }

  lemma InsertedElements(s: seq<Entry>, e: Entry, k: nat)
    requires k <= |s|
    ensures forall x :: x in InsertedAt(s, e, k) <==> x in s || x == e
  {
    var r := InsertedAt(s, e, k);
    assert s == s[..k] + s[k..];
    assert r[k] == e;
  }

  lemma InsertedIsSorted(s: seq<Entry>, e: Entry, k: nat)
    requires Sorted(s) && IsLowerBound(s, e.key, k) && (k < |s| ==> s[k].key != e.key)
    ensures Sorted(InsertedAt(s, e, k)) && !HasKey(s, e.key)
  {
    assert forall i :: k < i < |s| ==> s[k].key < s[i].key;
  }

  lemma UnionWithKnown(s: seq<Entry>, e: Entry)
    requires Sorted(s) && HasKey(s, e.key)
    ensures Union(s, [e]) == s
  {
    hide Union, Sorted, HasKey;
    OnlyElement(e);
    assert Sorted([e]) by { OneIsSorted(e); }
    UnionIsUnique(s, [e], s);
  }

  lemma UnionWithNew(s: seq<Entry>, e: Entry, k: nat)
    requires Sorted(s) && IsLowerBound(s, e.key, k) && (k < |s| ==> s[k].key != e.key)
    ensures !HasKey(s, e.key) && Union(s, [e]) == InsertedAt(s, e, k)
  {
    InsertedIsSorted(s, e, k);
    InsertedElements(s, e, k);
    OnlyElement(e);
    OneIsSorted(e);
    hide Union, InsertedAt, Sorted, HasKey, IsLowerBound;
    UnionIsUnique(s, [e], InsertedAt(s, e, k));
  }

  lemma OnlyElement(e: Entry)
    ensures forall x :: x in [e] <==> x == e
  {
  }

  lemma OneIsSorted(e: Entry)
    ensures Sorted([e])
  {
  }

  /** An element is known, or has its place at the lower bound. */
  lemma UnionWithOne(s: seq<Entry>, e: Entry, k: nat)
    requires Sorted(s) && IsLowerBound(s, e.key, k)
    ensures HasKey(s, e.key) <==> k < |s| && s[k].key == e.key
    ensures Union(s, [e]) == if k < |s| && s[k].key == e.key then s else InsertedAt(s, e, k)
  {
    if k < |s| && s[k].key == e.key {
      assert s[k] in s;
      UnionWithKnown(s, e);
    } else {
      UnionWithNew(s, e, k);
    }
  }

  /** What adding in front of the k-th element does when the gap is in front: the element there is overwritten. */
  ghost function OverwrittenAt(s: seq<Entry>, e: Entry, k: nat, gap: Entry): seq<Entry>
    requires k < |s|
  {
    s[..k] + [if k == 0 then gap else s[k - 1], e] + s[k + 1..]
  }

  /** What shifting the first `k` elements into the gap and then storing leaves. */
  lemma ShiftedLeft(s: seq<Entry>, e: Entry, k: nat, gap: Entry, r: seq<Entry>)
    requires k < |s| && |r| == |s| + 1
    requires forall i :: 0 <= i < k ==> r[i] == s[i]
    requires r[k] == (if k == 0 then gap else s[k - 1]) && r[k + 1] == e
    requires forall i :: k + 1 < i < |r| ==> r[i] == s[i - 1]
    ensures r == OverwrittenAt(s, e, k, gap)
  {
  }

  /** What shifting the elements from the k-th on to the right and then storing leaves. */
  lemma ShiftedRight(s: seq<Entry>, e: Entry, k: nat, r: seq<Entry>)
    requires k <= |s| && |r| == |s| + 1
    requires forall i :: 0 <= i < k ==> r[i] == s[i]
    requires r[k] == e && forall i :: k < i < |r| ==> r[i] == s[i - 1]
    ensures r == InsertedAt(s, e, k)
  {
  }

  /** That is never the set with the element added, whatever the gap held. */
  lemma OverwrittenIsWrong(s: seq<Entry>, e: Entry, k: nat, gap: Entry)
    requires Sorted(s) && IsLowerBound(s, e.key, k) && k < |s| && s[k].key != e.key
    ensures OverwrittenAt(s, e, k, gap) != Union(s, [e])
  {
    UnionWithOne(s, e, k);
    var wrong, right := OverwrittenAt(s, e, k, gap), InsertedAt(s, e, k);
    assert wrong[k + 1] == e && right[k + 1] == s[k];
  }

  /** Everything there is to say about adding at the lower bound. */
  lemma AddOutcome(s: seq<Entry>, e: Entry, k: nat, gap: Entry)
    requires Sorted(s) && IsLowerBound(s, e.key, k)
    ensures k <= |s| && (HasKey(s, e.key) <==> k < |s| && s[k].key == e.key)
    ensures HasKey(s, e.key) ==> Union(s, [e]) == s
    ensures !HasKey(s, e.key) ==> Union(s, [e]) == InsertedAt(s, e, k)
    ensures !HasKey(s, e.key) && k < |s| ==> OverwrittenAt(s, e, k, gap) != Union(s, [e])
    ensures Sorted(Union(s, [e]))
  {
    UnionWithOne(s, e, k);
    OneIsSorted(e);
    UnionIsExact(s, [e]);
    if !HasKey(s, e.key) && k < |s| {
      OverwrittenIsWrong(s, e, k, gap);
    }
  }
}
