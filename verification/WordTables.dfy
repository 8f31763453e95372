/**
 An open addressing table of words with linear probing, which wraps around at the end of the buckets.
 */
module WordTables {
  import opened Powers

  const MAX_ID := 15
  const HASH_LIMIT := 0x1_0000_0000

  /** The low bits of a 32 bit integer are an id, the others a hash. */
  datatype Word = Word(id: nat, hashBits: nat) {
    ghost predicate Fits() {
      id <= MAX_ID && Hash() < HASH_LIMIT
    }

    function Hash(): nat {
      hashBits * 16
    }

    function ToUint(): nat {
      id + Hash()
    }

    predicate Empty() {
      this == EMPTY_WORD
    }
  }

  const EMPTY_WORD := Word(0, 0)

  /** Of the hash only the bits above the id are kept. */
  function MakeWord(id: nat, hash: nat): Word {
    Word(id % 16, hash / 16)
  }

  function FromUint(bits: nat): Word {
    MakeWord(bits % 16, bits)
  }

  lemma PackingRoundTrip(w: Word, bits: nat)
    requires w.Fits()
    ensures FromUint(w.ToUint()) == w && w.ToUint() < HASH_LIMIT
    ensures FromUint(bits).ToUint() == bits
  {
  }

  function Quotient(x: nat, d: nat): (q: nat)
    requires d > 0
  {
    x / d
  }

  lemma {:induction false} HashInRange(hash: nat, shift: nat, k: nat)
    requires hash < Pow2(shift + k)
    ensures Quotient(hash, Pow2(shift)) < Pow2(k)
    decreases shift
  {
    if shift > 0 {
      HashInRange(hash / 2, shift - 1, k);
      HalvesDivide(hash, Pow2(shift - 1));
    }
  }

  lemma HalvesDivide(x: nat, d: nat)
    requires d > 0
    ensures x / (2 * d) == x / 2 / d
  {
    var q := x / (2 * d);
    var r := x % (2 * d);
    assert x == q * (2 * d) + r;
    assert x / 2 == q * d + r / 2;
    assert r / 2 < d;
    DivideUnique(x / 2, d, q, r / 2);
  }

  lemma DivideUnique(x: nat, d: nat, q: nat, r: nat)
    requires d > 0 && x == q * d + r && r < d
    ensures x / d == q
  {
    var p := x / d;
    assert x == p * d + x % d;
    NextMultiple(p, q, d);
    NextMultiple(q, p, d);
  }

  lemma Distribute(p: nat, k: nat, d: nat)
    ensures (p + 1 + k) * d == p * d + d + k * d >= p * d + d
  {
  }

  lemma NextMultiple(p: nat, q: nat, d: nat)
    ensures p < q ==> p * d + d <= q * d
  {
    if p < q {
      var k: nat := q - p - 1;
      Distribute(p, k, d);
    }
  }

  datatype Entry = Entry(word: Word, payload: nat) {
    predicate Empty() {
      word.Empty()
    }
  }

  const EMPTY_ENTRY := Entry(EMPTY_WORD, 0)

  // Buckets as a ring

  /** The bucket `d` steps behind `home`. */
  function Behind(home: nat, d: nat, n: nat): (bucket: nat)
    requires home < n && d < n
    ensures bucket < n
  {
    if home + d < n then home + d else home + d - n
  }

  /** How many steps `bucket` is behind `home`. */
  function Distance(home: nat, bucket: nat, n: nat): (d: nat)
    requires home < n && bucket < n
    ensures d < n && Behind(home, d, n) == bucket
    ensures forall e :: 0 <= e < n && Behind(home, e, n) == bucket ==> e == d
  {
    if bucket >= home then bucket - home else bucket + n - home
  }

  /** Masking with the number of buckets minus one, which is a power of two, wraps around. */
  function AdvanceLookup(bucket: nat, n: nat): (next: nat)
    requires bucket < n
    ensures next == if bucket + 1 == n then 0 else bucket + 1
  {
    (bucket + 1) % n
  }

  function HashToBucket(hash: nat, invLogSize: nat): nat {
    Quotient(hash, Pow2(invLogSize))
  }

  /** The bucket is what the bits of the hash above the lowest `invLogSize` ones say. */
  lemma BucketIsHighBits(hash: nat, invLogSize: nat)
    ensures var bucket := HashToBucket(hash, invLogSize);
            Times(bucket, Pow2(invLogSize)) <= hash < Times(bucket + 1, Pow2(invLogSize))
  {
    var d := Pow2(invLogSize);
    var q := hash / d;
    assert hash == q * d + hash % d;
    assert (q + 1) * d == q * d + d;
  }

  function Times(a: nat, b: nat): nat {
    a * b
  }

  /** When the buckets double, the words of a bucket go to its two halves. */
  lemma DoublingSplitsBuckets(hash: nat, invLogSize: nat)
    requires invLogSize > 0
    ensures HashToBucket(hash, invLogSize - 1) / 2 == HashToBucket(hash, invLogSize)
  {
    var d := Pow2(invLogSize - 1);
    var q := hash / d;
    assert hash == q * d + hash % d;
    var r := (q % 2) * d + hash % d;
    assert q == 2 * (q / 2) + q % 2;
    Halve(q / 2, q % 2, d);
    assert hash == (q / 2) * (2 * d) + r;
    assert r < 2 * d;
    DivideUnique(hash, 2 * d, q / 2, r);
  }

  lemma Halve(h: nat, b: nat, d: nat)
    requires b < 2
    ensures (2 * h + b) * d == h * (2 * d) + b * d && b * d <= d
  {
  }

  ghost predicate Size(entries: seq<Entry>, invLogSize: nat) {
    1 <= invLogSize <= 32 && |entries| == Pow2(32 - invLogSize)
  }

  lemma Pow2Is32()
    ensures Pow2(32) == HASH_LIMIT
  {
    assert Pow2(8) == 0x100;
    assert Pow2(16) == 0x1_0000;
    assert Pow2(24) == 0x100_0000;
  }

  lemma HomeInRange(hash: nat, invLogSize: nat)
    requires hash < HASH_LIMIT && 1 <= invLogSize <= 32
    ensures HashToBucket(hash, invLogSize) < Pow2(32 - invLogSize)
  {
    Pow2Is32();
    HashInRange(hash, invLogSize, 32 - invLogSize);
  }

  /** The first bucket that is tried for a word. */
  function Home(hash: nat, invLogSize: nat, n: nat): (home: nat)
    requires hash < HASH_LIMIT && 1 <= invLogSize <= 32 && n == Pow2(32 - invLogSize)
    ensures home < n
  {
    HomeInRange(hash, invLogSize);
    HashToBucket(hash, invLogSize)
  }

  // What the buckets hold

  /** All buckets in front of the d-th behind `home` are used. */
  ghost predicate UsedRun(entries: seq<Entry>, home: nat, d: nat)
    requires home < |entries| && d <= |entries|
  {
    forall e :: 0 <= e < d ==> !entries[Behind(home, e, |entries|)].Empty()
  }

  /** A used bucket is reached from the home of its word over used buckets. */
  ghost predicate Reachable(entries: seq<Entry>, invLogSize: nat, i: nat)
    requires Size(entries, invLogSize) && i < |entries| && entries[i].word.Fits()
  {
    var home := Home(entries[i].word.Hash(), invLogSize, |entries|);
    UsedRun(entries, home, Distance(home, i, |entries|))
  }

  /** The buckets hold exactly `contents`, every word once and where it is looked for. */
  ghost predicate TableOk(entries: seq<Entry>, invLogSize: nat, contents: map<Word, nat>) {
    && Size(entries, invLogSize)
    && (forall i :: 0 <= i < |entries| ==> entries[i].word.Fits())
    && (forall i :: 0 <= i < |entries| && !entries[i].Empty() ==>
          entries[i].word in contents && contents[entries[i].word] == entries[i].payload)
    && (forall w :: w in contents ==> !w.Empty() && exists i :: 0 <= i < |entries| && entries[i].word == w)
    && (forall i, j :: 0 <= i < j < |entries| && !entries[i].Empty() ==> entries[i].word != entries[j].word)
    && (forall i :: 0 <= i < |entries| && !entries[i].Empty() ==> Reachable(entries, invLogSize, i))
  }

  /** If there are fewer words than buckets, some bucket is free. */
  lemma SomeBucketFree(entries: seq<Entry>, invLogSize: nat, contents: map<Word, nat>) returns (free: nat)
    requires TableOk(entries, invLogSize, contents) && |contents| < |entries|
    ensures free < |entries| && entries[free].Empty()
  {
    hide Reachable;
    if forall i :: 0 <= i < |entries| ==> !entries[i].Empty() {
      WordsAreMany(entries, contents.Keys, |entries|);
      assert false;
    }
    free :| 0 <= free < |entries| && entries[free].Empty();
  }

  lemma {:induction false} WordsAreMany(entries: seq<Entry>, words: set<Word>, n: nat)
    requires n <= |entries| && forall i :: 0 <= i < n ==> entries[i].word in words
    requires forall i, j :: 0 <= i < j < n ==> entries[i].word != entries[j].word
    ensures n <= |words|
  {
    if n > 0 {
      WordsAreMany(entries, words - {entries[n - 1].word}, n - 1);
    }
  }

  /** The word is not in the table if its run ends without it. */
  lemma RunWithoutWord(entries: seq<Entry>, invLogSize: nat, contents: map<Word, nat>, w: Word, d: nat)
    requires TableOk(entries, invLogSize, contents) && w.Fits() && !w.Empty() && d < |entries|
    requires var home := Home(w.Hash(), invLogSize, |entries|);
             && entries[Behind(home, d, |entries|)].Empty()
             && forall e :: 0 <= e < d ==> entries[Behind(home, e, |entries|)].word != w
    ensures w !in contents
  {
    var n, home := |entries|, Home(w.Hash(), invLogSize, |entries|);
    forall i | 0 <= i < n
      ensures entries[i].word != w
    {
      assert Behind(home, Distance(home, i, n), n) == i;
      assert !entries[i].Empty() ==> Reachable(entries, invLogSize, i);
    }
  }

  /** Storing a new word in the first free bucket of its run. */
  lemma StoreKeepsTable(entries: seq<Entry>, invLogSize: nat, contents: map<Word, nat>, entry: Entry, d: nat)
    requires TableOk(entries, invLogSize, contents) && entry.word.Fits() && !entry.Empty() && entry.word !in contents
    requires d < |entries|
    requires var home := Home(entry.word.Hash(), invLogSize, |entries|);
             entries[Behind(home, d, |entries|)].Empty() && UsedRun(entries, home, d)
    ensures var bucket := Behind(Home(entry.word.Hash(), invLogSize, |entries|), d, |entries|);
            TableOk(entries[bucket := entry], invLogSize, contents[entry.word := entry.payload])
  {
    hide Home, Behind, Distance;
    var n, home := |entries|, Home(entry.word.Hash(), invLogSize, |entries|);
    var bucket := Behind(home, d, n);
    var entries', contents' := entries[bucket := entry], contents[entry.word := entry.payload];
    forall w | w in contents'
      ensures exists i :: 0 <= i < n && entries'[i].word == w
    {
      if w == entry.word {
        assert entries'[bucket].word == w;
      } else {
        var i :| 0 <= i < n && entries[i].word == w;
        assert entries'[i].word == w;
      }
    }
    forall i | 0 <= i < n && !entries'[i].Empty()
      ensures Reachable(entries', invLogSize, i)
    {
      if i != bucket {
        assert Reachable(entries, invLogSize, i);
      }
    }
  }

  /** `bucket` is the free bucket that ends the run of a hash, `d` steps behind its home. */
  ghost predicate EndsRun(entries: seq<Entry>, invLogSize: nat, hash: nat, d: nat, bucket: nat) {
    && Size(entries, invLogSize) && hash < HASH_LIMIT && d < |entries|
    && var home := Home(hash, invLogSize, |entries|);
       bucket == Behind(home, d, |entries|) && entries[bucket].Empty() && UsedRun(entries, home, d)
  }

  lemma TableSize(entries: seq<Entry>, invLogSize: nat, contents: map<Word, nat>)
    requires TableOk(entries, invLogSize, contents)
    ensures Size(entries, invLogSize)
  {
  }

  lemma EmptyTableOk(entries: seq<Entry>, invLogSize: nat)
    requires Size(entries, invLogSize) && forall i :: 0 <= i < |entries| ==> entries[i] == EMPTY_ENTRY
    ensures TableOk(entries, invLogSize, map[])
  {
    hide Reachable, Size;
  }

  lemma StoredWord(entries: seq<Entry>, invLogSize: nat, contents: map<Word, nat>, i: nat)
    requires TableOk(entries, invLogSize, contents) && i < |entries| && !entries[i].Empty()
    ensures entries[i].word in contents && entries[i] == Entry(entries[i].word, contents[entries[i].word])
    ensures entries[i].word.Fits()
  {
    hide Reachable;
  }

  /** A run does not get past a free bucket. */
  lemma NextOfRun(entries: seq<Entry>, home: nat, d: nat, free: nat)
    requires home < |entries| && free < |entries| && entries[free].Empty()
    requires d <= Distance(home, free, |entries|) && UsedRun(entries, home, d)
    requires !entries[Behind(home, d, |entries|)].Empty()
    ensures d + 1 <= Distance(home, free, |entries|) && UsedRun(entries, home, d + 1)
    ensures var bucket := Behind(home, d, |entries|);
            Behind(home, d + 1, |entries|) == if bucket + 1 == |entries| then 0 else bucket + 1
  {
  }

  /** The first `n` buckets were moved. */
  ghost predicate MovedOk(entries: seq<Entry>, n: nat, moved: map<Word, nat>) {
    && n <= |entries|
    && (forall w :: w in moved ==> exists i :: 0 <= i < n && !entries[i].Empty() && entries[i] == Entry(w, moved[w]))
    && (forall i :: 0 <= i < n && !entries[i].Empty() ==> entries[i].word in moved)
  }

  lemma MoveNext(entries: seq<Entry>, invLogSize: nat, contents: map<Word, nat>, n: nat, moved: map<Word, nat>)
    requires TableOk(entries, invLogSize, contents) && MovedOk(entries, n, moved) && n < |entries|
    ensures if entries[n].Empty() then MovedOk(entries, n + 1, moved)
            else entries[n].word.Fits() && entries[n].word !in moved
                 && MovedOk(entries, n + 1, moved[entries[n].word := entries[n].payload])
  {
    hide Reachable, Size;
  }

  lemma AllMoved(entries: seq<Entry>, invLogSize: nat, contents: map<Word, nat>, moved: map<Word, nat>)
    requires TableOk(entries, invLogSize, contents) && MovedOk(entries, |entries|, moved)
    ensures moved == contents
  {
    hide Reachable, Size;
    forall w | w in contents
      ensures w in moved
    {
      var i :| 0 <= i < |entries| && entries[i].word == w;
      assert !entries[i].Empty();
    }
    forall w | w in moved
      ensures w in contents && contents[w] == moved[w]
    {
      var i :| 0 <= i < |entries| && !entries[i].Empty() && entries[i] == Entry(w, moved[w]);
    }
  }

  // The table

  const MAX_LOAD_NOM := 3
  const MAX_LOAD_DENOM := 4

  class WordTable {
    var entries: array<Entry>
    /** 32 minus the logarithm of the number of buckets, and 0 if there are none. */
    var invLogSize: nat
    var usedBuckets: nat
    /** The words with their payloads. */
    ghost var contents: map<Word, nat>

    ghost predicate Valid()
      reads this, entries
    {
      && usedBuckets == |contents|
      && if invLogSize == 0 then entries.Length == 0 && contents == map[]
         else
           && TableOk(entries[..], invLogSize, contents)
           && usedBuckets * MAX_LOAD_DENOM <= entries.Length * MAX_LOAD_NOM
    }

    predicate IsEmpty()
      reads this
    {
      invLogSize == 0
    }

    function BucketCount(): nat
      reads this
      requires 1 <= invLogSize <= 32
    {
      Pow2(32 - invLogSize)
    }

    constructor ()
      ensures Valid() && contents == map[] && fresh(entries) && IsEmpty()
    {
      entries := new Entry[0];
      invLogSize, usedBuckets := 0, 0;
      contents := map[];
    }

    method InitializeFromEmpty()
      requires Valid() && IsEmpty()
      modifies this
      ensures Valid() && contents == map[] && fresh(entries) && invLogSize == 30
    {
      invLogSize := 30;
      entries := new Entry[4](_ => EMPTY_ENTRY);
      assert Pow2(2) == 4;
      EmptyTableOk(entries[..], 30);
    }

    /** The first bucket of the run of a hash. */
    function BeginLookup(hash: nat): (bucket: nat)
      requires 1 <= invLogSize <= 32 && hash < HASH_LIMIT && entries.Length == Pow2(32 - invLogSize)
      reads this
      ensures bucket < entries.Length && bucket == Home(hash, invLogSize, entries.Length)
    {
      HomeInRange(hash, invLogSize);
      HashToBucket(hash, invLogSize)
    }

    /** Looks a word up; if it is not found, `bucket` is the free bucket at the end of its run. */
    method FindWord(word: Word) returns (bucket: nat, found: bool, ghost d: nat)
      requires Valid() && word.Fits() && !word.Empty()
      ensures found <==> word in contents
      ensures found ==> bucket < entries.Length && entries[bucket] == Entry(word, contents[word])
      ensures !found && !IsEmpty() ==> EndsRun(entries[..], invLogSize, word.Hash(), d, bucket)
    {
      if IsEmpty() {
        return 0, false, 0;
      }
      ghost var s, n := entries[..], entries.Length;
      ghost var free := SomeBucketFree(s, invLogSize, contents);
      ghost var home := Home(word.Hash(), invLogSize, n);
      hide Home, TableOk, AdvanceLookup;
      TableSize(s, invLogSize, contents);
      bucket := BeginLookup(word.Hash());
      d := 0;
      while true
        invariant d <= Distance(home, free, n) && bucket == Behind(home, d, n)
        invariant UsedRun(s, home, d)
        invariant forall e :: 0 <= e < d ==> s[Behind(home, e, n)].word != word
        decreases n - d
      {
        if entries[bucket].Empty() {
          RunWithoutWord(s, invLogSize, contents, word, d);
          return bucket, false, d;
        }
        if entries[bucket].word == word {
          StoredWord(s, invLogSize, contents, bucket);
          return bucket, true, d;
        }
        NextOfRun(s, home, d, free);
        bucket := AdvanceLookup(bucket, entries.Length);
        d := d + 1;
      }
    }

    /** Adds a word unless it is known, and returns whether it was. */
    method InsertWord(word: Word, payload: nat) returns (found: bool)
      requires Valid() && word.Fits() && !word.Empty() && CanGrow()
      modifies this, entries
      ensures Valid() && (entries == old(entries) || fresh(entries))
      ensures found <==> word in old(contents)
      ensures contents == if found then old(contents) else old(contents)[word := payload]
    {
      if IsEmpty() {
        InitializeFromEmpty();
      }
      var bucket;
      ghost var d;
      bucket, found, d := FindWord(word);
      if !found {
        StoreNew(bucket, Entry(word, payload), d);
      }
    }

    /** Stores a new word in the free bucket at the end of its run. */
    method StoreNew(bucket: nat, entry: Entry, ghost d: nat)
      requires Valid() && !IsEmpty() && CanGrow()
      requires entry.word.Fits() && !entry.Empty() && entry.word !in contents
      requires EndsRun(entries[..], invLogSize, entry.word.Hash(), d, bucket)
      modifies this, entries
      ensures Valid() && !IsEmpty() && (entries == old(entries) || fresh(entries))
      ensures contents == old(contents)[entry.word := entry.payload]
    {
      hide TableOk;
      StoreKeepsTable(entries[..], invLogSize, contents, entry, d);
      entries[bucket] := entry;
      usedBuckets := usedBuckets + 1;
      contents := contents[entry.word := entry.payload];
      MaybeRehash();
    }

    /** The buckets still can be doubled, or another word fits into them. */
    predicate CanGrow()
      reads this
    {
      invLogSize != 1 || (usedBuckets + 1) * MAX_LOAD_DENOM <= entries.Length * MAX_LOAD_NOM
    }

    /** Restores the maximum load after one word was added. */
    method MaybeRehash()
      requires TableOk(entries[..], invLogSize, contents) && usedBuckets == |contents|
      requires (usedBuckets - 1) * MAX_LOAD_DENOM <= entries.Length * MAX_LOAD_NOM
      requires invLogSize != 1 || usedBuckets * MAX_LOAD_DENOM <= entries.Length * MAX_LOAD_NOM
      modifies this
      ensures Valid() && !IsEmpty() && contents == old(contents) && usedBuckets == old(usedBuckets)
      ensures if usedBuckets * MAX_LOAD_DENOM <= old(entries.Length) * MAX_LOAD_NOM then
                entries == old(entries) && invLogSize == old(invLogSize)
              else fresh(entries) && invLogSize == old(invLogSize) - 1
    {
      if usedBuckets * MAX_LOAD_DENOM <= BucketCount() * MAX_LOAD_NOM {
        return;
      }
      Rehash();
    }

    /** Moves all words to twice as many buckets. */
    method Rehash()
      requires TableOk(entries[..], invLogSize, contents) && usedBuckets == |contents| && invLogSize > 1
      requires (usedBuckets - 1) * MAX_LOAD_DENOM <= entries.Length * MAX_LOAD_NOM
      modifies this
      ensures Valid() && contents == old(contents) && usedBuckets == old(usedBuckets)
      ensures fresh(entries) && invLogSize == old(invLogSize) - 1
    {
      TableSize(entries[..], invLogSize, contents);
      hide TableOk;
      var oldEntries := entries;
      ghost var was, oldInvLogSize := entries[..], invLogSize;
      invLogSize := invLogSize - 1;
      entries := new Entry[BucketCount()](_ => EMPTY_ENTRY);
      EmptyTableOk(entries[..], invLogSize);
      assert oldEntries[..] == was;
      MoveAll(oldEntries, oldInvLogSize);
    }

    /** Moves the entries of old buckets one by one. */
    method MoveAll(oldEntries: array<Entry>, ghost oldInvLogSize: nat)
      requires oldEntries != entries && entries.Length == 2 * oldEntries.Length
      requires TableOk(oldEntries[..], oldInvLogSize, contents) && TableOk(entries[..], invLogSize, map[])
      modifies entries
      ensures TableOk(entries[..], invLogSize, contents)
    {
      hide TableOk, MovedOk;
      ghost var was, moved: map<Word, nat> := oldEntries[..], map[];
      NothingMoved(was);
      for i := 0 to oldEntries.Length
        invariant oldEntries[..] == was
        invariant TableOk(entries[..], invLogSize, moved) && |moved| <= i && MovedOk(was, i, moved)
      {
        MoveNext(was, oldInvLogSize, contents, i, moved);
        if !oldEntries[i].Empty() {
          MoveEntry(oldEntries[i], moved);
          moved := moved[was[i].word := was[i].payload];
        }
      }
      AllMoved(was, oldInvLogSize, contents, moved);
    }

    /** Stores an entry whose word is new in the first free bucket of its run. */
    method MoveEntry(entry: Entry, ghost moved: map<Word, nat>)
      requires TableOk(entries[..], invLogSize, moved) && |moved| < entries.Length
      requires entry.word.Fits() && !entry.Empty() && entry.word !in moved
      modifies entries
      ensures TableOk(entries[..], invLogSize, moved[entry.word := entry.payload])
    {
      TableSize(entries[..], invLogSize, moved);
      ghost var s, n := entries[..], entries.Length;
      ghost var free := SomeBucketFree(s, invLogSize, moved);
      ghost var home, d := Home(entry.word.Hash(), invLogSize, n), 0;
      hide Home, TableOk, AdvanceLookup;
      var bucket := BeginLookup(entry.word.Hash());
      while !entries[bucket].Empty()
        invariant entries[..] == s && d <= Distance(home, free, n) && bucket == Behind(home, d, n)
        invariant UsedRun(s, home, d)
        decreases n - d
      {
        NextOfRun(s, home, d, free);
        bucket := AdvanceLookup(bucket, entries.Length);
        d := d + 1;
      }
      StoreKeepsTable(s, invLogSize, moved, entry, d);
      entries[bucket] := entry;
    }
  }

  lemma NothingMoved(entries: seq<Entry>)
    ensures MovedOk(entries, 0, map[])
  {
  }
}
