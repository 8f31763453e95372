/**
 Interned strings: every string gets one word, which holds its hash and an id that tells it from other strings with
 the same hash.  The strings themselves are stored one behind the other in a growing buffer.
 */
module WordStrings {
  import opened Bytes
  import opened Options
  import opened Powers
  import opened WordTables

  const LENGTH_LIMIT := 0x1_0000

  // The buffer

  function LengthAt(storage: seq<Byte>, index: nat): nat
    requires 2 * index + 2 <= |storage|
  {
    (storage[2 * index] as int) + 256 * (storage[2 * index + 1] as int)
  }

  ghost predicate InStorage(storage: seq<Byte>, index: nat) {
    2 * index + 2 <= |storage| && 2 * index + 2 + LengthAt(storage, index) <= |storage|
  }

  /** The string that is stored behind its length. */
  ghost function StringAt(storage: seq<Byte>, index: nat): seq<Byte>
    requires InStorage(storage, index)
  {
    storage[2 * index + 2..2 * index + 2 + LengthAt(storage, index)]
  }

  /** Whatever is stored later does not change an earlier string. */
  lemma PrefixKeepsString(storage: seq<Byte>, storage': seq<Byte>, index: nat)
    requires InStorage(storage, index) && |storage| <= |storage'| && storage'[..|storage|] == storage
    ensures InStorage(storage', index) && StringAt(storage', index) == StringAt(storage, index)
  {
    assert forall k :: 0 <= k < |storage| ==> storage'[k] == storage[k];
  }

  lemma SamePrefix(storage: seq<Byte>, was: seq<Byte>)
    requires |was| <= |storage| && forall k :: 0 <= k < |was| ==> storage[k] == was[k]
    ensures storage[..|was|] == was
  {
  }

  lemma LengthRoundTrip(n: nat)
    requires n < LENGTH_LIMIT
    ensures n / 256 < 256 && n % 256 + 256 * (n / 256) == n
  {
  }

  function AlignToTwo(n: nat): (r: nat)
    ensures r % 2 == 0 && n <= r <= n + 1
  {
    n + n % 2
  }

  lemma StoredString(storage: seq<Byte>, offset: nat, s: seq<Byte>)
    requires offset % 2 == 0 && |s| < LENGTH_LIMIT && offset + 2 + |s| <= |storage|
    requires storage[offset] as int == |s| % 256 && storage[offset + 1] as int == |s| / 256
    requires forall k :: offset + 2 <= k < offset + 2 + |s| ==> storage[k] == s[k - offset - 2]
    ensures InStorage(storage, offset / 2) && StringAt(storage, offset / 2) == s
  {
    LengthRoundTrip(|s|);
    assert 2 * (offset / 2) == offset;
  }

  // What is interned

  ghost predicate IsHash(hashOf: seq<Byte> -> nat) {
    forall s :: hashOf(s) % 16 == 0 && hashOf(s) < HASH_LIMIT
  }

  /** Every word of the table stands for one string, and no other word does. */
  ghost predicate Interned(contents: map<Word, nat>, strings: map<Word, seq<Byte>>, storage: seq<Byte>,
                           hashOf: seq<Byte> -> nat) {
    && strings.Keys == contents.Keys
    && (forall w :: w in strings ==>
          && InStorage(storage, contents[w]) && StringAt(storage, contents[w]) == strings[w]
          && strings[w] != [] && w.Hash() == hashOf(strings[w]))
    && (forall u, w :: u in strings && w in strings && strings[u] == strings[w] ==> u == w)
  }

  /** Words keep their strings. */
  ghost predicate KeepsStrings(old_: map<Word, seq<Byte>>, new_: map<Word, seq<Byte>>) {
    forall w :: w in old_ ==> w in new_ && new_[w] == old_[w]
  }

  lemma NothingInterned(storage: seq<Byte>, hashOf: seq<Byte> -> nat)
    ensures Interned(map[], map[], storage, hashOf)
  {
  }

  lemma NewStringIsInterned(contents: map<Word, nat>, strings: map<Word, seq<Byte>>, storage: seq<Byte>,
                            hashOf: seq<Byte> -> nat, storage': seq<Byte>, w: Word, s: seq<Byte>, payload: nat)
    requires Interned(contents, strings, storage, hashOf) && w !in contents && s != [] && w.Hash() == hashOf(s)
    requires forall u :: u in strings ==> strings[u] != s
    requires |storage| <= |storage'| && storage'[..|storage|] == storage
    requires InStorage(storage', payload) && StringAt(storage', payload) == s
    ensures Interned(contents[w := payload], strings[w := s], storage', hashOf)
  {
    hide InStorage, StringAt;
    forall u | u in strings
      ensures InStorage(storage', contents[u]) && StringAt(storage', contents[u]) == strings[u]
    {
      PrefixKeepsString(storage, storage', contents[u]);
    }
  }

  /** What the search for a string knows about the words of the run up to the d-th bucket. */
  ghost predicate Compared(entries: seq<Entry>, strings: map<Word, seq<Byte>>, home: nat, d: nat, s: seq<Byte>,
                           hash: nat, firstValidId: nat, id: nat)
    requires home < |entries| && d <= |entries|
  {
    && firstValidId <= id
    && (forall e :: 0 <= e < d ==>
          var w := entries[Behind(home, e, |entries|)].word;
          w in strings && strings[w] != s && (w.Hash() == hash ==> w.id < id))
    && (id > firstValidId ==>
          exists w :: w in strings && w.Hash() == hash && w.id + 1 == id)
  }

  /** At the end of the run the string is not interned, and the word for it is new. */
  lemma RunWithoutString(entries: seq<Entry>, invLogSize: nat, contents: map<Word, nat>, strings: map<Word, seq<Byte>>,
                         storage: seq<Byte>, hashOf: seq<Byte> -> nat, d: nat, s: seq<Byte>, firstValidId: nat, id: nat)
    requires TableOk(entries, invLogSize, contents) && Interned(contents, strings, storage, hashOf) && IsHash(hashOf)
    requires d < |entries|
    requires var home := Home(hashOf(s), invLogSize, |entries|);
             && entries[Behind(home, d, |entries|)].Empty()
             && Compared(entries, strings, home, d, s, hashOf(s), firstValidId, id)
    ensures IsNew(contents, strings, s, hashOf(s), id)
  {
    hide Home, Behind, Distance, Reachable, InStorage, StringAt;
    var home := Home(hashOf(s), invLogSize, |entries|);
    forall u | u in strings
      ensures strings[u] != s && (u.Hash() == hashOf(s) ==> u.id < id)
    {
      var i :| 0 <= i < |entries| && entries[i].word == u;
      if strings[u] == s || (u.Hash() == hashOf(s) && u.id >= id) {
        RunWithoutWord(entries, invLogSize, contents, u, d);
        assert false;
      }
    }
    var w := MakeWord(id, hashOf(s));
    if id <= MAX_ID && !w.Empty() {
      RunWithoutWord(entries, invLogSize, contents, w, d);
    }
  }

  // The table

  class WordStringTable {
    const table: WordTable
    const hashOf: seq<Byte> -> nat
    var stringStorage: array<Byte>
    var stringStorageOffset: nat
    /** The words with the strings they stand for. */
    ghost var strings: map<Word, seq<Byte>>

    ghost predicate StorageOk()
      reads this, stringStorage
    {
      && stringStorageOffset % 2 == 0
      && (stringStorage.Length == 0 == stringStorageOffset
          || stringStorageOffset + PADDED_STRING_PADDING <= stringStorage.Length)
    }

    ghost function Stored(): seq<Byte>
      reads this, stringStorage
      requires StorageOk()
    {
      stringStorage[..stringStorageOffset]
    }

    ghost predicate Valid()
      reads this, stringStorage, table, table.entries
    {
      && table.Valid() && !table.IsEmpty()
      && IsHash(hashOf)
      && StorageOk()
      && Interned(table.contents, strings, Stored(), hashOf)
    }

    constructor (hashOf: seq<Byte> -> nat)
      requires IsHash(hashOf)
      ensures Valid() && strings == map[] && this.hashOf == hashOf
      ensures fresh(table) && fresh(table.entries) && fresh(stringStorage)
    {
      table := new WordTable();
      this.hashOf := hashOf;
      stringStorage := new Byte[0];
      stringStorageOffset := 0;
      strings := map[];
      new;
      hide TableOk, Interned, IsHash;
      table.InitializeFromEmpty();
      NothingInterned(Stored(), hashOf);
    }

    /** Appends a string to the buffer, which grows if it is too small. */
    method AllocateStorage(s: seq<Byte>) returns (index: nat)
      requires StorageOk() && |s| < LENGTH_LIMIT
      modifies this`stringStorage, this`stringStorageOffset, stringStorage
      ensures StorageOk() && (stringStorage == old(stringStorage) || fresh(stringStorage))
      ensures |Stored()| >= |old(Stored())| && Stored()[..|old(Stored())|] == old(Stored())
      ensures InStorage(Stored(), index) && StringAt(Stored(), index) == s
      ensures forall k :: stringStorageOffset <= k < stringStorageOffset + PADDED_STRING_PADDING ==>
        k < stringStorage.Length && stringStorage[k] == 0
    {
      var offset := stringStorageOffset;
      var requiredCapacity := AlignToTwo(stringStorageOffset + 2 + |s|) + PADDED_STRING_PADDING;
      if requiredCapacity > stringStorage.Length {
        GrowStorage(BitCeil(requiredCapacity));
      }
      hide InStorage, StringAt, BitCeil;
      ghost var was := Stored();
      StoreAt(offset, s);
      stringStorageOffset := AlignToTwo(offset + 2 + |s|);
      ClearPadding();
      SamePrefix(Stored(), was);
      StoredString(Stored(), offset, s);
      return offset / 2;
    }

    /** Writes a string behind its length, the low byte of the length first. */
    method StoreAt(offset: nat, s: seq<Byte>)
      requires offset + 2 + |s| <= stringStorage.Length && |s| < LENGTH_LIMIT
      modifies stringStorage
      ensures stringStorage[offset] as int == |s| % 256 && stringStorage[offset + 1] as int == |s| / 256
      ensures forall k :: offset + 2 <= k < offset + 2 + |s| ==> stringStorage[k] == s[k - offset - 2]
      ensures forall k :: 0 <= k < stringStorage.Length && !(offset <= k < offset + 2 + |s|) ==>
        stringStorage[k] == old(stringStorage[k])
    {
      LengthRoundTrip(|s|);
      stringStorage[offset], stringStorage[offset + 1] := |s| % 256, |s| / 256;
      WriteAt(offset + 2, s);
    }

    /** Moves the strings to a larger buffer. */
    method GrowStorage(newCapacity: nat)
      requires StorageOk() && stringStorageOffset + PADDED_STRING_PADDING <= newCapacity
      modifies this`stringStorage
      ensures StorageOk() && Stored() == old(Stored()) && fresh(stringStorage) && stringStorage.Length == newCapacity
    {
      var newStorage := new Byte[newCapacity];
      for i := 0 to stringStorageOffset
        invariant stringStorage == old(stringStorage) && stringStorageOffset <= stringStorage.Length
        invariant forall k :: 0 <= k < i ==> newStorage[k] == stringStorage[k]
      {
        newStorage[i] := stringStorage[i];
      }
      stringStorage := newStorage;
    }

    method WriteAt(offset: nat, s: seq<Byte>)
      requires offset + |s| <= stringStorage.Length
      modifies stringStorage
      ensures forall k :: 0 <= k < stringStorage.Length ==>
        stringStorage[k] == if offset <= k < offset + |s| then s[k - offset] else old(stringStorage[k])
    {
      for i := 0 to |s|
        invariant forall k :: 0 <= k < stringStorage.Length ==>
          stringStorage[k] == if offset <= k < offset + i then s[k - offset] else old(stringStorage[k])
      {
        stringStorage[offset + i] := s[i];
      }
    }

    method ClearPadding()
      requires stringStorageOffset + PADDED_STRING_PADDING <= stringStorage.Length
      modifies stringStorage
      ensures forall k :: 0 <= k < stringStorage.Length ==>
        stringStorage[k] == if stringStorageOffset <= k < stringStorageOffset + PADDED_STRING_PADDING then 0
                            else old(stringStorage[k])
    {
      for i := 0 to PADDED_STRING_PADDING
        invariant forall k :: 0 <= k < stringStorage.Length ==>
          stringStorage[k] == if stringStorageOffset <= k < stringStorageOffset + i then 0 else old(stringStorage[k])
      {
        stringStorage[stringStorageOffset + i] := 0;
      }
    }

    /** The string that is stored at an index. */
    function GetStorage(index: nat): (s: seq<Byte>)
      requires StorageOk() && InStorage(Stored(), index)
      reads this, stringStorage
      ensures s == StringAt(Stored(), index)
    {
      var offset := 2 * index;
      var length := (stringStorage[offset] as int) + 256 * (stringStorage[offset + 1] as int);
      stringStorage[offset + 2..offset + 2 + length]
    }

    lemma FreeBucket() returns (free: nat)
      requires Valid()
      ensures Size(table.entries[..], table.invLogSize) && TableOk(table.entries[..], table.invLogSize, table.contents)
      ensures free < table.entries.Length && table.entries[free].Empty()
    {
      free := SomeBucketFree(table.entries[..], table.invLogSize, table.contents);
    }

    /** Stores a new word and its string. */
    method InternNew(bucket: nat, word: Word, s: seq<Byte>, ghost d: nat)
      requires Valid() && table.CanGrow() && s != [] && |s| < LENGTH_LIMIT && word.Hash() == hashOf(s)
      requires word.Fits() && !word.Empty() && word !in table.contents
      requires EndsRun(table.entries[..], table.invLogSize, word.Hash(), d, bucket)
      requires forall u :: u in strings ==> strings[u] != s
      modifies this, table, table.entries, stringStorage
      ensures Valid() && strings == old(strings)[word := s]
      ensures table.entries == old(table.entries) || fresh(table.entries)
      ensures stringStorage == old(stringStorage) || fresh(stringStorage)
    {
      hide TableOk, Interned, InStorage, StringAt, EndsRun, IsHash;
      ghost var was := Stored();
      var payload := AllocateStorage(s);
      NewStringIsInterned(table.contents, strings, was, hashOf, Stored(), word, s, payload);
      strings := strings[word := s];
      table.StoreNew(bucket, Entry(word, payload), d);
    }

    /** `search` looks for its string in this table. */
    ghost predicate Searches(search: Search)
      reads this, stringStorage, table, table.entries
    {
      && Valid() && search.Valid() && search.entries == table.entries[..] && search.invLogSize == table.invLogSize
      && search.strings == strings && search.s != [] && search.hash == hashOf(search.s)
    }

    /** What the table says about the string that is looked for. */
    ghost predicate ProbeOk(search: Search, r: ProbeResult, d: nat, firstInvalidId: nat)
      reads this, table
    {
      match r
      case Known(word) => IsWordFor(search.strings, search.s, word) && !search.CutOff(firstInvalidId)
      case NoId =>
        && IdsRunOut(search.strings, search.hash, search.firstValidId, firstInvalidId)
        && (IsUnknown(search.strings, search.s) || search.CutOff(firstInvalidId))
      case Free(bucket, id) =>
        && search.firstValidId <= id < firstInvalidId
        && EndsRun(search.entries, search.invLogSize, search.hash, d, bucket)
        && IsNew(table.contents, search.strings, search.s, search.hash, id)
        && IsLowest(search.strings, search.hash, search.firstValidId, id)
    }

    /** Looks at one bucket of the run: either it decides the search, or the search goes on with the next bucket. */
    method ProbeBucket(s: seq<Byte>, hash: nat, bucket: nat, id: nat, firstInvalidId: nat,
                       ghost search: Search, ghost free: nat, ghost d: nat)
      returns (r: Option<ProbeResult>, next: nat, nextId: nat)
      requires Searches(search) && search.s == s && search.hash == hash
      requires search.At(free, d, bucket, id) && id < firstInvalidId
      ensures r.Some? ==> ProbeOk(search, r.value, d, firstInvalidId)
      ensures r.None? ==> search.At(free, d + 1, next, nextId) && nextId < firstInvalidId
    {
      hide TableOk, Interned, IdsRunOut, IsHash, Size, InStorage, StringAt, EndsRun, IsNew;
      SearchBucket(search, free, d, bucket, id);
      hide Search.At;
      next, nextId := AdvanceLookup(bucket, table.entries.Length), id;
      var entry := table.entries[bucket];
      if entry.Empty() {
        SearchEnd(search, free, d, bucket, id, table.contents, Stored(), hashOf);
        return Some(Free(bucket, id)), next, nextId;
      }
      InternedEntry(search.entries, table.invLogSize, table.contents, strings, Stored(), hashOf, bucket, entry);
      if entry.word.Hash() == hash {
        if GetStorage(entry.payload) == s {
          MetIsNotCutOff(search, free, d, bucket, id, firstInvalidId, table.contents, Stored(), hashOf);
          return Some(Known(entry.word)), next, nextId;
        }
        if entry.word.id >= id {
          nextId := entry.word.id + 1;
          if nextId >= firstInvalidId {
            NoIdLeft(search, free, d, bucket, id, firstInvalidId, table.contents, Stored(), hashOf);
            return Some(NoId), next, nextId;
          }
        }
      }
      SearchNext(search, free, d, bucket, id, next, nextId);
      return None, next, nextId;
    }

    lemma ProbedWord(search: Search, r: ProbeResult, d: nat, firstInvalidId: nat)
      requires Searches(search) && ProbeOk(search, r, d, firstInvalidId)
      ensures r.Known? ==> r.word in strings && strings[r.word] == search.s
    {
    }

    /** Follows the run of a hash up to the string, to the free bucket at its end, or until the ids run out. */
    method Probe(s: seq<Byte>, hash: nat, firstValidId: nat, firstInvalidId: nat, ghost search: Search)
      returns (result: ProbeResult, ghost d: nat)
      requires Valid() && s != [] && hash == hashOf(s) && firstValidId < firstInvalidId <= MAX_ID + 1
      requires search == Search(table.entries[..], table.invLogSize, strings, s, hash, firstValidId)
      ensures result.Known? ==> result.word in strings && strings[result.word] == s
      ensures ProbeOk(search, result, d, firstInvalidId)
    {
      hide TableOk, Interned, IsHash, StorageOk, Home, Search.At, ProbeOk;
      HashFits(hashOf, s);
      ghost var free := FreeBucket();
      SearchStart(search, free);
      var bucket: nat, id: nat := table.BeginLookup(hash), firstValidId;
      hide Valid, Searches;
      d := 0;
      while true
        invariant Searches(search) && search.At(free, d, bucket, id) && id < firstInvalidId
        decreases |search.entries| - d
      {
        SearchBucket(search, free, d, bucket, id);
        var r, next, nextId := ProbeBucket(s, hash, bucket, id, firstInvalidId, search, free, d);
        if r.Some? {
          ProbedWord(search, r.value, d, firstInvalidId);
          return r.value, d;
        }
        bucket, id, d := next, nextId, d + 1;
      }
    }

    /** Whether `getInIdRange` meets a word that uses up the ids before it meets the word for the string. */
    ghost predicate CutsOff(s: seq<Byte>, firstValidId: nat, firstInvalidId: nat)
      reads this, table, table.entries
    {
      IsCutOff(table.entries[..], table.invLogSize, strings, s, hashOf(s), firstValidId, firstInvalidId)
    }

    /** A string that is not interned can get a word exactly if some id of the range is free. */
    ghost predicate NoWordFor(s: seq<Byte>, firstValidId: nat, firstInvalidId: nat)
      reads this, table, table.entries
    {
      if IsUnknown(strings, s) then IdsRunOut(strings, hashOf(s), firstValidId, firstInvalidId)
      else s != [] && CutsOff(s, firstValidId, firstInvalidId)
    }

    /** The table is as it was. */
    twostate predicate Stays()
      reads this, table, table.entries
    {
      && strings == old(strings) && table.entries == old(table.entries)
      && table.entries[..] == old(table.entries[..]) && table.invLogSize == old(table.invLogSize)
    }

    /**
     The word for a string, which gets an id in the given range if it is new.  The search gives up as soon as it meets
     a word that uses up the range, even if the string is interned further behind.
     */
    method GetInIdRange(s: seq<Byte>, hash: nat, firstValidId: nat, firstInvalidId: nat) returns (r: Option<Word>)
      requires Valid() && table.CanGrow() && |s| < LENGTH_LIMIT && hash == hashOf(s)
      requires firstValidId < firstInvalidId <= MAX_ID + 1 && (hash > 0 || firstValidId > 0)
      modifies this, table, table.entries, stringStorage
      ensures Valid() && KeepsStrings(old(strings), strings)
      ensures table.entries == old(table.entries) || fresh(table.entries)
      ensures stringStorage == old(stringStorage) || fresh(stringStorage)
      ensures r.None? <==> old(NoWordFor(s, firstValidId, firstInvalidId))
      ensures s == [] ==> r == Some(EMPTY_WORD)
      ensures s != [] && r.Some? ==> IsWordFor(strings, s, r.value)
      ensures r.None? || !old(IsUnknown(strings, s)) ==> Stays()
      ensures r.Some? && old(IsUnknown(strings, s)) ==>
        && r.value !in old(strings) && strings == old(strings)[r.value := s]
        && r.value.Hash() == hash && firstValidId <= r.value.id < firstInvalidId
        && IsLowest(old(strings), hash, firstValidId, r.value.id)
    {
      hide TableOk, Interned, IsHash, IdsRunOut, EndsRun, StorageOk, IsCutOff, IsLowest;
      if s == [] {
        return Some(EMPTY_WORD);
      }
      var probe;
      ghost var d;
      ghost var search := Search(table.entries[..], table.invLogSize, strings, s, hash, firstValidId);
      probe, d := Probe(s, hash, firstValidId, firstInvalidId, search);
      match probe {
        case Known(word) =>
          return Some(word);
        case NoId =>
          return None;
        case Free(bucket, id) =>
          var word := MakeWord(id, hash);
          NewWordFits(hashOf, s, id);
          RunDoesNotRunOut(strings, hash, firstValidId, firstInvalidId, id);
          InternNew(bucket, word, s, d);
          return Some(word);
      }
    }

    /** The word for a string; a new one gets none if the last id is taken by a word with its hash. */
    method Get(s: seq<Byte>) returns (r: Option<Word>)
      requires Valid() && table.CanGrow() && |s| < LENGTH_LIMIT && (s != [] ==> hashOf(s) > 0)
      modifies this, table, table.entries, stringStorage
      ensures Valid() && KeepsStrings(old(strings), strings)
      ensures table.entries == old(table.entries) || fresh(table.entries)
      ensures stringStorage == old(stringStorage) || fresh(stringStorage)
      ensures r.None? <==> old(NoWordFor(s, 0, MAX_ID + 1))
      ensures s == [] ==> r == Some(EMPTY_WORD)
      ensures s != [] && r.Some? ==> IsWordFor(strings, s, r.value)
      ensures r.None? || !old(IsUnknown(strings, s)) ==> Stays()
      ensures r.Some? && old(IsUnknown(strings, s)) ==>
        && r.value !in old(strings) && strings == old(strings)[r.value := s]
        && r.value.Hash() == hashOf(s) && IsLowest(old(strings), hashOf(s), 0, r.value.id)
    {
      hide TableOk, Interned, IsHash, StorageOk, IsCutOff, IdsRunOut, IsLowest;
      if s == [] {
        return Some(EMPTY_WORD);
      }
      r := GetInIdRange(s, hashOf(s), 0, MAX_ID + 1);
    }

    /** A table with few words can be doubled once more, or has room. */
    lemma FewCanGrow()
      requires Valid() && |strings| <= 2
      ensures table.CanGrow()
    {
      hide TableOk, Interned, StorageOk;
      KeysInterned(table.contents, strings, Stored(), hashOf);
      TableSize(table.entries[..], table.invLogSize, table.contents);
      HalfOfAll();
    }

    lemma Twins(u: Word, w: Word)
      requires Valid() && u in strings && w in strings && strings[u] != strings[w] && u.Hash() == w.Hash()
      ensures CutsOff(strings[u], 0, 1) || CutsOff(strings[w], 0, 1)
    {
      HashFits(hashOf, strings[u]);
      OneOfTwoIsCutOff(table.entries[..], table.invLogSize, table.contents, strings, u, w, u.Hash(), 0, 1);
    }

    /** The string a word stands for. */
    method View(word: Word) returns (s: seq<Byte>)
      requires Valid() && (word.Empty() || word in strings)
      ensures s == if word.Empty() then [] else strings[word]
    {
      if word.Empty() {
        return [];
      }
      ContentsFit(table.entries[..], table.invLogSize, table.contents, word);
      hide TableOk, InStorage, StringAt, EndsRun;
      var bucket;
      var found;
      ghost var d;
      bucket, found, d := table.FindWord(word);
      assert found;
      s := GetStorage(table.entries[bucket].payload);
    }

    /** Looks at one bucket of the run for a string that is not to be interned. */
    method FindInBucket(s: seq<Byte>, hash: nat, bucket: nat, ghost id: nat, fallback: Word,
                        ghost search: Search, ghost free: nat, ghost d: nat)
      returns (r: Option<Word>, next: nat, ghost nextId: nat)
      requires Searches(search) && search.s == s && search.hash == hash
      requires search.At(free, d, bucket, id)
      ensures r.Some? ==> IsWordFor(search.strings, s, r.value) || (r.value == fallback && IsUnknown(search.strings, s))
      ensures r.None? ==> search.At(free, d + 1, next, nextId)
    {
      hide TableOk, Interned, IsHash, Size, InStorage, StringAt, EndsRun;
      SearchBucket(search, free, d, bucket, id);
      hide Search.At;
      next, nextId := AdvanceLookup(bucket, table.entries.Length), id;
      var entry := table.entries[bucket];
      if entry.Empty() {
        SearchEnd(search, free, d, bucket, id, table.contents, Stored(), hashOf);
        return Some(fallback), next, nextId;
      }
      InternedEntry(search.entries, table.invLogSize, table.contents, strings, Stored(), hashOf, bucket, entry);
      if entry.word.Hash() == hash {
        if GetStorage(entry.payload) == s {
          return Some(entry.word), next, nextId;
        }
      }
      nextId := if entry.word.Hash() == hash && entry.word.id >= id then entry.word.id + 1 else id;
      SearchNext(search, free, d, bucket, id, next, nextId);
      return None, next, nextId;
    }

    /** The word for a string if it is interned, otherwise `fallback`. */
    method FindWithHash(s: seq<Byte>, hash: nat, fallback: Word) returns (word: Word)
      requires Valid() && hash == hashOf(s)
      ensures IsWordFor(strings, s, word) || (word == fallback && (s == [] || IsUnknown(strings, s)))
    {
      hide TableOk, Interned, IsHash, StorageOk, Home, Search.At, IsWordFor, IsUnknown;
      if s == [] {
        return fallback;
      }
      HashFits(hashOf, s);
      ghost var search := Search(table.entries[..], table.invLogSize, strings, s, hash, 0);
      ghost var free := FreeBucket();
      SearchStart(search, free);
      var bucket: nat := table.BeginLookup(hash);
      ghost var id: nat, d: nat := 0, 0;
      hide Valid, Searches;
      while true
        invariant Searches(search) && search.At(free, d, bucket, id) && search.strings == strings
        decreases |search.entries| - d
      {
        SearchBucket(search, free, d, bucket, id);
        var r, next, nextId := FindInBucket(s, hash, bucket, id, fallback, search, free, d);
        if r.Some? {
          return r.value;
        }
        bucket, id, d := next, nextId, d + 1;
      }
    }
  }

  lemma KeysInterned(contents: map<Word, nat>, strings: map<Word, seq<Byte>>, storage: seq<Byte>,
                     hashOf: seq<Byte> -> nat)
    requires Interned(contents, strings, storage, hashOf)
    ensures |contents| == |strings| && contents.Keys == strings.Keys
  {
    hide InStorage, StringAt;
    assert |strings| == |strings.Keys| && |contents| == |contents.Keys|;
  }

  lemma HalfOfAll()
    ensures Pow2(31) * 2 == HASH_LIMIT
  {
    Pow2Is32();
  }

  /** Of two interned strings whose words use up a range of ids, one gets no word when looked for with the range. */
  lemma OneOfTwoIsCutOff(entries: seq<Entry>, invLogSize: nat, contents: map<Word, nat>, strings: map<Word, seq<Byte>>,
                         u: Word, w: Word, hash: nat, firstValidId: nat, firstInvalidId: nat)
    requires TableOk(entries, invLogSize, contents) && strings.Keys == contents.Keys && hash < HASH_LIMIT
    requires u in strings && w in strings && strings[u] != strings[w]
    requires UsesUp(u, hash, firstValidId, firstInvalidId) && UsesUp(w, hash, firstValidId, firstInvalidId)
    ensures IsCutOff(entries, invLogSize, strings, strings[u], hash, firstValidId, firstInvalidId)
            || IsCutOff(entries, invLogSize, strings, strings[w], hash, firstValidId, firstInvalidId)
  {
    hide Home, Reachable;
    var n, home := |entries|, Home(hash, invLogSize, |entries|);
    var i :| 0 <= i < n && entries[i].word == u;
    var j :| 0 <= j < n && entries[j].word == w;
    var d, e := Distance(home, i, n), Distance(home, j, n);
    assert Behind(home, d, n) == i && Behind(home, e, n) == j;
    assert d < e || e < d;
  }

  /** Interns two strings with one hash and looks them up in a range of one id, which fails for one of them. */
  method LookUpInterned() returns (first: Option<Word>, second: Option<Word>)
    ensures first.None? || second.None?
  {
    var table, u, w := InternTwo();
    hide *;
    first, second := LookUpTwo(table, u, w);
  }

  method InternTwo() returns (table: WordStringTable, u: Word, w: Word)
    ensures fresh(table) && fresh(table.table) && fresh(table.table.entries) && fresh(table.stringStorage)
    ensures table.Valid() && (forall s :: table.hashOf(s) == 16) && |table.strings| == 2
    ensures u in table.strings && table.strings[u] == [1] && w in table.strings && table.strings[w] == [2]
    ensures u.Hash() == w.Hash() == 16
  {
    hide TableOk, Reachable, Interned, IsCutOff, Size, WordStringTable.StorageOk, WordTable.CanGrow;
    table := new WordStringTable(_ => 16);
    table.FewCanGrow();
    var first := table.Get([1]);
    table.FewCanGrow();
    NoneTaken(table, [2]);
    var second := table.Get([2]);
    u, w := first.value, second.value;
  }

  /** One more string gets a word if the only other word with its hash has the id 0. */
  lemma NoneTaken(table: WordStringTable, s: seq<Byte>)
    requires table.Valid() && IsUnknown(table.strings, s) && forall w :: w in table.strings ==> w.id == 0
    ensures !table.NoWordFor(s, 0, MAX_ID + 1)
  {
    hide TableOk, Reachable, Interned, IsCutOff, WordStringTable.StorageOk;
  }

  method LookUpTwo(table: WordStringTable, u: Word, w: Word) returns (first: Option<Word>, second: Option<Word>)
    requires table.Valid() && (forall s :: table.hashOf(s) == 16) && |table.strings| == 2
    requires u in table.strings && table.strings[u] == [1] && w in table.strings && table.strings[w] == [2]
    requires u.Hash() == w.Hash() == 16
    modifies table, table.table, table.table.entries, table.stringStorage
    ensures first.None? || second.None?
  {
    hide TableOk, Reachable, Interned, IsCutOff, Size, WordStringTable.StorageOk, IsLowest, WordTable.CanGrow;
    table.FewCanGrow();
    table.Twins(u, w);
    first := table.GetInIdRange([1], 16, 0, 1);
    table.FewCanGrow();
    second := table.GetInIdRange([2], 16, 0, 1);
  }

  ghost predicate IsWordFor(strings: map<Word, seq<Byte>>, s: seq<Byte>, word: Word) {
    word in strings && strings[word] == s
  }

  lemma ContentsFit(entries: seq<Entry>, invLogSize: nat, contents: map<Word, nat>, w: Word)
    requires TableOk(entries, invLogSize, contents) && w in contents
    ensures w.Fits() && !w.Empty()
  {
    hide Reachable, Size;
  }

  /** A used bucket holds a word with the index of its string. */
  lemma InternedEntry(entries: seq<Entry>, invLogSize: nat, contents: map<Word, nat>, strings: map<Word, seq<Byte>>,
                      storage: seq<Byte>, hashOf: seq<Byte> -> nat, bucket: nat, entry: Entry)
    requires TableOk(entries, invLogSize, contents) && Interned(contents, strings, storage, hashOf)
    requires bucket < |entries| && entries[bucket] == entry && !entry.Empty()
    ensures entry.word in strings && entry.word.Fits() && InStorage(storage, entry.payload)
    ensures StringAt(storage, entry.payload) == strings[entry.word]
    ensures entry.word.Hash() == hashOf(strings[entry.word])
  {
    hide InStorage, StringAt;
    StoredWord(entries, invLogSize, contents, bucket);
  }

  datatype ProbeResult = Known(word: Word) | Free(bucket: nat, id: nat) | NoId

  ghost predicate IsUnknown(strings: map<Word, seq<Byte>>, s: seq<Byte>) {
    s != [] && forall u :: u in strings ==> strings[u] != s
  }

  /** The string is not interned, and all words with its hash have lower ids. */
  ghost predicate IsNew(contents: map<Word, nat>, strings: map<Word, seq<Byte>>, s: seq<Byte>, hash: nat, id: nat) {
    && (forall u :: u in strings ==> strings[u] != s && (u.Hash() == hash ==> u.id < id))
    && (id <= MAX_ID && !MakeWord(id, hash).Empty() ==> MakeWord(id, hash) !in contents)
  }

  /** The id is the first of the range, or follows that of a word with the hash. */
  ghost predicate IsLowest(strings: map<Word, seq<Byte>>, hash: nat, firstValidId: nat, id: nat) {
    id == firstValidId || exists w :: w in strings && w.Hash() == hash && w.id + 1 == id
  }

  lemma HashFits(hashOf: seq<Byte> -> nat, s: seq<Byte>)
    requires IsHash(hashOf)
    ensures hashOf(s) < HASH_LIMIT
  {
  }

  lemma NewWordFits(hashOf: seq<Byte> -> nat, s: seq<Byte>, id: nat)
    requires IsHash(hashOf) && id <= MAX_ID && (hashOf(s) > 0 || id > 0)
    ensures var w := MakeWord(id, hashOf(s));
            w.Fits() && !w.Empty() && w.id == id && w.Hash() == hashOf(s)
  {
  }

  /** The search for a string in the run of its hash. */
  datatype Search = Search(entries: seq<Entry>, invLogSize: nat, strings: map<Word, seq<Byte>>, s: seq<Byte>,
                           hash: nat, firstValidId: nat) {
    ghost predicate Valid() {
      Size(entries, invLogSize) && hash < HASH_LIMIT
    }

    ghost function Start(): (home: nat)
      requires Valid()
      ensures home < |entries|
    {
      Home(hash, invLogSize, |entries|)
    }

    ghost predicate CutOff(firstInvalidId: nat) {
      IsCutOff(entries, invLogSize, strings, s, hash, firstValidId, firstInvalidId)
    }

    /** The words in front of the d-th bucket were compared with the string, and those with its hash have lower ids. */
    ghost predicate At(free: nat, d: nat, bucket: nat, id: nat) {
      && Valid() && free < |entries| && entries[free].Empty()
      && d <= Distance(Start(), free, |entries|) && bucket == Behind(Start(), d, |entries|)
      && UsedRun(entries, Start(), d)
      && Compared(entries, strings, Start(), d, s, hash, firstValidId, id)
    }
  }

  lemma SearchStart(search: Search, free: nat)
    requires search.Valid() && free < |search.entries| && search.entries[free].Empty()
    ensures search.At(free, 0, search.Start(), search.firstValidId)
  {
  }

  lemma SearchBucket(search: Search, free: nat, d: nat, bucket: nat, id: nat)
    requires search.At(free, d, bucket, id)
    ensures bucket < |search.entries| && d < |search.entries|
  {
  }

  /** Comparing with one more word of the run. */
  lemma SearchNext(search: Search, free: nat, d: nat, bucket: nat, id: nat, next: nat, nextId: nat)
    requires search.At(free, d, bucket, id) && bucket < |search.entries| && !search.entries[bucket].Empty()
    requires search.entries[bucket].word in search.strings
    requires search.strings[search.entries[bucket].word] != search.s
    requires next == if bucket + 1 == |search.entries| then 0 else bucket + 1
    requires var w := search.entries[bucket].word;
             nextId == if w.Hash() == search.hash && w.id >= id then w.id + 1 else id
    ensures search.At(free, d + 1, next, nextId)
  {
    NextOfRun(search.entries, search.Start(), d, free);
    hide Behind, Distance, Home, UsedRun;
  }

  lemma SearchEnd(search: Search, free: nat, d: nat, bucket: nat, id: nat, contents: map<Word, nat>,
                  storage: seq<Byte>, hashOf: seq<Byte> -> nat)
    requires search.At(free, d, bucket, id) && bucket < |search.entries| && search.entries[bucket].Empty()
    requires TableOk(search.entries, search.invLogSize, contents) && search.hash == hashOf(search.s)
    requires Interned(contents, search.strings, storage, hashOf) && IsHash(hashOf)
    ensures search.firstValidId <= id
    ensures EndsRun(search.entries, search.invLogSize, search.hash, d, bucket)
    ensures IsNew(contents, search.strings, search.s, search.hash, id)
    ensures IsLowest(search.strings, search.hash, search.firstValidId, id)
  {
    hide TableOk, Interned, IsHash, IsNew, Home;
    RunWithoutString(search.entries, search.invLogSize, contents, search.strings, storage, hashOf, d, search.s,
                     search.firstValidId, id);
  }

  lemma NoIdLeft(search: Search, free: nat, d: nat, bucket: nat, id: nat, firstInvalidId: nat,
                 contents: map<Word, nat>, storage: seq<Byte>, hashOf: seq<Byte> -> nat)
    requires search.At(free, d, bucket, id) && bucket < |search.entries|
    requires search.entries[bucket].word in search.strings
    requires var w := search.entries[bucket].word;
             w.Hash() == search.hash && w.id >= id && w.id + 1 >= firstInvalidId
    requires TableOk(search.entries, search.invLogSize, contents) && search.s != []
    requires Interned(contents, search.strings, storage, hashOf)
    requires !IsWordFor(search.strings, search.s, search.entries[bucket].word)
    ensures IdsRunOut(search.strings, search.hash, search.firstValidId, firstInvalidId)
    ensures IsUnknown(search.strings, search.s) || search.CutOff(firstInvalidId)
  {
    hide Home, Reachable, UsedRun, InStorage, StringAt;
    var n, home := |search.entries|, search.Start();
    assert UsesUp(search.entries[bucket].word, search.hash, search.firstValidId, firstInvalidId);
    if !IsUnknown(search.strings, search.s) {
      var w :| w in search.strings && search.strings[w] == search.s;
      var i :| 0 <= i < n && search.entries[i].word == w;
      var c := Distance(home, i, n);
      assert Behind(home, c, n) == i;
      assert c > d;
    }
  }

  lemma RunDoesNotRunOut(strings: map<Word, seq<Byte>>, hash: nat, firstValidId: nat, firstInvalidId: nat, id: nat)
    requires id < firstInvalidId && forall u :: u in strings && u.Hash() == hash ==> u.id < id
    ensures !IdsRunOut(strings, hash, firstValidId, firstInvalidId)
  {
  }

  /** The word has the last id of the range, or one behind it. */
  predicate UsesUp(w: Word, hash: nat, firstValidId: nat, firstInvalidId: nat) {
    w.Hash() == hash && w.id >= firstValidId && w.id + 1 >= firstInvalidId
  }

  /** Some word uses up the range of ids. */
  ghost predicate IdsRunOut(strings: map<Word, seq<Byte>>, hash: nat, firstValidId: nat, firstInvalidId: nat) {
    exists w :: w in strings && UsesUp(w, hash, firstValidId, firstInvalidId)
  }

  /** In front of the word for the string, its run holds a word that uses up the range of ids. */
  ghost predicate IsCutOff(entries: seq<Entry>, invLogSize: nat, strings: map<Word, seq<Byte>>, s: seq<Byte>, hash: nat,
                           firstValidId: nat, firstInvalidId: nat) {
    && Size(entries, invLogSize) && hash < HASH_LIMIT
    && var home, n := Home(hash, invLogSize, |entries|), |entries|;
       exists e, d :: 0 <= e < d < n && IsWordFor(strings, s, entries[Behind(home, d, n)].word)
                      && UsesUp(entries[Behind(home, e, n)].word, hash, firstValidId, firstInvalidId)
  }

  /** A word that is met before the range of ids is used up is not cut off. */
  lemma MetIsNotCutOff(search: Search, free: nat, d: nat, bucket: nat, id: nat, firstInvalidId: nat,
                       contents: map<Word, nat>, storage: seq<Byte>, hashOf: seq<Byte> -> nat)
    requires search.At(free, d, bucket, id) && bucket < |search.entries| && id < firstInvalidId
    requires TableOk(search.entries, search.invLogSize, contents)
    requires Interned(contents, search.strings, storage, hashOf)
    requires IsWordFor(search.strings, search.s, search.entries[bucket].word)
    ensures !IsCutOff(search.entries, search.invLogSize, search.strings, search.s, search.hash, search.firstValidId,
                      firstInvalidId)
  {
    hide Home, Reachable, UsedRun, InStorage, StringAt;
    var n, home := |search.entries|, search.Start();
    forall e, c | 0 <= e < c < n && IsWordFor(search.strings, search.s, search.entries[Behind(home, c, n)].word)
      ensures !UsesUp(search.entries[Behind(home, e, n)].word, search.hash, search.firstValidId, firstInvalidId)
    {
      assert search.entries[Behind(home, c, n)].word == search.entries[bucket].word;
      assert Behind(home, c, n) == bucket;
      assert c == d;
    }
  }
}
