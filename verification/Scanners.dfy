/**
 The scanners of the lexer, which look at 16 bytes at once.  They find what looking at one byte after the other finds,
 and read no byte behind the padding.
 */
module Scanners {
  import opened Bytes

  const LANES := 16

  type Block = b: seq<Byte> | |b| == LANES witness [0, 0, 0, 0, 0, 0, 0, 0, 0, 0, 0, 0, 0, 0, 0, 0]

  type Mask = m: seq<bool> | |m| == LANES witness [
    false, false, false, false, false, false, false, false, false, false, false, false, false, false, false, false]

  const NUL: Byte := 0
  const NEWLINE: Byte := 10
  const RETURN: Byte := 13
  const STAR: Byte := 42
  const SLASH: Byte := 47
  const DOLLAR: Byte := 36
  const UNDERSCORE: Byte := 95

  /** A text of `n` bytes with its padding. */
  ghost predicate Padded(text: seq<Byte>, n: nat) {
    |text| == n + PADDED_STRING_PADDING && forall k :: n <= k < |text| ==> text[k] == NUL
  }

  // Vector operations

  function Load(text: seq<Byte>, position: nat): (b: Block)
    requires position + LANES <= |text|
  {
    text[position..position + LANES]
  }

  function CompareEq(b: Block, c: Byte): (m: Mask)
    ensures forall i :: 0 <= i < LANES ==> m[i] == (b[i] == c)
  {
    seq(LANES, i requires 0 <= i < LANES => b[i] == c)
  }

  function And(a: Mask, b: Mask): (m: Mask)
    ensures forall i :: 0 <= i < LANES ==> m[i] == (a[i] && b[i])
  {
    seq(LANES, i requires 0 <= i < LANES => a[i] && b[i])
  }

  function Or(a: Mask, b: Mask): (m: Mask)
    ensures forall i :: 0 <= i < LANES ==> m[i] == (a[i] || b[i])
  {
    seq(LANES, i requires 0 <= i < LANES => a[i] || b[i])
  }

  /** Moves every lane down by one, which clears the last one. */
  function ShiftDown(a: Mask): (m: Mask)
    ensures forall i :: 0 <= i < LANES ==> m[i] == (i + 1 < LANES && a[i + 1])
  {
    a[1..] + [false]
  }

  predicate IsZero(m: Mask) {
    forall i :: 0 <= i < LANES ==> !m[i]
  }

  /** Index of the first lane that is set. */
  function CountTrailingZeros(m: Mask, from: nat := 0): (n: nat)
    requires from <= LANES && forall i :: 0 <= i < from ==> !m[i]
    ensures n <= LANES && (forall i :: 0 <= i < n ==> !m[i]) && (n < LANES ==> m[n])
    decreases LANES - from
  {
    if from == LANES || m[from] then from else CountTrailingZeros(m, from + 1)
  }

  // Comments and lines

  predicate EndsBlockComment(text: seq<Byte>, position: nat)
    requires position < |text|
  {
    text[position] == NUL || (text[position] == STAR && position + 1 < |text| && text[position + 1] == SLASH)
  }

  predicate EndsLine(text: seq<Byte>, position: nat)
    requires position < |text|
  {
    text[position] == NUL || text[position] == NEWLINE || text[position] == RETURN
  }

  /** Advances to the next end of a block comment, one byte after the other. */
  method SkipToEndOfBlockCommentScalar(text: seq<Byte>, ghost n: nat, begin: nat) returns (position: nat)
    requires Padded(text, n) && begin <= n
    ensures begin <= position <= n && EndsBlockComment(text, position)
    ensures forall k :: begin <= k < position ==> !EndsBlockComment(text, k)
  {
    position := begin;
    while text[position] != NUL && !(text[position] == STAR && text[position + 1] == SLASH)
      invariant begin <= position <= n
      invariant forall k :: begin <= k < position ==> !EndsBlockComment(text, k)
      decreases n - position
    {
      position := position + 1;
    }
  }

  /**
   Advances to the next end of a block comment.  The window sees no end that begins in its last byte, so it moves on by
   15 bytes only.
   */
  method SkipToEndOfBlockComment(text: seq<Byte>, ghost n: nat, begin: nat) returns (end: nat)
    requires Padded(text, n) && begin <= n
    ensures begin <= end <= n && EndsBlockComment(text, end)
    ensures forall k :: begin <= k < end ==> !EndsBlockComment(text, k)
  {
    var position := begin;
    while true
      invariant begin <= position <= n
      invariant forall k :: begin <= k < position ==> !EndsBlockComment(text, k)
      decreases n - position
    {
      var characters := Load(text, position);
      var isSlash := CompareEq(characters, SLASH);
      var isTerminator := And(CompareEq(characters, STAR), ShiftDown(isSlash));
      var ends := Or(CompareEq(characters, NUL), isTerminator);
      CommentLanes(text, position, ends);
      if !IsZero(ends) {
        var lane := CountTrailingZeros(ends);
        forall k | position <= k < position + lane
          ensures !EndsBlockComment(text, k)
        {
          assert !ends[k - position];
        }
        assert EndsBlockComment(text, n);
        return position + lane;
      }
      assert !ends[15] && text[position + 15] != NUL;
      position := position + 15;
    }
  }

  /** The lanes that are set are the ends of comments, where the last lane only sees the end of the text. */
  lemma CommentLanes(text: seq<Byte>, position: nat, ends: Mask)
    requires position + LANES <= |text|
    requires var characters := Load(text, position);
             ends == Or(CompareEq(characters, NUL),
                        And(CompareEq(characters, STAR), ShiftDown(CompareEq(characters, SLASH))))
    ensures forall k :: position <= k < position + 15 ==> (ends[k - position] <==> EndsBlockComment(text, k))
    ensures ends[15] <==> text[position + 15] == NUL
    ensures ends[15] ==> EndsBlockComment(text, position + 15)
  {
  }

  method SkipToEndOfLineScalar(text: seq<Byte>, ghost n: nat, begin: nat) returns (position: nat)
    requires Padded(text, n) && begin <= n
    ensures begin <= position <= n && EndsLine(text, position)
    ensures forall k :: begin <= k < position ==> !EndsLine(text, k)
  {
    position := begin;
    while text[position] != NUL && text[position] != NEWLINE && text[position] != RETURN
      invariant begin <= position <= n
      invariant forall k :: begin <= k < position ==> !EndsLine(text, k)
      decreases n - position
    {
      position := position + 1;
    }
  }

  /** Advances to the next end of a line. */
  method SkipToEndOfLine(text: seq<Byte>, ghost n: nat, begin: nat) returns (end: nat)
    requires Padded(text, n) && begin <= n
    ensures begin <= end <= n && EndsLine(text, end)
    ensures forall k :: begin <= k < end ==> !EndsLine(text, k)
  {
    var position := begin;
    while true
      invariant begin <= position <= n
      invariant forall k :: begin <= k < position ==> !EndsLine(text, k)
      decreases n - position
    {
      var characters := Load(text, position);
      var ends := Or(CompareEq(characters, NUL),
                     Or(CompareEq(characters, NEWLINE), CompareEq(characters, RETURN)));
      assert forall k :: position <= k < position + LANES ==> (ends[k - position] <==> EndsLine(text, k));
      if !IsZero(ends) {
        var lane := CountTrailingZeros(ends);
        forall k | position <= k < position + lane
          ensures !EndsLine(text, k)
        {
          assert !ends[k - position];
        }
        assert EndsLine(text, n);
        return position + lane;
      }
      assert !ends[15] && text[position + 15] != NUL;
      position := position + 16;
    }
  }

  // Words

  predicate IsWordBulkCharacter(c: Byte) {
    || 97 <= c <= 122 // 'a' to 'z'
    || 65 <= c <= 90 // 'A' to 'Z'
    || 48 <= c <= 57 // '0' to '9'
    || c == UNDERSCORE || c == DOLLAR
  }

  /**
   The classes of characters with a low nibble, and with a high nibble, as bits: digits, '$', the first and the second
   half of the letters, and '_'.
   */
  const LO_NIBBLE_CLASSES: seq<bv8> :=
    [0x9, 0xD, 0xD, 0xD, 0xF, 0xD, 0xD, 0xD, 0xD, 0xD, 0xC, 0x4, 0x4, 0x4, 0x4, 0x14]
  const HI_NIBBLE_CLASSES: seq<bv8> :=
    [0x0, 0x0, 0x2, 0x1, 0x4, 0x18, 0x4, 0x8, 0x0, 0x0, 0x0, 0x0, 0x0, 0x0, 0x0, 0x0]

  /** A character belongs to a word if its nibbles have a class in common. */
  predicate HasWordClass(c: Byte) {
    LO_NIBBLE_CLASSES[(c as int) % 16] & HI_NIBBLE_CLASSES[(c as int) / 16] != 0
  }

  lemma ClassesAreWordCharacters(c: Byte)
    ensures HasWordClass(c) <==> IsWordBulkCharacter(c)
  {
    var lo, hi := (c as int) % 16, (c as int) / 16;
    assert c as int == 16 * hi + lo;
    NibbleClasses(lo, hi);
  }

  lemma NibbleClasses(lo: nat, hi: nat)
    requires lo < 16 && hi < 16
    ensures LO_NIBBLE_CLASSES[lo] & HI_NIBBLE_CLASSES[hi] != 0 <==>
      match hi
      case 2 => lo == 4
      case 3 => lo <= 9
      case 4 => lo >= 1
      case 5 => lo <= 10 || lo == 15
      case 6 => lo >= 1
      case 7 => lo <= 10
      case _ => false
  {
  }

  function NonWordCharacterMask(b: Block): (m: Mask)
  {
    seq(LANES, i requires 0 <= i < LANES => !HasWordClass(b[i]))
  }

  lemma MaskIsExact(b: Block)
    ensures forall i :: 0 <= i < LANES ==> (NonWordCharacterMask(b)[i] <==> !IsWordBulkCharacter(b[i]))
  {
    forall i | 0 <= i < LANES
      ensures NonWordCharacterMask(b)[i] <==> !IsWordBulkCharacter(b[i])
    {
      ClassesAreWordCharacters(b[i]);
    }
  }

  function Zeros(n: nat): (s: seq<Byte>)
    ensures |s| == n && forall i :: 0 <= i < n ==> s[i] == 0
  {
    seq(n, _ => 0)
  }

  /** The first `length` lanes of a block, and zeros. */
  function AndPrefix(b: Block, length: nat): (r: Block)
    requires length <= LANES
    ensures r == b[..length] + Zeros(LANES - length)
  {
    b[..length] + Zeros(LANES - length)
  }

  /** How a hash mixes in a block of characters, and what it makes of them in the end. */
  datatype Hasher<!S> = Hasher(seed: S, iterate: (S, Block) -> S, finalize: S -> nat)

  /** Full blocks first, and then the rest with zeros behind it, also if there is no rest. */
  ghost function HashFrom<S>(h: Hasher<S>, state: S, s: seq<Byte>): S
    decreases |s|
  {
    if |s| >= LANES then HashFrom(h, h.iterate(state, s[..LANES]), s[LANES..])
    else h.iterate(state, s + Zeros(LANES - |s|))
  }

  ghost function Hash<S>(h: Hasher<S>, s: seq<Byte>): nat {
    h.finalize(HashFrom(h, h.seed, s))
  }

  /** Hashes a string block by block. */
  method HashString<S>(h: Hasher<S>, s: seq<Byte>) returns (hash: nat)
    ensures hash == Hash(h, s)
  {
    var state := h.seed;
    var offset := 0;
    while offset + LANES <= |s|
      invariant offset <= |s| && HashFrom(h, state, s[offset..]) == HashFrom(h, h.seed, s)
    {
      assert s[offset..][..LANES] == s[offset..offset + LANES] && s[offset..][LANES..] == s[offset + LANES..];
      state := h.iterate(state, s[offset..offset + LANES]);
      offset := offset + LANES;
    }
    var finalBlock := s[offset..] + Zeros(LANES - (|s| - offset));
    state := h.iterate(state, finalBlock);
    hash := h.finalize(state);
  }

  /** `end` is behind the word characters from `begin` on. */
  ghost predicate IsWordEnd(text: seq<Byte>, begin: nat, end: nat) {
    && begin <= end < |text| && !IsWordBulkCharacter(text[end])
    && forall k :: begin <= k < end ==> IsWordBulkCharacter(text[k])
  }

  lemma WordEndIsUnique(text: seq<Byte>, begin: nat, a: nat, b: nat)
    requires IsWordEnd(text, begin, a) && IsWordEnd(text, begin, b)
    ensures a == b
  {
  }

  /** The end of a word, of which the first character may be any. */
  ghost predicate EndsWord(text: seq<Byte>, begin: nat, end: nat) {
    && begin < |text| && IsWordEnd(text, begin + 1, end)
    && (IsWordBulkCharacter(text[begin]) ==> IsWordEnd(text, begin, end))
  }

  /** Scans a word one byte after the other. */
  method ScanWordScalar(text: seq<Byte>, ghost n: nat, begin: nat) returns (position: nat)
    requires Padded(text, n) && begin < n
    ensures EndsWord(text, begin, position) && position <= n
  {
    position := begin + 1;
    while IsWordBulkCharacter(text[position])
      invariant begin < position <= n
      invariant forall k :: begin < k < position ==> IsWordBulkCharacter(text[k])
      decreases n - position
    {
      position := position + 1;
    }
  }

  /** Advances behind the word characters, block by block. */
  method SkipWordCharacters(text: seq<Byte>, ghost n: nat, begin: nat) returns (end: nat)
    requires Padded(text, n) && begin <= n
    ensures IsWordEnd(text, begin, end) && end <= n
  {
    hide IsWordBulkCharacter, NonWordCharacterMask, AndPrefix;
    var position := begin;
    while true
      invariant begin <= position <= n && AllWordCharacters(text, begin, position)
      decreases n - position
    {
      var nonWordCharacters := NonWordCharacterMask(Load(text, position));
      if !IsZero(nonWordCharacters) {
        var lane := CountTrailingZeros(nonWordCharacters);
        WordTail(text, n, position, lane);
        WordEndBehind(text, begin, position, position + lane);
        return position + lane;
      }
      FullBlock(text, n, begin, position);
      position := position + LANES;
    }
  }

  /** Scans a word without hashing it, and ends where looking at one byte after the other ends. */
  method ScanWord(text: seq<Byte>, ghost n: nat, begin: nat) returns (end: nat)
    requires Padded(text, n) && begin < n
    ensures EndsWord(text, begin, end) && end <= n
    ensures forall position :: EndsWord(text, begin, position) ==> position == end
  {
    end := SkipWordCharacters(text, n, begin + 1);
    forall position | EndsWord(text, begin, position)
      ensures position == end
    {
      WordEndIsUnique(text, begin + 1, position, end);
    }
  }

  /** Scans a word that fills its first block, and hashes it along the way. */
  method ScanAndHashLongWord<S(!new)>(h: Hasher<S>, text: seq<Byte>, ghost n: nat, begin: nat, firstBlock: Block)
    returns (end: nat, hash: nat)
    requires Padded(text, n) && begin <= n && firstBlock == Load(text, begin)
    requires IsZero(NonWordCharacterMask(firstBlock))
    ensures IsWordEnd(text, begin, end) && end <= n && hash == Hash(h, text[begin..end])
  {
    hide HashFrom, IsWordBulkCharacter, Hash, AndPrefix, NonWordCharacterMask, Zeros;
    var state, position, block := h.seed, begin, firstBlock;
    var terminatorMask := NonWordCharacterMask(block);
    while IsZero(terminatorMask)
      invariant begin <= position <= n && block == Load(text, position)
      invariant terminatorMask == NonWordCharacterMask(block)
      invariant AllWordCharacters(text, begin, position)
      invariant Hashed(h, state, text, begin, position)
      decreases n - position
    {
      FullBlock(text, n, begin, position);
      HashedBlock(h, state, text, begin, position);
      state := h.iterate(state, block);
      position := position + LANES;
      block := Load(text, position);
      terminatorMask := NonWordCharacterMask(block);
    }
    var tailSize := CountTrailingZeros(terminatorMask);
    WordTail(text, n, position, tailSize);
    HashedTail(h, state, text, begin, position, tailSize);
    WordEndBehind(text, begin, position, position + tailSize);
    state := h.iterate(state, AndPrefix(block, tailSize));
    HashIsFinal(h, text[begin..position + tailSize]);
    return position + tailSize, h.finalize(state);
  }

  /** The blocks from `begin` to `position` were hashed, whatever comes next. */
  ghost predicate Hashed<S(!new)>(h: Hasher<S>, state: S, text: seq<Byte>, begin: nat, position: nat) {
    begin <= position <= |text| && forall end :: position <= end <= |text| ==>
      HashFrom(h, state, text[position..end]) == HashFrom(h, h.seed, text[begin..end])
  }

  /** Finds the end of a word block by block, and hashes the same blocks on the way. */
  method ScanAndHashWord<S(!new)>(h: Hasher<S>, text: seq<Byte>, ghost n: nat, begin: nat) returns (end: nat, hash: nat)
    requires Padded(text, n) && begin <= n
    ensures IsWordEnd(text, begin, end) && end <= n && hash == Hash(h, text[begin..end])
  {
    hide HashFrom, IsWordBulkCharacter, Hash, AndPrefix, NonWordCharacterMask, Zeros;
    var block := Load(text, begin);
    var terminators := NonWordCharacterMask(block);
    if IsZero(terminators) {
      end, hash := ScanAndHashLongWord(h, text, n, begin, block);
      return;
    }
    var length := CountTrailingZeros(terminators);
    WordTail(text, n, begin, length);
    HashedTail(h, h.seed, text, begin, begin, length);
    var state := h.iterate(h.seed, AndPrefix(block, length));
    HashIsFinal(h, text[begin..begin + length]);
    return begin + length, h.finalize(state);
  }

  /** A block of word characters does not reach into the padding. */
  lemma FullBlock(text: seq<Byte>, n: nat, begin: nat, position: nat)
    requires Padded(text, n) && position <= n && IsZero(NonWordCharacterMask(Load(text, position)))
    requires AllWordCharacters(text, begin, position)
    ensures position + LANES <= n && AllWordCharacters(text, begin, position + LANES)
  {
    var block := Load(text, position);
    MaskIsExact(block);
    forall k | position <= k < position + LANES
      ensures IsWordBulkCharacter(text[k])
    {
      assert !NonWordCharacterMask(block)[k - position];
    }
    assert IsWordBulkCharacter(text[position + 15]);
  }

  ghost predicate AllWordCharacters(text: seq<Byte>, begin: nat, end: nat) {
    begin <= end <= |text| && forall k :: begin <= k < end ==> IsWordBulkCharacter(text[k])
  }

  lemma WordEndBehind(text: seq<Byte>, begin: nat, position: nat, end: nat)
    requires AllWordCharacters(text, begin, position) && IsWordEnd(text, position, end)
    ensures IsWordEnd(text, begin, end)
  {
  }

  lemma HashIsFinal<S>(h: Hasher<S>, s: seq<Byte>)
    ensures Hash(h, s) == h.finalize(HashFrom(h, h.seed, s))
  {
  }

  lemma PrefixOfBlock(text: seq<Byte>, position: nat, length: nat)
    requires position + LANES <= |text| && length <= LANES
    ensures AndPrefix(Load(text, position), length) == text[position..position + length] + Zeros(LANES - length)
  {
    hide Zeros;
    assert Load(text, position)[..length] == text[position..position + length];
  }

  lemma WordTail(text: seq<Byte>, n: nat, position: nat, tailSize: nat)
    requires Padded(text, n) && position <= n && !IsZero(NonWordCharacterMask(Load(text, position)))
    requires tailSize == CountTrailingZeros(NonWordCharacterMask(Load(text, position)))
    ensures tailSize < LANES && position + tailSize <= n && IsWordEnd(text, position, position + tailSize)
    ensures AndPrefix(Load(text, position), tailSize) == text[position..position + tailSize] + Zeros(LANES - tailSize)
  {
    var block := Load(text, position);
    MaskIsExact(block);
    PrefixOfBlock(text, position, tailSize);
    assert !IsWordBulkCharacter(text[n]);
    hide *;
    FirstNonWord(text, position, NonWordCharacterMask(block), tailSize);
    assert position + tailSize <= n;
  }

  lemma FirstNonWord(text: seq<Byte>, position: nat, m: Mask, lane: nat)
    requires position + LANES <= |text| && lane < LANES && m[lane] && forall i :: 0 <= i < lane ==> !m[i]
    requires forall i :: 0 <= i < LANES ==> (m[i] <==> !IsWordBulkCharacter(Load(text, position)[i]))
    ensures IsWordEnd(text, position, position + lane)
    ensures forall k :: position <= k < position + lane ==> IsWordBulkCharacter(text[k])
  {
    hide IsWordBulkCharacter;
    forall k | position <= k < position + lane
      ensures IsWordBulkCharacter(text[k])
    {
      assert !m[k - position];
    }
  }

  lemma HashedBlock<S(!new)>(h: Hasher<S>, state: S, text: seq<Byte>, begin: nat, position: nat)
    requires Hashed(h, state, text, begin, position) && position + LANES <= |text|
    ensures Hashed(h, h.iterate(state, Load(text, position)), text, begin, position + LANES)
  {
    forall end | position + LANES <= end <= |text|
      ensures HashFrom(h, h.iterate(state, Load(text, position)), text[position + LANES..end])
           == HashFrom(h, h.seed, text[begin..end])
    {
      var s := text[position..end];
      assert s[..LANES] == Load(text, position) && s[LANES..] == text[position + LANES..end];
      assert HashFrom(h, state, s) == HashFrom(h, h.seed, text[begin..end]);
    }
  }

  lemma HashedTail<S(!new)>(h: Hasher<S>, state: S, text: seq<Byte>, begin: nat, position: nat, tailSize: nat)
    requires begin <= position <= |text| && (position == begin ==> state == h.seed)
    requires position > begin ==> Hashed(h, state, text, begin, position)
    requires tailSize < LANES && position + LANES <= |text|
    requires AndPrefix(Load(text, position), tailSize) == text[position..position + tailSize] + Zeros(LANES - tailSize)
    ensures h.iterate(state, AndPrefix(Load(text, position), tailSize))
         == HashFrom(h, h.seed, text[begin..position + tailSize])
  {
    var s := text[position..position + tailSize];
    assert HashFrom(h, state, s) == h.iterate(state, s + Zeros(LANES - |s|));
    if position > begin {
      assert HashFrom(h, state, s) == HashFrom(h, h.seed, text[begin..position + tailSize]);
    }
  }
}
