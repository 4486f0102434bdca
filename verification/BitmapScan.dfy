/** The scans over whole bitmaps (crash/types/bitmap.py). */
module BitmapScan {
  import opened Bitmap

  /** Position p of the bitmap is set. */
  ghost predicate IsSet(words: seq<Word>, p: nat) {
    p / 64 < |words| && Bit(words[p / 64], p % 64)
  }

  lemma PositionParts(n: nat, i: nat)
    requires i < 64
    ensures (n * 64 + i) / 64 == n && (n * 64 + i) % 64 == i
  {
  }

  lemma SetInWord(words: seq<Word>, n: nat, i: nat)
    requires n < |words| && i < 64
    ensures IsSet(words, n * 64 + i) <==> Bit(words[n], i)
  {
    PositionParts(n, i);
  }

  ghost predicate Increasing(xs: seq<nat>) {
    forall i, j :: 0 <= i < j < |xs| ==> xs[i] < xs[j]
  }

  /** `bits` lists exactly the set positions below `end`, lowest first. */
  ghost predicate Lists(words: seq<Word>, end: nat, bits: seq<nat>) {
    Increasing(bits) && forall p: nat :: p in bits <==> p < end && IsSet(words, p)
  }

  lemma ListsNext(words: seq<Word>, end: nat, bits: seq<nat>)
    requires Lists(words, end, bits)
    ensures Lists(words, end + 1, if IsSet(words, end) then bits + [end] else bits)
  {
    var next := if IsSet(words, end) then bits + [end] else bits;
    forall i | 0 <= i < |bits| ensures bits[i] < end {
      assert bits[i] in bits;
    }
    forall p: nat ensures p in next <==> p < end + 1 && IsSet(words, p) {
      assert p in bits <==> p < end && IsSet(words, p);
    }
  }

  lemma ListsClearWord(words: seq<Word>, idx: nat, end: nat, bits: seq<nat>)
    requires Lists(words, 64 * idx, bits) && idx < |words| && words[idx] == 0
    requires 64 * idx <= end <= 64 * idx + 64
    ensures Lists(words, end, bits)
  {
    Low64(words[idx]);
    forall p: nat ensures p in bits <==> p < end && IsSet(words, p) {
      if 64 * idx <= p < end {
        assert p / 64 == idx && p % 64 < 64;
        assert !Bit(words[idx], p % 64);
      }
    }
  }

  /** `for_each_set_bit`, for any size in bytes that the words cover. */
  method ForEachSetBit(words: seq<Word>, sizeInBytes: nat) returns (bits: seq<nat>)
    requires sizeInBytes <= 8 * |words|
    ensures Lists(words, 8 * sizeInBytes, bits)
  {
    bits := [];
    var size: int := sizeInBytes * 8;
    ghost var total := size;
    var idx, bit := 0, 0;
    while size > 0
      invariant size == total - 64 * idx && 0 <= idx <= |words|
      invariant size > 0 ==> bit == 64 * idx
      invariant Lists(words, if size > 0 then 64 * idx else total, bits)
    {
      ghost var end := if size < 64 then total else 64 * idx + 64;
      if words[idx] != 0 {
        bits, bit := SetBitsOfWord(words, idx, if size < 64 then size else 64, bits);
      } else {
        ListsClearWord(words, idx, end, bits);
        bit := bit + 64;
      }
      assert Lists(words, end, bits);
      size := size - 64;
      idx := idx + 1;
    }
  }

  /** The lowest bit of a word moved down by `off`, and the word moved down once
      more. */
  lemma BitOfWord(words: seq<Word>, idx: nat, ulong: Word, off: nat)
    requires idx < |words| && off < 64 && Shifted(words[idx], ulong, off)
    ensures ulong & 1 != 0 <==> IsSet(words, 64 * idx + off)
    ensures Shifted(words[idx], ulong >> 1, off + 1)
  {
    SetInWord(words, idx, off);
    assert ShiftedAt(words[idx], ulong, off, 0);
    BottomBit(ulong);
    Shr1(ulong);
    ShiftTwice(words[idx], ulong, ulong >> 1, off, 1);
  }

  /** The bits of one word, lowest first. */
  method SetBitsOfWord(words: seq<Word>, idx: nat, count: nat, before: seq<nat>) returns (bits: seq<nat>, bit: nat)
    requires idx < |words| && count <= 64 && Lists(words, 64 * idx, before)
    ensures bit == 64 * idx + count && Lists(words, bit, bits)
  {
    bits, bit := before, 64 * idx;
    var ulong := words[idx];
    var off := 0;
    forall i: nat ensures ShiftedAt(words[idx], ulong, 0, i) { }
    while off < count
      invariant 0 <= off <= count && bit == 64 * idx + off
      invariant Shifted(words[idx], ulong, off)
      invariant Lists(words, bit, bits)
    {
      BitOfWord(words, idx, ulong, off);
      ListsNext(words, bit, bits);
      if ulong & 1 != 0 {
        bits := bits + [bit];
      }
      bit := bit + 1;
      ulong := ulong >> 1;
      off := off + 1;
    }
  }

  // ----- Looking for one bit; results are counted from 1, and 0 means none -----

  /** r names the least set position at or after start. */
  ghost predicate IsNext(words: seq<Word>, start: nat, r: nat) {
    && (r == 0 ==> forall p: nat :: start <= p ==> !IsSet(words, p))
    && (r > 0 ==> start <= r - 1 && IsSet(words, r - 1) && forall p: nat :: start <= p < r - 1 ==> !IsSet(words, p))
  }

  /** The words from a up to b are all zero. */
  ghost predicate ZeroWords(words: seq<Word>, a: nat, b: nat) {
    forall m :: a <= m < b && m < |words| ==> words[m] == 0
  }

  /** What the scan looks at from `start` on: a zero word does not clear the offset
      into the starting word, so the first word after it that is not zero is looked
      at only from that offset on. */
  ghost predicate Looked(words: seq<Word>, start: nat, p: nat) {
    start <= p && (ZeroWords(words, start / 64, p / 64) ==> start % 64 <= p % 64)
  }

  /** r names the least set position that is looked at. */
  ghost predicate IsNextLooked(words: seq<Word>, start: nat, r: nat) {
    && (r == 0 ==> forall p: nat :: Looked(words, start, p) ==> !IsSet(words, p))
    && (r > 0 ==>
          && Looked(words, start, r - 1) && IsSet(words, r - 1)
          && forall p: nat :: Looked(words, start, p) && p < r - 1 ==> !IsSet(words, p))
  }

  /** The inputs on which a scan misses bits: the words from the starting word up to
      some later one are zero, and that one has a set bit below the offset. */
  ghost predicate Misses(words: seq<Word>, start: nat) {
    exists n, i :: MissesAt(words, start, n, i)
  }

  ghost predicate MissesAt(words: seq<Word>, start: nat, n: nat, i: nat) {
    start / 64 < n < |words| && ZeroWords(words, start / 64, n) && i < start % 64 && Bit(words[n], i)
  }

  /** `find_next_set_bit` does what it promises exactly outside those inputs. */
  lemma NextIsRightIff(words: seq<Word>, start: nat, r: nat)
    requires IsNextLooked(words, start, r)
    ensures IsNext(words, start, r) <==> !Misses(words, start)
  {
    if Misses(words, start) {
      var n, i :| MissesAt(words, start, n, i);
      SetInWord(words, n, i);
      PositionParts(n, i);
      var p := n * 64 + i;
      assert start <= p && IsSet(words, p) && !Looked(words, start, p);
      if r > 0 {
        MissedFirst(words, start, p, r - 1);
      }
    } else {
      forall p: nat | start <= p && IsSet(words, p) ensures Looked(words, start, p) {
        assert Looked(words, start, p) || MissesAt(words, start, p / 64, p % 64);
      }
    }
  }

  /** A bitmap of two words, the first of them zero: from position 1 on, the scan
      does not see the bit at position 64. */
  lemma MissedBit()
    ensures var words: seq<Word> := [0, 1];
            IsSet(words, 64) && Misses(words, 1) && IsNextLooked(words, 1, 0) && !IsNext(words, 1, 0)
  {
    var words: seq<Word> := [0, 1];
    Low64(words[0]);
    assert Bit(words[1], 0);
    assert MissesAt(words, 1, 1, 0);
    forall p: nat | Looked(words, 1, p) ensures !IsSet(words, p) {
      OneBit(p % 64);
      assert p / 64 == 1 ==> ZeroWords(words, 0, 1) && p % 64 >= 1;
    }
    assert IsSet(words, 64);
  }

  lemma OneBit(i: nat)
    ensures Bit(1, i) <==> i == 0
  {
    if i > 0 {
      var w: Word := 1 >> 1;
      Lower(1, w, i);
      ZeroBits(i - 1);
    }
  }

  /** A missed bit comes before everything that is looked at and set. */
  lemma MissedFirst(words: seq<Word>, start: nat, p: nat, q: nat)
    requires start <= p && IsSet(words, p) && !Looked(words, start, p)
    requires Looked(words, start, q) && IsSet(words, q)
    ensures p < q
  {
    if q / 64 < p / 64 {
      assert q / 64 >= start / 64;
      assert words[q / 64] == 0;
      Low64(words[q / 64]);
    }
  }

  /** In particular it is right from a word boundary on, and whenever the starting
      word is not zero. */
  lemma NothingMissed(words: seq<Word>, start: nat)
    requires start % 64 == 0 || start / 64 >= |words| || words[start / 64] != 0
    ensures !Misses(words, start)
  {
  }

  datatype Result = Position(value: nat) | IndexError

  /** The word the scans look at: `find_next_zero_bit` complements it first. */
  function Item(w: Word, zeros: bool): Word {
    if zeros then !w else w
  }

  /** The bitmap in which the bits looked for are the set ones. */
  ghost function Items(words: seq<Word>, zeros: bool): (r: seq<Word>)
    ensures |r| == |words| && forall n :: 0 <= n < |words| ==> r[n] == Item(words[n], zeros)
  {
    seq(|words|, n requires 0 <= n < |words| => Item(words[n], zeros))
  }

  /** Nothing that is looked at is set in the words before n. */
  ghost predicate NoneBefore(words: seq<Word>, start: nat, n: nat) {
    forall p: nat :: Looked(words, start, p) && p / 64 < n ==> !IsSet(words, p)
  }

  /** The offset in force at word n. */
  ghost predicate OffsetAt(words: seq<Word>, start: nat, n: nat, offset: nat) {
    offset == if ZeroWords(words, start / 64, n) then start % 64 else 0
  }

  lemma LookedInWord(words: seq<Word>, start: nat, n: nat, i: nat, offset: nat)
    requires start / 64 <= n && i < 64 && OffsetAt(words, start, n, offset)
    ensures Looked(words, start, n * 64 + i) <==> offset <= i
  {
    PositionParts(n, i);
  }

  lemma ZeroWordSkipped(words: seq<Word>, start: nat, n: nat, offset: nat)
    requires start / 64 <= n < |words| && words[n] == 0
    requires NoneBefore(words, start, n) && OffsetAt(words, start, n, offset)
    ensures NoneBefore(words, start, n + 1) && OffsetAt(words, start, n + 1, offset)
  {
    Low64(words[n]);
  }

  /** The first bit found in a word that is not zero, or none at or above the offset. */
  lemma WordScanned(words: seq<Word>, start: nat, n: nat, offset: nat, item: Word, v: nat)
    requires start / 64 <= n < |words| && words[n] != 0 && offset < 64
    requires NoneBefore(words, start, n) && OffsetAt(words, start, n, offset)
    requires forall i: nat :: i < 64 ==> (Bit(item, i) <==> offset <= i && Bit(words[n], i))
    requires IsFirst(item, v)
    ensures v > 0 ==> IsNextLooked(words, start, n * 64 + v)
    ensures v == 0 ==> NoneBefore(words, start, n + 1) && OffsetAt(words, start, n + 1, 0)
  {
    if v > 0 {
      LookedInWord(words, start, n, v - 1, offset);
      SetInWord(words, n, v - 1);
      forall p: nat | Looked(words, start, p) && p < n * 64 + v - 1 ensures !IsSet(words, p) {
        if p / 64 == n {
          LookedInWord(words, start, n, p % 64, offset);
          assert !Bit(item, p % 64);
        }
      }
    } else {
      Low64(item);
      forall p: nat | Looked(words, start, p) && p / 64 < n + 1 ensures !IsSet(words, p) {
        if p / 64 == n {
          LookedInWord(words, start, n, p % 64, offset);
          assert !Bit(item, p % 64);
        }
      }
    }
  }

  /** The search in one word that is not zero. */
  method ScanWord(ghost words: seq<Word>, ghost start: nat, ghost n: nat, offset: nat, w: Word) returns (v: nat)
    requires start / 64 <= n < |words| && words[n] == w != 0 && offset < 64
    requires NoneBefore(words, start, n) && OffsetAt(words, start, n, offset)
    ensures v > 0 ==> IsNextLooked(words, start, n * 64 + v)
    ensures v == 0 ==> NoneBefore(words, start, n + 1) && OffsetAt(words, start, n + 1, 0)
  {
    var item := w;
    if offset > 0 {
      item := item & MaskFrom(offset);
      forall i: nat | i < 64 ensures Bit(item, i) <==> offset <= i && Bit(w, i) {
        MaskedBits(w, offset, i);
      }
    }
    v := FirstSetBitOfWord(item);
    WordScanned(words, start, n, offset, item, v);
  }

  /** `find_next_set_bit` and `find_next_zero_bit`.  `words` are the whole words in
      the size given; bytes past them count only for the range of `start`. */
  method FindNext(words: seq<Word>, sizeInBytes: nat, start: nat, zeros: bool) returns (r: Result)
    requires |words| == sizeInBytes / 8
    ensures r.IndexError? <==> start > 8 * sizeInBytes
    ensures r.Position? ==> IsNextLooked(Items(words, zeros), start, r.value)
  {
    if start > 8 * sizeInBytes {
      return IndexError;
    }
    ghost var items := Items(words, zeros);
    var offset: nat := start % 64;
    var n := start / 64;
    while n < |words|
      invariant start / 64 <= n <= |words| && offset < 64
      invariant NoneBefore(items, start, n) && OffsetAt(items, start, n, offset)
    {
      var item := Item(words[n], zeros);
      if item == 0 {
        ZeroWordSkipped(items, start, n, offset);
      } else {
        var v := ScanWord(items, start, n, offset, item);
        if v > 0 {
          return Position(n * 64 + v);
        }
        offset := 0;
      }
      n := n + 1;
    }
    r := Position(0);
  }

  /** `find_first_set_bit`: one more than the least set position. */
  method FindFirstSetBit(words: seq<Word>) returns (r: nat)
    ensures IsNext(words, 0, r)
  {
    var res := FindNext(words, 8 * |words|, 0, false);
    assert Items(words, false) == words;
    NothingMissed(words, 0);
    NextIsRightIff(words, 0, res.value);
    r := res.value;
  }

  /** `find_first_zero_bit`: one more than the least position that is not set. */
  method FindFirstZeroBit(words: seq<Word>) returns (r: nat)
    ensures r == 0 ==> forall p: nat :: p < 64 * |words| ==> IsSet(words, p)
    ensures r > 0 ==> r <= 64 * |words| && !IsSet(words, r - 1) && forall p: nat :: p < r - 1 ==> IsSet(words, p)
  {
    var res := FindNext(words, 8 * |words|, 0, true);
    ghost var items := Items(words, true);
    NothingMissed(items, 0);
    NextIsRightIff(items, 0, res.value);
    forall p: nat | p < 64 * |words| ensures IsSet(items, p) <==> !IsSet(words, p) {
      BitNot(words[p / 64], p % 64);
    }
    r := res.value;
  }

  /** `find_last_set_bit`: one more than the greatest set position. */
  method FindLastSetBit(words: seq<Word>) returns (r: nat)
    ensures r == 0 ==> forall p: nat :: !IsSet(words, p)
    ensures r > 0 ==> IsSet(words, r - 1) && forall p: nat :: r <= p ==> !IsSet(words, p)
  {
    var n := |words|;
    while n > 0
      invariant 0 <= n <= |words|
      invariant forall p: nat :: n <= p / 64 ==> !IsSet(words, p)
    {
      n := n - 1;
      if words[n] == 0 {
        Low64(words[n]);
      } else {
        var v := LastSetBitOfWord(words[n]);
        SetInWord(words, n, v - 1);
        return n * 64 + v;
      }
    }
    return 0;
  }

  /** The three agree: first and last set bit are the ends of the listing. */
  lemma EndsOfListing(words: seq<Word>, bits: seq<nat>, first: nat, last: nat)
    requires Lists(words, 64 * |words|, bits) && IsNext(words, 0, first)
    requires last == 0 ==> forall p: nat :: !IsSet(words, p)
    requires last > 0 ==> IsSet(words, last - 1) && forall p: nat :: last <= p ==> !IsSet(words, p)
    ensures first == if bits == [] then 0 else bits[0] + 1
    ensures last == if bits == [] then 0 else bits[|bits| - 1] + 1
  {
    if bits != [] {
      assert bits[0] in bits && bits[|bits| - 1] in bits;
      assert first > 0 && last > 0;
      assert first - 1 in bits && last - 1 in bits;
      var i :| 0 <= i < |bits| && bits[i] == first - 1;
      var j :| 0 <= j < |bits| && bits[j] == last - 1;
    } else {
      assert first > 0 ==> first - 1 in bits;
      assert last > 0 ==> last - 1 in bits;
    }
  }
}
