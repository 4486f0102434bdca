/** Bitmap scans (crash/types/bitmap.py) over arrays of 64-bit `unsigned long`. */
module Bitmap {

  type Word = bv64

  const WORD_BITS: nat := 64

  /** Bit i of a word, by shifting it down to the bottom. */
  predicate Bit(w: Word, i: nat) {
    if i == 0 then w & 1 == 1 else Bit(w >> 1, i - 1)
  }

  // ----- Shifts -----

  ghost predicate ShiftedAt(w: Word, v: Word, n: nat, i: nat) {
    Bit(v, i) == Bit(w, i + n)
  }

  /** v is w moved down by n bits. */
  ghost predicate Shifted(w: Word, v: Word, n: nat) {
    forall i: nat :: ShiftedAt(w, v, n, i)
  }

  lemma ShiftTwice(w: Word, v: Word, u: Word, n: nat, m: nat)
    requires Shifted(w, v, n) && Shifted(v, u, m)
    ensures Shifted(w, u, n + m)
  {
    var k := n + m;
    forall i: nat ensures ShiftedAt(w, u, k, i) {
      assert ShiftedAt(v, u, m, i) && ShiftedAt(w, v, n, i + m);
    }
  }

  lemma Shr1(w: Word)
    ensures Shifted(w, w >> 1, 1)
  {
    var v := w >> 1;
    forall i: nat ensures ShiftedAt(w, v, 1, i) {
      assert Bit(w, i + 1) == Bit(v, i);
    }
  }

  lemma Shr2(w: Word)
    ensures Shifted(w, w >> 2, 2)
  {
    assert w >> 2 == (w >> 1) >> 1;
    Shr1(w);
    Shr1(w >> 1);
    ShiftTwice(w, w >> 1, w >> 2, 1, 1);
  }

  lemma Shr4(w: Word)
    ensures Shifted(w, w >> 4, 4)
  {
    assert w >> 4 == (w >> 2) >> 2;
    Shr2(w);
    Shr2(w >> 2);
    ShiftTwice(w, w >> 2, w >> 4, 2, 2);
  }

  lemma Shr8(w: Word)
    ensures Shifted(w, w >> 8, 8)
  {
    assert w >> 8 == (w >> 4) >> 4;
    Shr4(w);
    Shr4(w >> 4);
    ShiftTwice(w, w >> 4, w >> 8, 4, 4);
  }

  lemma Shr16(w: Word)
    ensures Shifted(w, w >> 16, 16)
  {
    assert w >> 16 == (w >> 8) >> 8;
    Shr8(w);
    Shr8(w >> 8);
    ShiftTwice(w, w >> 8, w >> 16, 8, 8);
  }

  lemma Shr32(w: Word)
    ensures Shifted(w, w >> 32, 32)
  {
    assert w >> 32 == (w >> 16) >> 16;
    Shr16(w);
    Shr16(w >> 16);
    ShiftTwice(w, w >> 16, w >> 32, 16, 16);
  }

  lemma Shr48(w: Word)
    ensures Shifted(w, w >> 48, 48)
  {
    assert w >> 48 == (w >> 32) >> 16;
    Shr32(w);
    Shr16(w >> 32);
    ShiftTwice(w, w >> 32, w >> 48, 32, 16);
  }

  lemma Shr56(w: Word)
    ensures Shifted(w, w >> 56, 56)
  {
    assert w >> 56 == (w >> 48) >> 8;
    Shr48(w);
    Shr8(w >> 48);
    ShiftTwice(w, w >> 48, w >> 56, 48, 8);
  }

  lemma Shr60(w: Word)
    ensures Shifted(w, w >> 60, 60)
  {
    assert w >> 60 == (w >> 56) >> 4;
    Shr56(w);
    Shr4(w >> 56);
    ShiftTwice(w, w >> 56, w >> 60, 56, 4);
  }

  lemma Shr62(w: Word)
    ensures Shifted(w, w >> 62, 62)
  {
    assert w >> 62 == (w >> 60) >> 2;
    Shr60(w);
    Shr2(w >> 60);
    ShiftTwice(w, w >> 60, w >> 62, 60, 2);
  }

  lemma Shr63(w: Word)
    ensures Shifted(w, w >> 63, 63)
  {
    assert w >> 63 == (w >> 62) >> 1;
    Shr62(w);
    Shr1(w >> 62);
    ShiftTwice(w, w >> 62, w >> 63, 62, 1);
  }

  lemma BottomBit(w: Word)
    ensures w & 1 != 0 <==> Bit(w, 0)
  {
    assert w & 1 == 0 || w & 1 == 1;
  }

  lemma {:induction false} ZeroBits(i: nat)
    ensures !Bit(0, i)
  {
    if i > 0 {
      assert (0 as Word) >> 1 == 0;
      ZeroBits(i - 1);
    }
  }

  /** There is nothing above the top bit. */
  lemma AboveTop(w: Word, i: nat)
    requires WORD_BITS <= i
    ensures !Bit(w, i)
  {
    Shr32(w);
    Shr32(w >> 32);
    assert (w >> 32) >> 32 == 0;
    ShiftTwice(w, w >> 32, 0, 32, 32);
    assert ShiftedAt(w, 0, 64, i - 64);
    ZeroBits(i - 64);
  }

  // ----- Clear low bits -----

  ghost predicate LowClear(w: Word, n: nat) {
    forall i :: 0 <= i < n ==> !Bit(w, i)
  }

  lemma LowJoin(w: Word, v: Word, n: nat, m: nat)
    requires Shifted(w, v, n)
    ensures LowClear(w, n + m) <==> LowClear(w, n) && LowClear(v, m)
  {
    if LowClear(w, n) && LowClear(v, m) {
      forall i | 0 <= i < n + m ensures !Bit(w, i) {
        assert i >= n ==> ShiftedAt(w, v, n, i - n);
      }
    }
    if LowClear(w, n + m) {
      forall i | 0 <= i < m ensures !Bit(v, i) {
        assert ShiftedAt(w, v, n, i);
      }
    }
  }

  lemma Low1(w: Word)
    ensures w & 0x1 == 0 <==> LowClear(w, 1)
  {
    assert Bit(w, 0) <==> w & 1 == 1;
    assert w & 1 == 0 || w & 1 == 1;
  }

  lemma Low2(w: Word)
    ensures w & 0x3 == 0 <==> LowClear(w, 2)
  {
    assert w & 0x3 == 0 <==> w & 0x1 == 0 && (w >> 1) & 0x1 == 0;
    Low1(w);
    Low1(w >> 1);
    Shr1(w);
    LowJoin(w, w >> 1, 1, 1);
  }

  lemma Low4(w: Word)
    ensures w & 0xf == 0 <==> LowClear(w, 4)
  {
    assert w & 0xf == 0 <==> w & 0x3 == 0 && (w >> 2) & 0x3 == 0;
    Low2(w);
    Low2(w >> 2);
    Shr2(w);
    LowJoin(w, w >> 2, 2, 2);
  }

  lemma Low8(w: Word)
    ensures w & 0xff == 0 <==> LowClear(w, 8)
  {
    assert w & 0xff == 0 <==> w & 0xf == 0 && (w >> 4) & 0xf == 0;
    Low4(w);
    Low4(w >> 4);
    Shr4(w);
    LowJoin(w, w >> 4, 4, 4);
  }

  lemma Low16(w: Word)
    ensures w & 0xffff == 0 <==> LowClear(w, 16)
  {
    assert w & 0xffff == 0 <==> w & 0xff == 0 && (w >> 8) & 0xff == 0;
    Low8(w);
    Low8(w >> 8);
    Shr8(w);
    LowJoin(w, w >> 8, 8, 8);
  }

  lemma Low32(w: Word)
    ensures w & 0xffff_ffff == 0 <==> LowClear(w, 32)
  {
    assert w & 0xffff_ffff == 0 <==> w & 0xffff == 0 && (w >> 16) & 0xffff == 0;
    Low16(w);
    Low16(w >> 16);
    Shr16(w);
    LowJoin(w, w >> 16, 16, 16);
  }

  lemma Low64(w: Word)
    ensures w == 0 <==> LowClear(w, 64)
  {
    assert w == 0 <==> w & 0xffff_ffff == 0 && (w >> 32) & 0xffff_ffff == 0;
    Low32(w);
    Low32(w >> 32);
    Shr32(w);
    LowJoin(w, w >> 32, 32, 32);
  }

  // ----- All ones -----

  ghost predicate LowSet(w: Word, n: nat) {
    forall i :: 0 <= i < n ==> Bit(w, i)
  }

  lemma LowSetJoin(w: Word, v: Word, n: nat)
    requires Shifted(w, v, n) && LowSet(w, n) && LowSet(v, n)
    ensures LowSet(w, 2 * n)
  {
    forall i | 0 <= i < 2 * n ensures Bit(w, i) {
      assert i >= n ==> ShiftedAt(w, v, n, i - n);
    }
  }

  lemma Ones1(w: Word)
    requires w & 0x1 == 0x1
    ensures LowSet(w, 1)
  {
    assert Bit(w, 0);
  }

  lemma Ones2(w: Word)
    requires w & 0x3 == 0x3
    ensures LowSet(w, 2)
  {
    assert w & 0x1 == 0x1 && (w >> 1) & 0x1 == 0x1;
    Ones1(w);
    Ones1(w >> 1);
    Shr1(w);
    LowSetJoin(w, w >> 1, 1);
  }

  lemma Ones4(w: Word)
    requires w & 0xf == 0xf
    ensures LowSet(w, 4)
  {
    assert w & 0x3 == 0x3 && (w >> 2) & 0x3 == 0x3;
    Ones2(w);
    Ones2(w >> 2);
    Shr2(w);
    LowSetJoin(w, w >> 2, 2);
  }

  lemma Ones8(w: Word)
    requires w & 0xff == 0xff
    ensures LowSet(w, 8)
  {
    assert w & 0xf == 0xf && (w >> 4) & 0xf == 0xf;
    Ones4(w);
    Ones4(w >> 4);
    Shr4(w);
    LowSetJoin(w, w >> 4, 4);
  }

  lemma Ones16(w: Word)
    requires w & 0xffff == 0xffff
    ensures LowSet(w, 16)
  {
    assert w & 0xff == 0xff && (w >> 8) & 0xff == 0xff;
    Ones8(w);
    Ones8(w >> 8);
    Shr8(w);
    LowSetJoin(w, w >> 8, 8);
  }

  lemma Ones32(w: Word)
    requires w & 0xffff_ffff == 0xffff_ffff
    ensures LowSet(w, 32)
  {
    assert w & 0xffff == 0xffff && (w >> 16) & 0xffff == 0xffff;
    Ones16(w);
    Ones16(w >> 16);
    Shr16(w);
    LowSetJoin(w, w >> 16, 16);
  }

  lemma Ones64(w: Word)
    requires w & 0xffff_ffff_ffff_ffff == 0xffff_ffff_ffff_ffff
    ensures LowSet(w, 64)
  {
    assert w & 0xffff_ffff == 0xffff_ffff && (w >> 32) & 0xffff_ffff == 0xffff_ffff;
    Ones32(w);
    Ones32(w >> 32);
    Shr32(w);
    LowSetJoin(w, w >> 32, 32);
  }

  const ALL_ONES: Word := 0xffff_ffff_ffff_ffff

  lemma Lower(w: Word, w': Word, i: nat)
    requires i > 0 && w' == w >> 1
    ensures Bit(w, i) == Bit(w', i - 1)
  {
  }

  lemma AndBottom(a: Word, b: Word, c: Word)
    requires c == a & b
    ensures Bit(c, 0) <==> Bit(a, 0) && Bit(b, 0)
  {
  }

  lemma AndDown(a: Word, b: Word, c: Word, a': Word, b': Word, c': Word)
    requires c == a & b && a' == a >> 1 && b' == b >> 1 && c' == c >> 1
    ensures c' == a' & b'
  {
  }

  /** One bit further down the conjunction of the shifted words decides. */
  lemma AndBit(a: Word, b: Word, c: Word, a': Word, b': Word, c': Word, i: nat)
    requires i > 0 && a' == a >> 1 && b' == b >> 1 && c' == c >> 1
    requires Bit(c', i - 1) <==> Bit(a', i - 1) && Bit(b', i - 1)
    ensures Bit(c, i) <==> Bit(a, i) && Bit(b, i)
  {
    Lower(a, a', i);
    Lower(b, b', i);
    Lower(c, c', i);
  }

  lemma {:induction false} BitAnd(a: Word, b: Word, c: Word, i: nat)
    requires c == a & b
    ensures Bit(c, i) <==> Bit(a, i) && Bit(b, i)
    decreases i
  {
    if i == 0 {
      AndBottom(a, b, c);
    } else {
      AndDown(a, b, c, a >> 1, b >> 1, c >> 1);
      BitAnd(a >> 1, b >> 1, c >> 1, i - 1);
      AndBit(a, b, c, a >> 1, b >> 1, c >> 1, i);
    }
  }

  lemma XorBottom(a: Word, b: Word, c: Word)
    requires c == a ^ b
    ensures Bit(c, 0) <==> Bit(a, 0) != Bit(b, 0)
  {
  }

  lemma XorDown(a: Word, b: Word, c: Word, a': Word, b': Word, c': Word)
    requires c == a ^ b && a' == a >> 1 && b' == b >> 1 && c' == c >> 1
    ensures c' == a' ^ b'
  {
  }

  /** One bit further down the exclusive or of the shifted words decides. */
  lemma XorBit(a: Word, b: Word, c: Word, a': Word, b': Word, c': Word, i: nat)
    requires i > 0 && a' == a >> 1 && b' == b >> 1 && c' == c >> 1
    requires Bit(c', i - 1) <==> Bit(a', i - 1) != Bit(b', i - 1)
    ensures Bit(c, i) <==> Bit(a, i) != Bit(b, i)
  {
    Lower(a, a', i);
    Lower(b, b', i);
    Lower(c, c', i);
  }

  lemma {:induction false} BitXor(a: Word, b: Word, c: Word, i: nat)
    requires c == a ^ b
    ensures Bit(c, i) <==> Bit(a, i) != Bit(b, i)
    decreases i
  {
    if i == 0 {
      XorBottom(a, b, c);
    } else {
      XorDown(a, b, c, a >> 1, b >> 1, c >> 1);
      BitXor(a >> 1, b >> 1, c >> 1, i - 1);
      XorBit(a, b, c, a >> 1, b >> 1, c >> 1, i);
    }
  }

  lemma NotIsXor(w: Word)
    ensures !w == w ^ ALL_ONES
  {
  }

  lemma BitNot(w: Word, i: nat)
    requires i < WORD_BITS
    ensures Bit(!w, i) <==> !Bit(w, i)
  {
    NotIsXor(w);
    BitXor(w, ALL_ONES, !w, i);
    Ones64(ALL_ONES);
  }

  const ALL_BUT_TOP: Word := 0x7fff_ffff_ffff_ffff

  lemma UpDown(w: Word)
    ensures (w << 1) >> 1 == w & ALL_BUT_TOP
    ensures (w << 1) & 1 == 0
  {
  }

  lemma BitUp(w: Word, up: Word, i: nat)
    requires i + 1 < WORD_BITS && up >> 1 == w & ALL_BUT_TOP
    ensures Bit(up, i + 1) == Bit(w, i)
  {
    BitAnd(w, ALL_BUT_TOP, up >> 1, i);
    assert Bit(ALL_ONES, i + 1) == Bit(ALL_ONES >> 1, i);
    Ones64(ALL_ONES);
  }

  // ----- Masking off the bits below an offset -----

  /** 1 << n. */
  function OneShifted(n: nat): Word {
    if n == 0 then 1 else OneShifted(n - 1) << 1
  }

  /** ~((1 << n) - 1), the mask the scans put over their starting word. */
  function MaskFrom(n: nat): Word {
    !(OneShifted(n) - 1)
  }

  lemma {:induction false} MaskBits(n: nat, i: nat)
    requires n < WORD_BITS && i < WORD_BITS
    ensures Bit(MaskFrom(n), i) <==> n <= i
    decreases n
  {
    if n == 0 {
      Ones64(ALL_ONES);
    } else {
      MaskStep(OneShifted(n - 1));
      UpDown(MaskFrom(n - 1));
      if i > 0 {
        MaskBits(n - 1, i - 1);
        BitUp(MaskFrom(n - 1), MaskFrom(n), i - 1);
      }
    }
  }

  lemma MaskStep(p: Word)
    ensures !((p << 1) - 1) == (!(p - 1)) << 1
  {
  }

  lemma MaskedBits(w: Word, n: nat, i: nat)
    requires n < WORD_BITS && i < WORD_BITS
    ensures Bit(w & MaskFrom(n), i) <==> n <= i && Bit(w, i)
  {
    BitAnd(w, MaskFrom(n), w & MaskFrom(n), i);
    MaskBits(n, i);
  }

  // ----- The first and the last set bit of a word, counted from 1 -----

  ghost predicate IsFirst(w: Word, r: nat) {
    if w == 0 then r == 0 else 1 <= r <= WORD_BITS && Bit(w, r - 1) && LowClear(w, r - 1)
  }

  ghost predicate IsLast(w: Word, r: nat) {
    if w == 0 then r == 0
    else 1 <= r <= WORD_BITS && Bit(w, r - 1) && forall i :: r <= i ==> !Bit(w, i)
  }

  lemma SkipLow(w: Word, val: Word, s: nat, next: Word, k: nat)
    requires Shifted(w, val, s) && LowClear(w, s) && Shifted(val, next, k) && LowClear(val, k)
    ensures Shifted(w, next, s + k) && LowClear(w, s + k)
  {
    ShiftTwice(w, val, next, s, k);
    LowJoin(w, val, s, k);
  }

  /** `_find_first_set_bit`: a binary search by halves, down to the byte and then
      to the bit. */
  method FirstSetBitOfWord(w: Word) returns (r: nat)
    ensures IsFirst(w, r)
  {
    if w == 0 {
      return 0;
    }
    var val;
    val, r := LowerByte(w);
    if val & 0xf == 0 {
      Low4(val);
      Shr4(val);
      SkipLow(w, val, r - 1, val >> 4, 4);
      val := val >> 4;
      r := r + 4;
    }
    if val & 0x3 == 0 {
      Low2(val);
      Shr2(val);
      SkipLow(w, val, r - 1, val >> 2, 2);
      val := val >> 2;
      r := r + 2;
    }
    if val & 0x1 == 0 {
      Low1(val);
      Shr1(val);
      SkipLow(w, val, r - 1, val >> 1, 1);
      val := val >> 1;
      r := r + 1;
    }
    assert val & 1 == 1;
    assert ShiftedAt(w, val, r - 1, 0);
  }

  method LowerByte(w: Word) returns (val: Word, r: nat)
    requires w != 0
    ensures 1 <= r <= 57 && Shifted(w, val, r - 1) && LowClear(w, r - 1) && val & 0xff != 0
  {
    val := w;
    r := 1;
    forall i: nat ensures ShiftedAt(w, val, 0, i) { }
    if val & 0xffff_ffff == 0 {
      Low32(val);
      Shr32(val);
      SkipLow(w, val, r - 1, val >> 32, 32);
      val := val >> 32;
      r := r + 32;
    }
    if val & 0xffff == 0 {
      Low16(val);
      Shr16(val);
      SkipLow(w, val, r - 1, val >> 16, 16);
      val := val >> 16;
      r := r + 16;
    }
    if val & 0xff == 0 {
      Low8(val);
      Shr8(val);
      SkipLow(w, val, r - 1, val >> 8, 8);
      val := val >> 8;
      r := r + 8;
    }
  }

  // ----- Set bits near the top -----

  /** One of the n top bits is set. */
  ghost predicate HighSet(w: Word, n: nat) {
    exists i :: WORD_BITS - n <= i < WORD_BITS && 0 <= i && Bit(w, i)
  }

  lemma HighSetDown(w: Word, v: Word, n: nat)
    requires 1 <= n <= WORD_BITS && Shifted(w, v, WORD_BITS - n)
    ensures HighSet(w, n) <==> v != 0
  {
    Low64(v);
    var k := WORD_BITS - n;
    if i :| 0 <= i < 64 && Bit(v, i) {
      assert ShiftedAt(w, v, k, i);
      if i >= n {
        AboveTop(w, i + k);
      }
    }
    if i :| k <= i < WORD_BITS && Bit(w, i) {
      assert ShiftedAt(w, v, k, i - k);
    }
  }

  lemma High32(w: Word)
    ensures w & 0xffff_ffff_0000_0000 != 0 <==> HighSet(w, 32)
  {
    assert w & 0xffff_ffff_0000_0000 != 0 <==> w >> 32 != 0;
    Shr32(w);
    HighSetDown(w, w >> 32, 32);
  }

  lemma High16(w: Word)
    ensures w & 0xffff_0000_0000_0000 != 0 <==> HighSet(w, 16)
  {
    assert w & 0xffff_0000_0000_0000 != 0 <==> w >> 48 != 0;
    Shr48(w);
    HighSetDown(w, w >> 48, 16);
  }

  lemma High8(w: Word)
    ensures w & 0xff00_0000_0000_0000 != 0 <==> HighSet(w, 8)
  {
    assert w & 0xff00_0000_0000_0000 != 0 <==> w >> 56 != 0;
    Shr56(w);
    HighSetDown(w, w >> 56, 8);
  }

  lemma High4(w: Word)
    ensures w & 0xf000_0000_0000_0000 != 0 <==> HighSet(w, 4)
  {
    assert w & 0xf000_0000_0000_0000 != 0 <==> w >> 60 != 0;
    Shr60(w);
    HighSetDown(w, w >> 60, 4);
  }

  lemma High2(w: Word)
    ensures w & 0xc000_0000_0000_0000 != 0 <==> HighSet(w, 2)
  {
    assert w & 0xc000_0000_0000_0000 != 0 <==> w >> 62 != 0;
    Shr62(w);
    HighSetDown(w, w >> 62, 2);
  }

  lemma High1(w: Word)
    ensures w & 0x8000_0000_0000_0000 != 0 <==> HighSet(w, 1)
  {
    assert w & 0x8000_0000_0000_0000 != 0 <==> w >> 63 != 0;
    Shr63(w);
    HighSetDown(w, w >> 63, 1);
  }

  /** Moving a word up by k brings a set bit into its k top bits if the highest one
      was in the k bits below them. */
  lemma Raised(up: Word, val: Word, k: nat)
    requires 2 * k <= WORD_BITS && Shifted(up, val, k) && HighSet(val, 2 * k) && !HighSet(val, k)
    ensures HighSet(up, k)
  {
    var i :| WORD_BITS - 2 * k <= i < WORD_BITS && 0 <= i && Bit(val, i);
    assert ShiftedAt(up, val, k, i);
    assert Bit(up, i + k);
  }

  // Moving a word up by k loses nothing if its k top bits are clear.

  lemma Up32(val: Word)
    requires val & 0xffff_ffff_0000_0000 == 0
    ensures Shifted(val << 32, val, 32)
  {
    var up := val << 32;
    assert up >> 32 == val;
    Shr32(up);
  }

  lemma Up16(val: Word)
    requires val & 0xffff_0000_0000_0000 == 0
    ensures Shifted(val << 16, val, 16)
  {
    var up := val << 16;
    assert up >> 16 == val;
    Shr16(up);
  }

  lemma Up8(val: Word)
    requires val & 0xff00_0000_0000_0000 == 0
    ensures Shifted(val << 8, val, 8)
  {
    var up := val << 8;
    assert up >> 8 == val;
    Shr8(up);
  }

  lemma Up4(val: Word)
    requires val & 0xf000_0000_0000_0000 == 0
    ensures Shifted(val << 4, val, 4)
  {
    var up := val << 4;
    assert up >> 4 == val;
    Shr4(up);
  }

  lemma Up2(val: Word)
    requires val & 0xc000_0000_0000_0000 == 0
    ensures Shifted(val << 2, val, 2)
  {
    var up := val << 2;
    assert up >> 2 == val;
    Shr2(up);
  }

  lemma Up1(val: Word)
    requires val & 0x8000_0000_0000_0000 == 0
    ensures Shifted(val << 1, val, 1)
  {
    var up := val << 1;
    assert up >> 1 == val;
    Shr1(up);
  }

  /** `_find_last_set_bit`, by halves from the other end. */
  method LastSetBitOfWord(w: Word) returns (r: nat)
    ensures IsLast(w, r)
  {
    if w == 0 {
      return 0;
    }
    var val := w;
    r := WORD_BITS;
    forall i: nat ensures ShiftedAt(val, w, 0, i) { }
    HighSetDown(w, w, WORD_BITS);
    val, r := Test32(w, val, r);
    val, r := Test16(w, val, r);
    val, r := Test8(w, val, r);
    val, r := Test4(w, val, r);
    val, r := Test2(w, val, r);
    val, r := Test1(w, val, r);
    LastFound(w, val, r);
  }

  /** The search has come from w to val, which is w moved up by WORD_BITS - r, and
      its highest bit is one of the n top ones. */
  ghost predicate Narrowed(w: Word, val: Word, r: nat, n: nat) {
    n <= r <= WORD_BITS && Shifted(val, w, WORD_BITS - r) && HighSet(val, n)
  }

  // One test each: if the top k bits are clear, move the word up by k.

  method Test32(ghost w: Word, val: Word, r: nat) returns (val': Word, r': nat)
    requires Narrowed(w, val, r, 64)
    ensures Narrowed(w, val', r', 32)
  {
    High32(val);
    if val & 0xffff_ffff_0000_0000 == 0 {
      Up32(val);
      Rise(w, val, r, val << 32, 32);
      return val << 32, r - 32;
    }
    return val, r;
  }

  method Test16(ghost w: Word, val: Word, r: nat) returns (val': Word, r': nat)
    requires Narrowed(w, val, r, 32)
    ensures Narrowed(w, val', r', 16)
  {
    High16(val);
    if val & 0xffff_0000_0000_0000 == 0 {
      Up16(val);
      Rise(w, val, r, val << 16, 16);
      return val << 16, r - 16;
    }
    return val, r;
  }

  method Test8(ghost w: Word, val: Word, r: nat) returns (val': Word, r': nat)
    requires Narrowed(w, val, r, 16)
    ensures Narrowed(w, val', r', 8)
  {
    High8(val);
    if val & 0xff00_0000_0000_0000 == 0 {
      Up8(val);
      Rise(w, val, r, val << 8, 8);
      return val << 8, r - 8;
    }
    return val, r;
  }

  method Test4(ghost w: Word, val: Word, r: nat) returns (val': Word, r': nat)
    requires Narrowed(w, val, r, 8)
    ensures Narrowed(w, val', r', 4)
  {
    High4(val);
    if val & 0xf000_0000_0000_0000 == 0 {
      Up4(val);
      Rise(w, val, r, val << 4, 4);
      return val << 4, r - 4;
    }
    return val, r;
  }

  method Test2(ghost w: Word, val: Word, r: nat) returns (val': Word, r': nat)
    requires Narrowed(w, val, r, 4)
    ensures Narrowed(w, val', r', 2)
  {
    High2(val);
    if val & 0xc000_0000_0000_0000 == 0 {
      Up2(val);
      Rise(w, val, r, val << 2, 2);
      return val << 2, r - 2;
    }
    return val, r;
  }

  method Test1(ghost w: Word, val: Word, r: nat) returns (val': Word, r': nat)
    requires Narrowed(w, val, r, 2)
    ensures Narrowed(w, val', r', 1)
  {
    High1(val);
    if val & 0x8000_0000_0000_0000 == 0 {
      Up1(val);
      Rise(w, val, r, val << 1, 1);
      return val << 1, r - 1;
    }
    return val, r;
  }

  lemma Rise(w: Word, val: Word, r: nat, up: Word, k: nat)
    requires 2 * k <= r <= WORD_BITS && Shifted(val, w, WORD_BITS - r) && Shifted(up, val, k)
    requires HighSet(val, 2 * k) && !HighSet(val, k)
    ensures Shifted(up, w, WORD_BITS - (r - k)) && HighSet(up, k)
  {
    ShiftTwice(up, val, w, k, WORD_BITS - r);
    Raised(up, val, k);
  }

  lemma LastFound(w: Word, val: Word, r: nat)
    requires 1 <= r <= WORD_BITS && w != 0
    requires Shifted(val, w, WORD_BITS - r) && HighSet(val, 1)
    ensures IsLast(w, r)
  {
    assert ShiftedAt(val, w, WORD_BITS - r, r - 1);
    forall i | r <= i ensures !Bit(w, i) {
      assert ShiftedAt(val, w, WORD_BITS - r, i);
      AboveTop(val, i + (WORD_BITS - r));
    }
  }
}
