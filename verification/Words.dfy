/** Numbers as machine words, by their binary digits. */
module Words {
  import opened Arith

  type Word = bv64

  const WORD_RANGE: int := 0x8_0000_0000

  function ToWord(n: nat): Word
  {
    if n == 0 then 0 else Digit(ToWord(n / 2), n % 2 == 1)
  }

  /** A word with one more binary digit. */
  function Digit(x: Word, odd: bool): Word { (x << 1) | (if odd then 1 else 0) }

  function FromWord(w: Word): nat
    decreases w
  {
    if w == 0 then 0 else Smaller(w); 2 * FromWord(w >> 1) + (if w & 1 == 1 then 1 else 0)
  }

  lemma Smaller(w: Word)
    requires w != 0
    ensures w >> 1 < w
  {
  }

  lemma Pow2Values()
    ensures Pow2(13) == 0x2000 && Pow2(35) == WORD_RANGE
  {
    assert Pow2(2) == 4 && Pow2(3) == 8 && Pow2(5) == 32;
    Pow2Sum(5, 5);
    Pow2Sum(10, 3);
    Pow2Sum(10, 10);
    Pow2Sum(20, 10);
    Pow2Sum(30, 5);
  }

  /** 35 ones shifted right k times. */
  function Ones(k: nat): (w: Word)
    ensures w <= 0x7_FFFF_FFFF && w & (w + 1) == 0
  {
    if k == 0 then 0x7_FFFF_FFFF else Ones(k - 1) >> 1
  }

  lemma {:induction false} OnesShrink(k: nat)
    requires k <= 34
    ensures Ones(34) <= Ones(k)
    decreases 34 - k
  {
    if k < 34 {
      OnesShrink(k + 1);
    }
  }

  lemma OnesEnd()
    ensures Ones(34) == 1
  {
    assert Ones(2) == 0x1FFFFFFFF;
    assert Ones(4) == 0x7FFFFFFF;
    assert Ones(6) == 0x1FFFFFFF;
    assert Ones(8) == 0x7FFFFFF;
    assert Ones(10) == 0x1FFFFFF;
    assert Ones(12) == 0x7FFFFF;
    assert Ones(14) == 0x1FFFFF;
    assert Ones(16) == 0x7FFFF;
    assert Ones(18) == 0x1FFFF;
    assert Ones(20) == 0x7FFF;
    assert Ones(22) == 0x1FFF;
    assert Ones(24) == 0x7FF;
    assert Ones(26) == 0x1FF;
    assert Ones(28) == 0x7F;
    assert Ones(30) == 0x1F;
    assert Ones(32) == 0x7;
    assert Ones(34) == 0x1;
  }

  lemma OnesStep(k: nat)
    requires k <= 34
    ensures (Ones(k + 1) << 1) | 1 == Ones(k)
  {
    OnesShrink(k);
    OnesEnd();
    ShiftOnes(Ones(k));
  }

  lemma ShiftOnes(w: Word)
    requires w & (w + 1) == 0 && 1 <= w <= 0x7_FFFF_FFFF
    ensures ((w >> 1) << 1) | 1 == w
  {
  }

  lemma {:induction false} WordBound(n: nat, j: nat)
    requires j <= 35 && n < Pow2(j)
    ensures ToWord(n) <= Ones(35 - j)
  {
    if n != 0 {
      WordBound(n / 2, j - 1);
      OnesStep(35 - j);
      DoubleBound(ToWord(n / 2), Ones(36 - j));
    }
  }

  lemma DoubleBound(x: Word, m: Word)
    requires x <= m <= 0x7_FFFF_FFFF
    ensures (x << 1) | 1 <= (m << 1) | 1 && (x << 1) | 0 <= (m << 1) | 1
  {
  }

  lemma FromDigit(x: Word, odd: bool)
    requires x <= 0x7_FFFF_FFFF
    ensures FromWord(Digit(x, odd)) == 2 * FromWord(x) + (if odd then 1 else 0)
  {
    hide FromWord, Digit;
    DigitBits(x, odd);
    FromBits(Digit(x, odd));
  }

  /** The number of a word is twice that of its upper bits, and its lowest. */
  lemma FromBits(w: Word)
    ensures FromWord(w) == 2 * FromWord(w >> 1) + (if w & 1 == 1 then 1 else 0)
  {
    hide ToWord;
    if w == 0 {
      assert w >> 1 == 0 && w & 1 == 0;
    }
  }

  lemma DigitBits(x: Word, odd: bool)
    requires x <= 0x7_FFFF_FFFF
    ensures Digit(x, odd) >> 1 == x && (Digit(x, odd) & 1 == 1 <==> odd)
  {
  }

  /** Page ids and size classes survive the trip through a machine word. */
  lemma {:induction false} WordRoundTrip(n: nat)
    requires n < WORD_RANGE
    ensures FromWord(ToWord(n)) == n
  {
    hide FromWord, ToWord, Digit;
    ToWordDigits(n);
    if n != 0 {
      WordRoundTrip(n / 2);
      HalfBound(n);
      FromDigit(ToWord(n / 2), n % 2 == 1);
    }
  }

  lemma ToWordDigits(n: nat)
    ensures n == 0 ==> FromWord(ToWord(n)) == 0
    ensures n != 0 ==> ToWord(n) == Digit(ToWord(n / 2), n % 2 == 1)
  {
  }

  lemma HalfBound(n: nat)
    requires n < WORD_RANGE
    ensures ToWord(n / 2) <= 0x7_FFFF_FFFF
  {
    Pow2Values();
    WordBound(n / 2, 35);
  }
}
