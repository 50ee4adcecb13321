/** The rolling word of the Gear chunker: 64-bit wrap-around arithmetic, and what it
    computes in whole numbers. */
module Gear {
  import opened Common
  import opened Bits

  const WORD := 0x1_0000_0000_0000_0000

  type Word = x: int | 0 <= x < WORD

  /** One word per byte value. */
  type Table = byte -> Word

  /** `(r << 1) + w`, each operation cut to 64 bits. */
  function Shift(r: Word, w: Word): (r': Word) {
    ((2 * r) % WORD + w) % WORD
  }

  /** The rolling word after the bytes of one buffer. */
  function Roll(g: Table, s: Bytes): (r: Word) {
    if s == [] then 0 else Shift(Roll(g, s[..|s| - 1]), g(s[|s| - 1]))
  }

  lemma RollStep(g: Table, s: Bytes, b: byte)
    ensures Roll(g, s + [b]) == Shift(Roll(g, s), g(b))
  {
    assert (s + [b])[..|s|] == s;
  }

  // -------------------------------------------------------------- in whole numbers

  function Terms(g: Table, s: Bytes): (t: seq<int>)
    ensures |t| == |s|
  {
    seq(|s|, i requires 0 <= i < |s| => g(s[i]) * Pow2(|s| - 1 - i))
  }

  /** Every byte's word, weighted by the power of two of its distance from the end. */
  function Weighted(g: Table, s: Bytes): (n: int) {
    Sum(Terms(g, s))
  }

  lemma {:induction false} DoubledSum(s: seq<int>, t: seq<int>)
    requires |s| == |t| && forall i | 0 <= i < |s| :: t[i] == 2 * s[i]
    ensures Sum(t) == 2 * Sum(s)
  {
    if s != [] { DoubledSum(s[..|s| - 1], t[..|t| - 1]); }
  }

  lemma WeightedStep(g: Table, s: Bytes, b: byte)
    ensures Weighted(g, s + [b]) == 2 * Weighted(g, s) + g(b)
  {
    var before, all := Terms(g, s), Terms(g, s + [b]);
    forall i | 0 <= i < |s| ensures all[..|s|][i] == 2 * before[i] {
      DoubledTerm(g(s[i]), |s| - 1 - i);
    }
    DoubledSum(before, all[..|s|]);
    assert all[|s|] == g(b) * Pow2(0) == g(b);
  }

  lemma DoubledTerm(w: int, k: nat)
    ensures w * Pow2(k + 1) == 2 * (w * Pow2(k))
  {
  }

  lemma {:induction false} WeightedAppend(g: Table, a: Bytes, w: Bytes)
    ensures Weighted(g, a + w) == Pow2(|w|) * Weighted(g, a) + Weighted(g, w)
  {
    if w == [] {
      assert a + w == a && Terms(g, w) == [];
    } else {
      var init, b := w[..|w| - 1], w[|w| - 1];
      WeightedAppend(g, a, init);
      WeightedStep(g, a + init, b);
      WeightedStep(g, init, b);
      assert (a + init) + [b] == a + w && init + [b] == w;
      DoubledProduct(Pow2(|init|), Weighted(g, a));
    }
  }

  lemma DoubledProduct(n: int, q: int)
    ensures (2 * n) * q == 2 * (n * q)
  {
  }

  lemma ShiftIs(x: int, w: Word)
    ensures Shift(x % WORD, w) == (2 * x + w) % WORD
  {
    var r := x % WORD;
    DropMultiple(WORD, 2 * (x / WORD), 2 * r + w);
    assert WORD * (2 * (x / WORD)) + (2 * r + w) == 2 * x + w;
  }

  /** The rolling word is the weighted sum, cut to 64 bits. */
  lemma {:induction false} RollIsWeighted(g: Table, s: Bytes)
    ensures Roll(g, s) == Weighted(g, s) % WORD
  {
    if s == [] {
      assert Terms(g, s) == [];
    } else {
      var init, b := s[..|s| - 1], s[|s| - 1];
      RollIsWeighted(g, init);
      assert init + [b] == s;
      WeightedStep(g, init, b);
      ShiftIs(Weighted(g, init), g(b));
    }
  }

  lemma WordIsPower()
    ensures WORD == Pow2(64)
  {
    assert Pow2(8) == 256;
    Pow2Adds(8, 8);
    Pow2Adds(16, 16);
    Pow2Adds(32, 32);
  }

  /** The lowest bits of the word are those of the sum, wrap-around or not. */
  lemma LowBits(g: Table, s: Bytes, k: nat)
    requires k <= 64
    ensures Roll(g, s) % Pow2(k) == Weighted(g, s) % Pow2(k)
  {
    RollIsWeighted(g, s);
    WordIsPower();
    Pow2Adds(k, 64 - k);
    NestedRemainder(Weighted(g, s), Pow2(k), Pow2(64 - k));
  }

  /** Locality: the n lowest bits are decided by the last n bytes alone, whatever came
      before and however often the word wrapped. */
  lemma RollIsLocal(g: Table, a: Bytes, w: Bytes)
    requires |w| <= 64
    ensures Roll(g, a + w) % Pow2(|w|) == Roll(g, w) % Pow2(|w|)
  {
    LowBits(g, a + w, |w|);
    LowBits(g, w, |w|);
    SumIsLocal(g, a, w);
  }

  lemma SumIsLocal(g: Table, a: Bytes, w: Bytes)
    ensures Weighted(g, a + w) % Pow2(|w|) == Weighted(g, w) % Pow2(|w|)
  {
    WeightedAppend(g, a, w);
    SameRemainder(Pow2(|w|), Weighted(g, a + w), Weighted(g, a), Weighted(g, w));
  }

  /** Bytes before the last 64 have no influence on the word at all. */
  lemma OnlyLast64(g: Table, a: Bytes, w: Bytes)
    requires |w| >= 64
    ensures Roll(g, a + w) == Roll(g, w)
  {
    var front, back := w[..|w| - 64], w[|w| - 64..];
    assert a + w == (a + front) + back && w == front + back;
    SameRoll(g, a + front, back);
    SameRoll(g, front, back);
  }

  lemma SameRoll(g: Table, a: Bytes, w: Bytes)
    requires |w| == 64
    ensures Roll(g, a + w) == Roll(g, w)
  {
    RollIsWeighted(g, a + w);
    RollIsWeighted(g, w);
    SumIsLocal(g, a, w);
    WordIsPower();
  }

  /** The source's test on the word, `rolling & (avg - 1) == 0` with avg = 2^k, in whole
      numbers. */
  lemma MaskIsDivisible(g: Table, s: Bytes, k: nat)
    requires k <= 64
    ensures And(Roll(g, s), Pow2(k) - 1) == 0 <==> Weighted(g, s) % Pow2(k) == 0
  {
    AndMask(Roll(g, s), k);
    LowBits(g, s, k);
  }
}
