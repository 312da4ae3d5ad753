/**
 Bitmaps over 32-bit words: the wall and event tables of the maze solver.
 */
module Bitmap {

  const WORD_SIZE := 32

  type Word = bv32

  // ---------------------------------------------------------------- one word

  function Mask(k: nat): Word
    requires k < WORD_SIZE
  {
    1 << k
  }

  predicate Bit(w: Word, k: nat)
    requires k < WORD_SIZE
  {
    w & Mask(k) != 0
  }

  lemma MaskNotZero(k: nat)
    requires k < WORD_SIZE
    ensures Mask(k) != 0
  {}

  lemma MasksApart(j: nat, k: nat)
    requires j < k < WORD_SIZE
    ensures Mask(j) & Mask(k) == 0
  {}

  lemma OrSame(w: Word, m: Word)
    ensures (w | m) & m == m
  {}

  lemma OrOther(w: Word, m: Word, n: Word)
    requires m & n == 0
    ensures (w | m) & n == w & n
  {}

  lemma AndNotOther(w: Word, m: Word, n: Word)
    requires m & n == 0
    ensures (w & !m) & n == w & n
  {}

  lemma AndNotSame(w: Word, m: Word)
    ensures (w & !m) & m == 0
  {}

  lemma BitOnSame(w: Word, k: nat)
    requires k < WORD_SIZE
    ensures Bit(w | Mask(k), k)
  {
    OrSame(w, Mask(k));
    MaskNotZero(k);
  }

  lemma BitOffSame(w: Word, k: nat)
    requires k < WORD_SIZE
    ensures !Bit(w & !Mask(k), k)
  {
    AndNotSame(w, Mask(k));
  }

  lemma BitOnOther(w: Word, k: nat, j: nat)
    requires j < WORD_SIZE && k < WORD_SIZE && j != k
    ensures Bit(w | Mask(k), j) == Bit(w, j)
  {
    if j < k { MasksApart(j, k); } else { MasksApart(k, j); }
    OrOther(w, Mask(k), Mask(j));
  }

  lemma BitOffOther(w: Word, k: nat, j: nat)
    requires j < WORD_SIZE && k < WORD_SIZE && j != k
    ensures Bit(w & !Mask(k), j) == Bit(w, j)
  {
    if j < k { MasksApart(j, k); } else { MasksApart(k, j); }
    AndNotOther(w, Mask(k), Mask(j));
  }

  /** `now` is `was` with bit `k` set to `state`. */
  ghost predicate WordChanged(was: Word, now: Word, k: nat, state: bool) {
    forall j :: 0 <= j < WORD_SIZE ==> Bit(now, j) == if j == k then state else Bit(was, j)
  }

  method WordOn(w: Word, k: nat) returns (r: Word)
    requires k < WORD_SIZE
    ensures WordChanged(w, r, k, true)
  {
    r := w | Mask(k);
    forall j | 0 <= j < WORD_SIZE
      ensures Bit(r, j) == if j == k then true else Bit(w, j)
    {
      if j == k { BitOnSame(w, k); } else { BitOnOther(w, k, j); }
    }
  }

  method WordOff(w: Word, k: nat) returns (r: Word)
    requires k < WORD_SIZE
    ensures WordChanged(w, r, k, false)
  {
    r := w & !Mask(k);
    forall j | 0 <= j < WORD_SIZE
      ensures Bit(r, j) == if j == k then false else Bit(w, j)
    {
      if j == k { BitOffSame(w, k); } else { BitOffOther(w, k, j); }
    }
  }

  lemma ZeroHasNoBit(k: nat)
    requires k < WORD_SIZE
    ensures !Bit(0, k)
  {}

  /** The low `k` bits are off; so are the low `k + 1` if bit `k` is off too. */
  lemma LowBitsOff(w: Word, k: nat)
    requires k < WORD_SIZE && w & (Mask(k) - 1) == 0 && !Bit(w, k)
    ensures k < WORD_SIZE - 1 ==> w & (Mask(k + 1) - 1) == 0
    ensures k == WORD_SIZE - 1 ==> w == 0
  {}

  // ---------------------------------------------------------------- many words

  /** Words needed for `n` bits. */
  function BitmapSize(n: nat): nat
  {
    if n == 0 then 0 else 1 + BitmapSize(if n < WORD_SIZE then 0 else n - WORD_SIZE)
  }

  /** That is the quotient, and one more if there is a remainder. */
  lemma {:induction false} BitmapSizeIs(n: nat)
    ensures BitmapSize(n) == n / WORD_SIZE + if n % WORD_SIZE != 0 then 1 else 0
  {
    if n >= WORD_SIZE { BitmapSizeIs(n - WORD_SIZE); }
  }

  predicate On(words: seq<Word>, i: nat)
    requires i < WORD_SIZE * |words|
  {
    Bit(words[i / WORD_SIZE], i % WORD_SIZE)
  }

  /** Bit `i` of the table that starts `base` words into the buffer. */
  predicate BitmapGet(words: seq<Word>, base: nat, i: nat)
    requires WORD_SIZE * base + i < WORD_SIZE * |words|
  {
    Bit(words[base + i / WORD_SIZE], i % WORD_SIZE)
  }

  lemma GetIsOn(words: seq<Word>, base: nat, i: nat)
    requires WORD_SIZE * base + i < WORD_SIZE * |words|
    ensures BitmapGet(words, base, i) == On(words, WORD_SIZE * base + i)
  {}

  /** The buffer after bit `k` has been set to `state`, and nothing else. */
  ghost predicate Changed(was: seq<Word>, now: seq<Word>, k: nat, state: bool) {
    |now| == |was| && forall j :: 0 <= j < WORD_SIZE * |was| ==> On(now, j) == if j == k then state else On(was, j)
  }

  lemma ChangedWord(was: seq<Word>, k: nat, w: Word, state: bool)
    requires k < WORD_SIZE * |was|
    requires WordChanged(was[k / WORD_SIZE], w, k % WORD_SIZE, state)
    ensures Changed(was, was[k / WORD_SIZE := w], k, state)
  {
    var now := was[k / WORD_SIZE := w];
    forall j | 0 <= j < WORD_SIZE * |was|
      ensures On(now, j) == if j == k then state else On(was, j)
    {
      assert j == k <==> j / WORD_SIZE == k / WORD_SIZE && j % WORD_SIZE == k % WORD_SIZE;
    }
  }

  lemma IndexInTable(base: nat, i: nat)
    ensures (WORD_SIZE * base + i) / WORD_SIZE == base + i / WORD_SIZE
    ensures (WORD_SIZE * base + i) % WORD_SIZE == i % WORD_SIZE
  {}

  method BitmapOn(bits: array<Word>, base: nat, i: nat)
    requires WORD_SIZE * base + i < WORD_SIZE * bits.Length
    modifies bits
    ensures Changed(old(bits[..]), bits[..], WORD_SIZE * base + i, true)
  {
    IndexInTable(base, i);
    ghost var was, k := bits[..], WORD_SIZE * base + i;
    var w := WordOn(bits[base + i / WORD_SIZE], i % WORD_SIZE);
    ChangedWord(was, k, w, true);
    bits[base + i / WORD_SIZE] := w;
    assert bits[..] == was[k / WORD_SIZE := w];
  }

  method BitmapOff(bits: array<Word>, base: nat, i: nat)
    requires WORD_SIZE * base + i < WORD_SIZE * bits.Length
    modifies bits
    ensures Changed(old(bits[..]), bits[..], WORD_SIZE * base + i, false)
  {
    IndexInTable(base, i);
    ghost var was, k := bits[..], WORD_SIZE * base + i;
    var w := WordOff(bits[base + i / WORD_SIZE], i % WORD_SIZE);
    ChangedWord(was, k, w, false);
    bits[base + i / WORD_SIZE] := w;
    assert bits[..] == was[k / WORD_SIZE := w];
  }

  method BitmapClear(bits: array<Word>, numBits: nat)
    requires BitmapSize(numBits) == bits.Length
    modifies bits
    ensures forall i :: 0 <= i < WORD_SIZE * bits.Length ==> !On(bits[..], i)
  {
    var end := BitmapSize(numBits);
    var cur := 0;
    while cur < end
      invariant cur <= end
      invariant forall k :: 0 <= k < cur ==> bits[k] == 0
    {
      bits[cur] := 0;
      cur := cur + 1;
    }
    forall i | 0 <= i < WORD_SIZE * bits.Length
      ensures !On(bits[..], i)
    {
      ZeroHasNoBit(i % WORD_SIZE);
    }
  }

  /** The lowest bit of a word that has one; the loop cannot run out, so -2 is never returned. */
  method FirstBit(w: Word) returns (offset: nat)
    requires w != 0
    ensures offset < WORD_SIZE && Bit(w, offset)
    ensures forall k :: 0 <= k < offset ==> !Bit(w, k)
  {
    offset := 0;
    while !Bit(w, offset)
      invariant 0 <= offset < WORD_SIZE
      invariant forall k :: 0 <= k < offset ==> !Bit(w, k)
      invariant w & (Mask(offset) - 1) == 0
      decreases WORD_SIZE - offset
    {
      LowBitsOff(w, offset);
      offset := offset + 1;
    }
  }

  /** The number of the first bit that is on, or -1. */
  method BitmapGetFirstFlag(bits: array<Word>, numBits: nat) returns (r: int)
    requires BitmapSize(numBits) == bits.Length
    ensures -1 <= r < WORD_SIZE * bits.Length
    ensures r >= 0 ==> On(bits[..], r)
    ensures forall i :: 0 <= i < WORD_SIZE * bits.Length && (r == -1 || i < r) ==> !On(bits[..], i)
  {
    var end := BitmapSize(numBits);
    var index := 0;
    while index < end
      invariant 0 <= index <= end
      invariant forall i :: 0 <= i < WORD_SIZE * index ==> !On(bits[..], i)
    {
      if bits[index] != 0 {
        var offset := FirstBit(bits[index]);
        r := index * WORD_SIZE + offset;
        assert r / WORD_SIZE == index && r % WORD_SIZE == offset;
        forall i | 0 <= i < r
          ensures !On(bits[..], i)
        {
          if i >= WORD_SIZE * index { assert i / WORD_SIZE == index && i % WORD_SIZE == i - WORD_SIZE * index; }
        }
        return;
      }
      forall i | WORD_SIZE * index <= i < WORD_SIZE * (index + 1)
        ensures !On(bits[..], i)
      {
        assert i / WORD_SIZE == index;
        ZeroHasNoBit(i % WORD_SIZE);
      }
      index := index + 1;
    }
    return -1;
  }
}
