/**
src/kernel/memory/physical.c: the bitmap of 4 KiB frames and the roving search over it.  A set bit is a
frame in use.  The class is proved against the set of free frames.
*/
module FrameAllocator {
  import opened Options
  import opened Types

  const WORD_BITS := 32
  const FULL := 0xFFFF_FFFF

  // Words of a bitmap whose last frame still has a 32-bit address.
  const MAX_WORDS := 0x8000

  type Uint32 = w: int | 0 <= w < WORD_RANGE

  // ---------------------------------------------------------------- bits of a word

  // (w & (1 << k)) != 0
  predicate Bit(w: nat, k: nat) {
    if k == 0 then w % 2 == 1 else Bit(w / 2, k - 1)
  }

  // w | (1 << k)
  function WithBit(w: nat, k: nat): nat {
    if k == 0 then w + 1 - w % 2 else 2 * WithBit(w / 2, k - 1) + w % 2
  }

  // w & ~(1 << k)
  function WithoutBit(w: nat, k: nat): nat {
    if k == 0 then w - w % 2 else 2 * WithoutBit(w / 2, k - 1) + w % 2
  }

  // In numbers: the bit's weight is added or taken away, unless that changes nothing.
  lemma {:induction false} UpdateIsArithmetic(w: nat, k: nat)
    ensures WithBit(w, k) == w + if Bit(w, k) then 0 else Pow2(k)
    ensures WithoutBit(w, k) == w - if Bit(w, k) then Pow2(k) else 0
  {
    if k > 0 { UpdateIsArithmetic(w / 2, k - 1); }
  }

  lemma {:induction false} WithBitEffect(w: nat, k: nat, j: nat)
    ensures Bit(WithBit(w, k), j) <==> j == k || Bit(w, j)
  {
    if k > 0 && j > 0 { WithBitEffect(w / 2, k - 1, j - 1); }
  }

  lemma {:induction false} WithoutBitEffect(w: nat, k: nat, j: nat)
    ensures Bit(WithoutBit(w, k), j) <==> j != k && Bit(w, j)
  {
    if k > 0 && j > 0 { WithoutBitEffect(w / 2, k - 1, j - 1); }
  }

  // Updates of one of the low n bits stay within n bits.
  lemma {:induction false} UpdateInRange(w: nat, k: nat, n: nat)
    requires k < n && w < Pow2(n)
    ensures WithBit(w, k) < Pow2(n) && WithoutBit(w, k) < Pow2(n)
  {
    if k > 0 { UpdateInRange(w / 2, k - 1, n - 1); }
  }

  lemma {:induction false} AllSetIsOnes(w: nat, n: nat)
    requires w < Pow2(n) && forall k :: 0 <= k < n ==> Bit(w, k)
    ensures w == Pow2(n) - 1
  {
    if n > 0 {
      assert Bit(w, 0);
      forall k | 0 <= k < n - 1 ensures Bit(w / 2, k) { assert Bit(w, k + 1); }
      AllSetIsOnes(w / 2, n - 1);
    }
  }

  lemma {:induction false} OnesIsAllSet(n: nat, k: nat)
    requires k < n
    ensures Bit(Pow2(n) - 1, k)
  {
    if k > 0 {
      assert (Pow2(n) - 1) / 2 == Pow2(n - 1) - 1;
      OnesIsAllSet(n - 1, k - 1);
    }
  }

  lemma Pow2Of32()
    ensures Pow2(32) == WORD_RANGE
  {
    assert Pow2(8) == 0x100;
    assert Pow2(16) == 0x1_0000;
    assert Pow2(24) == 0x100_0000;
  }

  // A word is 0xFFFFFFFF exactly when all its bits are set.
  lemma FullHasBit(w: Uint32, k: nat)
    requires w == FULL && k < WORD_BITS
    ensures Bit(w, k)
  {
    Pow2Of32();
    OnesIsAllSet(WORD_BITS, k);
    assert w == Pow2(WORD_BITS) - 1;
  }

  lemma AllSetIsFull(w: Uint32)
    requires forall k :: 0 <= k < WORD_BITS ==> Bit(w, k)
    ensures w == FULL
  {
    Pow2Of32();
    AllSetIsOnes(w, WORD_BITS);
  }

  lemma UpdateIsWord(w: Uint32, k: nat)
    requires k < WORD_BITS
    ensures WithBit(w, k) < WORD_RANGE && WithoutBit(w, k) < WORD_RANGE
  {
    Pow2Of32();
    UpdateInRange(w, k, WORD_BITS);
  }

  // ---------------------------------------------------------------- addresses

  function Index(address: nat): nat { address / PAGE_SIZE / WORD_BITS }

  function Offset(address: nat): nat { address / PAGE_SIZE % WORD_BITS }

  lemma IndexAndOffset(address: nat)
    ensures Index(address) * WORD_BITS + Offset(address) == FrameOf(address) && Offset(address) < WORD_BITS
  {
  }

  // The search's address formula is inverted by the index and offset of the address, flag bits and all.
  lemma AddressRoundTrip(i: nat, offset: nat, flags: nat)
    requires offset < WORD_BITS && flags < PAGE_SIZE
    ensures var address := i * PAGE_SIZE * WORD_BITS + offset * PAGE_SIZE;
            address % PAGE_SIZE == 0 && Index(address + flags) == i && Offset(address + flags) == offset
            && FrameOf(address + flags) == i * WORD_BITS + offset
            && (i < MAX_WORDS ==> address + flags < WORD_RANGE)
  {
    var frame := i * WORD_BITS + offset;
    assert i * PAGE_SIZE * WORD_BITS + offset * PAGE_SIZE == PAGE_SIZE * frame;
    assert (PAGE_SIZE * frame + flags) / PAGE_SIZE == frame;
  }

  // ---------------------------------------------------------------- the free frames

  // Frame i * 32 + k is free when bit k of word i is clear.
  ghost predicate IsFree(words: seq<Uint32>, frame: int) {
    0 <= frame < |words| * WORD_BITS && !Bit(words[frame / WORD_BITS], frame % WORD_BITS)
  }

  ghost function FreeFrames(words: seq<Uint32>): set<nat> {
    set frame: nat | 0 <= frame < |words| * WORD_BITS && IsFree(words, frame)
  }

  lemma BitOfFrame(words: seq<Uint32>, i: nat, k: nat)
    requires i < |words| && k < WORD_BITS
    ensures i * WORD_BITS + k in FreeFrames(words) <==> !Bit(words[i], k)
  {
    var frame := i * WORD_BITS + k;
    assert frame / WORD_BITS == i && frame % WORD_BITS == k;
  }

  lemma TakeFrame(words: seq<Uint32>, i: nat, k: nat)
    requires i < |words| && k < WORD_BITS && WithBit(words[i], k) < WORD_RANGE
    ensures FreeFrames(words[i := WithBit(words[i], k)]) == FreeFrames(words) - {i * WORD_BITS + k}
  {
    var words' := words[i := WithBit(words[i], k)];
    forall frame: nat | frame < |words| * WORD_BITS
      ensures IsFree(words', frame) <==> IsFree(words, frame) && frame != i * WORD_BITS + k
    {
      WithBitEffect(words[i], k, frame % WORD_BITS);
      assert frame == frame / WORD_BITS * WORD_BITS + frame % WORD_BITS;
    }
  }

  lemma ReturnFrame(words: seq<Uint32>, i: nat, k: nat)
    requires i < |words| && k < WORD_BITS && WithoutBit(words[i], k) < WORD_RANGE
    ensures FreeFrames(words[i := WithoutBit(words[i], k)]) == FreeFrames(words) + {i * WORD_BITS + k}
  {
    var words' := words[i := WithoutBit(words[i], k)];
    forall frame: nat | frame < |words| * WORD_BITS
      ensures IsFree(words', frame) <==> IsFree(words, frame) || frame == i * WORD_BITS + k
    {
      WithoutBitEffect(words[i], k, frame % WORD_BITS);
      assert frame == frame / WORD_BITS * WORD_BITS + frame % WORD_BITS;
    }
  }

  lemma AllFullMeansNoneFree(words: seq<Uint32>)
    requires forall i :: 0 <= i < |words| ==> words[i] == FULL
    ensures FreeFrames(words) == {}
  {
    forall frame: nat | frame < |words| * WORD_BITS ensures !IsFree(words, frame) {
      FullHasBit(words[frame / WORD_BITS], frame % WORD_BITS);
    }
  }

  lemma NotFullMeansSomeFree(words: seq<Uint32>, i: nat)
    requires i < |words| && words[i] != FULL
    ensures FreeFrames(words) != {}
  {
    if forall k :: 0 <= k < WORD_BITS ==> Bit(words[i], k) { AllSetIsFull(words[i]); }
    var k :| 0 <= k < WORD_BITS && !Bit(words[i], k);
    BitOfFrame(words, i, k);
  }

  ghost function FreeBelow(words: seq<Uint32>, n: nat): set<nat> {
    set frame | frame in FreeFrames(words) && frame < n
  }

  lemma OneMoreFrame(words: seq<Uint32>, i: nat, k: nat)
    requires i < |words| && k < WORD_BITS
    ensures var n := i * WORD_BITS + k;
            |FreeBelow(words, n + 1)| == |FreeBelow(words, n)| + if Bit(words[i], k) then 0 else 1
  {
    BitOfFrame(words, i, k);
    OneMore(words, i * WORD_BITS + k);
  }

  lemma OneMore(words: seq<Uint32>, n: nat)
    ensures |FreeBelow(words, n + 1)| == |FreeBelow(words, n)| + if n in FreeFrames(words) then 1 else 0
  {
    assert FreeBelow(words, n + 1) == FreeBelow(words, n) + if n in FreeFrames(words) then {n} else {};
  }

  lemma NextBit(k: nat)
    requires k < WORD_BITS
    ensures Pow2(k) * 2 % WORD_RANGE == if k + 1 < WORD_BITS then Pow2(k + 1) else 0
  {
    Pow2Of32();
    Pow2Grows(k + 1, WORD_BITS);
  }

  lemma {:induction false} Pow2Grows(j: nat, k: nat)
    requires j <= k
    ensures j < k ==> Pow2(j) < Pow2(k)
  {
    if j < k { Pow2Grows(j, k - 1); }
  }

  lemma NextIndex(i: nat, n: nat)
    requires i < n
    ensures (i + 1) % n == if i + 1 == n then 0 else i + 1
  {
  }

  // On the way round from one word to another all words are full.
  ghost predicate AllFullBetween(words: seq<Uint32>, from: nat, to: nat) {
    forall i :: 0 <= i < |words| && (if from <= to then from <= i < to else i >= from || i < to) ==> words[i] == FULL
  }

  class FrameAllocator {
    const bitmap: array<Uint32>
    var roving: nat

    ghost predicate Valid()
      reads this
    {
      0 < bitmap.Length <= MAX_WORDS && roving < bitmap.Length
    }

    ghost function Free(): set<nat>
      reads this, bitmap
    {
      FreeFrames(bitmap[..])
    }

    ghost function Frames(): nat {
      bitmap.Length * WORD_BITS
    }

    constructor (words: array<Uint32>)
      requires 0 < words.Length <= MAX_WORDS
      ensures Valid() && bitmap == words
    {
      bitmap := words;
      roving := 0;
    }

    // __phys_set_bit
    method SetBit(address: nat)
      requires Valid()
      modifies bitmap
      ensures Free() == old(Free()) - {FrameOf(address)}
    {
      var index := Index(address);
      IndexAndOffset(address);
      if index >= bitmap.Length {
        return;
      }
      var offset := Offset(address);
      UpdateIsWord(bitmap[index], offset);
      TakeFrame(bitmap[..], index, offset);
      bitmap[index] := WithBit(bitmap[index], offset);
      assert bitmap[..] == old(bitmap[..])[index := WithBit(old(bitmap[index]), offset)];
    }

    // __phys_unset_bit
    method UnsetBit(address: nat)
      requires Valid()
      modifies bitmap
      ensures Free() == old(Free()) + if FrameOf(address) < Frames() then {FrameOf(address)} else {}
    {
      var index := Index(address);
      IndexAndOffset(address);
      if index >= bitmap.Length {
        return;
      }
      var offset := Offset(address);
      UpdateIsWord(bitmap[index], offset);
      ReturnFrame(bitmap[..], index, offset);
      bitmap[index] := WithoutBit(bitmap[index], offset);
      assert bitmap[..] == old(bitmap[..])[index := WithoutBit(old(bitmap[index]), offset)];
    }

    // __phys_get_free_4k.  None is the panic "No more free pages!".
    method GetFree4k() returns (r: Option<nat>)
      requires Valid()
      modifies this`roving, bitmap
      ensures Valid()
      ensures r.None? <==> old(Free()) == {}
      ensures r.None? ==> Free() == old(Free())
      ensures r.Some? ==> r.value % PAGE_SIZE == 0 && r.value < WORD_RANGE && FrameOf(r.value) in old(Free())
                          && Free() == old(Free()) - {FrameOf(r.value)}
      ensures r.Some? ==> FrameOf(r.value) / WORD_BITS == roving && AllFullBetween(old(bitmap[..]), old(roving), roving)
                          && forall k :: 0 <= k < FrameOf(r.value) % WORD_BITS ==> Bit(old(bitmap[..])[roving], k)
    {
      FindWord();
      if bitmap[roving] == FULL {
        return None;
      }
      var word := bitmap[roving];
      if forall k :: 0 <= k < WORD_BITS ==> Bit(word, k) { AllSetIsFull(word); }
      var bit, offset := 1, 0;
      while Bit(word, offset) && bit != 0
        invariant 0 <= offset <= WORD_BITS && bit == if offset < WORD_BITS then Pow2(offset) else 0
        invariant forall k :: 0 <= k < offset ==> Bit(word, k)
        modifies {}
        decreases WORD_BITS - offset
      {
        NextBit(offset);
        bit := bit * 2 % WORD_RANGE;
        offset := offset + 1;
      }
      assert offset < WORD_BITS && bit != 0;  // the "Impossible Condition" panic is unreachable
      UpdateIsWord(word, offset);
      TakeFrame(bitmap[..], roving, offset);
      BitOfFrame(bitmap[..], roving, offset);
      bitmap[roving] := WithBit(word, offset);
      assert bitmap[..] == old(bitmap[..])[roving := WithBit(word, offset)];
      AddressRoundTrip(roving, offset, 0);
      r := Some(roving * PAGE_SIZE * WORD_BITS + offset * PAGE_SIZE);
    }

    // The circular search of __phys_get_free_4k for a word with a clear bit.
    method FindWord()
      requires Valid()
      modifies this`roving
      ensures Valid() && (bitmap[roving] == FULL <==> Free() == {})
      ensures bitmap[roving] != FULL ==> AllFullBetween(bitmap[..], old(roving), roving)
    {
      var start := roving;
      ghost var wrapped := false;
      while bitmap[roving] == FULL
        invariant roving < bitmap.Length && (if wrapped then roving < start else start <= roving)
        invariant forall i :: start <= i < (if wrapped then bitmap.Length else roving) ==> bitmap[i] == FULL
        invariant wrapped ==> forall i :: 0 <= i < roving ==> bitmap[i] == FULL
        decreases if wrapped then start - roving else bitmap.Length + start - roving
      {
        NextIndex(roving, bitmap.Length);
        wrapped := wrapped || roving + 1 == bitmap.Length;
        roving := (roving + 1) % bitmap.Length;
        if roving == start {
          break;
        }
      }
      if bitmap[roving] == FULL { AllFullMeansNoneFree(bitmap[..]); } else { NotFullMeansSomeFree(bitmap[..], roving); }
    }

    // __phys_get_free_page_count
    method GetFreePageCount() returns (sum: nat)
      ensures sum == |Free()|
    {
      sum := 0;
      assert FreeBelow(bitmap[..], 0) == {};
      var i := 0;
      while i < bitmap.Length
        invariant 0 <= i <= bitmap.Length && sum == |FreeBelow(bitmap[..], i * WORD_BITS)|
      {
        var val := 1;
        var shift := 0;
        while shift < WORD_BITS
          invariant 0 <= shift <= WORD_BITS && (shift < WORD_BITS ==> val == Pow2(shift))
          invariant sum == |FreeBelow(bitmap[..], i * WORD_BITS + shift)|
        {
          OneMoreFrame(bitmap[..], i, shift);
          sum := sum + if Bit(bitmap[i], shift) then 0 else 1;
          NextBit(shift);
          val := val * 2 % WORD_RANGE;
          shift := shift + 1;
        }
        i := i + 1;
      }
      assert FreeBelow(bitmap[..], bitmap.Length * WORD_BITS) == Free();
    }
  }
}
