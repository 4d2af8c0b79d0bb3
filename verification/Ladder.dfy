/** The two-level price bitmap of the order book (orderbook.h:51-135). */
module Ladder {
  import Orders
  import opened Words

  const MAX_PRICE: nat := Orders.MAX_PRICE
  const L1_WORDS: nat := MAX_PRICE / 64 + 1
  const L2_WORDS: nat := MAX_PRICE / 4096 + 1

  ghost predicate ClearFrom(w: Word, n: nat) {
    forall k :: n <= k < 64 ==> !w[k]
  }

  class PriceBitmap {
    const l1: array<Word>
    const l2: array<Word>

    /** Bit k of summary word g is set exactly when first-level word 64g + k is non-zero,
        and no bit at or above MAX_PRICE is set. */
    ghost predicate Valid()
      reads l1, l2
    {
      && l1 != l2 && l1.Length == L1_WORDS && l2.Length == L2_WORDS
      && (forall g, k :: 0 <= g < L2_WORDS && 0 <= k < 64 ==> (l2[g][k] <==> NonZero(64 * g + k)))
      && ClearFrom(l1[L1_WORDS - 1], MAX_PRICE % 64)
    }

    ghost predicate NonZero(w: int)
      reads l1
      requires l1.Length == L1_WORDS
    {
      0 <= w < L1_WORDS && !IsZero(l1[w])
    }

    /** Price p is marked in the first level. */
    ghost predicate Has(p: int)
      reads l1
    {
      l1.Length == L1_WORDS && 0 <= p < 64 * L1_WORDS && l1[p / 64][p % 64]
    }

    constructor ()
      ensures Valid() && fresh(l1) && fresh(l2)
      ensures forall p :: !Has(p)
    {
      l1 := new Word[L1_WORDS](i => Zero());
      l2 := new Word[L2_WORDS](i => Zero());
    }

    method SetBit(price: nat)
      requires Valid() && price < MAX_PRICE
      modifies l1, l2
      ensures Valid()
      ensures forall p :: Has(p) <==> p == price || old(Has(p))
    {
      hide IsZero;
      var word := price / 64;
      BitSetNonZero(Or(l1[word], Shl(Unit(), price % 64)), price % 64);
      l1[word] := Or(l1[word], Shl(Unit(), price % 64));
      assert l1[word][price % 64];
      l2[word / 64] := Or(l2[word / 64], Shl(Unit(), word % 64));
    }

    static lemma BitSetNonZero(w: Word, k: nat)
      requires k < 64 && w[k]
      ensures !IsZero(w)
    {}

    method ClearBit(price: nat)
      requires Valid() && price < MAX_PRICE
      modifies l1, l2
      ensures Valid()
      ensures forall p :: Has(p) <==> p != price && old(Has(p))
    {
      var word := price / 64;
      l1[word] := And(l1[word], Not(Shl(Unit(), price % 64)));
      if IsZero(l1[word]) {
        l2[word / 64] := And(l2[word / 64], Not(Shl(Unit(), word % 64)));
      }
    }

    lemma InWord(word: nat)
      requires Valid() && word < L1_WORDS
      ensures forall p :: 64 * word <= p < 64 * word + 64 ==> Has(p) == l1[word][p - 64 * word]
    {
      forall p | 64 * word <= p < 64 * word + 64 ensures Has(p) == l1[word][p - 64 * word] {
        assert p / 64 == word && p % 64 == p - 64 * word;
      }
    }

    // Lowest marked price of a non-zero first-level word.
    method LowestIn(word: nat) returns (r: nat)
      requires Valid() && word < L1_WORDS && !IsZero(l1[word])
      ensures r / 64 == word && Has(r)
      ensures forall p :: 64 * word <= p < r ==> !Has(p)
    {
      var z := CountTrailingZeros(l1[word]);
      r := 64 * word + z;
      InWord(word);
    }

    // Highest marked price of a non-zero first-level word.
    method HighestIn(word: nat) returns (r: nat)
      requires Valid() && word < L1_WORDS && !IsZero(l1[word])
      ensures r / 64 == word && Has(r)
      ensures forall p :: r < p < 64 * word + 64 ==> !Has(p)
    {
      var z := CountLeadingZeros(l1[word]);
      r := 64 * word + (63 - z);
      InWord(word);
    }

    ghost predicate EmptyWords(lo: int, hi: int)
      reads l1
      requires l1.Length == L1_WORDS
    {
      forall w :: lo <= w < hi ==> !NonZero(w)
    }

    // No price is marked in a run of zero words.
    lemma SkipsEmpty(lo: nat, hi: nat)
      requires Valid() && hi <= L1_WORDS && EmptyWords(lo, hi)
      ensures forall p :: 64 * lo <= p < 64 * hi ==> !Has(p)
    {
      forall p | 64 * lo <= p < 64 * hi ensures !Has(p) {
        assert !NonZero(p / 64);
      }
    }

    // Words lo..hi of one second-level group are zero when their summary bits are clear.
    lemma ClearGroup(group: nat, lo: nat, hi: nat)
      requires Valid() && group < L2_WORDS && lo <= hi <= 64
      requires forall k :: lo <= k < hi ==> !l2[group][k]
      ensures EmptyWords(64 * group + lo, 64 * group + hi)
    {
      forall w | 64 * group + lo <= w < 64 * group + hi ensures !NonZero(w) {
        assert !l2[group][w - 64 * group];
      }
    }

    lemma SetInGroup(group: nat, k: nat)
      requires Valid() && group < L2_WORDS && k < 64 && l2[group][k]
      ensures NonZero(64 * group + k)
    {}

    // Step 3 of find_next_ask: following second-level groups.
    method FirstGroupFrom(group: nat) returns (next: int)
      requires Valid()
      ensures next == -1 ==> EmptyWords(64 * group, L1_WORDS)
      ensures next != -1 ==> 64 * group <= next < L1_WORDS && NonZero(next) && EmptyWords(64 * group, next)
    {
      var i := group;
      while i < L2_WORDS
        invariant group <= i
        invariant EmptyWords(64 * group, 64 * i)
      {
        if !IsZero(l2[i]) {
          var z := CountTrailingZeros(l2[i]);
          next := 64 * i + z;
          ClearGroup(i, 0, z);
          SetInGroup(i, z);
          return;
        }
        ClearGroup(i, 0, 64);
        i := i + 1;
      }
      next := -1;
    }

    // Step 3 of find_next_bid: preceding second-level groups.
    method LastGroupBefore(group: nat) returns (next: int)
      requires Valid() && group <= L2_WORDS
      ensures next == -1 ==> EmptyWords(0, 64 * group)
      ensures next != -1 ==>
        0 <= next < 64 * group && next < L1_WORDS && NonZero(next) && EmptyWords(next + 1, 64 * group)
    {
      var i := group - 1;
      while i >= 0
        invariant -1 <= i < group
        invariant EmptyWords(64 * i + 64, 64 * group)
      {
        if !IsZero(l2[i]) {
          var z := CountLeadingZeros(l2[i]);
          next := 64 * i + (63 - z);
          ClearGroup(i, 64 - z, 64);
          SetInGroup(i, 63 - z);
          return;
        }
        ClearGroup(i, 0, 64);
        i := i - 1;
      }
      next := -1;
    }

    // Steps 2 and 3 of find_next_ask: the first non-zero word after `word`.
    method NextWord(word: nat) returns (next: int)
      requires Valid() && word < L1_WORDS
      ensures next == -1 ==> EmptyWords(word + 1, L1_WORDS)
      ensures next != -1 ==> word < next < L1_WORDS && NonZero(next) && EmptyWords(word + 1, next)
    {
      var group := word / 64;
      var bit := word % 64;
      assert word == 64 * group + bit && group < L2_WORDS;
      var above := BitsAbove(l2[group], bit);
      if !IsZero(above) {
        var z := CountTrailingZeros(above);
        next := 64 * group + z;
        ClearGroup(group, bit + 1, z);
        SetInGroup(group, z);
        return;
      }
      ClearGroup(group, bit + 1, 64);
      next := FirstGroupFrom(group + 1);
    }

    // Steps 2 and 3 of find_next_bid: the last non-zero word before `word`.
    method PreviousWord(word: nat) returns (next: int)
      requires Valid() && word < L1_WORDS
      ensures next == -1 ==> EmptyWords(0, word)
      ensures next != -1 ==> 0 <= next < word && NonZero(next) && EmptyWords(next + 1, word)
    {
      var group := word / 64;
      var bit := word % 64;
      assert word == 64 * group + bit && group < L2_WORDS;
      var below := BitsBelow(l2[group], bit);
      if !IsZero(below) {
        var z := CountLeadingZeros(below);
        next := 64 * group + (63 - z);
        ClearGroup(group, 64 - z, bit);
        SetInGroup(group, 63 - z);
        return;
      }
      ClearGroup(group, 0, bit);
      next := LastGroupBefore(group);
    }

    /** The lowest marked price at or above start, or -1 (orderbook.h:77-105). */
    method FindNextAsk(start: nat) returns (r: int)
      requires Valid() && start <= MAX_PRICE
      ensures r == -1 ==> forall p :: p >= start ==> !Has(p)
      ensures r != -1 ==> start <= r < MAX_PRICE && Has(r) && forall p :: start <= p < r ==> !Has(p)
    {
      var word := start / 64;
      var rest := BitsFrom(l1[word], start % 64);
      InWord(word);
      if !IsZero(rest) {
        var z := CountTrailingZeros(rest);
        r := 64 * word + z;
        return;
      }
      var next := NextWord(word);
      if next == -1 {
        SkipsEmpty(word + 1, L1_WORDS);
        return -1;
      }
      SkipsEmpty(word + 1, next);
      r := LowestIn(next);
    }

    /** The highest marked price at or below start, or -1 (orderbook.h:108-135). */
    method FindNextBid(start: nat) returns (r: int)
      requires Valid() && start < MAX_PRICE
      ensures r == -1 ==> forall p :: p <= start ==> !Has(p)
      ensures r != -1 ==> 0 <= r <= start && Has(r) && forall p :: r < p <= start ==> !Has(p)
    {
      var word := start / 64;
      var rest := BitsUpTo(l1[word], start % 64);
      InWord(word);
      if !IsZero(rest) {
        var z := CountLeadingZeros(rest);
        r := 64 * word + (63 - z);
        return;
      }
      var next := PreviousWord(word);
      if next == -1 {
        SkipsEmpty(0, word);
        return -1;
      }
      SkipsEmpty(next + 1, word);
      r := HighestIn(next);
    }
  }
}
