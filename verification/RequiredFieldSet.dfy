/** The decoder's two 32-bit words that record which required fields have occurred. */
module RequiredFieldSet {
  import opened Bits

  /** `fields_seen`, with the set of numbers below 64 it stands for. */
  class SeenFields {
    const words: array<nat>
    ghost var seen: set<nat>

    ghost predicate Valid()
      reads this, words
    {
      && words.Length == 2
      && (forall k :: k in seen ==> k < 64)
      && forall i :: 0 <= i < 2 ==> WordHolds(words[i], i, seen)
    }

    constructor ()
      ensures Valid() && seen == {} && fresh(words)
    {
      words := new nat[2](_ => 0);
      seen := {};
      new;
      forall k { NoBits(k); }
    }

    /** `fields_seen[index >> 5] |= 1 << (index & 31)` */
    method Mark(index: nat)
      requires Valid() && index < 64
      modifies this, words
      ensures Valid() && seen == old(seen) + {index}
    {
      var word, bit := index / 32, index % 32;
      assert index == 32 * word + bit;
      MarkWord(words[word], word, seen, bit);
      words[word] := Or(words[word], Pow2(bit));
      seen := seen + {index};
    }

    /** Whether every number below `count` is recorded, by comparing words. */
    method HasAll(count: nat) returns (all: bool)
      requires Valid() && count <= 64 && forall k :: k in seen ==> k < count
      ensures all <==> forall k :: 0 <= k < count ==> k in seen
    {
      for i := 0 to count / 32
        invariant forall k :: 0 <= k < 32 * i ==> k in seen
      {
        FullWord(words[i], i, seen, 32);
        if words[i] != Ones(32) {
          return false;
        }
      }
      var last, rest := count / 32, count % 32;
      if rest != 0 {
        FullWord(words[last], last, seen, rest);
        // `allbits >> (32 - rest)`
        if words[last] != Ones(rest) {
          return false;
        }
      }
      return true;
    }
  }

  /** Word i holds the numbers 32i to 32i + 31. */
  ghost predicate WordHolds(w: nat, i: nat, seen: set<nat>) {
    w < Pow2(32) && forall k :: 0 <= k < 32 ==> (Bit(w, k) <==> 32 * i + k in seen)
  }

  lemma MarkWord(w: nat, i: nat, seen: set<nat>, bit: nat)
    requires WordHolds(w, i, seen) && bit < 32
    ensures WordHolds(Or(w, Pow2(bit)), i, seen + {32 * i + bit})
  {
    assert Pow2(bit) < Pow2(32) by { Pow2Monotone(bit, 31); }
    OrBound(w, Pow2(bit), 32);
    forall k | 0 <= k < 32
      ensures Bit(Or(w, Pow2(bit)), k) <==> 32 * i + k in seen + {32 * i + bit}
    {
      OrBits(w, Pow2(bit), k);
      Pow2Bits(bit, k);
    }
  }

  /** A word whose numbers all lie below 32i + r is full exactly when it has the r lowest bits set. */
  lemma FullWord(w: nat, i: nat, seen: set<nat>, r: nat)
    requires WordHolds(w, i, seen) && r <= 32
    requires forall k :: k in seen && 32 * i <= k < 32 * i + 32 ==> k < 32 * i + r
    ensures w == Ones(r) <==> forall k :: 32 * i <= k < 32 * i + r ==> k in seen
  {
    forall k { OnesBits(r, k); }
    if w == Ones(r) {
      forall k | 32 * i <= k < 32 * i + r
        ensures k in seen
      {
        assert Bit(w, k - 32 * i);
      }
    }
    if forall k :: 32 * i <= k < 32 * i + r ==> k in seen {
      Pow2Monotone(r, 32);
      SameBits(w, Ones(r), 32);
    }
  }
}
