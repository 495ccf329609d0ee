/** Sets of block indices, packed 64 to a word. */
module BlockSets {
  import opened Isa
  import opened Collections
  import opened Powers
  import opened Bits

  // ---- words of 64 bits ----

  const WORD_BITS: nat := 64
  const ALL_ONES: u64 := 0xFFFF_FFFF_FFFF_FFFF

  lemma WordRange(k: nat)
    requires k == WORD_BITS
    ensures Pow2(k) == ALL_ONES + 1
  {
    hide Pow2;
    Pow2Of32();
    Pow2Adds(32, k - 32);
  }

  /** The number of one bits among the first `k`. */
  function PopCount(w: nat, k: nat): nat {
    if k == 0 then 0 else PopCount(w, k - 1) + (if TestBit(w, k - 1) then 1 else 0)
  }

  // ---- the set ----

  /** The member at bit `i % 64` of word `i / 64`. */
  ghost predicate Member(words: seq<u64>, i: nat) {
    i / WORD_BITS < |words| && TestBit(words[i / WORD_BITS], i % WORD_BITS)
  }

  ghost function MembersBelow(words: seq<u64>, bound: nat): set<nat> {
    set i | i in UpTo(bound) && Member(words, i)
  }

  lemma MembersStep(words: seq<u64>, i: nat)
    ensures |MembersBelow(words, i + 1)| == |MembersBelow(words, i)| + (if Member(words, i) then 1 else 0)
  {
    if Member(words, i) {
      assert MembersBelow(words, i + 1) == MembersBelow(words, i) + {i};
    } else {
      assert MembersBelow(words, i + 1) == MembersBelow(words, i);
    }
  }

  /** The members in the first `k` positions of word `w`, which starts at position `at`, are its one bits. */
  lemma {:induction false} CountInWord(words: seq<u64>, w: nat, at: nat, k: nat)
    requires w < |words| && at == w * WORD_BITS && k <= WORD_BITS
    ensures |MembersBelow(words, at + k)| == |MembersBelow(words, at)| + PopCount(words[w], k)
  {
    hide MembersBelow;
    if k > 0 {
      CountInWord(words, w, at, k - 1);
      var i := at + (k - 1);
      MembersStep(words, i);
      Quotient(i, WORD_BITS, w, k - 1);
      assert i + 1 == at + k;
    }
  }

  /** `w & v`, `w | (1 << i)` and `w & ~(1 << i)` on 64-bit words. */
  function AndWord(w: u64, v: u64): u64 { AndFits(w, v); AndBits(w, v) }

  function SetBit(w: u64, i: nat): u64
    requires i < WORD_BITS
  {
    BitFits(i);
    WordRange(WORD_BITS);
    OrFits(w, Pow2(i), WORD_BITS);
    OrBits(w, Pow2(i))
  }

  function ClearBit(w: u64, i: nat): u64
    requires i < WORD_BITS
  {
    BitFits(i);
    AndWord(w, ALL_ONES - Pow2(i))
  }

  lemma BitFits(i: nat)
    requires i < WORD_BITS
    ensures Pow2(i) <= ALL_ONES
  {
    var k := WORD_BITS;
    WordRange(k);
    Pow2Monotone(i, k - 1);
    assert Pow2(k) == 2 * Pow2(k - 1);
  }

  lemma TestWords(w: u64, v: u64, i: nat, j: nat, k: nat)
    requires i < WORD_BITS && j < WORD_BITS && k == WORD_BITS
    ensures TestBit(AndWord(w, v), j) <==> TestBit(w, j) && TestBit(v, j)
    ensures TestBit(SetBit(w, i), j) <==> TestBit(w, j) || j == i
    ensures TestBit(ClearBit(w, i), j) <==> TestBit(w, j) && j != i
    ensures TestBit(ALL_ONES, j)
  {
    TestAnd(w, v, j);
    TestOr(w, Pow2(i), j);
    TestPower(i, j);
    WordRange(k);
    BitFits(i);
    TestComplement(Pow2(i), k, j);
    TestAnd(w, ALL_ONES - Pow2(i), j);
    TestLowBits(k, j);
  }

  class BlockSet {
    const words: array<u64>
    const size: nat

    /** No bit at or above `size` is set. */
    ghost predicate Valid()
      reads words
    {
      && words.Length == (size + 63) / WORD_BITS
      && forall i: nat | Member(words[..], i) :: i < size
    }

    ghost function Contents(): (s: set<nat>)
      reads words
      ensures forall i: nat :: i in s <==> i < size && Member(words[..], i)
    {
      MembersBelow(words[..], size)
    }

    constructor (size: nat, all: bool)
      ensures Valid() && fresh(words) && this.size == size
      ensures Contents() == if all then UpTo(size) else {}
    {
      this.size := size;
      words := new u64[(size + 63) / 64](_ => if all then ALL_ONES else 0);
      new;
      if all && words.Length != 0 && size % 64 != 0 {
        var last := words.Length - 1;
        BitFits(size % 64);
        words[last] := AndWord(words[last], Pow2(size % 64) - 1);
        TestLastWord(words[last], size % 64);
      }
      InitialMembers(words[..], size, all);
      hide TestBit, Member;
    }

    /** A copy, as assignment makes one in the source. */
    constructor Copy(other: BlockSet)
      requires other.Valid()
      ensures Valid() && fresh(words) && size == other.size && Contents() == other.Contents()
    {
      size := other.size;
      words := new u64[other.words.Length](k requires 0 <= k < other.words.Length reads other.words => other.words[k]);
      new;
      assert words[..] == other.words[..];
    }

    method Contains(i: nat) returns (r: bool)
      requires Valid() && i < size
      ensures r <==> i in Contents()
    {
      r := TestBit(words[i / 64], i % 64);
    }

    method Insert(i: nat)
      requires Valid() && i < size
      modifies words
      ensures Valid() && Contents() == old(Contents()) + {i}
    {
      ghost var before := words[..];
      words[i / 64] := SetBit(words[i / 64], i % 64);
      forall j: nat ensures Member(words[..], j) <==> Member(before, j) || j == i {
        if j / WORD_BITS == i / WORD_BITS {
          TestWords(before[i / 64], 0, i % 64, j % 64, WORD_BITS);
        }
      }
    }

    method Erase(i: nat)
      requires Valid() && i < size
      modifies words
      ensures Valid() && Contents() == old(Contents()) - {i}
    {
      ghost var before := words[..];
      words[i / 64] := ClearBit(words[i / 64], i % 64);
      forall j: nat ensures Member(words[..], j) <==> Member(before, j) && j != i {
        if j / WORD_BITS == i / WORD_BITS {
          TestWords(before[i / 64], 0, i % 64, j % 64, WORD_BITS);
        }
      }
    }

    method Intersect(other: BlockSet)
      requires Valid() && other.Valid() && other.size == size && words != other.words
      modifies words
      ensures Valid() && Contents() == old(Contents()) * other.Contents()
    {
      ghost var before := words[..];
      for w := 0 to words.Length
        invariant forall k: nat | k < words.Length ::
                    words[k] == if k < w then AndWord(before[k], other.words[k]) else before[k]
      {
        words[w] := AndWord(words[w], other.words[w]);
      }
      forall j: nat ensures Member(words[..], j) <==> Member(before, j) && Member(other.words[..], j) {
        if j / WORD_BITS < words.Length {
          TestWords(before[j / 64], other.words[j / 64], 0, j % 64, WORD_BITS);
        }
      }
    }

    method Equals(other: BlockSet) returns (r: bool)
      requires Valid() && other.Valid() && other.size == size
      ensures r <==> Contents() == other.Contents()
    {
      for w := 0 to words.Length
        invariant words[..w] == other.words[..w]
      {
        if words[w] != other.words[w] {
          if Contents() == other.Contents() {
            SameWord(words[..], other.words[..], size, w);
          }
          return false;
        }
      }
      assert words[..] == words[..words.Length] == other.words[..words.Length] == other.words[..];
      return true;
    }

    method Count() returns (n: nat)
      requires Valid()
      ensures n == |Contents()|
    {
      hide Member, PopCount;
      n := 0;
      for w := 0 to words.Length
        invariant n == |MembersBelow(words[..], w * WORD_BITS)|
      {
        CountInWord(words[..], w, w * WORD_BITS, WORD_BITS);
        n := n + PopCount(words[w], WORD_BITS);
      }
      assert MembersBelow(words[..], words.Length * WORD_BITS) == Contents();
    }
  }

  lemma TestLastWord(w: u64, k: nat)
    requires k < WORD_BITS
    requires w == AndBits(ALL_ONES, Pow2(k) - 1)
    ensures forall j: nat | j < WORD_BITS :: TestBit(w, j) <==> j < k
  {
    forall j: nat | j < WORD_BITS ensures TestBit(w, j) <==> j < k {
      TestAnd(ALL_ONES, Pow2(k) - 1, j);
      TestLowBits(k, j);
      TestWords(0, 0, 0, j, WORD_BITS);
    }
  }

  /** The words of a new set: all ones with the tail cleared, or all zero. */
  lemma InitialMembers(words: seq<u64>, size: nat, all: bool)
    requires |words| == (size + 63) / WORD_BITS
    requires forall w: nat | w < |words| && (w + 1) * WORD_BITS <= size :: words[w] == if all then ALL_ONES else 0
    requires forall w: nat | w < |words| && (w + 1) * WORD_BITS > size ::
               if all then forall j: nat | j < WORD_BITS :: TestBit(words[w], j) <==> j < size % WORD_BITS
               else words[w] == 0
    ensures forall i: nat :: Member(words, i) <==> all && i < size
  {
    forall i: nat ensures Member(words, i) <==> all && i < size {
      var w, j := i / WORD_BITS, i % WORD_BITS;
      TestZero(j);
      TestWords(0, 0, 0, j, WORD_BITS);
    }
  }

  /** Equal sets are stored in equal words. */
  lemma SameWord(a: seq<u64>, b: seq<u64>, size: nat, w: nat)
    requires |a| == |b| && w < |a|
    requires forall i: nat :: Member(a, i) <==> Member(b, i)
    ensures a[w] == b[w]
  {
    forall j: nat | j < WORD_BITS ensures TestBit(a[w], j) == TestBit(b[w], j) {
      var i := w * WORD_BITS + j;
      assert i / WORD_BITS == w && i % WORD_BITS == j;
      assert Member(a, i) <==> Member(b, i);
    }
    WordRange(WORD_BITS);
    BitsDetermine(a[w], b[w], WORD_BITS);
  }
}
