/** The golden model of the block reduction, and why halving computes it. */
module ReductionSums {
  import opened Isa
  import opened Alu

  const BLOCK: nat := 256

  /** The 256 cells of one block of the input; past the end they are zero. */
  function Cells(input: seq<u32>, block: nat): (c: seq<u32>)
    ensures |c| == BLOCK
  {
    seq(BLOCK, (t: nat) requires t < BLOCK => if block * BLOCK + t < |input| then input[block * BLOCK + t] else 0)
  }

  /** The sum of the first `k` values as signed integers. */
  function SignedSum(c: seq<u32>, k: nat): int
    requires k <= |c|
  {
    if k == 0 then 0 else SignedSum(c, k - 1) + Signed(c[k - 1])
  }

  /** `reduce_blocks`: the wrapped sum of every block of signed values. */
  function ReduceBlocks(input: seq<u32>): (r: seq<u32>)
    ensures |r| == (|input| + BLOCK - 1) / BLOCK
    ensures forall b | 0 <= b < |r| :: r[b] == BlockSum(input, b)
  {
    seq((|input| + BLOCK - 1) / BLOCK, (b: nat) => BlockSum(input, b))
  }

  function BlockSum(input: seq<u32>, block: nat): u32 { CellSum(Cells(input, block), BLOCK) }

  function CellSum(c: seq<u32>, k: nat): u32
    requires k <= |c|
  {
    Wrap(SignedSum(c, k))
  }

  // ---- wrapped sums ----

  lemma WrapOf(a: int, k: int)
    ensures Wrap(a + k * 0x1_0000_0000) == Wrap(a)
  {
    var q, r := a / 0x1_0000_0000, a % 0x1_0000_0000;
    Quotient(a + k * 0x1_0000_0000, 0x1_0000_0000, q + k, r);
  }

  lemma WrapAdd(a: int, b: int)
    ensures Wrap(Wrap(a) + b) == Wrap(a + b)
  {
    var q := a / 0x1_0000_0000;
    WrapOf(Wrap(a) + b, q);
    assert Wrap(a) + b + q * 0x1_0000_0000 == a + b;
  }

  lemma WrapSigned(a: int, x: u32)
    ensures Wrap(a + Signed(x)) == Wrap(a + x)
  {
    if Signed(x) != x { WrapOf(a + Signed(x), 1); }
  }

  /** The unsigned sum of the values from `from` up to `k`. */
  function Sum(c: seq<u32>, from: nat, k: nat): nat
    requires from <= k <= |c|
    decreases k
  {
    if k == from then 0 else Sum(c, from, k - 1) + c[k - 1]
  }

  lemma {:induction false} SignedAndUnsigned(c: seq<u32>, k: nat)
    requires k <= |c|
    ensures CellSum(c, k) == Wrap(Sum(c, 0, k))
  {
    if k > 0 {
      SignedAndUnsigned(c, k - 1);
      var a, s, x := SignedSum(c, k - 1), Sum(c, 0, k - 1), c[k - 1];
      WrapSigned(a, x);
      WrapAdd(a, x);
      WrapAdd(s, x);
    }
  }

  // ---- halving ----

  /** `add` on 32-bit words. */
  function Added(x: u32, y: u32): u32 {
    var a: int := x;
    Wrap(a + y)
  }

  lemma AddAlike(a: int, b: int, x: int, y: int)
    requires Wrap(a) == Wrap(b) && Wrap(x) == Wrap(y)
    ensures Wrap(a + x) == Wrap(b + y)
  {
    WrapAdd(a, x);
    WrapAdd(b, x);
    WrapAdd(x, b);
    WrapAdd(y, b);
  }

  /** Every cell below `s` adds the cell `s` above it. */
  function Halved(c: seq<u32>, s: nat): (r: seq<u32>)
    requires 2 * s <= |c|
    ensures |r| == |c|
    ensures forall t | 0 <= t < |c| :: r[t] == if t < s then Added(c[t], c[t + s]) else c[t]
  {
    seq(|c|, (t: nat) requires t < |c| => if t < s then Added(c[t], c[t + s]) else c[t])
  }

  lemma {:induction false} SumSplit(c: seq<u32>, k: nat, m: nat)
    requires k <= m <= |c|
    ensures Sum(c, 0, m) == Sum(c, 0, k) + Sum(c, k, m)
    decreases m
  {
    if k < m { SumSplit(c, k, m - 1); }
  }

  lemma {:induction false} HalvedPrefix(c: seq<u32>, s: nat, k: nat)
    requires 2 * s <= |c| && k <= s
    ensures Wrap(Sum(Halved(c, s), 0, k)) == Wrap(Sum(c, 0, k) + Sum(c, s, s + k))
    decreases k
  {
    hide Wrap, Halved;
    if k > 0 {
      HalvedPrefix(c, s, k - 1);
      var h := Halved(c, s);
      var x: int, y: int := c[k - 1], c[k - 1 + s];
      assert Sum(c, s, s + k) == Sum(c, s, s + (k - 1)) + c[s + k - 1];
      AddedWraps(c[k - 1], c[k - 1 + s]);
      AddAlike(Sum(h, 0, k - 1), Sum(c, 0, k - 1) + Sum(c, s, s + (k - 1)), h[k - 1], x + y);
    }
  }

  lemma AddedWraps(x: u32, y: u32)
    ensures var a: int := x; Wrap(Added(x, y)) == Wrap(a + y)
  {
  }

  /** Halving keeps the wrapped sum of the part that is still in use. */
  lemma HalvingKeepsSum(c: seq<u32>, s: nat)
    requires 2 * s <= |c|
    ensures Wrap(Sum(Halved(c, s), 0, s)) == Wrap(Sum(c, 0, 2 * s))
  {
    HalvedPrefix(c, s, s);
    SumSplit(c, s, 2 * s);
  }

  /** The stride of step `a`: 128, then halved until nothing is left. */
  function Stride(a: nat): nat
    requires a >= 1
  {
    if a == 1 then 128 else Stride(a - 1) / 2
  }

  lemma Strides(a: nat)
    requires 1 <= a <= 9
    ensures Stride(a) == if a == 1 then 128 else if a == 2 then 64 else if a == 3 then 32 else if a == 4 then 16
                         else if a == 5 then 8 else if a == 6 then 4 else if a == 7 then 2 else if a == 8 then 1 else 0
  {
    if a > 1 { Strides(a - 1); }
  }

  /** The cells after `a` halving steps. */
  function Level(c: seq<u32>, a: nat): (r: seq<u32>)
    requires |c| == BLOCK && a <= 8
    ensures |r| == BLOCK
  {
    if a == 0 then c else (Strides(a); Halved(Level(c, a - 1), Stride(a)))
  }

  /** Cells at or above the stride of a step do not change in it. */
  lemma LevelStays(c: seq<u32>, a: nat, t: nat)
    requires |c| == BLOCK && 1 <= a <= 8 && Stride(a) <= t < BLOCK
    ensures Level(c, a)[t] == Level(c, a - 1)[t]
  {
    Strides(a);
  }

  lemma {:induction false} LevelSum(c: seq<u32>, a: nat)
    requires |c| == BLOCK && 1 <= a <= 8
    ensures Stride(a) <= BLOCK
    ensures Wrap(Sum(Level(c, a), 0, Stride(a))) == Wrap(Sum(c, 0, BLOCK))
    decreases a
  {
    hide Sum, Halved, Level;
    Strides(a);
    LevelStep(c, a);
    HalvingKeepsSum(Level(c, a - 1), Stride(a));
    if a > 1 {
      Strides(a - 1);
      LevelSum(c, a - 1);
    } else {
      LevelStart(c);
    }
  }

  lemma LevelStep(c: seq<u32>, a: nat)
    requires |c| == BLOCK && 1 <= a <= 8
    ensures 2 * Stride(a) <= BLOCK && Level(c, a) == Halved(Level(c, a - 1), Stride(a))
  {
    Strides(a);
  }

  lemma LevelStart(c: seq<u32>)
    requires |c| == BLOCK
    ensures Level(c, 0) == c
  {
  }

  /** After eight steps cell zero holds the wrapped sum of the block. */
  lemma LastLevel(input: seq<u32>, block: nat)
    ensures Level(Cells(input, block), 8)[0] == BlockSum(input, block)
  {
    hide Level, Sum, CellSum, Stride;
    var c := Cells(input, block);
    LevelSum(c, 8);
    Strides(8);
    SumsAgree(input, block, BLOCK);
    OneCell(Level(c, 8));
  }

  lemma SumsAgree(input: seq<u32>, block: nat, k: nat)
    requires k == BLOCK
    ensures BlockSum(input, block) == Wrap(Sum(Cells(input, block), 0, k))
  {
    SignedAndUnsigned(Cells(input, block), k);
  }

  lemma OneCell(c: seq<u32>)
    requires |c| == BLOCK
    ensures Wrap(Sum(c, 0, 1)) == c[0]
  {
    assert Sum(c, 0, 1) == Sum(c, 0, 0) + c[0];
  }
}
