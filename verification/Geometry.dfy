/** Which lanes a block has, and what coordinates its threads see. */
module Geometry {
  import opened Isa
  import opened Alu
  import opened Collections
  import opened WarpSpec
  import opened Refinement
  import opened WarpRuns
  import opened Scheduling

  // ---- the lanes of a block ----

  /** The warps `warps` hold the lanes 0 up to `lanes`, 32 to a warp and in order, all active and at PC 0. */
  ghost predicate HoldsLanes(warps: seq<WarpState>, lanes: nat) {
    && |warps| == (lanes + 31) / 32
    && (forall w: nat, l: nat | w < |warps| && l < 32 :: l in warps[w].live <==> 32 * w + l < lanes)
    && (forall w | 0 <= w < |warps| :: warps[w].live != {} && warps[w].active == warps[w].live && warps[w].pc == 0 && warps[w].stack == [])
  }

  /** When the 32-bit sum of the lanes and 31 does not wrap, the warps of a block hold exactly its lanes. */
  lemma BlockHoldsLanes(lanes: u32, m: MemoryImage, c: Counters)
    requires lanes + 31 < 0x1_0000_0000 && |c.histogram| == WARP_SIZE + 1
    ensures HoldsLanes(InitialBlock(lanes, m, c).warps, lanes)
    ensures InitialBlock(lanes, m, c).counters.warps == c.warps + (lanes + 31) / 32
  {
    InitialHoldsLanes(lanes);
  }

  lemma InitialHoldsLanes(lanes: u32)
    requires lanes + 31 < 0x1_0000_0000
    ensures HoldsLanes(InitialWarps(lanes), lanes)
  {
    var warps := InitialWarps(lanes);
    forall w: nat | w < |warps| ensures 32 * w < lanes {
      assert 32 * (w + 1) <= 32 * |warps| <= lanes + 31;
    }
    forall w: nat | w < |warps| ensures warps[w].live != {} {
      assert 0 in LiveLanes(lanes, w);
    }
  }

  /** Every thread starts with zero in each general register and with each predicate false, and no warp has
      met a barrier or diverged. */
  lemma RegistersStartAtZero(lanes: u32, w: nat, l: nat)
    requires w < |InitialWarps(lanes)| && l < 32
    ensures var s := InitialWarps(lanes)[w];
            && (forall k | 0 <= k < GENERAL_REGISTERS :: s.lanes[l].general[k] == 0)
            && (forall k | 0 <= k < PREDICATE_REGISTERS :: !s.lanes[l].preds[k])
            && !s.parked && s.divergent == 0 && s.reconverged == 0
  {
  }

  /** Otherwise the block has no warp, and completes in one round without having issued anything. */
  lemma WrappedBlockIsEmpty(program: seq<Instruction>, base: LaunchContext, lanes: u32, m: MemoryImage, c: Counters, fuel: nat)
    requires lanes + 31 >= 0x1_0000_0000 && |c.histogram| == WARP_SIZE + 1 && ValidProgram(program) && fuel > 0
    ensures var b := InitialBlock(lanes, m, c); b.warps == [] && RunBlock(program, base, b, fuel) == Completed(b)
  {
    var b := InitialBlock(lanes, m, c);
    assert WarpCount(lanes) == 0;
    hide Turn;
    assert Pass(program, base, b, 0) == Going(b);
  }

  /** Every lane of the block is in one warp, at one place. */
  lemma LaneHasOnePlace(warps: seq<WarpState>, lanes: nat, n: nat, w: nat, l: nat)
    requires HoldsLanes(warps, lanes) && n < lanes && l < 32
    ensures n / 32 < |warps| && n % 32 in warps[n / 32].live
    ensures 32 * w + l == n <==> w == n / 32 && l == n % 32
  {
    assert 32 * (n / 32) + n % 32 == n;
    assert n / 32 < (lanes + 31) / 32 by { assert 32 * (n / 32) <= n < lanes; }
    assert n % 32 in warps[n / 32].live;
  }

  ghost function LiveCounts(warps: seq<WarpState>): (h: seq<nat>)
    ensures |h| == |warps| && forall w | 0 <= w < |h| :: h[w] == |warps[w].live|
  {
    seq(|warps|, w requires 0 <= w < |warps| => |warps[w].live|)
  }

  /** The warps of a block have as many live lanes together as the block has lanes. */
  lemma LanesAddUp(warps: seq<WarpState>, lanes: nat)
    requires HoldsLanes(warps, lanes)
    ensures Sum(LiveCounts(warps)) == lanes
  {
    forall w: nat | w < |warps| ensures |warps[w].live| == if 32 * (w + 1) <= lanes then 32 else lanes - 32 * w {
      LiveCount(warps, lanes, w);
    }
    SumOfFull(LiveCounts(warps), lanes);
  }

  lemma LiveCount(warps: seq<WarpState>, lanes: nat, w: nat)
    requires HoldsLanes(warps, lanes) && w < |warps|
    ensures 32 * w < lanes && |warps[w].live| == if 32 * (w + 1) <= lanes then 32 else lanes - 32 * w
  {
    var l :| l in warps[w].live;
    assert 32 * w + l < lanes;
    var n := if 32 * (w + 1) <= lanes then 32 else lanes - 32 * w;
    assert warps[w].live == UpTo(n);
  }

  lemma {:induction false} SumOfFull(h: seq<nat>, lanes: nat)
    requires |h| == (lanes + 31) / 32
    requires forall w | 0 <= w < |h| :: h[w] == if 32 * (w + 1) <= lanes then 32 else lanes - 32 * w
    ensures Sum(h) == lanes
    decreases |h|
  {
    if h != [] {
      var last := |h| - 1;
      assert 32 * last < lanes <= 32 * (last + 1);
      var shorter := h[..last];
      assert (32 * last + 31) / 32 == last;
      SumOfFull(shorter, 32 * last);
    }
  }

  // ---- coordinates ----

  /** Lane `l` of warp `w` has the coordinates that number it row by row, and the shape and the place in the
      grid that the launch gives its block; special registers in the order of their numbers. */
  lemma ThreadCoordinates(base: LaunchContext, w: nat, l: nat)
    requires l < WARP_SIZE && 32 * w + l < base.ntid.x * base.ntid.y && 32 * w + l < 0x1_0000_0000
    ensures var ctx := ContextOf(base, w);
            var x, y := ctx.Special(0, l), ctx.Special(1, l);
            && x < base.ntid.x && y < base.ntid.y && x + y * base.ntid.x == 32 * w + l
            && ctx.Special(2, l) == base.ntid.x && ctx.Special(3, l) == base.ntid.y
            && ctx.Special(4, l) == base.ctaid.x && ctx.Special(5, l) == base.ctaid.y
            && ctx.Special(6, l) == base.nctaid.x && ctx.Special(7, l) == base.nctaid.y
            && ctx.Special(8, l) == l && ctx.Special(9, l) == w
  {
    var n: nat, width: nat, height: nat := 32 * w + l, base.ntid.x, base.ntid.y;
    assert 0 * height == 0;
    RowMajor(n, width, height);
    SmallModulus(n, 0x1_0000_0000);
    SmallModulus(w, 0x1_0000_0000);
  }

  lemma SmallModulus(n: nat, m: nat)
    requires n < m
    ensures n % m == n
  {
  }

  lemma RowMajor(n: nat, width: nat, height: nat)
    requires width > 0 && n < width * height
    ensures n % width < width && n / width < height && n % width + (n / width) * width == n
  {
    assert n == (n / width) * width + n % width;
    if n / width >= height {
      MulMonotone(height, n / width, width);
      assert false;
    }
  }

  /** Every coordinate of the block is that of one lane of it. */
  lemma CoordinateHasLane(base: LaunchContext, x: nat, y: nat)
    requires x < base.ntid.x && y < base.ntid.y && base.ntid.x * base.ntid.y < 0x1_0000_0000
    ensures var n := x + y * base.ntid.x;
            && n < base.ntid.x * base.ntid.y
            && ContextOf(base, n / 32).Special(0, n % 32) == x && ContextOf(base, n / 32).Special(1, n % 32) == y
  {
    var width: nat, height: nat := base.ntid.x, base.ntid.y;
    var n := x + y * width;
    MulMonotone(y + 1, height, width);
    assert (y + 1) * width == y * width + width;
    Quotient(n, width, y, x);
    SmallModulus(n, 0x1_0000_0000);
    assert 32 * (n / 32) + n % 32 == n;
  }
}
