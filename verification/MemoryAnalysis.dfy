/** The warp-level access counters: coalescing segments and shared-memory bank conflicts. */
module MemoryAnalysis {
  import opened Isa
  import opened Alu
  import opened Collections

  const SEGMENT_BYTES: nat := 128
  const BANKS: nat := 32
  const BANK_BYTES: nat := 4

  function Segment(address: u32): nat { address / SEGMENT_BYTES }

  function Bank(address: u32): nat
    ensures Bank(address) < BANKS
  {
    (address / BANK_BYTES) % BANKS
  }

  ghost predicate ValidAccess(addresses: seq<u32>, exec: set<nat>) {
    |addresses| == WARP_SIZE && forall l <- exec :: l < WARP_SIZE
  }

  /** The segments that the lanes of `exec` touch. */
  ghost function Segments(addresses: seq<u32>, exec: set<nat>): set<nat>
    requires ValidAccess(addresses, exec)
  {
    set l <- exec :: Segment(addresses[l])
  }

  /** The distinct addresses that the lanes of `exec` direct at bank `b`. */
  ghost function InBank(addresses: seq<u32>, exec: set<nat>, b: nat): set<u32>
    requires ValidAccess(addresses, exec)
  {
    set l | l in exec && Bank(addresses[l]) == b :: addresses[l]
  }

  /** `degree` is the largest number of distinct addresses in one bank. */
  ghost predicate IsDegree(addresses: seq<u32>, exec: set<nat>, degree: nat)
    requires ValidAccess(addresses, exec)
  {
    && (forall b | 0 <= b < BANKS :: |InBank(addresses, exec, b)| <= degree)
    && (exists b | 0 <= b < BANKS :: |InBank(addresses, exec, b)| == degree)
  }

  /** The lanes of `exec` below `k`: the part of a lane loop already done. */
  ghost function LanesBelow(exec: set<nat>, k: nat): set<nat> {
    set l | l in exec && l < k
  }

  lemma LanesBelowStep(exec: set<nat>, k: nat)
    ensures LanesBelow(exec, k + 1) == if k in exec then LanesBelow(exec, k) + {k} else LanesBelow(exec, k)
  {
  }

  lemma LanesBelowAll(exec: set<nat>)
    requires forall l <- exec :: l < WARP_SIZE
    ensures LanesBelow(exec, WARP_SIZE) == exec
  {
  }

  /** `std::ranges::find` over the first `count` elements. */
  method Seen(a: array<u32>, count: nat, value: u32) returns (found: bool)
    requires count <= a.Length
    ensures found <==> value in a[..count]
  {
    for k := 0 to count
      invariant value !in a[..k]
    {
      if a[k] == value {
        return true;
      }
    }
    return false;
  }

  lemma SegmentsStep(addresses: seq<u32>, exec: set<nat>, k: nat)
    requires ValidAccess(addresses, exec) && k < WARP_SIZE
    ensures Segments(addresses, LanesBelow(exec, k + 1)) ==
            Segments(addresses, LanesBelow(exec, k)) + (if k in exec then {Segment(addresses[k])} else {})
  {
    LanesBelowStep(exec, k);
  }

  method DistinctSegments(addresses: seq<u32>, exec: set<nat>) returns (count: nat)
    requires ValidAccess(addresses, exec)
    ensures count == |Segments(addresses, exec)|
  {
    var segments := new u32[WARP_SIZE](_ => 0);
    count := 0;
    for lane := 0 to WARP_SIZE
      invariant count <= lane
      invariant NoDuplicates(segments[..count])
      invariant Elements(segments[..count]) == Segments(addresses, LanesBelow(exec, lane))
    {
      SegmentsStep(addresses, exec, lane);
      if lane !in exec {
        continue;
      }
      var segment := addresses[lane] / SEGMENT_BYTES;
      var found := Seen(segments, count, segment);
      if !found {
        segments[count] := segment;
        assert segments[..count + 1] == segments[..count] + [segment];
        count := count + 1;
      }
    }
    LanesBelowAll(exec);
    CountNoDuplicates(segments[..count]);
  }

  /** Row `b` lists, without repetition, the addresses that the lanes of `done` direct at bank `b`. */
  ghost predicate Buckets(rows: seq<seq<u32>>, addresses: seq<u32>, done: set<nat>)
    requires ValidAccess(addresses, done)
  {
    && |rows| == BANKS
    && forall b | 0 <= b < BANKS :: NoDuplicates(rows[b]) && Elements(rows[b]) == InBank(addresses, done, b)
  }

  lemma BucketsStep(rows: seq<seq<u32>>, addresses: seq<u32>, exec: set<nat>, k: nat)
    requires ValidAccess(addresses, exec) && k < WARP_SIZE && Buckets(rows, addresses, LanesBelow(exec, k))
    ensures k !in exec ==> Buckets(rows, addresses, LanesBelow(exec, k + 1))
    ensures k in exec ==>
              var b := Bank(addresses[k]);
              var row := if addresses[k] in rows[b] then rows[b] else rows[b] + [addresses[k]];
              Buckets(rows[b := row], addresses, LanesBelow(exec, k + 1))
  {
    LanesBelowStep(exec, k);
    if k in exec {
      var x := addresses[k];
      var bank := Bank(x);
      forall b | 0 <= b < BANKS
        ensures InBank(addresses, LanesBelow(exec, k + 1), b)
             == InBank(addresses, LanesBelow(exec, k), b) + (if b == bank then {x} else {})
      {
      }
      assert Elements(rows[bank] + [x]) == Elements(rows[bank]) + {x};
    }
  }

  /** The row of bank `b` is stored in the first `counts[b]` cells of `seen`. */
  ghost predicate Stores(seen: array2<u32>, counts: array<nat>, rows: seq<seq<u32>>)
    reads seen, counts
  {
    && seen.Length0 == BANKS && seen.Length1 == WARP_SIZE && counts.Length == BANKS && |rows| == BANKS
    && (forall b | 0 <= b < BANKS :: |rows[b]| == counts[b] <= WARP_SIZE)
    && (forall b, j | 0 <= b < BANKS && 0 <= j < counts[b] :: seen[b, j] == rows[b][j])
  }

  method SeenInBank(seen: array2<u32>, counts: array<nat>, ghost rows: seq<seq<u32>>, bank: nat, address: u32)
    returns (found: bool)
    requires Stores(seen, counts, rows) && bank < BANKS
    ensures found <==> address in rows[bank]
  {
    for k := 0 to counts[bank]
      invariant address !in rows[bank][..k]
    {
      if seen[bank, k] == address {
        return true;
      }
    }
    assert rows[bank][..counts[bank]] == rows[bank];
    return false;
  }

  method AppendToBank(seen: array2<u32>, counts: array<nat>, ghost rows: seq<seq<u32>>, bank: nat, address: u32)
    requires Stores(seen, counts, rows) && bank < BANKS && |rows[bank]| < WARP_SIZE
    modifies seen, counts
    ensures Stores(seen, counts, rows[bank := rows[bank] + [address]])
  {
    seen[bank, counts[bank]] := address;
    counts[bank] := counts[bank] + 1;
  }

  method BankConflictDegree(addresses: seq<u32>, exec: set<nat>) returns (degree: nat)
    requires ValidAccess(addresses, exec)
    ensures IsDegree(addresses, exec, degree)
  {
    var seen := new u32[BANKS, WARP_SIZE]((_, _) => 0);
    var counts := new nat[BANKS](_ => 0);
    ghost var rows: seq<seq<u32>> := seq(BANKS, _ => []);
    degree := 0;
    assert |rows[0]| == degree;
    for lane := 0 to WARP_SIZE
      invariant Stores(seen, counts, rows)
      invariant Buckets(rows, addresses, LanesBelow(exec, lane))
      invariant forall b | 0 <= b < BANKS :: |rows[b]| <= degree <= lane
      invariant exists b | 0 <= b < BANKS :: |rows[b]| == degree
    {
      BucketsStep(rows, addresses, exec, lane);
      if lane !in exec {
        continue;
      }
      var address := addresses[lane];
      var bank := (address / BANK_BYTES) % BANKS;
      var found := SeenInBank(seen, counts, rows, bank, address);
      if !found {
        ghost var widest :| 0 <= widest < BANKS && |rows[widest]| == degree;
        AppendToBank(seen, counts, rows, bank, address);
        rows := rows[bank := rows[bank] + [address]];
        if degree < counts[bank] {
          degree := counts[bank];
          widest := bank;
        }
        assert |rows[widest]| == degree;
      } else {
        assert rows[bank := rows[bank]] == rows;
      }
    }
    LanesBelowAll(exec);
    DegreeOfRows(rows, addresses, exec, degree);
  }

  /** The longest row of the filled buckets is the conflict degree. */
  lemma DegreeOfRows(rows: seq<seq<u32>>, addresses: seq<u32>, exec: set<nat>, degree: nat)
    requires ValidAccess(addresses, exec) && |rows| == BANKS && Buckets(rows, addresses, exec)
    requires forall b | 0 <= b < BANKS :: |rows[b]| <= degree
    requires exists b | 0 <= b < BANKS :: |rows[b]| == degree
    ensures IsDegree(addresses, exec, degree)
  {
    forall b | 0 <= b < BANKS ensures |InBank(addresses, exec, b)| == |rows[b]| {
      CountNoDuplicates(rows[b]);
    }
  }
}
