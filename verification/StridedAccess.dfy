/** Closed forms of the two access counters for strided warps, and their bounds for every access. */
module StridedAccess {
  import opened Isa
  import opened Alu
  import opened Collections
  import opened MemoryAnalysis
  import opened Memory

  /** `stride * l` words, by repeated addition. */
  ghost function Words(stride: nat, l: nat): nat {
    if l == 0 then 0 else Words(stride, l - 1) + stride
  }

  /** Lane `l` accesses the word `stride * l` words after `base`, and no address wraps. */
  ghost predicate IsStrided(a: seq<u32>, base: u32, stride: nat) {
    |a| == WARP_SIZE && forall l: nat | l < WARP_SIZE :: a[l] == base + 4 * Words(stride, l)
  }

  lemma {:induction false} WordsProduct(stride: nat, l: nat)
    ensures Words(stride, l) == stride * l
  {
    if l > 0 { WordsProduct(stride, l - 1); }
  }

  lemma {:induction false} WordsSum(stride: nat, j: nat, d: nat)
    ensures Words(stride, j + d) == Words(stride, j) + Words(stride, d)
  {
    if d > 0 { WordsSum(stride, j, d - 1); }
  }

  ghost predicate Divides(d: nat, x: nat) { d > 0 && x % d == 0 }

  ghost predicate IsGcd(g: nat, a: nat, b: nat) {
    && Divides(g, a) && Divides(g, b)
    && forall d: nat | Divides(d, a) && Divides(d, b) :: d <= g
  }

  // ---- number theory for the 32 banks ----

  lemma ScaledRemainder(x: nat, g: nat, m: nat)
    requires g > 0 && m > 0
    ensures g * m > 0 && ((g * x) % (g * m) == 0 <==> x % m == 0)
  {
    assert g * m > 0;
    assert x == (x / m) * m + x % m;
    assert g * x == (x / m) * (g * m) + g * (x % m);
    MulMonotone(x % m + 1, m, g);
    Quotient(g * x, g * m, x / m, g * (x % m));
  }

  lemma EvenMultiple(x: nat, h: nat)
    requires h > 0
    ensures x % (2 * h) == 0 ==> x % 2 == 0
  {
    assert x == 2 * ((x / (2 * h)) * h) + x % (2 * h);
  }

  lemma OddTimesOdd(t: nat, d: nat)
    requires t % 2 == 1 && d % 2 == 1
    ensures (t * d) % 2 == 1
  {
    var a, e := t / 2, d / 2;
    assert t * d == (2 * a + 1) * (2 * e + 1) == 2 * (2 * a * e + a + e) + 1;
    Quotient(t * d, 2, 2 * a * e + a + e, 1);
  }

  lemma Halve(x: nat, h: nat)
    requires h > 0
    ensures (2 * x) % (2 * h) == 0 <==> x % h == 0
  {
    ScaledRemainder(x, 2, h);
  }

  /** If an odd factor does not change divisibility of half a number by `h`, it does not change that of the
      number by `2 * h`. */
  lemma EvenCancels(t: nat, d: nat, h: nat)
    requires h > 0 && d % 2 == 0 && ((t * (d / 2)) % h == 0 <==> (d / 2) % h == 0)
    ensures (t * d) % (2 * h) == 0 <==> d % (2 * h) == 0
  {
    var e := d / 2;
    Halve(t * e, h);
    Halve(e, h);
    Regroup(2, t, e);
    assert t * d == 2 * (t * e) by { assert d == 2 * e; Regroup(t, 2, e); }
  }

  lemma OddIsNoMultiple(x: nat, h: nat)
    requires h > 0 && x % 2 == 1
    ensures x % (2 * h) != 0
  {
    EvenMultiple(x, h);
  }

  /** An odd factor does not change divisibility by a power of two. */
  lemma {:induction false} OddCancels(t: nat, d: nat, m: nat)
    requires t % 2 == 1 && m in {1, 2, 4, 8, 16, 32}
    ensures (t * d) % m == 0 <==> d % m == 0
    decreases m
  {
    var h := m / 2;
    if m == 1 {
    } else if d % 2 == 0 {
      OddCancels(t, d / 2, h);
      EvenCancels(t, d, h);
    } else {
      OddTimesOdd(t, d);
      OddIsNoMultiple(t * d, h);
      OddIsNoMultiple(d, h);
    }
  }

  lemma DivisorsOf32(g: nat)
    requires Divides(g, 32)
    ensures g in {1, 2, 4, 8, 16, 32} && g * (32 / g) == 32
  {
    assert g <= 32;
    assert g != 3 && g != 5 && g != 6 && g != 7 && g != 9 && g != 10 && g != 11 && g != 12;
    assert g != 13 && g != 14 && g != 15 && g != 17 && g != 18 && g != 19 && g != 20 && g != 21;
    assert g != 22 && g != 23 && g != 24 && g != 25 && g != 26 && g != 27 && g != 28 && g != 29;
    assert g != 30 && g != 31;
  }

  /** Two lanes `d` apart hit the same bank exactly when `d` is a multiple of `32 / gcd(stride, 32)`. */
  lemma SameBankDistance(stride: nat, g: nat, d: nat)
    requires IsGcd(g, stride, 32)
    ensures 32 / g > 0 && (Words(stride, d) % 32 == 0 <==> d % (32 / g) == 0)
  {
    DivisorsOf32(g);
    var m, t := 32 / g, stride / g;
    Cofactor(stride, g);
    if g < 32 { OddCofactor(stride, g); }
    hide Words, IsGcd, Divides;
    ScaledWords(stride, g, t, d);
    MultipleOf32(Words(t, d), g, m);
    WordsProduct(t, d);
    if g < 32 { OddCancels(t, d, m); }
  }

  lemma Cofactor(stride: nat, g: nat)
    requires IsGcd(g, stride, 32)
    ensures g > 0 && stride == g * (stride / g)
  {
  }

  lemma MultipleOf32(x: nat, g: nat, m: nat)
    requires g > 0 && m > 0 && g * m == 32
    ensures (g * x) % 32 == 0 <==> x % m == 0
  {
    ScaledRemainder(x, g, m);
  }

  lemma ScaledWords(stride: nat, g: nat, t: nat, d: nat)
    requires stride == g * t
    ensures Words(stride, d) == g * Words(t, d)
  {
    WordsProduct(stride, d);
    WordsProduct(t, d);
    Regroup(g, t, d);
  }

  lemma Regroup(g: nat, t: nat, d: nat)
    ensures (g * t) * d == g * (t * d)
  {
  }

  lemma OddCofactor(stride: nat, g: nat)
    requires IsGcd(g, stride, 32) && g < 32
    ensures stride / g % 2 == 1
  {
    DivisorsOf32(g);
    var t := stride / g;
    if t % 2 == 0 {
      assert stride == (2 * g) * (t / 2);
      Quotient(stride, 2 * g, t / 2, 0);
      assert Divides(2 * g, 32);
      assert Divides(2 * g, stride);
    }
  }

  ghost function WithRemainder(bound: nat, m: nat, c: nat): set<nat>
    requires m > 0
  {
    set l | l in UpTo(bound) && l % m == c
  }

  /** One more period of length `m` holds one more number with remainder `c`. */
  lemma OneMorePeriod(below: nat, n: nat, m: nat, c: nat)
    requires c < m && below == n * m
    ensures |WithRemainder(below + m, m, c)| == |WithRemainder(below, m, c)| + 1
  {
    forall l | below <= l < below + m ensures l % m == l - below {
      Quotient(l, m, n, l - below);
    }
    assert (below + c) % m == c;
    assert WithRemainder(below + m, m, c) == WithRemainder(below, m, c) + {below + c};
    assert below + c !in WithRemainder(below, m, c);
  }

  lemma NoRemainders(m: nat, c: nat)
    requires m > 0
    ensures WithRemainder(0, m, c) == {}
  {
  }

  lemma Period(n: nat, m: nat)
    requires n > 0
    ensures n * m - m == (n - 1) * m >= 0
  {
    MulMonotone(0, n - 1, m);
  }

  /** There are `n` numbers below `n * m` with a given remainder modulo `m`. */
  lemma {:induction false} CountRemainders(n: nat, m: nat, c: nat, bound: nat)
    requires c < m && bound == n * m
    ensures |WithRemainder(bound, m, c)| == n
  {
    hide WithRemainder;
    if n == 0 {
      NoRemainders(m, c);
    } else {
      Period(n, m);
      CountRemainders(n - 1, m, c, bound - m);
      OneMorePeriod(bound - m, n - 1, m, c);
    }
  }

  /** An injective image has as many elements as its domain. */
  lemma {:induction false} CountImage(addresses: seq<u32>, lanes: set<nat>)
    requires forall l <- lanes :: l < |addresses|
    requires forall l, k | l in lanes && k in lanes && l != k :: addresses[l] != addresses[k]
    ensures |set l | l in lanes :: addresses[l]| == |lanes|
  {
    if lanes != {} {
      var x :| x in lanes;
      CountImage(addresses, lanes - {x});
      assert (set l | l in lanes :: addresses[l])
          == (set l | l in lanes - {x} :: addresses[l]) + {addresses[x]};
    }
  }

  lemma StridedLane(a: seq<u32>, base: u32, stride: nat, l: nat)
    requires IsStrided(a, base, stride) && l < WARP_SIZE
    ensures Bank(a[l]) == (base / 4 + Words(stride, l)) % 32
  {
    Quotient(base + 4 * Words(stride, l), 4, base / 4 + Words(stride, l), base % 4);
  }

  lemma RemainderOfSum(a: nat, x: nat, m: nat)
    requires m > 0
    ensures (a + x) % m == a % m <==> x % m == 0
  {
    var r := a % m + x % m;
    assert a + x == (a / m + x / m) * m + r;
    if r < m {
      Quotient(a + x, m, a / m + x / m, r);
    } else {
      assert a + x == (a / m + x / m + 1) * m + (r - m);
      Quotient(a + x, m, a / m + x / m + 1, r - m);
    }
  }

  lemma SameBankOrdered(a: seq<u32>, base: u32, stride: nat, g: nat, j: nat, l: nat)
    requires IsStrided(a, base, stride) && IsGcd(g, stride, 32)
    requires j <= l < WARP_SIZE
    ensures 32 / g > 0
    ensures Bank(a[j]) == Bank(a[l]) <==> j % (32 / g) == l % (32 / g)
  {
    StridedLane(a, base, stride, j);
    StridedLane(a, base, stride, l);
    WordsSum(stride, j, l - j);
    SameBankDistance(stride, g, l - j);
    RemainderOfSum(base / 4 + Words(stride, j), Words(stride, l - j), 32);
    RemainderOfSum(j, l - j, 32 / g);
  }

  lemma SameBank(a: seq<u32>, base: u32, stride: nat, g: nat, j: nat, l: nat)
    requires IsStrided(a, base, stride) && IsGcd(g, stride, 32)
    requires j < WARP_SIZE && l < WARP_SIZE
    ensures 32 / g > 0
    ensures Bank(a[j]) == Bank(a[l]) <==> j % (32 / g) == l % (32 / g)
  {
    if j > l {
      SameBankOrdered(a, base, stride, g, l, j);
    } else {
      SameBankOrdered(a, base, stride, g, j, l);
    }
  }

  /** A bank receives as many distinct addresses as it has lanes when no two lanes share an address. */
  lemma BankLoad(a: seq<u32>, lanes: set<nat>, b: nat)
    requires |a| == WARP_SIZE
    requires forall l, k | 0 <= l < k < WARP_SIZE :: a[l] != a[k]
    requires forall l: nat :: l in lanes <==> l < WARP_SIZE && Bank(a[l]) == b
    ensures |InBank(a, FullMask(), b)| == |lanes|
  {
    CountImage(a, lanes);
    assert InBank(a, FullMask(), b) == set l | l in lanes :: a[l];
  }

  /** The `g` lanes congruent to `j` modulo `m`. */
  lemma Residues(g: nat, m: nat, j: nat, bound: nat) returns (lanes: set<nat>)
    requires m > 0 && bound == g * m
    ensures |lanes| == g
    ensures forall l: nat :: l in lanes <==> l < bound && l % m == j % m
  {
    lanes := WithRemainder(bound, m, j % m);
    CountRemainders(g, m, j % m, bound);
  }

  /** Each bank that a strided warp uses at all receives `gcd(stride, 32)` distinct addresses. */
  lemma StridedBankLoad(a: seq<u32>, base: u32, stride: nat, g: nat, j: nat)
    requires stride >= 1 && IsStrided(a, base, stride) && IsGcd(g, stride, 32) && j < WARP_SIZE
    ensures |InBank(a, FullMask(), Bank(a[j]))| == g
  {
    DivisorsOf32(g);
    var lanes := Residues(g, 32 / g, j, WARP_SIZE);
    forall l, k | 0 <= l < k < WARP_SIZE ensures a[l] != a[k] {
      StridedInjective(a, base, stride, l, k);
    }
    forall l: nat | l < WARP_SIZE ensures Bank(a[l]) == Bank(a[j]) <==> l in lanes {
      SameBank(a, base, stride, g, j, l);
    }
    BankLoad(a, lanes, Bank(a[j]));
  }

  lemma StridedInjective(a: seq<u32>, base: u32, stride: nat, l: nat, k: nat)
    requires stride >= 1 && IsStrided(a, base, stride) && l < k < WARP_SIZE
    ensures a[l] != a[k]
  {
    StridedLane(a, base, stride, l);
    StridedLane(a, base, stride, k);
    WordsSum(stride, l, k - l);
    WordsSum(stride, k - l - 1, 1);
  }

  /** For a full warp the conflict degree of a strided access is `gcd(stride, 32)`. */
  lemma StridedConflicts(a: seq<u32>, base: u32, stride: nat, g: nat)
    requires stride >= 1 && IsStrided(a, base, stride) && IsGcd(g, stride, 32)
    ensures IsDegree(a, FullMask(), g)
  {
    StridedBankLoad(a, base, stride, g, 0);
    forall b | 0 <= b < BANKS ensures |InBank(a, FullMask(), b)| <= g {
      if j :| j in FullMask() && Bank(a[j]) == b {
        StridedBankLoad(a, base, stride, g, j);
      } else {
        assert InBank(a, FullMask(), b) == {};
      }
    }
  }

  ghost function From(first: nat, n: nat): set<nat> { UpTo(first + n) - UpTo(first) }

  lemma {:induction false} CountFrom(first: nat, n: nat)
    ensures |From(first, n)| == n
  {
    if n > 0 {
      CountFrom(first, n - 1);
      assert From(first, n) == From(first, n - 1) + {first + (n - 1)};
    } else {
      assert From(first, n) == {};
    }
  }

  lemma StridedSegmentOf(a: seq<u32>, base: u32, stride: nat, l: nat)
    requires base % SEGMENT_BYTES == 0 && IsStrided(a, base, stride) && l < WARP_SIZE
    ensures Segment(a[l]) == base / SEGMENT_BYTES + Words(stride, l) / 32
  {
    StridedLane(a, base, stride, l);
  }

  lemma SegmentBelowStride(stride: nat, l: nat)
    requires stride > 0 && l < WARP_SIZE
    ensures Words(stride, l) / 32 < stride
  {
    WordsProduct(stride, l);
    MulMonotone(l, 31, stride);
  }

  /** The lane whose word starts the `j`-th segment. */
  lemma SegmentReached(stride: nat, j: nat) returns (l: nat)
    requires stride <= 32 && j < stride
    ensures l < WARP_SIZE && Words(stride, l) / 32 == j
  {
    var x := 32 * j + stride - 1;
    l := x / stride;
    assert x == l * stride + x % stride;
    MulMonotone(32, l, stride);
    WordsProduct(stride, l);
  }

  /** A strided full warp at an aligned base touches one segment per word of stride, up to 32. */
  lemma StridedSegments(a: seq<u32>, base: u32, stride: nat)
    requires base % SEGMENT_BYTES == 0 && 1 <= stride <= 32 && IsStrided(a, base, stride)
    ensures |Segments(a, FullMask())| == stride
  {
    var first := base / SEGMENT_BYTES;
    SegmentsWithin(a, base, stride, first);
    SegmentsCover(a, base, stride, first);
    assert Segments(a, FullMask()) == From(first, stride);
    CountFrom(first, stride);
  }

  lemma SegmentsWithin(a: seq<u32>, base: u32, stride: nat, first: nat)
    requires base == first * SEGMENT_BYTES && stride > 0 && IsStrided(a, base, stride)
    ensures Segments(a, FullMask()) <= From(first, stride)
  {
    forall l | l in FullMask() ensures Segment(a[l]) in From(first, stride) {
      StridedSegmentOf(a, base, stride, l);
      SegmentBelowStride(stride, l);
      InFrom(first, stride, Words(stride, l) / 32);
    }
  }

  lemma SegmentsCover(a: seq<u32>, base: u32, stride: nat, first: nat)
    requires base == first * SEGMENT_BYTES && 1 <= stride <= 32 && IsStrided(a, base, stride)
    ensures From(first, stride) <= Segments(a, FullMask())
  {
    hide Segments;
    forall x | x in From(first, stride) ensures x in Segments(a, FullMask()) {
      SegmentCovered(a, base, stride, first, x - first);
    }
  }

  lemma SegmentCovered(a: seq<u32>, base: u32, stride: nat, first: nat, j: nat)
    requires base == first * SEGMENT_BYTES && j < stride <= 32 && IsStrided(a, base, stride)
    ensures first + j in Segments(a, FullMask())
  {
    var l := SegmentReached(stride, j);
    Quotient(base, SEGMENT_BYTES, first, 0);
    StridedSegmentOf(a, base, stride, l);
    hide Segment, Words;
    assert l in FullMask() && Segment(a[l]) == first + j;
  }

  lemma InFrom(first: nat, n: nat, k: nat)
    requires k < n
    ensures first + k in From(first, n)
  {
  }

  // ---- bounds for arbitrary accesses ----

  ghost function Addresses(addresses: seq<u32>, exec: set<nat>): set<u32>
    requires ValidAccess(addresses, exec)
  {
    set l | l in exec :: addresses[l]
  }

  ghost function InFirstBanks(addresses: seq<u32>, exec: set<nat>, k: nat): set<u32>
    requires ValidAccess(addresses, exec)
  {
    set l | l in exec && Bank(addresses[l]) < k :: addresses[l]
  }

  lemma {:induction false} FirstBanksBound(addresses: seq<u32>, exec: set<nat>, degree: nat, k: nat)
    requires ValidAccess(addresses, exec) && k <= BANKS
    requires forall b | 0 <= b < BANKS :: |InBank(addresses, exec, b)| <= degree
    ensures |InFirstBanks(addresses, exec, k)| <= k * degree
  {
    if k > 0 {
      FirstBanksBound(addresses, exec, degree, k - 1);
      assert InFirstBanks(addresses, exec, k)
          == InFirstBanks(addresses, exec, k - 1) + InBank(addresses, exec, k - 1);
      assert k * degree == (k - 1) * degree + degree;
    }
  }

  lemma {:induction false} ImageBound(addresses: seq<u32>, lanes: set<nat>)
    requires forall l <- lanes :: l < |addresses|
    ensures |set l | l in lanes :: addresses[l]| <= |lanes|
  {
    if lanes != {} {
      var x :| x in lanes;
      ImageBound(addresses, lanes - {x});
      assert (set l | l in lanes :: addresses[l])
          == (set l | l in lanes - {x} :: addresses[l]) + {addresses[x]};
    }
  }

  /** A conflict degree lies between distinct addresses / 32 (rounded up) and the executing lane count. */
  lemma DegreeBounds(addresses: seq<u32>, exec: set<nat>, degree: nat)
    requires ValidAccess(addresses, exec) && IsDegree(addresses, exec, degree)
    ensures degree <= |exec|
    ensures (|Addresses(addresses, exec)| + BANKS - 1) / BANKS <= degree
  {
    var b :| 0 <= b < BANKS && |InBank(addresses, exec, b)| == degree;
    var lanes := set l | l in exec && Bank(addresses[l]) == b;
    ImageBound(addresses, lanes);
    assert InBank(addresses, exec, b) == set l | l in lanes :: addresses[l];
    SubsetSize(lanes, exec);
    FirstBanksBound(addresses, exec, degree, BANKS);
    assert InFirstBanks(addresses, exec, BANKS) == Addresses(addresses, exec);
  }

  /** Between one and 32 shared passes are counted for every shared access that executes on a lane. */
  lemma WavefrontBounds(stats: MemoryStats, isStore: bool, addresses: seq<u32>, exec: set<nat>, degree: nat)
    requires ValidAccess(addresses, exec) && exec != {} && IsDegree(addresses, exec, degree)
    ensures var after := CountAccess(stats, Shared, isStore, addresses, exec);
            1 <= degree <= 32 && after.sharedWavefronts == stats.sharedWavefronts + degree
  {
    DegreeUnique(addresses, exec, degree, BANKS);
    DegreeBounds(addresses, exec, degree);
    SubsetSize(exec, UpTo(WARP_SIZE));
    var l :| l in exec;
    assert addresses[l] in InBank(addresses, exec, Bank(addresses[l]));
  }

  /** Lanes that access different banks do not conflict. */
  lemma {:induction false} NoConflict(addresses: seq<u32>, exec: set<nat>, k: nat)
    requires ValidAccess(addresses, exec)
    requires forall l, m | l in exec && m in exec && Bank(addresses[l]) == Bank(addresses[m]) :: l == m
    ensures DegreeBelow(addresses, exec, k) <= 1
    decreases k
  {
    hide Bank;
    if k > 0 {
      NoConflict(addresses, exec, k - 1);
      var here := InBank(addresses, exec, k - 1);
      if l :| l in exec && Bank(addresses[l]) == k - 1 {
        assert here == {addresses[l]};
      } else {
        assert here == {};
      }
    }
  }
}
