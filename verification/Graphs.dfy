/** Control-flow graphs with one exit node, and post-dominance by paths. */
module Graphs {
  import opened Collections

  /** Nodes are 0 to `|succs| - 1`; the last one is the exit, and every other node has a successor. */
  type Graph = seq<seq<nat>>

  ghost predicate InRange(list: seq<nat>, n: nat) {
    forall k | 0 <= k < |list| :: list[k] < n
  }

  ghost predicate IsGraph(g: Graph) {
    && |g| >= 1
    && (forall b | 0 <= b < |g| :: InRange(g[b], |g|))
    && (forall b | 0 <= b < |g| - 1 :: g[b] != [])
  }

  ghost function ExitNode(g: Graph): nat
    requires |g| >= 1
  {
    |g| - 1
  }

  ghost predicate IsPath(g: Graph, p: seq<nat>) {
    && p != []
    && (forall i | 0 <= i < |p| :: p[i] < |g|)
    && (forall i | 0 <= i < |p| - 1 :: p[i + 1] in g[p[i]])
  }

  /** A path from `b` to the exit. */
  ghost predicate ExitPath(g: Graph, b: nat, p: seq<nat>) {
    IsPath(g, p) && p[0] == b && p[|p| - 1] == |g| - 1
  }

  ghost predicate Reaches(g: Graph, b: nat) {
    exists p :: ExitPath(g, b, p)
  }

  /** Every path from `b` to the exit passes through `d`. */
  ghost predicate PostDominates(g: Graph, d: nat, b: nat) {
    forall p | ExitPath(g, b, p) :: d in p
  }

  /** The strict post-dominator of `b` that every other strict post-dominator of `b` post-dominates. */
  ghost predicate IsImmediate(g: Graph, b: nat, d: nat) {
    && d < |g| && d != b && PostDominates(g, d, b)
    && forall c: nat | c < |g| && c != b && PostDominates(g, c, b) :: PostDominates(g, c, d)
  }

  // ---- paths ----

  lemma PathSuffix(g: Graph, b: nat, p: seq<nat>, i: nat)
    requires ExitPath(g, b, p) && i < |p|
    ensures ExitPath(g, p[i], p[i..])
  {
  }

  lemma PathExtend(g: Graph, b: nat, s: nat, p: seq<nat>)
    requires b < |g| && s in g[b] && ExitPath(g, s, p)
    ensures ExitPath(g, b, [b] + p)
  {
    var q := [b] + p;
    forall i | 0 <= i < |q| - 1 ensures q[i + 1] in g[q[i]] {
      if i > 0 { assert p[i] in g[p[i - 1]]; }
    }
  }

  lemma PathJoin(g: Graph, b: nat, p: seq<nat>, i: nat, q: seq<nat>)
    requires ExitPath(g, b, p) && i < |p| && ExitPath(g, p[i], q)
    ensures ExitPath(g, b, p[..i] + q)
  {
    var r := p[..i] + q;
    forall k | 0 <= k < |r| - 1 ensures r[k + 1] in g[r[k]] {
      if k + 1 < i {
        assert p[k + 1] in g[p[k]];
      } else if k + 1 == i {
        assert p[i] in g[p[i - 1]];
      } else {
        assert q[k - i + 1] in g[q[k - i]];
      }
    }
  }

  /** The last position of a node of `s` on a path. */
  lemma LastOccurrence(p: seq<nat>, s: set<nat>) returns (i: nat)
    requires exists k | 0 <= k < |p| :: p[k] in s
    ensures i < |p| && p[i] in s && forall k | i < k < |p| :: p[k] !in s
  {
    i := |p| - 1;
    while p[i] !in s
      invariant i < |p| && forall k | i < k < |p| :: p[k] !in s
      decreases i
    {
      i := i - 1;
    }
  }

  lemma FirstOccurrence(p: seq<nat>, s: set<nat>) returns (i: nat)
    requires exists k | 0 <= k < |p| :: p[k] in s
    ensures i < |p| && p[i] in s && forall k | 0 <= k < i :: p[k] !in s
  {
    i := 0;
    while p[i] !in s
      invariant i < |p| && forall k | 0 <= k < i :: p[k] !in s
      decreases |p| - i
    {
      i := i + 1;
    }
  }

  // ---- post-dominance ----

  lemma PostDominatesSelf(g: Graph, b: nat)
    ensures PostDominates(g, b, b)
  {
    forall p | ExitPath(g, b, p) ensures b in p {
      assert p[0] == b;
    }
  }

  lemma ExitPostDominates(g: Graph, b: nat)
    requires |g| >= 1
    ensures PostDominates(g, ExitNode(g), b)
  {
    forall p | ExitPath(g, b, p) ensures ExitNode(g) in p {
      assert p[|p| - 1] == ExitNode(g);
    }
  }

  lemma OnlyExitPostDominatesExit(g: Graph, d: nat)
    requires |g| >= 1 && PostDominates(g, d, ExitNode(g))
    ensures d == ExitNode(g)
  {
    assert ExitPath(g, ExitNode(g), [ExitNode(g)]);
  }

  lemma PostDominatesStep(g: Graph, d: nat, b: nat, s: nat)
    requires b < |g| && s in g[b] && PostDominates(g, d, b) && d != b
    ensures PostDominates(g, d, s)
  {
    forall p | ExitPath(g, s, p) ensures d in p {
      PathExtend(g, b, s, p);
    }
  }

  lemma PostDominatesFromSuccessors(g: Graph, d: nat, b: nat)
    requires b < |g| - 1 && forall s | s in g[b] :: PostDominates(g, d, s)
    ensures PostDominates(g, d, b)
  {
    forall p | ExitPath(g, b, p) ensures d in p {
      PathSuffix(g, b, p, 1);
      assert p[1] in g[b];
    }
  }

  lemma PostDominatesTransitive(g: Graph, c: nat, d: nat, b: nat)
    requires PostDominates(g, d, b) && PostDominates(g, c, d)
    ensures PostDominates(g, c, b)
  {
    forall p | ExitPath(g, b, p) ensures c in p {
      var i :| 0 <= i < |p| && p[i] == d;
      PathSuffix(g, b, p, i);
    }
  }

  lemma PostDominatesAntisymmetric(g: Graph, a: nat, b: nat)
    requires PostDominates(g, a, b) && PostDominates(g, b, a) && Reaches(g, a)
    ensures a == b
  {
    if a != b {
      var p :| ExitPath(g, a, p);
      assert p[0] in {a, b};
      var i := LastOccurrence(p, {a, b});
      PathSuffix(g, a, p, i);
      assert false;
    }
  }

  lemma PostDominatorReaches(g: Graph, d: nat, b: nat)
    requires PostDominates(g, d, b) && Reaches(g, b)
    ensures Reaches(g, d)
  {
    var p :| ExitPath(g, b, p);
    var i :| 0 <= i < |p| && p[i] == d;
    PathSuffix(g, b, p, i);
  }

  lemma SuccessorReaches(g: Graph, b: nat, s: nat)
    requires b < |g| && s in g[b] && Reaches(g, s)
    ensures Reaches(g, b)
  {
    var p :| ExitPath(g, s, p);
    PathExtend(g, b, s, p);
  }

  lemma ImmediateUnique(g: Graph, b: nat, d: nat, e: nat)
    requires IsImmediate(g, b, d) && IsImmediate(g, b, e) && Reaches(g, b)
    ensures d == e
  {
    PostDominatorReaches(g, d, b);
    PostDominatesAntisymmetric(g, d, e);
  }

  /** A node that reaches the exit has an immediate post-dominator: the first strict one on any path. */
  lemma ImmediateExists(g: Graph, b: nat) returns (d: nat)
    requires IsGraph(g) && b < |g| - 1 && Reaches(g, b)
    ensures IsImmediate(g, b, d)
  {
    var p :| ExitPath(g, b, p);
    var strict := set c | c in UpTo(|g|) && c != b && PostDominates(g, c, b);
    ExitPostDominates(g, b);
    assert p[|p| - 1] in strict;
    var i := FirstOccurrence(p, strict);
    d := p[i];
    forall c: nat | c < |g| && c != b && PostDominates(g, c, b) ensures PostDominates(g, c, d) {
      forall q | ExitPath(g, d, q) ensures c in q {
        PathJoin(g, b, p, i, q);
        var r := p[..i] + q;
        var k :| 0 <= k < |r| && r[k] == c;
        assert c in strict;
        assert k >= i;
        assert q[k - i] == c;
      }
    }
  }
}
