/** Post-dominator sets by iterative dataflow, and the immediate post-dominator by set sizes. */
module PostDominators {
  import opened Collections
  import opened Graphs
  import opened BlockSets

  // ---- the dataflow equations ----

  /** The intersection of the sets of the listed nodes, within the first `nodes` nodes. */
  ghost function Meet(sets: seq<set<nat>>, list: seq<nat>, nodes: nat): set<nat>
    requires InRange(list, |sets|)
  {
    if list == [] then UpTo(nodes)
    else Meet(sets, list[..|list| - 1], nodes) * sets[list[|list| - 1]]
  }

  /** `pdom(b) = {b} union intersection over successors`. */
  ghost function Flow(g: Graph, sets: seq<set<nat>>, b: nat): set<nat>
    requires IsGraph(g) && |sets| == |g| && b < |g|
  {
    Meet(sets, g[b], |g|) + {b}
  }

  ghost predicate Solves(g: Graph, sets: seq<set<nat>>)
    requires IsGraph(g) && |sets| == |g|
  {
    sets[ExitNode(g)] == {ExitNode(g)} && forall b | 0 <= b < |g| - 1 :: sets[b] == Flow(g, sets, b)
  }

  /** The post-dominators of `b`: the nodes that every path from `b` to the exit passes. */
  ghost function Dominators(g: Graph, b: nat): set<nat> {
    set d | d in UpTo(|g|) && PostDominates(g, d, b)
  }

  lemma {:induction false} InMeet(sets: seq<set<nat>>, list: seq<nat>, nodes: nat, d: nat)
    requires InRange(list, |sets|)
    ensures d in Meet(sets, list, nodes) <==> d < nodes && forall k | 0 <= k < |list| :: d in sets[list[k]]
  {
    if list != [] {
      var front, last := list[..|list| - 1], list[|list| - 1];
      InMeet(sets, front, nodes, d);
      assert forall k | 0 <= k < |front| :: front[k] == list[k];
    }
  }

  /** A solution contains only post-dominators: a path from `b` leaves a node set only through `b` itself. */
  lemma {:induction false} SolutionSound(g: Graph, sets: seq<set<nat>>, b: nat, d: nat, p: seq<nat>)
    requires IsGraph(g) && |sets| == |g| && Solves(g, sets) && b < |g|
    requires d in sets[b] && ExitPath(g, b, p)
    ensures d in p
    decreases |p|
  {
    assert p[0] == b;
    if b < |g| - 1 && d != b {
      PathSuffix(g, b, p, 1);
      InMeet(sets, g[b], |g|, d);
      var k :| 0 <= k < |g[b]| && g[b][k] == p[1];
      assert d in sets[g[b][k]];
      SolutionSound(g, sets, p[1], d, p[1..]);
    }
  }

  ghost function AllDominators(g: Graph): seq<set<nat>> {
    seq(|g|, (b: nat) requires b < |g| => Dominators(g, b))
  }

  ghost function StartSets(nodes: nat): seq<set<nat>> {
    seq(nodes, (b: nat) requires b < nodes => if b == nodes - 1 then {b} else UpTo(nodes))
  }

  /** The sets contain every post-dominator. */
  ghost predicate Covers(g: Graph, sets: seq<set<nat>>) {
    |sets| == |g| && forall b | 0 <= b < |g| :: Dominators(g, b) <= sets[b]
  }

  /** One application of the equations keeps every post-dominator. */
  lemma FlowCovers(g: Graph, sets: seq<set<nat>>, b: nat)
    requires IsGraph(g) && Covers(g, sets) && b < |g| - 1
    ensures Dominators(g, b) <= Flow(g, sets, b)
  {
    forall d | d in Dominators(g, b) ensures d in Flow(g, sets, b) {
      if d != b {
        InMeet(sets, g[b], |g|, d);
        forall k | 0 <= k < |g[b]| ensures d in sets[g[b][k]] {
          PostDominatesStep(g, d, b, g[b][k]);
          assert d in Dominators(g, g[b][k]);
        }
      }
    }
  }

  /** A solution that contains every post-dominator is exactly the post-dominator sets. */
  lemma SolutionExact(g: Graph, sets: seq<set<nat>>, b: nat)
    requires IsGraph(g) && Covers(g, sets) && Solves(g, sets) && b < |g|
    requires forall c | 0 <= c < |g| :: sets[c] <= UpTo(|g|)
    ensures sets[b] == Dominators(g, b)
  {
    forall d | d in sets[b] ensures PostDominates(g, d, b) {
      forall p | ExitPath(g, b, p) ensures d in p {
        SolutionSound(g, sets, b, d, p);
      }
    }
  }

  lemma DescendingSolves(g: Graph, sets: seq<set<nat>>)
    requires IsGraph(g) && |sets| == |g| && Descending(g, sets) && SolvedBelow(g, sets, |g| - 1)
    ensures Solves(g, sets)
  {
  }

  lemma SolutionsExact(g: Graph, sets: seq<set<nat>>)
    requires IsGraph(g) && |sets| == |g| && Descending(g, sets) && Solves(g, sets)
    ensures sets == AllDominators(g)
  {
    hide Dominators, Flow;
    forall b | 0 <= b < |g| ensures sets[b] == Dominators(g, b) {
      SolutionExact(g, sets, b);
    }
  }

  // ---- the iteration ----

  ghost function Total(sets: seq<set<nat>>): nat {
    if sets == [] then 0 else |sets[0]| + Total(sets[1..])
  }

  lemma {:induction false} TotalShrinks(sets: seq<set<nat>>, b: nat, smaller: set<nat>)
    requires b < |sets| && smaller < sets[b]
    ensures Total(sets[b := smaller]) < Total(sets)
  {
    if b == 0 {
      SubsetSize(smaller, sets[0]);
      assert sets[0 := smaller][1..] == sets[1..];
    } else {
      TotalShrinks(sets[1..], b - 1, smaller);
      assert sets[b := smaller][1..] == sets[1..][b - 1 := smaller];
    }
  }

  /** What the iteration keeps: nothing lost, and the equations only ever remove elements. */
  ghost predicate Descending(g: Graph, sets: seq<set<nat>>)
    requires IsGraph(g)
  {
    && Covers(g, sets)
    && sets[ExitNode(g)] == {ExitNode(g)}
    && forall b | 0 <= b < |g| - 1 :: Flow(g, sets, b) <= sets[b] <= UpTo(|g|)
  }

  lemma {:induction false} MeetMonotone(a: seq<set<nat>>, c: seq<set<nat>>, list: seq<nat>, nodes: nat)
    requires |a| == |c| && InRange(list, |a|)
    requires forall i | 0 <= i < |a| :: a[i] <= c[i]
    ensures Meet(a, list, nodes) <= Meet(c, list, nodes)
  {
    if list != [] { MeetMonotone(a, c, list[..|list| - 1], nodes); }
  }

  ghost predicate SolvedBelow(g: Graph, sets: seq<set<nat>>, bound: nat)
    requires IsGraph(g) && |sets| == |g| && bound < |g|
  {
    forall b | 0 <= b < bound :: sets[b] == Flow(g, sets, b)
  }

  lemma FlowStep(g: Graph, sets: seq<set<nat>>, b: nat)
    requires IsGraph(g) && |sets| == |g| && Descending(g, sets) && b < |g| - 1
    ensures Descending(g, sets[b := Flow(g, sets, b)])
    ensures Flow(g, sets, b) != sets[b] ==> Total(sets[b := Flow(g, sets, b)]) < Total(sets)
  {
    hide Meet, Dominators;
    var next := sets[b := Flow(g, sets, b)];
    if Flow(g, sets, b) != sets[b] { TotalShrinks(sets, b, Flow(g, sets, b)); }
    FlowCovers(g, sets, b);
    forall c | 0 <= c < |g| - 1 ensures Flow(g, next, c) <= next[c] <= UpTo(|g|) {
      MeetMonotone(next, sets, g[c], |g|);
    }
  }

  lemma InitialDescending(g: Graph)
    requires IsGraph(g)
    ensures Descending(g, StartSets(|g|))
  {
    var sets := StartSets(|g|);
    forall d | d in Dominators(g, ExitNode(g)) ensures d == ExitNode(g) {
      OnlyExitPostDominatesExit(g, d);
    }
    assert Covers(g, sets) by {
      forall b | 0 <= b < |g| ensures Dominators(g, b) <= sets[b] {
        if b == ExitNode(g) {
          assert sets[b] == {ExitNode(g)};
        } else {
          assert sets[b] == UpTo(|g|);
        }
      }
    }
    forall b, d | 0 <= b < |g| - 1 && d in Meet(sets, g[b], |g|) ensures d < |g| {
      InMeet(sets, g[b], |g|, d);
    }
  }

  ghost predicate Holds(s: BlockSet, size: nat, contents: set<nat>)
    reads s.words
  {
    s.Valid() && s.size == size && s.Contents() == contents
  }

  ghost predicate Represents(pdom: seq<BlockSet>, sets: seq<set<nat>>)
    reads set s | s in pdom :: s.words
  {
    |pdom| == |sets| && forall b | 0 <= b < |sets| :: Holds(pdom[b], |sets|, sets[b])
  }

  method NewSet(size: nat, all: bool) returns (s: BlockSet)
    ensures fresh(s) && fresh(s.words) && Holds(s, size, if all then UpTo(size) else {})
  {
    s := new BlockSet(size, all);
  }

  method IntersectWith(s: BlockSet, other: BlockSet, ghost size: nat, ghost a: set<nat>, ghost c: set<nat>)
    requires Holds(s, size, a) && Holds(other, size, c) && s.words != other.words
    modifies s.words
    ensures Holds(s, size, a * c)
  {
    s.Intersect(other);
  }

  method InsertInto(s: BlockSet, i: nat, ghost size: nat, ghost a: set<nat>)
    requires Holds(s, size, a) && i < size
    modifies s.words
    ensures Holds(s, size, a + {i})
  {
    s.Insert(i);
  }

  method SameSet(s: BlockSet, other: BlockSet, ghost size: nat, ghost a: set<nat>, ghost c: set<nat>) returns (r: bool)
    requires Holds(s, size, a) && Holds(other, size, c)
    ensures r <==> a == c
  {
    r := s.Equals(other);
  }

  /** One evaluation of the equations for block `b`. */
  method FlowOf(g: Graph, pdom: seq<BlockSet>, ghost sets: seq<set<nat>>, b: nat) returns (next: BlockSet)
    requires IsGraph(g) && |sets| == |g| && Represents(pdom, sets) && b < |g|
    ensures fresh(next) && fresh(next.words) && Holds(next, |g|, Flow(g, sets, b))
  {
    hide Holds;
    next := NewSet(|g|, true);
    var list := g[b];
    for k := 0 to |list|
      invariant Represents(pdom, sets)
      invariant Holds(next, |g|, Meet(sets, list[..k], |g|))
    {
      assert list[..k + 1][..k] == list[..k];
      IntersectWith(next, pdom[list[k]], |g|, Meet(sets, list[..k], |g|), sets[list[k]]);
    }
    assert list[..|list|] == list;
    InsertInto(next, b, |g|, Meet(sets, list, |g|));
  }

  /** `post_dominators`: the result is, for every node, exactly the nodes on all its paths to the exit. */
  method ComputePostDominators(g: Graph) returns (pdom: seq<BlockSet>)
    requires IsGraph(g)
    ensures Represents(pdom, AllDominators(g))
  {
    hide Holds, Total, Descending, Solves, Flow, Dominators;
    var nodes := |g|;
    ghost var sets := StartSets(nodes);
    pdom := InitialSets(nodes);
    InitialDescending(g);

    var changed := true;
    while changed
      invariant Represents(pdom, sets) && |sets| == nodes && Descending(g, sets)
      invariant !changed ==> Solves(g, sets)
      decreases Total(sets), changed
    {
      changed := false;
      ghost var total := Total(sets);
      for b := 0 to nodes - 1
        invariant Represents(pdom, sets) && |sets| == nodes && Descending(g, sets)
        invariant changed ==> Total(sets) < total
        invariant !changed ==> Total(sets) == total && SolvedBelow(g, sets, b)
      {
        var next := FlowOf(g, pdom, sets, b);
        var same := SameSet(next, pdom[b], nodes, Flow(g, sets, b), sets[b]);
        if !same {
          FlowStep(g, sets, b);
          sets := sets[b := Flow(g, sets, b)];
          pdom := pdom[b := next];
          changed := true;
        }
      }
      if !changed { DescendingSolves(g, sets); }
    }
    SolutionsExact(g, sets);
  }

  method InitialSets(nodes: nat) returns (pdom: seq<BlockSet>)
    requires nodes >= 1
    ensures Represents(pdom, StartSets(nodes))
  {
    hide Holds;
    var exitSet := NewSet(nodes, false);
    InsertInto(exitSet, nodes - 1, nodes, {});
    assert {} + {nodes - 1} == {nodes - 1};
    pdom := [];
    for b := 0 to nodes - 1
      invariant Holds(exitSet, nodes, {nodes - 1})
      invariant |pdom| == b && forall c | 0 <= c < b :: Holds(pdom[c], nodes, UpTo(nodes))
    {
      var full := NewSet(nodes, true);
      pdom := pdom + [full];
    }
    pdom := pdom + [exitSet];
  }
}
