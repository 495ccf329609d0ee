/** Selecting the immediate post-dominator by the sizes of the post-dominator sets. */
module ImmediatePostDominators {
  import opened Collections
  import opened Graphs
  import opened BlockSets
  import opened PostDominators

  ghost function StrictDominators(g: Graph, b: nat): set<nat> {
    Dominators(g, b) - {b}
  }

  /** The sets of a chain are nested: a strict post-dominator's set is part of the strict set. */
  lemma ChainNested(g: Graph, b: nat, d: nat)
    requires b < |g| && Reaches(g, b) && d in StrictDominators(g, b)
    ensures Dominators(g, d) <= StrictDominators(g, b)
  {
    forall c | c in Dominators(g, d) ensures c in StrictDominators(g, b) {
      PostDominatesTransitive(g, c, d, b);
      if c == b { PostDominatesAntisymmetric(g, b, d); }
    }
  }

  /** On a block that reaches the exit, the size test picks out exactly the immediate post-dominator. */
  lemma SizeSelectsImmediate(g: Graph, b: nat, d: nat)
    requires b < |g| && Reaches(g, b) && d in StrictDominators(g, b)
    ensures |Dominators(g, d)| == |StrictDominators(g, b)| <==> IsImmediate(g, b, d)
  {
    ChainNested(g, b, d);
    SubsetSize(Dominators(g, d), StrictDominators(g, b));
    if IsImmediate(g, b, d) {
      assert StrictDominators(g, b) <= Dominators(g, d);
      assert Dominators(g, d) == StrictDominators(g, b);
    } else if Dominators(g, d) == StrictDominators(g, b) {
      forall c: nat | c < |g| && c != b && PostDominates(g, c, b) ensures PostDominates(g, c, d) {
        assert c in StrictDominators(g, b);
      }
    }
  }

  lemma StuckDominators(g: Graph, b: nat)
    requires b < |g| && !Reaches(g, b)
    ensures Dominators(g, b) == UpTo(|g|)
  {
    assert forall d :: PostDominates(g, d, b);
  }

  /** When two nodes cannot reach the exit, no set has the size of the strict set of one of them. */
  lemma SizeSelectsNothing(g: Graph, b: nat, c: nat, d: nat)
    requires b < |g| && c < |g| && b != c && !Reaches(g, b) && !Reaches(g, c) && d < |g|
    ensures |Dominators(g, d)| != |StrictDominators(g, b)|
  {
    StuckDominators(g, b);
    assert |StrictDominators(g, b)| == |g| - 1;
    if Reaches(g, d) {
      forall e | e in Dominators(g, d) ensures e in UpTo(|g|) - {b} - {c} {
        PostDominatorReaches(g, e, d);
      }
      SubsetSize(Dominators(g, d), UpTo(|g|) - {b} - {c});
    } else {
      StuckDominators(g, d);
    }
  }

  ghost predicate Selected(g: Graph, b: nat, d: nat) {
    d in StrictDominators(g, b) && |Dominators(g, d)| == |StrictDominators(g, b)|
  }

  /** A node that reaches the exit and that every node but `b` post-dominates: where all paths begin. */
  ghost predicate BeginsAll(g: Graph, b: nat, d: nat) {
    d < |g| - 1 && d != b && Reaches(g, d) && forall c: nat | c < |g| && c != b :: PostDominates(g, c, d)
  }

  /** For a node that cannot reach the exit the size test picks out where all paths begin. */
  lemma SizeSelectsBeginning(g: Graph, b: nat, d: nat)
    requires b < |g| - 1 && !Reaches(g, b) && d < |g| - 1
    ensures Selected(g, b, d) <==> BeginsAll(g, b, d)
  {
    StuckDominators(g, b);
    var all := UpTo(|g|) - {b};
    assert StrictDominators(g, b) == all && |all| == |g| - 1;
    if Reaches(g, d) {
      if PostDominates(g, b, d) { PostDominatorReaches(g, b, d); }
      assert Dominators(g, d) <= all;
      SubsetSize(Dominators(g, d), all);
      if Selected(g, b, d) {
        forall c: nat | c < |g| && c != b ensures PostDominates(g, c, d) { assert c in Dominators(g, d); }
      }
      if BeginsAll(g, b, d) { assert Dominators(g, d) == all; }
    } else {
      StuckDominators(g, d);
    }
  }

  /** The node returned for a block that cannot reach the exit. */
  ghost predicate StuckResult(g: Graph, b: nat, d: nat)
    requires |g| >= 1
  {
    if d == ExitNode(g) then forall e: nat :: !BeginsAll(g, b, e) else BeginsAll(g, b, d)
  }

  /** What the scan returns, in terms of paths. */
  lemma SelectionMeaning(g: Graph, b: nat, d: nat)
    requires IsGraph(g) && b < |g| - 1 && d < |g|
    requires (Selected(g, b, d) && forall e: nat | e < d :: !Selected(g, b, e))
             || (d == ExitNode(g) && forall e: nat | e < |g| :: !Selected(g, b, e))
    ensures Reaches(g, b) ==> IsImmediate(g, b, d)
    ensures !Reaches(g, b) ==> StuckResult(g, b, d)
    ensures !Reaches(g, b) && (exists c: nat :: c < |g| && c != b && !Reaches(g, c)) ==> d == ExitNode(g)
  {
    hide Dominators, StrictDominators, PostDominates, Reaches;
    if Reaches(g, b) {
      var e := ImmediateExists(g, b);
      ImmediateStrict(g, b, e);
      SizeSelectsImmediate(g, b, e);
      assert Selected(g, b, e);
      if Selected(g, b, d) { SizeSelectsImmediate(g, b, d); }
    } else {
      forall e: nat | e < |g| - 1 ensures Selected(g, b, e) <==> BeginsAll(g, b, e) { SizeSelectsBeginning(g, b, e); }
      if c: nat :| c < |g| && c != b && !Reaches(g, c) { SizeSelectsNothing(g, b, c, d); }
    }
  }

  lemma ImmediateStrict(g: Graph, b: nat, e: nat)
    requires IsImmediate(g, b, e)
    ensures e in StrictDominators(g, b)
  {
  }

  method StrictSet(s: BlockSet, b: nat, ghost size: nat, ghost contents: set<nat>) returns (strict: BlockSet, wanted: nat)
    requires Holds(s, size, contents) && b < size
    ensures fresh(strict) && fresh(strict.words) && Holds(strict, size, contents - {b})
    ensures wanted == |contents - {b}|
  {
    strict := new BlockSet.Copy(s);
    strict.Erase(b);
    wanted := strict.Count();
  }

  method CountIs(s: BlockSet, wanted: nat, ghost size: nat, ghost contents: set<nat>) returns (r: bool)
    requires Holds(s, size, contents)
    ensures r <==> |contents| == wanted
  {
    var n := s.Count();
    r := n == wanted;
  }

  method HasMember(s: BlockSet, d: nat, ghost size: nat, ghost contents: set<nat>) returns (r: bool)
    requires Holds(s, size, contents) && d < size
    ensures r <==> d in contents
  {
    r := s.Contains(d);
  }

  /** `immediate_post_dominator`. */
  method ImmediatePostDominator(pdom: seq<BlockSet>, ghost g: Graph, b: nat) returns (d: nat)
    requires IsGraph(g) && b < |g| - 1 && Represents(pdom, AllDominators(g))
    ensures d < |g|
    ensures Reaches(g, b) ==> IsImmediate(g, b, d)
    ensures !Reaches(g, b) ==> StuckResult(g, b, d)
    ensures !Reaches(g, b) && (exists c: nat :: c < |g| && c != b && !Reaches(g, c)) ==> d == ExitNode(g)
  {
    hide Holds, Dominators, IsGraph;
    var strict, wanted := StrictSet(pdom[b], b, |g|, Dominators(g, b));
    for e := 0 to |pdom|
      invariant forall c: nat | c < e :: !Selected(g, b, c)
      invariant Holds(strict, |g|, StrictDominators(g, b))
      invariant Represents(pdom, AllDominators(g))
    {
      var inSet := HasMember(strict, e, |g|, StrictDominators(g, b));
      if inSet {
        var sizeMatches := CountIs(pdom[e], wanted, |g|, Dominators(g, e));
        if sizeMatches {
          SelectionMeaning(g, b, e);
          return e;
        }
      }
    }
    SelectionMeaning(g, b, |g| - 1);
    return |pdom| - 1;
  }
}
