/** Directed graphs over names: paths, cycles, and ranks that certify there is none. */
module Graph {

  /** Each known name with its successors, in order; a successor need not be a known name. */
  type Graph = map<string, seq<string>>

  predicate Edge(g: Graph, x: string, y: string) {
    x in g && y in g[x]
  }

  ghost predicate Path(g: Graph, p: seq<string>) {
    |p| >= 1 && forall i :: 0 <= i < |p| - 1 ==> Edge(g, p[i], p[i + 1])
  }

  ghost predicate PathBetween(g: Graph, p: seq<string>, x: string, y: string) {
    Path(g, p) && p[0] == x && p[|p| - 1] == y
  }

  ghost predicate Reaches(g: Graph, x: string, y: string) {
    exists p :: PathBetween(g, p, x, y)
  }

  ghost predicate Cyclic(g: Graph) {
    exists p, x :: PathBetween(g, p, x, x) && |p| >= 2
  }

  ghost predicate Ranked(g: Graph, rank: map<string, nat>) {
    g.Keys <= rank.Keys && forall x, y :: Edge(g, x, y) && y in g ==> rank[y] < rank[x]
  }

  lemma ReachesSelf(g: Graph, x: string)
    ensures Reaches(g, x, x)
  {
    assert PathBetween(g, [x], x, x);
  }

  lemma ReachesStep(g: Graph, x: string, y: string, z: string)
    requires Edge(g, x, y) && Reaches(g, y, z)
    ensures Reaches(g, x, z)
  {
    var p :| PathBetween(g, p, y, z);
    assert PathBetween(g, [x] + p, x, z);
  }

  lemma EdgeThenPathIsCycle(g: Graph, x: string, y: string)
    requires Edge(g, x, y) && Reaches(g, y, x)
    ensures Cyclic(g)
  {
    var p :| PathBetween(g, p, y, x);
    assert PathBetween(g, [x] + p, x, x);
  }

  lemma {:induction false} RankFalls(g: Graph, rank: map<string, nat>, p: seq<string>, x: string, y: string)
    requires Ranked(g, rank) && PathBetween(g, p, x, y) && |p| >= 2 && y in g
    ensures x in g && rank[y] < rank[x]
  {
    assert Edge(g, p[0], p[1]);
    if |p| > 2 {
      var tail := p[1..];
      assert PathBetween(g, tail, p[1], y) by {
        forall i | 0 <= i < |tail| - 1 ensures Edge(g, tail[i], tail[i + 1]) {
          assert Edge(g, p[i + 1], p[i + 2]);
        }
      }
      RankFalls(g, rank, tail, p[1], y);
    }
  }

  /** The known names reachable from `x`; their number ranks an acyclic graph. */
  ghost function Reach(g: Graph, x: string): set<string> {
    set y | y in g && Reaches(g, x, y)
  }

  /** A graph has no cycle exactly when its names can be ranked so that every edge goes down. */
  lemma AcyclicMeansRanked(g: Graph)
    ensures !Cyclic(g) <==> exists rank :: Ranked(g, rank)
  {
    if !Cyclic(g) {
      var rank := RankByReach(g);
    }
    if rank :| Ranked(g, rank) {
      if Cyclic(g) {
        var p, x :| PathBetween(g, p, x, x) && |p| >= 2;
        assert Edge(g, p[0], p[1]);
        RankFalls(g, rank, p, x, x);
        assert false;
      }
    }
  }

  lemma RankByReach(g: Graph) returns (rank: map<string, nat>)
    requires !Cyclic(g)
    ensures Ranked(g, rank)
  {
    rank := map x | x in g :: |Reach(g, x)|;
    forall x, y | Edge(g, x, y) && y in g ensures rank[y] < rank[x] {
      ReachShrinks(g, x, y);
    }
  }

  lemma ReachShrinks(g: Graph, x: string, y: string)
    requires !Cyclic(g) && Edge(g, x, y)
    ensures |Reach(g, y)| < |Reach(g, x)|
  {
    forall z | z in Reach(g, y) ensures z in Reach(g, x) {
      ReachesStep(g, x, y, z);
    }
    ReachesSelf(g, x);
    if x in Reach(g, y) {
      EdgeThenPathIsCycle(g, x, y);
    }
    Fewer(Reach(g, y), Reach(g, x), x);
  }

  lemma Fewer<T>(a: set<T>, b: set<T>, x: T)
    requires a <= b && x in b && x !in a
    ensures |a| < |b|
  {
    assert a <= b - {x};
    SubsetSize(a, b - {x});
  }

  lemma {:induction false} SubsetSize<T>(a: set<T>, b: set<T>)
    requires a <= b
    ensures |a| <= |b|
  {
    if a != {} {
      var x :| x in a;
      SubsetSize(a - {x}, b - {x});
    }
  }
}
