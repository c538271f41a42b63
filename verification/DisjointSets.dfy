/** Union-find with path compression and union by rank. */
module DisjointSets {

  /** Parents stay in range and rank strictly increases towards the root. */
  ghost predicate Forest(parent: seq<nat>, rank: seq<nat>) {
    && |parent| == |rank|
    && (forall v | 0 <= v < |parent| :: parent[v] < |parent|)
    && (forall v | 0 <= v < |parent| :: parent[v] != v ==> rank[v] < rank[parent[v]])
    && (forall v | 0 <= v < |parent| :: rank[v] <= |parent|)
  }

  /** The root above v; climbing ends because ranks grow and are bounded. */
  ghost function Root(parent: seq<nat>, rank: seq<nat>, v: nat): (root: nat)
    requires Forest(parent, rank) && v < |parent|
    ensures root < |parent| && parent[root] == root
    ensures rank[v] <= rank[root] && (root == v || rank[v] < rank[root])
    decreases |parent| - rank[v]
  {
    if parent[v] == v then v else Root(parent, rank, parent[v])
  }

  /** How many parents are followed from v. */
  ghost function Depth(parent: seq<nat>, rank: seq<nat>, v: nat): nat
    requires Forest(parent, rank) && v < |parent|
    decreases |parent| - rank[v]
  {
    if parent[v] == v then 0 else 1 + Depth(parent, rank, parent[v])
  }

  ghost function Members(parent: seq<nat>, rank: seq<nat>, root: nat): set<nat>
    requires Forest(parent, rank)
  {
    set v: nat | 0 <= v < |parent| && Root(parent, rank, v) == root
  }

  function Pow2(n: nat): (p: nat)
    ensures p >= 1 && n < p
  {
    if n == 0 then 1 else 2 * Pow2(n - 1)
  }

  lemma {:induction false} Pow2Monotone(m: nat, n: nat)
    requires m <= n
    ensures Pow2(m) <= Pow2(n)
  {
    if m < n {
      Pow2Monotone(m, n - 1);
    }
  }

  /** A root of rank r stands for at least 2^r elements. */
  ghost predicate RanksPaidFor(parent: seq<nat>, rank: seq<nat>)
    requires Forest(parent, rank)
  {
    forall v | 0 <= v < |parent| && parent[v] == v :: Pow2(rank[v]) <= |Members(parent, rank, v)|
  }

  ghost predicate SameRoots(p: seq<nat>, q: seq<nat>, rank: seq<nat>)
    requires Forest(p, rank) && Forest(q, rank) && |p| == |q|
  {
    forall v | 0 <= v < |p| :: Root(p, rank, v) == Root(q, rank, v)
  }

  lemma {:induction false} CompressRoot(p: seq<nat>, rank: seq<nat>, v: nat, u: nat)
    requires Forest(p, rank) && v < |p| && u < |p|
    requires Forest(p[v := Root(p, rank, v)], rank)
    ensures Root(p[v := Root(p, rank, v)], rank, u) == Root(p, rank, u)
    decreases |p| - rank[u]
  {
    if u != v && p[u] != u {
      CompressRoot(p, rank, v, p[u]);
    }
  }

  /** Pointing an element straight at its root moves no element to another root. */
  lemma CompressKeepsRoots(p: seq<nat>, rank: seq<nat>, v: nat)
    requires Forest(p, rank) && v < |p|
    ensures var q := p[v := Root(p, rank, v)]; Forest(q, rank) && SameRoots(p, q, rank)
  {
    forall u | 0 <= u < |p| ensures Root(p[v := Root(p, rank, v)], rank, u) == Root(p, rank, u) {
      CompressRoot(p, rank, v, u);
    }
  }

  lemma SameRootsPaid(p: seq<nat>, q: seq<nat>, rank: seq<nat>)
    requires Forest(p, rank) && Forest(q, rank) && |p| == |q| && SameRoots(p, q, rank) && RanksPaidFor(p, rank)
    ensures RanksPaidFor(q, rank)
  {
    forall v | 0 <= v < |q| && q[v] == v ensures Pow2(rank[v]) <= |Members(q, rank, v)| {
      assert Root(q, rank, v) == v;
      assert Root(p, rank, v) == v;
      assert Members(q, rank, v) == Members(p, rank, v);
    }
  }

  // ---------------------------------------------------------------- linking two roots

  ghost function Linked(p: seq<nat>, winner: nat, loser: nat): seq<nat>
    requires loser < |p|
  {
    p[loser := winner]
  }

  ghost function Raised(rank: seq<nat>, winner: nat, loser: nat): seq<nat>
    requires winner < |rank| && loser < |rank|
  {
    if rank[winner] == rank[loser] then rank[winner := rank[winner] + 1] else rank
  }

  ghost predicate CanLink(p: seq<nat>, rank: seq<nat>, winner: nat, loser: nat) {
    && Forest(p, rank) && RanksPaidFor(p, rank)
    && winner < |p| && loser < |p| && winner != loser
    && p[winner] == winner && p[loser] == loser
    && rank[winner] >= rank[loser]
  }

  ghost function Below(n: nat): (s: set<nat>)
    ensures |s| == n && forall i: nat :: i in s <==> i < n
  {
    if n == 0 then {} else Below(n - 1) + {n - 1}
  }

  /** A paid-for rank is below the number of elements, so raising it by one stays within the bound. */
  lemma RankBelowSize(p: seq<nat>, rank: seq<nat>, v: nat)
    requires Forest(p, rank) && RanksPaidFor(p, rank) && v < |p| && p[v] == v
    ensures rank[v] < |p| && Pow2(rank[v]) <= |p|
  {
    assert Members(p, rank, v) <= Below(|p|);
    CardinalityMonotone(Members(p, rank, v), Below(|p|));
  }

  lemma CardinalityMonotone<T>(a: set<T>, b: set<T>)
    requires a <= b
    ensures |a| <= |b|
  {
    assert b == a + (b - a);
  }

  lemma LinkIsForest(p: seq<nat>, rank: seq<nat>, winner: nat, loser: nat)
    requires CanLink(p, rank, winner, loser)
    ensures Forest(Linked(p, winner, loser), Raised(rank, winner, loser))
  {
    RankBelowSize(p, rank, winner);
  }

  /** Linking merges exactly the two classes. */
  lemma {:induction false} LinkRoot(p: seq<nat>, rank: seq<nat>, winner: nat, loser: nat, u: nat)
    requires CanLink(p, rank, winner, loser) && u < |p|
    requires Forest(Linked(p, winner, loser), Raised(rank, winner, loser))
    ensures var before := Root(p, rank, u);
      Root(Linked(p, winner, loser), Raised(rank, winner, loser), u) == if before == loser then winner else before
    decreases |p| - rank[u]
  {
    var q, raised := Linked(p, winner, loser), Raised(rank, winner, loser);
    if u == loser {
      assert q[loser] == winner && q[winner] == winner;
      assert Root(q, raised, winner) == winner;
    } else if p[u] != u {
      LinkRoot(p, rank, winner, loser, p[u]);
    }
  }

  /** The roots after linking, for every element. */
  ghost predicate RootsMerged(p: seq<nat>, rank: seq<nat>, q: seq<nat>, raised: seq<nat>, winner: nat, loser: nat)
    requires Forest(p, rank) && Forest(q, raised) && |p| == |q|
  {
    forall u | 0 <= u < |p| ::
      Root(q, raised, u) == if Root(p, rank, u) == loser then winner else Root(p, rank, u)
  }

  lemma LinkRoots(p: seq<nat>, rank: seq<nat>, winner: nat, loser: nat)
    requires CanLink(p, rank, winner, loser)
    ensures var q, raised := Linked(p, winner, loser), Raised(rank, winner, loser);
      Forest(q, raised) && RootsMerged(p, rank, q, raised, winner, loser)
  {
    LinkIsForest(p, rank, winner, loser);
    hide Root, Forest, Linked, Raised, RanksPaidFor;
    var q, raised := Linked(p, winner, loser), Raised(rank, winner, loser);
    forall u | 0 <= u < |p|
      ensures Root(q, raised, u) == if Root(p, rank, u) == loser then winner else Root(p, rank, u)
    {
      LinkRoot(p, rank, winner, loser, u);
    }
  }

  lemma LinkPaid(p: seq<nat>, rank: seq<nat>, winner: nat, loser: nat)
    requires CanLink(p, rank, winner, loser)
    requires Forest(Linked(p, winner, loser), Raised(rank, winner, loser))
    ensures RanksPaidFor(Linked(p, winner, loser), Raised(rank, winner, loser))
  {
    var q, raised := Linked(p, winner, loser), Raised(rank, winner, loser);
    LinkRoots(p, rank, winner, loser);
    hide Root, Forest, RanksPaidFor;
    forall v | 0 <= v < |q| && q[v] == v ensures Pow2(raised[v]) <= |Members(q, raised, v)| {
      hide Members, CanLink, RootsMerged;
      LinkMembers(p, rank, q, raised, winner, loser, v);
      LinkPaidAt(p, rank, winner, loser, v);
    }
    PaidEverywhere(q, raised);
  }

  lemma LinkPaidAt(p: seq<nat>, rank: seq<nat>, winner: nat, loser: nat, v: nat)
    requires CanLink(p, rank, winner, loser) && v < |p| && Linked(p, winner, loser)[v] == v
    ensures v != loser
    ensures Pow2(Raised(rank, winner, loser)[v])
         <= if v == winner then |Members(p, rank, winner)| + |Members(p, rank, loser)| else |Members(p, rank, v)|
  {
    hide Root, Members, RanksPaidFor;
    PaidAt(p, rank, winner);
    PaidAt(p, rank, loser);
    if v != winner {
      PaidAt(p, rank, v);
    }
  }

  lemma PaidAt(p: seq<nat>, rank: seq<nat>, v: nat)
    requires Forest(p, rank) && RanksPaidFor(p, rank) && v < |p| && p[v] == v
    ensures Pow2(rank[v]) <= |Members(p, rank, v)|
  {
  }

  lemma PaidEverywhere(p: seq<nat>, rank: seq<nat>)
    requires Forest(p, rank)
    requires forall v | 0 <= v < |p| && p[v] == v :: Pow2(rank[v]) <= |Members(p, rank, v)|
    ensures RanksPaidFor(p, rank)
  {
  }

  lemma LinkMembers(p: seq<nat>, rank: seq<nat>, q: seq<nat>, raised: seq<nat>, winner: nat, loser: nat, v: nat)
    requires Forest(p, rank) && Forest(q, raised) && |p| == |q| && RootsMerged(p, rank, q, raised, winner, loser)
    requires winner != loser && v != loser
    ensures |Members(q, raised, v)|
         == if v == winner then |Members(p, rank, winner)| + |Members(p, rank, loser)| else |Members(p, rank, v)|
  {
    hide Root, Forest;
    if v == winner {
      assert Members(q, raised, v) == Members(p, rank, winner) + Members(p, rank, loser);
      assert Members(p, rank, winner) !! Members(p, rank, loser);
    } else {
      assert Members(q, raised, v) == Members(p, rank, v);
    }
  }

  /** What one look at a parent tells about the root. */
  lemma RootStep(p: seq<nat>, rank: seq<nat>, v: nat)
    requires Forest(p, rank) && v < |p|
    ensures p[v] < |p| && rank[p[v]] <= |p|
    ensures p[v] == v ==> Root(p, rank, v) == v
    ensures p[v] != v ==> rank[v] < rank[p[v]] && Root(p, rank, v) == Root(p, rank, p[v])
  {
  }

  // ---------------------------------------------------------------- depth

  lemma {:induction false} DepthBelowRank(p: seq<nat>, rank: seq<nat>, v: nat)
    requires Forest(p, rank) && v < |p|
    ensures Depth(p, rank, v) + rank[v] <= rank[Root(p, rank, v)]
    decreases |p| - rank[v]
  {
    if p[v] != v {
      DepthBelowRank(p, rank, p[v]);
    }
  }

  /** No climb is longer than the logarithm of the number of elements: 2^depth <= n. */
  lemma DepthLogarithmic(p: seq<nat>, rank: seq<nat>, v: nat)
    requires Forest(p, rank) && RanksPaidFor(p, rank) && v < |p|
    ensures Pow2(Depth(p, rank, v)) <= |p|
  {
    var root := Root(p, rank, v);
    DepthBelowRank(p, rank, v);
    RankBelowSize(p, rank, root);
    Pow2Monotone(Depth(p, rank, v), rank[root]);
  }

  // ---------------------------------------------------------------- the class

  class DisjointSet {
    const parent: array<nat>
    const rank: array<nat>

    ghost predicate Valid()
      reads this, parent, rank
    {
      parent != rank && parent.Length == rank.Length && Forest(parent[..], rank[..]) && RanksPaidFor(parent[..], rank[..])
    }

    ghost function RootOf(v: nat): nat
      requires Valid() && v < parent.Length
      reads this, parent, rank
    {
      Root(parent[..], rank[..], v)
    }

    constructor (size: nat)
      ensures Valid() && fresh(parent) && fresh(rank) && parent.Length == size
      ensures forall v | 0 <= v < size :: RootOf(v) == v
    {
      parent := new nat[size](i => i);
      rank := new nat[size](i => 0);
      new;
      forall v: nat | v < size ensures Members(parent[..], rank[..], v) == {v} {
      }
    }

    /** Path compression: the answer is the root, and no element changes its root. */
    method Find(value: nat) returns (root: nat)
      requires Valid() && value < parent.Length
      modifies parent
      ensures Valid() && root == old(RootOf(value))
      ensures forall v | 0 <= v < parent.Length :: RootOf(v) == old(RootOf(v))
      decreases parent.Length - rank[value]
    {
      hide Root, Forest, RanksPaidFor;
      RootStep(parent[..], rank[..], value);
      if parent[value] != value {
        assert rank[..][parent[value]] == rank[parent[value]] && parent[..][value] == parent[value];
        assert RootOf(value) == RootOf(parent[value]);
        var above := Find(parent[value]);
        ghost var p := parent[..];
        CompressKeepsRoots(p, rank[..], value);
        parent[value] := above;
        assert parent[..] == p[value := Root(p, rank[..], value)];
        SameRootsPaid(p, parent[..], rank[..]);
      }
      RootStep(parent[..], rank[..], value);
      return parent[value];
    }

    /** Merges the two classes and leaves every other class alone. */
    method Unite(lhs: nat, rhs: nat)
      requires Valid() && lhs < parent.Length && rhs < parent.Length
      modifies parent, rank
      ensures Valid()
      ensures forall u, v | 0 <= u < parent.Length && 0 <= v < parent.Length ::
        RootOf(u) == RootOf(v) <==>
          || old(RootOf(u)) == old(RootOf(v))
          || (old(RootOf(u)) == old(RootOf(lhs)) && old(RootOf(v)) == old(RootOf(rhs)))
          || (old(RootOf(u)) == old(RootOf(rhs)) && old(RootOf(v)) == old(RootOf(lhs)))
    {
      hide Root, Forest, RanksPaidFor, Linked, Raised;
      var lhsRoot := Find(lhs);
      var rhsRoot := Find(rhs);
      if lhsRoot == rhsRoot {
        return;
      }
      if rank[lhsRoot] < rank[rhsRoot] {
        lhsRoot, rhsRoot := rhsRoot, lhsRoot;
      }
      ghost var p, r := parent[..], rank[..];
      LinkRoots(p, r, lhsRoot, rhsRoot);
      LinkPaid(p, r, lhsRoot, rhsRoot);
      parent[rhsRoot] := lhsRoot;
      if rank[lhsRoot] == rank[rhsRoot] {
        rank[lhsRoot] := rank[lhsRoot] + 1;
      }
      LinkedBySteps(p, r, lhsRoot, rhsRoot, parent[..], rank[..]);
    }
  }

  lemma LinkedBySteps(p: seq<nat>, rank: seq<nat>, winner: nat, loser: nat, q: seq<nat>, raised: seq<nat>)
    requires winner < |p| && loser < |p| && |p| == |rank| == |q| == |raised|
    requires q == p[loser := winner]
    requires raised == if rank[winner] == rank[loser] then rank[winner := rank[winner] + 1] else rank
    ensures q == Linked(p, winner, loser) && raised == Raised(rank, winner, loser)
  {
  }
}
