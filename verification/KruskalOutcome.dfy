/**
  * When the loop of kruskal exits, and what it has then built.
  * A rejected edge is not removed, so a pass that rejects repeats for ever.
  */
module KruskalOutcome {
  import opened Aretes
  import opened Connectivity
  import opened Forests
  import opened Graphes
  import opened Kruskal
  import opened Partitions
  import opened Runs

  // ---- the order in which edges come up, cycles or not ----

  function Prend(s: Etat): Etat {
    Etat(Minus(s.list, Next(s)), s.accepted + [Next(s)])
  }

  function Prends(s: Etat, k: nat): (r: Etat)
    ensures |r.accepted| == |s.accepted| + k
  {
    if k == 0 then s else Prend(Prends(s, k - 1))
  }

  /** The k lightest edges, ties by place, each taken out before the next is looked for. */
  function Ordre(adj: Lists, k: nat): (r: seq<Arete>)
    ensures |r| == k
  {
    Prends(Start(adj), k).accepted
  }

  lemma {:induction false} PrendsSound(n: nat, s: Etat, k: nat)
    requires Sound(n, s)
    ensures Sound(n, Prends(s, k))
  {
    if k > 0 {
      PrendsSound(n, s, k - 1);
      NextInside(n, Prends(s, k - 1));
      MinusKeeps(n, Prends(s, k - 1).list, Next(Prends(s, k - 1)));
    }
  }

  ghost predicate Forest(edges: seq<Arete>) {
    Distinct(edges) && Acyclic(Taken(edges))
  }

  lemma {:induction false} OrdrePrefix(adj: Lists, j: nat, k: nat)
    requires j <= k
    ensures Ordre(adj, j) == Ordre(adj, k)[..j]
  {
    if j < k { OrdrePrefix(adj, j, k - 1); }
  }

  /** The order is by weight, and leaves out no listed edge lighter than one it holds. */
  ghost predicate ByWeight(s: Etat) {
    && Sorted(s.accepted)
    && Lighter(s.accepted, Edges(s.list))
    && forall e :: e in s.accepted ==> e.poids <= SENTINEL.poids
  }

  lemma PrendByWeight(n: nat, s: Etat)
    requires Sound(n, s) && ByWeight(s)
    ensures ByWeight(Prend(s))
  {
    var a := Next(s);
    NextInside(n, s);
    LightestIsLeast(Flat(s.list));
    MinusShrinks(n, s.list, a);
    OrderKept(s.accepted, a, Edges(s.list), Edges(Minus(s.list, a)));
  }

  lemma {:induction false} OrdreByWeight(n: nat, adj: Lists, k: nat)
    requires WellFormed(n, adj)
    ensures ByWeight(Prends(Start(adj), k))
  {
    if k > 0 {
      OrdreByWeight(n, adj, k - 1);
      PrendsSound(n, Start(adj), k - 1);
      PrendByWeight(n, Prends(Start(adj), k - 1));
    }
  }

  lemma ForestPrefix(edges: seq<Arete>, j: nat)
    requires Forest(edges) && j <= |edges|
    ensures Forest(edges[..j])
  {
    assert Taken(edges[..j]) <= Taken(edges);
    AcyclicSubset(Taken(edges[..j]), Taken(edges));
  }

  lemma CoversMore(n: nat, edges: seq<Arete>, j: nat)
    requires j <= |edges| && Covers(n, edges[..j])
    ensures Covers(n, edges)
  {
    forall x | 0 <= x < n ensures TouchedBy(edges, x) {
      assert TouchedBy(edges[..j], x);
      var e :| e in edges[..j] && (e.v == x || e.w == x);
      assert e in edges;
    }
  }

  // ---- the run follows the order as long as it closes no cycle ----

  ghost predicate CoversOnlyWhole(n: nat, edges: seq<Arete>) {
    forall i :: 0 <= i < |edges| ==> !Covers(n, edges[..i])
  }

  lemma CoversOnlyWholeMore(n: nat, edges: seq<Arete>, a: Arete)
    requires CoversOnlyWhole(n, edges) && !Covers(n, edges)
    ensures CoversOnlyWhole(n, edges + [a])
  {
    forall i | 0 <= i < |edges + [a]| ensures !Covers(n, (edges + [a])[..i]) {
      assert (edges + [a])[..i] == edges[..i];
      assert edges[..|edges|] == edges;
    }
  }

  /** s has accepted a prefix of the order, of which no shorter prefix covers. */
  ghost predicate Follows(n: nat, adj: Lists, s: Etat) {
    s == Prends(Start(adj), |s.accepted|) && CoversOnlyWhole(n, s.accepted)
  }

  lemma PasseFollows(n: nat, adj: Lists, s: Etat)
    requires Follows(n, adj, s)
    ensures Follows(n, adj, Passe(n, s))
  {
    if !Finished(n, s) && !Rejected(s) {
      CoversOnlyWholeMore(n, s.accepted, Next(s));
      assert Passe(n, s) == Prend(s);
    }
  }

  lemma RunFollowsOrdre(n: nat, adj: Lists, k: nat)
    ensures Follows(n, adj, Passes(n, Start(adj), k))
  {
    forall t | Follows(n, adj, t) ensures Follows(n, adj, Passe(n, t)) {
      PasseFollows(n, adj, t);
    }
    Keeps(t => Passe(n, t), t => Follows(n, adj, t), Start(adj), k);
  }

  /** If the first edge up after s keeps the taken ones a forest, the pass accepts it. */
  lemma ForestAccepts(s: Etat)
    requires Forest(s.accepted + [Next(s)])
    ensures !Rejected(s)
  {
    var a, T := Next(s), Taken(s.accepted);
    var more := s.accepted + [a];
    TakenLinks(s.accepted);
    assert forall i :: 0 <= i < |s.accepted| ==> more[i] == s.accepted[i] && more[i] != more[|s.accepted|];
    assert a !in s.accepted;
    assert Taken(more) == T + {a};
    AcyclicSubset(T, Taken(more));
    AcyclicExtend(T, a);
  }

  lemma {:induction false} ForestIsFollowed(n: nat, adj: Lists, k: nat)
    requires Forest(Ordre(adj, k))
    requires forall j :: 0 <= j < k ==> !Covers(n, Ordre(adj, j))
    ensures Passes(n, Start(adj), k) == Prends(Start(adj), k)
  {
    if k > 0 {
      OrdrePrefix(adj, k - 1, k);
      ForestPrefix(Ordre(adj, k), k - 1);
      ForestIsFollowed(n, adj, k - 1);
      var s := Prends(Start(adj), k - 1);
      ForestAccepts(s);
    }
  }

  /** The first length at which the edges, taken in order, cover every vertex. */
  lemma {:induction false} FirstCover(n: nat, edges: seq<Arete>) returns (j: nat)
    requires Covers(n, edges)
    ensures j <= |edges| && Covers(n, edges[..j])
    ensures forall i :: 0 <= i < j ==> !Covers(n, edges[..i])
  {
    if i :| 0 <= i < |edges| && Covers(n, edges[..i]) {
      j := FirstCover(n, edges[..i]);
      assert edges[..i][..j] == edges[..j];
      assert forall m :: 0 <= m < j ==> edges[..i][..m] == edges[..m];
    } else {
      j := |edges|;
      assert edges[..j] == edges;
    }
  }

  ghost predicate ExitsAt(n: nat, adj: Lists, k: nat) {
    Finished(n, Passes(n, Start(adj), k))
  }

  ghost predicate CoveringForest(n: nat, edges: seq<Arete>) {
    Forest(edges) && Covers(n, edges)
  }

  lemma ExitIsCoveringForest(n: nat, adj: Lists, k: nat)
    requires WellFormed(n, adj) && ExitsAt(n, adj, k)
    ensures CoveringForest(n, Ordre(adj, |Passes(n, Start(adj), k).accepted|))
  {
    RunFollowsOrdre(n, adj, k);
    EveryLoopHead(n, adj, k);
  }

  lemma CoveringForestExits(n: nat, adj: Lists, k: nat) returns (j: nat)
    requires WellFormed(n, adj) && CoveringForest(n, Ordre(adj, k))
    ensures ExitsAt(n, adj, j)
  {
    j := FirstCover(n, Ordre(adj, k));
    OrdrePrefix(adj, j, k);
    forall i | 0 <= i < j ensures !Covers(n, Ordre(adj, i)) { OrdrePrefix(adj, i, k); }
    ForestPrefix(Ordre(adj, k), j);
    ForestIsFollowed(n, adj, j);
    PrendsSound(n, Start(adj), j);
  }

  /** kruskal returns exactly on the inputs of which some k lightest edges form a forest touching every vertex. */
  lemma ReturnsIff(n: nat, adj: Lists)
    requires WellFormed(n, adj)
    ensures (exists k: nat :: ExitsAt(n, adj, k)) <==> (exists k: nat :: CoveringForest(n, Ordre(adj, k)))
  {
    if k: nat :| ExitsAt(n, adj, k) {
      ExitIsCoveringForest(n, adj, k);
    }
    if k: nat :| CoveringForest(n, Ordre(adj, k)) {
      var j := CoveringForestExits(n, adj, k);
    }
  }

  /** A pass that rejects changes nothing, so every later pass rejects the same edge. */
  lemma RejectionIsForEver(n: nat, adj: Lists, k: nat, more: nat)
    requires !ExitsAt(n, adj, k) && Rejected(Passes(n, Start(adj), k))
    ensures Passes(n, Start(adj), k + more) == Passes(n, Start(adj), k)
    ensures !ExitsAt(n, adj, k + more)
  {
    FixedForEver(t => Passe(n, t), Start(adj), k, more);
  }

  // ---- how many edges a spanning forest of a connected graph has ----

  ghost function Roots(n: nat, pairs: seq<Link>): set<nat>
    requires InRange(n, pairs)
  {
    set x | 0 <= x < n && Classes(n, pairs)[x] == x
  }

  /** Every pair, when united, joined two separate classes. */
  ghost predicate Growing(pairs: seq<Link>) {
    forall i :: 0 <= i < |pairs| ==> !Connected(LinkSet(pairs[..i]), pairs[i].0, pairs[i].1)
  }

  /** Each union of separate classes leaves one root fewer. */
  lemma {:induction false} RootCount(n: nat, pairs: seq<Link>)
    requires InRange(n, pairs) && Growing(pairs)
    ensures |Roots(n, pairs)| == n - |pairs|
    decreases |pairs|
  {
    if pairs == [] {
      AllRoots(n);
    } else {
      var init, last := pairs[..|pairs| - 1], pairs[|pairs| - 1];
      forall i | 0 <= i < |init| ensures !Connected(LinkSet(init[..i]), init[i].0, init[i].1) {
        assert init[..i] == pairs[..i];
      }
      RootCount(n, init);
      var rep := Classes(n, init);
      ClassesAreComponents(n, init, last.0, last.1);
      Representative(n, init, last.0);
      Representative(n, init, last.1);
      assert Roots(n, pairs) == Roots(n, init) - {rep[last.1]};
    }
  }

  lemma {:induction false} AllRoots(n: nat)
    ensures |Roots(n, [])| == n
  {
    if n == 0 {
      assert Roots(n, []) == {};
    } else {
      AllRoots(n - 1);
      assert Roots(n, []) == Roots(n - 1, []) + {n - 1};
    }
  }

  // ---- components, counted by their least vertices ----

  ghost predicate Least(links: set<Link>, x: nat) {
    forall y: nat :: y < x ==> !Connected(links, y, x)
  }

  ghost function Leasts(n: nat, links: set<Link>): set<nat> {
    set x | 0 <= x < n && Least(links, x)
  }

  lemma {:induction false} LeastOf(n: nat, links: set<Link>, x: nat) returns (y: nat)
    requires x < n
    ensures y in Leasts(n, links) && Connected(links, y, x)
  {
    if Least(links, x) {
      Reflexive(links, x);
      y := x;
    } else {
      var z: nat :| z < x && Connected(links, z, x);
      y := LeastOf(n, links, z);
      Transitive(links, y, z, x);
    }
  }

  /** Connected least vertices are one. */
  lemma LeastsApart(n: nat, links: set<Link>, x: nat, y: nat)
    requires x in Leasts(n, links) && y in Leasts(n, links) && Connected(links, x, y)
    ensures x == y
  {
    Symmetric(links, x, y);
  }

  /** A map from A onto B that takes no value twice shows them of one size. */
  lemma {:induction false} SameSize(A: set<nat>, B: set<nat>, f: nat -> nat)
    requires forall x :: x in A ==> f(x) in B
    requires forall x, y :: x in A && y in A && f(x) == f(y) ==> x == y
    requires forall b :: b in B ==> exists x :: x in A && f(x) == b
    ensures |A| == |B|
  {
    if A == {} {
      assert B == {};
    } else {
      var x :| x in A;
      SameSize(A - {x}, B - {f(x)}, f);
    }
  }

  /** The partition has as many roots as the graph of its pairs has components. */
  lemma RootsAreLeasts(n: nat, pairs: seq<Link>)
    requires InRange(n, pairs)
    ensures |Leasts(n, LinkSet(pairs))| == |Roots(n, pairs)|
  {
    var A, B, links, rep := Leasts(n, LinkSet(pairs)), Roots(n, pairs), LinkSet(pairs), Classes(n, pairs);
    var f := (x: nat) => if x < n then rep[x] else 0;
    forall x | x in A ensures f(x) in B { Representative(n, pairs, x); }
    forall x, y | x in A && y in A && f(x) == f(y) ensures x == y {
      ClassesAreComponents(n, pairs, x, y);
      LeastsApart(n, links, x, y);
    }
    forall b | b in B ensures exists x :: x in A && f(x) == b {
      var x := LeastOf(n, links, b);
      ClassesAreComponents(n, pairs, x, b);
      assert f(x) == b;
    }
    SameSize(A, B, f);
  }

  /** Links within as many components as those of a larger set connect what the larger set connects. */
  lemma SameComponents(n: nat, few: set<Link>, many: set<Link>, a: nat, b: nat)
    requires a < n && b < n && (forall x: nat, y: nat :: Connected(few, x, y) ==> Connected(many, x, y))
    requires |Leasts(n, few)| == |Leasts(n, many)| && Connected(many, a, b)
    ensures Connected(few, a, b)
  {
    SubsetOfSameSize(Leasts(n, many), Leasts(n, few));
    var x := LeastOf(n, few, a);
    var y := LeastOf(n, few, b);
    Symmetric(few, y, b);
    Transitive(many, x, a, b);
    Transitive(many, x, b, y);
    LeastsApart(n, many, x, y);
    Symmetric(few, x, a);
    Transitive(few, a, x, b);
  }

  lemma SubsetOfSameSize(A: set<nat>, B: set<nat>)
    requires A <= B && |A| == |B|
    ensures A == B
  {
    assert |B - A| == 0;
  }

  /** The edges of any spanning forest: vertices less components. */
  ghost function Rank(n: nat, E: set<Arete>): nat {
    LeastsBound(n, Links(E));
    n - |Leasts(n, Links(E))|
  }

  lemma {:induction false} LeastsBound(n: nat, links: set<Link>)
    ensures |Leasts(n, links)| <= n
  {
    if n > 0 {
      LeastsBound(n - 1, links);
      assert Leasts(n, links) - {n - 1} == Leasts(n - 1, links);
    }
  }

  ghost predicate ConnectedGraph(n: nat, E: set<Arete>) {
    forall a, b :: 0 <= a < n && 0 <= b < n ==> Joined(E, a, b)
  }

  lemma ForestGrows(edges: seq<Arete>)
    requires Forest(edges)
    ensures Growing(PairsOf(edges))
  {
    forall i | 0 <= i < |edges|
      ensures !Connected(LinkSet(PairsOf(edges)[..i]), edges[i].v, edges[i].w)
    {
      var T := Taken(edges);
      assert edges[i] in T;
      assert PairsOf(edges)[..i] == PairsOf(edges[..i]);
      TakenLinks(edges[..i]);
      if Joined(Taken(edges[..i]), edges[i].v, edges[i].w) {
        assert Taken(edges[..i]) <= T - {edges[i]};
        JoinedMonotone(Taken(edges[..i]), T - {edges[i]}, edges[i].v, edges[i].w);
      }
    }
  }

  lemma PairsInRange(n: nat, edges: seq<Arete>)
    requires AllInside(n, edges)
    ensures InRange(n, PairsOf(edges))
  {
    forall p | p in PairsOf(edges) ensures p.0 < n && p.1 < n {
      var i :| 0 <= i < |edges| && PairsOf(edges)[i] == p;
      assert Inside(n, edges[i]);
    }
  }

  /** The classes of the partition are the connected components of the tree. */
  lemma ClassesAreTrees(n: nat, edges: seq<Arete>, a: nat, b: nat)
    requires AllInside(n, edges) && a < n && b < n
    ensures InRange(n, PairsOf(edges))
    ensures Classes(n, PairsOf(edges))[a] == Classes(n, PairsOf(edges))[b] <==> Joined(Taken(edges), a, b)
  {
    PairsInRange(n, edges);
    TakenLinks(edges);
    ClassesAreComponents(n, PairsOf(edges), a, b);
  }

  lemma ForestRank(n: nat, edges: seq<Arete>)
    requires AllInside(n, edges) && Forest(edges)
    ensures |edges| == Rank(n, Taken(edges))
  {
    ForestGrows(edges);
    PairsInRange(n, edges);
    RootCount(n, PairsOf(edges));
    RootsAreLeasts(n, PairsOf(edges));
    TakenLinks(edges);
  }

  /** A forest of a graph's edges spans it exactly when it has as many edges as a spanning forest. */
  lemma SpansWhenRank(n: nat, E: set<Arete>, edges: seq<Arete>)
    requires AllInside(n, edges) && Forest(edges) && Taken(edges) <= E && forall e :: e in E ==> Inside(n, e)
    ensures Spans(Taken(edges), E) <==> |edges| == Rank(n, E)
  {
    var few, many := Links(Taken(edges)), Links(E);
    ForestRank(n, edges);
    forall x: nat, y: nat | Connected(few, x, y) ensures Connected(many, x, y) { JoinedMonotone(Taken(edges), E, x, y); }
    if |edges| == Rank(n, E) {
      forall e | e in E ensures Joined(Taken(edges), e.v, e.w) {
        JoinedByOwnEdge(E, e);
        SameComponents(n, few, many, e.v, e.w);
      }
    }
    if Spans(Taken(edges), E) {
      forall x: nat, y: nat | Connected(many, x, y) ensures Connected(few, x, y) { JoinedAbsorb(E, Taken(edges), x, y); }
      assert Leasts(n, few) == Leasts(n, many);
    }
  }

  /** A connected graph has one component. */
  lemma ConnectedRank(n: nat, E: set<Arete>)
    requires 0 < n
    ensures ConnectedGraph(n, E) <==> Rank(n, E) == n - 1
  {
    var links := Links(E);
    assert 0 in Leasts(n, links);
    if ConnectedGraph(n, E) {
      forall x | x in Leasts(n, links) ensures x == 0 {
        assert Joined(E, 0, x);
      }
      assert Leasts(n, links) == {0};
    }
    if Rank(n, E) == n - 1 {
      SubsetOfSameSize({0}, Leasts(n, links));
      forall a, b | 0 <= a < n && 0 <= b < n ensures Joined(E, a, b) {
        var x := LeastOf(n, links, a);
        var y := LeastOf(n, links, b);
        Symmetric(links, x, a);
        Transitive(links, a, 0, b);
      }
    }
  }

  lemma TakenInside(n: nat, adj: Lists, s: Etat)
    requires WellFormed(n, adj) && Conserves(n, adj, s)
    ensures Taken(s.accepted) <= Edges(adj) && forall e :: e in Edges(adj) ==> Inside(n, e)
  {
    forall e | e in Taken(s.accepted) ensures e in Edges(adj) { ListedOrTaken(n, adj, s, e); }
    forall e | e in Edges(adj) ensures Inside(n, e) {
      var i :| 0 <= i < n && e in adj[i];
    }
  }

  /** On every graph, the accepted edges are a minimum spanning forest exactly when there are enough of them. */
  lemma ResultIsMinimumIff(n: nat, adj: Lists, k: nat)
    requires WellFormed(n, adj)
    ensures MinimumSpanningForest(Taken(Passes(n, Start(adj), k).accepted), Edges(adj))
            <==> |Passes(n, Start(adj), k).accepted| == Rank(n, Edges(adj))
  {
    var s, E := Passes(n, Start(adj), k), Edges(adj);
    EveryLoopHead(n, adj, k);
    TakenInside(n, adj, s);
    SpansWhenRank(n, E, s.accepted);
    if Spans(Taken(s.accepted), E) { SpanningIsMinimum(E, Taken(s.accepted)); }
  }

  ghost predicate ReturnsMinimum(n: nat, adj: Lists, k: nat) {
    ExitsAt(n, adj, k) && MinimumSpanningForest(Taken(Passes(n, Start(adj), k).accepted), Edges(adj))
  }

  lemma SpanningCovers(n: nat, edges: seq<Arete>)
    requires 2 <= n && forall a, b :: 0 <= a < n && 0 <= b < n ==> Connected(LinkSet(PairsOf(edges)), a, b)
    ensures Covers(n, edges)
  {
    var links := LinkSet(PairsOf(edges));
    forall x | 0 <= x < n ensures TouchedBy(edges, x) {
      var y := if x == 0 then 1 else 0;
      assert Connected(links, x, y);
      var p :| WalkFrom(links, p, x, y);
      assert Adjacent(links, p[0], p[0 + 1]);
      var l := if (p[0], p[1]) in links then (p[0], p[1]) else (p[1], p[0]);
      var i :| 0 <= i < |edges| && PairsOf(edges)[i] == l;
      assert edges[i] in edges;
    }
  }

  lemma NothingCovers(n: nat)
    requires 0 < n
    ensures !Covers(n, [])
  {
    assert !TouchedBy([], 0);
  }

  /** As many lightest edges as a spanning forest has form a forest that touches every vertex, and one fewer do not touch all. */
  ghost predicate LightestForest(n: nat, adj: Lists) {
    var r := Rank(n, Edges(adj));
    0 < r && CoveringForest(n, Ordre(adj, r)) && !Covers(n, Ordre(adj, r - 1))
  }

  lemma MinimumIsLightestForest(n: nat, adj: Lists, k: nat)
    requires WellFormed(n, adj) && ReturnsMinimum(n, adj, k)
    ensures LightestForest(n, adj)
  {
    var edges := Passes(n, Start(adj), k).accepted;
    RunFollowsOrdre(n, adj, k);
    EveryLoopHead(n, adj, k);
    ResultIsMinimumIff(n, adj, k);
    NothingCovers(n);
    assert edges != [];
    OrdrePrefix(adj, |edges| - 1, |edges|);
  }

  lemma ShorterDoNotCover(n: nat, adj: Lists, k: nat)
    requires !Covers(n, Ordre(adj, k))
    ensures forall j :: 0 <= j <= k ==> !Covers(n, Ordre(adj, j))
  {
    forall j | 0 <= j <= k ensures !Covers(n, Ordre(adj, j)) {
      OrdrePrefix(adj, j, k);
      if Covers(n, Ordre(adj, j)) { CoversMore(n, Ordre(adj, k), j); }
    }
  }

  lemma LightestForestIsMinimum(n: nat, adj: Lists)
    requires WellFormed(n, adj) && LightestForest(n, adj)
    ensures ReturnsMinimum(n, adj, Rank(n, Edges(adj)))
  {
    var r := Rank(n, Edges(adj));
    ShorterDoNotCover(n, adj, r - 1);
    ForestIsFollowed(n, adj, r);
    ResultIsMinimumIff(n, adj, r);
  }

  /** kruskal returns a minimum spanning forest on exactly these graphs. */
  lemma ReturnsMinimumForestIff(n: nat, adj: Lists)
    requires WellFormed(n, adj)
    ensures (exists k: nat :: ReturnsMinimum(n, adj, k)) <==> LightestForest(n, adj)
  {
    if k: nat :| ReturnsMinimum(n, adj, k) {
      MinimumIsLightestForest(n, adj, k);
    }
    if LightestForest(n, adj) {
      LightestForestIsMinimum(n, adj);
    }
  }

  /** The n - 1 lightest edges form a forest, and the n - 2 lightest leave some vertex untouched. */
  ghost predicate LightestTree(n: nat, adj: Lists) {
    2 <= n && Forest(Ordre(adj, n - 1)) && !Covers(n, Ordre(adj, n - 2))
  }

  /** On at least two vertices, a forest of n - 1 edges touches them all. */
  lemma TreeCovers(n: nat, edges: seq<Arete>)
    requires 2 <= n && AllInside(n, edges) && Forest(edges) && |edges| == n - 1
    ensures Covers(n, edges)
  {
    ForestRank(n, edges);
    ConnectedRank(n, Taken(edges));
    TakenLinks(edges);
    forall a, b | 0 <= a < n && 0 <= b < n ensures Connected(LinkSet(PairsOf(edges)), a, b) {
      assert Joined(Taken(edges), a, b);
    }
    SpanningCovers(n, edges);
  }

  /** On a connected graph, kruskal returns a minimum spanning tree on exactly these inputs. */
  lemma ReturnsMinimumTreeIff(n: nat, adj: Lists)
    requires WellFormed(n, adj) && ConnectedGraph(n, Edges(adj))
    ensures (exists k: nat :: ReturnsMinimum(n, adj, k)) <==> LightestTree(n, adj)
  {
    ReturnsMinimumForestIff(n, adj);
    ConnectedRank(n, Edges(adj));
    if LightestTree(n, adj) {
      PrendsSound(n, Start(adj), n - 1);
      TreeCovers(n, Ordre(adj, n - 1));
    }
  }

  // ---- two graphs on which kruskal is not a spanning tree algorithm ----

  /** A loop lighter than every other edge is rejected at the first pass, for ever. */
  lemma LoopNeverReturns(k: nat)
    ensures var adj := Built(2, [Arete(1, 0, 0, 1.0), Arete(2, 0, 1, 2.0)]);
            WellFormed(2, adj) && !ExitsAt(2, adj, k)
  {
    var edges := [Arete(1, 0, 0, 1.0), Arete(2, 0, 1, 2.0)];
    var adj := Built(2, edges);
    BuiltWellFormed(2, edges);
    NextInside(2, Start(adj));
    forall e ensures e in Edges(adj) <==> e in edges {
      FlatHas(adj, e);
      BuiltHolds(2, edges, e);
    }
    assert edges[0] in edges;
    assert Next(Start(adj)) == edges[0];
    Reflexive(LinkSet([]), 0);
    assert PairsOf([]) == [];
    NothingCovers(2);
    RejectionIsForEver(2, adj, 0, k);
  }

  const PATH_A := Arete(1, 0, 1, 1.0)
  const PATH_B := Arete(2, 2, 3, 2.0)
  const PATH_C := Arete(3, 1, 2, 3.0)
  const PATH: Lists := [[PATH_A], [PATH_A, PATH_C], [PATH_C, PATH_B], [PATH_B]]

  lemma PathIsGraph()
    ensures WellFormed(4, PATH)
  {
  }

  lemma PathNext(list: Lists, accepted: seq<Arete>, a: Arete)
    requires a in Edges(list) && a.poids < SENTINEL.poids
    requires forall e :: e in Edges(list) && e != a ==> a.poids < e.poids
    ensures Next(Etat(list, accepted)) == a
  {
    var x := Next(Etat(list, accepted));
    LightestIsLeast(Flat(list));
    FlatHas(list, a);
    FlatHas(list, x);
  }

  const PATH_REST: Lists := [[], [PATH_C], [PATH_C, PATH_B], [PATH_B]]

  lemma PathFirstPass()
    ensures Passe(4, Start(PATH)) == Etat(PATH_REST, [PATH_A])
  {
    assert PATH_A in PATH[0] && PATH_C in PATH[1];
    PathNext(PATH, [], PATH_A);
    assert Drop([PATH_A], PATH_A) == [] && Drop([PATH_A, PATH_C], PATH_A) == [PATH_C];
    assert Minus(PATH, PATH_A) == PATH_REST;
    NoLinksAt(0, 1);
    assert PairsOf([]) == [];
    NothingCovers(4);
  }

  lemma PathSecondPass()
    ensures Passe(4, Etat(PATH_REST, [PATH_A])).accepted == [PATH_A, PATH_B]
  {
    assert PATH_B in PATH_REST[2];
    PathNext(PATH_REST, [PATH_A], PATH_B);
    ClassesAreComponents(4, [(0, 1)], 2, 3);
    assert PairsOf([PATH_A]) == [(0, 1)];
    assert !TouchedBy([PATH_A], 2);
  }

  lemma PathNotSpanned()
    ensures Covers(4, [PATH_A, PATH_B]) && !Spans(Taken([PATH_A, PATH_B]), Edges(PATH))
  {
    TouchesEnds([PATH_A, PATH_B]);
    assert [PATH_A, PATH_B][0] == PATH_A && [PATH_A, PATH_B][1] == PATH_B;
    assert PATH_C in PATH[1];
    assert [(0, 1), (2, 3)][..1] == [(0, 1)];
    ClassesAreComponents(4, [(0, 1), (2, 3)], 1, 2);
    assert PairsOf([PATH_A, PATH_B]) == [(0, 1), (2, 3)];
    TakenLinks([PATH_A, PATH_B]);
  }

  /** On the path 0-1-2-3 with a heaviest middle edge, kruskal returns two separate trees. */
  lemma PathReturnsTwoTrees()
    ensures WellFormed(4, PATH) && ExitsAt(4, PATH, 2)
    ensures !Spans(Taken(Passes(4, Start(PATH), 2).accepted), Edges(PATH))
  {
    PathIsGraph();
    PathFirstPass();
    PathSecondPass();
    PathNotSpanned();
    PassesNext(4, Start(PATH), 0);
    PassesNext(4, Start(PATH), 1);
  }

  lemma NoLinksAt(a: nat, b: nat)
    requires a != b
    ensures !Connected(LinkSet([]), a, b)
  {
    assert LinkSet([]) == {};
    if Connected({}, a, b) { NoLinks(a, b); }
  }

  lemma TouchesEnds(edges: seq<Arete>)
    ensures forall i :: 0 <= i < |edges| ==> TouchedBy(edges, edges[i].v) && TouchedBy(edges, edges[i].w)
  {
  }
}
