/** RO/APNEE2/GraphePondere.java, kruskal: the state at the head of its loop, and what every pass keeps. */
module Kruskal {
  import opened Aretes
  import opened Connectivity
  import opened Forests
  import opened Graphes
  import opened Partitions
  import opened Runs

  /** list aliases the input's adjacency; the tree and the partition follow from the accepted edges. */
  datatype Etat = Etat(list: Lists, accepted: seq<Arete>)

  function PairsOf(edges: seq<Arete>): seq<Link> {
    seq(|edges|, i requires 0 <= i < |edges| => LinkOf(edges[i]))
  }

  function Taken(edges: seq<Arete>): set<Arete> {
    set e | e in edges
  }

  ghost predicate Sound(n: nat, s: Etat) {
    WellFormed(n, s.list) && AllInside(n, s.accepted)
  }

  function Next(s: Etat): Arete {
    Lightest(Flat(s.list))
  }

  ghost predicate Finished(n: nat, s: Etat) {
    Covers(n, s.accepted)
  }

  ghost predicate Rejected(s: Etat) {
    Connected(LinkSet(PairsOf(s.accepted)), Next(s).v, Next(s).w)
  }

  lemma NextInside(n: nat, s: Etat)
    requires Sound(n, s)
    ensures Inside(n, Next(s))
    ensures Next(s) in Edges(s.list) || Next(s) == SENTINEL
    ensures forall e :: e in Edges(s.list) ==> Next(s).poids <= e.poids
  {
    LightestIsLeast(Flat(s.list));
    FlatHas(s.list, Next(s));
    forall e | e in Edges(s.list) ensures Next(s).poids <= e.poids {
      FlatHas(s.list, e);
    }
  }

  /** One turn of the loop; a finished or rejecting state stays as it is. */
  ghost function Passe(n: nat, s: Etat): Etat {
    if Finished(n, s) || Rejected(s) then s
    else Etat(Minus(s.list, Next(s)), s.accepted + [Next(s)])
  }

  ghost function Passes(n: nat, s: Etat, k: nat): Etat {
    Iterate(t => Passe(n, t), s, k)
  }

  lemma PassesNext(n: nat, s: Etat, k: nat)
    ensures Passes(n, s, k + 1) == Passe(n, Passes(n, s, k))
  {
  }

  function Start(adj: Lists): Etat {
    Etat(adj, [])
  }

  // ---- the invariant ----

  ghost predicate Distinct(edges: seq<Arete>) {
    forall i, j :: 0 <= i < j < |edges| ==> edges[i] != edges[j]
  }

  ghost predicate Sorted(edges: seq<Arete>) {
    forall i, j :: 0 <= i < j < |edges| ==> edges[i].poids <= edges[j].poids
  }

  ghost predicate SharedAt(whole: Lists, rest: Lists, tree: Lists, i: nat)
    requires i < |whole| == |rest| == |tree|
  {
    multiset(whole[i]) == multiset(rest[i]) + multiset(tree[i])
  }

  /** At each vertex, remaining and accepted entries together are the input's. */
  ghost predicate Shared(whole: Lists, rest: Lists, tree: Lists) {
    && |whole| == |rest| == |tree|
    && forall i :: 0 <= i < |whole| ==> SharedAt(whole, rest, tree, i)
  }

  ghost predicate Lighter(edges: seq<Arete>, rest: set<Arete>) {
    forall e, f :: e in edges && f in rest ==> e.poids <= f.poids
  }

  /** Nothing is lost: every input entry is still listed or has been accepted. */
  ghost predicate Conserves(n: nat, adj: Lists, s: Etat) {
    Sound(n, s) && Shared(adj, s.list, Built(n, s.accepted))
  }

  /** The accepted edges are a forest, built by weight, that extends to a minimum one. */
  ghost predicate Greedy(adj: Lists, s: Etat) {
    && Distinct(s.accepted)
    && Acyclic(Taken(s.accepted))
    && Sorted(s.accepted)
    && Lighter(s.accepted, Edges(s.list))
    && Extendable(Edges(adj), Taken(s.accepted))
  }

  ghost predicate LoopHead(n: nat, adj: Lists, s: Etat) {
    Conserves(n, adj, s) && Greedy(adj, s)
  }

  lemma TakenLinks(edges: seq<Arete>)
    ensures Links(Taken(edges)) == LinkSet(PairsOf(edges))
  {
    forall l | l in Links(Taken(edges)) ensures l in LinkSet(PairsOf(edges)) {
      var e :| e in edges && LinkOf(e) == l;
      var i :| 0 <= i < |edges| && edges[i] == e;
      assert PairsOf(edges)[i] == l;
    }
    forall l | l in LinkSet(PairsOf(edges)) ensures l in Links(Taken(edges)) {
      var i :| 0 <= i < |edges| && PairsOf(edges)[i] == l;
      assert edges[i] in Taken(edges);
    }
  }

  lemma PairsMore(edges: seq<Arete>, a: Arete)
    ensures PairsOf(edges + [a]) == PairsOf(edges) + [(a.v, a.w)]
  {
  }

  lemma BuiltMore(n: nat, edges: seq<Arete>, a: Arete)
    requires AllInside(n, edges) && Inside(n, a)
    ensures Built(n, edges + [a]) == Plus(Built(n, edges), a)
  {
  }

  lemma PlusEntries(adj: Lists, a: Arete, i: nat, e: Arete)
    requires Inside(|adj|, a) && i < |adj|
    ensures e in Plus(adj, a)[i] <==> e in adj[i] || (e == a && (e.v == i || e.w == i))
  {
  }

  lemma {:induction false} BuiltEntries(n: nat, edges: seq<Arete>, i: nat, e: Arete)
    requires AllInside(n, edges) && i < n
    ensures e in Built(n, edges)[i] <==> e in edges && (e.v == i || e.w == i)
  {
    if edges != [] {
      var init, last := edges[..|edges| - 1], edges[|edges| - 1];
      assert edges == init + [last];
      BuiltEntries(n, init, i, e);
      PlusEntries(Built(n, init), last, i, e);
    }
  }

  lemma SameTouched(s: seq<Arete>, t: seq<Arete>, x: nat)
    requires forall e :: e in s ==> e in t
    requires TouchedBy(s, x)
    ensures TouchedBy(t, x)
  {
  }

  lemma BuiltHolds(n: nat, edges: seq<Arete>, e: Arete)
    requires AllInside(n, edges)
    ensures e in Flat(Built(n, edges)) <==> e in edges
  {
    var tree := Built(n, edges);
    FlatHas(tree, e);
    if e in edges {
      BuiltEntries(n, edges, e.v, e);
      assert e in tree[e.v];
    }
    if e in Edges(tree) {
      var i :| 0 <= i < n && e in tree[i];
      BuiltEntries(n, edges, i, e);
    }
  }

  /** The tree's lists cover the vertices its edges cover. */
  lemma BuiltCovers(n: nat, edges: seq<Arete>)
    requires AllInside(n, edges)
    ensures Covers(n, Flat(Built(n, edges))) <==> Covers(n, edges)
  {
    var flat := Flat(Built(n, edges));
    forall e ensures e in flat <==> e in edges { BuiltHolds(n, edges, e); }
    forall x | 0 <= x < n ensures TouchedBy(flat, x) <==> TouchedBy(edges, x) {
      if TouchedBy(flat, x) { SameTouched(flat, edges, x); }
      if TouchedBy(edges, x) { SameTouched(edges, flat, x); }
    }
  }

  lemma PlusCounts(adj: Lists, a: Arete, i: nat)
    requires Inside(|adj|, a) && a.v != a.w && i < |adj|
    ensures multiset(Plus(adj, a)[i]) == multiset(adj[i]) + if i == a.v || i == a.w then multiset{a} else multiset{}
  {
  }

  lemma EntryAtBothEnds(n: nat, adj: Lists, a: Arete)
    requires WellFormed(n, adj) && a in Edges(adj)
    ensures Inside(n, a) && a in multiset(adj[a.v]) && a in multiset(adj[a.w])
  {
    var i :| 0 <= i < n && a in adj[i];
    assert BalancedAt(adj, a);
    assert a in multiset(adj[i]);
  }

  lemma SharedAtStep(whole: Lists, rest: Lists, tree: Lists, a: Arete, x: nat)
    requires |whole| == |rest| == |tree| && Inside(|rest|, a) && a.v != a.w && x < |rest|
    requires a in multiset(rest[a.v]) && a in multiset(rest[a.w])
    requires SharedAt(whole, rest, tree, x)
    ensures SharedAt(whole, Minus(rest, a), Plus(tree, a), x)
  {
    MinusCounts(rest, a);
    PlusCounts(tree, a, x);
  }

  lemma SharedStep(n: nat, whole: Lists, rest: Lists, tree: Lists, a: Arete)
    requires WellFormed(n, rest) && Shared(whole, rest, tree)
    requires a in Edges(rest) && a.v != a.w && Inside(n, a)
    ensures Shared(whole, Minus(rest, a), Plus(tree, a))
  {
    EntryAtBothEnds(n, rest, a);
    forall x | 0 <= x < n ensures SharedAt(whole, Minus(rest, a), Plus(tree, a), x) {
      SharedAtStep(whole, rest, tree, a, x);
    }
  }

  /** An input edge is still listed, or has been accepted; and every listed edge is an input edge. */
  lemma ListedOrTaken(n: nat, adj: Lists, s: Etat, e: Arete)
    requires Sound(n, s) && Shared(adj, s.list, Built(n, s.accepted))
    ensures e in Edges(adj) <==> e in Edges(s.list) || e in s.accepted
  {
    forall i | 0 <= i < n
      ensures e in adj[i] <==> e in s.list[i] || (e in s.accepted && (e.v == i || e.w == i))
    {
      BuiltEntries(n, s.accepted, i, e);
      assert SharedAt(adj, s.list, Built(n, s.accepted), i);
      assert e in multiset(adj[i]) <==> e in adj[i];
      assert e in multiset(s.list[i]) <==> e in s.list[i];
    }
    if e in s.accepted { assert e in adj[e.v]; }
  }

  lemma {:induction false} BuiltWellFormed(n: nat, edges: seq<Arete>)
    requires 0 < n && AllInside(n, edges)
    ensures WellFormed(n, Built(n, edges))
  {
    if edges == [] {
      assert forall i :: 0 <= i < n ==> Built(n, [])[i] == [];
    } else {
      BuiltWellFormed(n, edges[..|edges| - 1]);
      PlusKeeps(n, Built(n, edges[..|edges| - 1]), edges[|edges| - 1]);
    }
  }

  lemma MinusShrinks(n: nat, adj: Lists, a: Arete)
    requires WellFormed(n, adj) && Inside(n, a)
    ensures Edges(Minus(adj, a)) <= Edges(adj)
  {
    var m := Minus(adj, a);
    forall f | f in Edges(m) ensures f in Edges(adj) {
      var i :| 0 <= i < n && f in m[i];
      MinusAt(adj, a, i, f);
      assert multiset(m[i])[f] > 0;
      assert f in adj[i];
    }
  }

  /** An accepted edge is listed, joins two distinct vertices and is new. */
  lemma AcceptedIsProper(n: nat, s: Etat)
    requires Sound(n, s) && !Rejected(s)
    ensures Next(s) in Edges(s.list) && Next(s).v != Next(s).w && Next(s) !in s.accepted
    ensures !Joined(Taken(s.accepted), Next(s).v, Next(s).w)
  {
    var a, T := Next(s), Taken(s.accepted);
    NextInside(n, s);
    TakenLinks(s.accepted);
    Reflexive(Links(T), a.v);
    if a in T { JoinedByOwnEdge(T, a); }
  }

  lemma AcceptExtends(n: nat, adj: Lists, s: Etat)
    requires LoopHead(n, adj, s) && !Rejected(s)
    ensures Extendable(Edges(adj), Taken(s.accepted) + {Next(s)})
  {
    var a, T := Next(s), Taken(s.accepted);
    AcceptedIsProper(n, s);
    var M :| MinimumSpanningForest(M, Edges(adj)) && T <= M;
    ListedOrTaken(n, adj, s, a);
    NextInside(n, s);
    forall e | e in Edges(adj) - T ensures a.poids <= e.poids {
      ListedOrTaken(n, adj, s, e);
    }
    var M' := GreedyStep(Edges(adj), T, M, a);
  }

  lemma OrderKept(accepted: seq<Arete>, a: Arete, before: set<Arete>, after: set<Arete>)
    requires Sorted(accepted) && Lighter(accepted, before) && after <= before
    requires forall e :: e in accepted ==> e.poids <= a.poids
    requires forall e :: e in before ==> a.poids <= e.poids
    ensures Sorted(accepted + [a]) && Lighter(accepted + [a], after)
  {
  }

  lemma AcceptConserves(n: nat, adj: Lists, s: Etat)
    requires Conserves(n, adj, s) && !Rejected(s)
    ensures Conserves(n, adj, Etat(Minus(s.list, Next(s)), s.accepted + [Next(s)]))
  {
    var a := Next(s);
    AcceptedIsProper(n, s);
    NextInside(n, s);
    MinusKeeps(n, s.list, a);
    BuiltMore(n, s.accepted, a);
    SharedStep(n, adj, s.list, Built(n, s.accepted), a);
  }

  lemma AcceptGreedy(n: nat, adj: Lists, s: Etat)
    requires LoopHead(n, adj, s) && !Rejected(s)
    ensures Greedy(adj, Etat(Minus(s.list, Next(s)), s.accepted + [Next(s)]))
  {
    var a := Next(s);
    AcceptedIsProper(n, s);
    NextInside(n, s);
    assert Taken(s.accepted + [a]) == Taken(s.accepted) + {a};
    AcyclicExtend(Taken(s.accepted), a);
    MinusShrinks(n, s.list, a);
    OrderKept(s.accepted, a, Edges(s.list), Edges(Minus(s.list, a)));
    AcceptExtends(n, adj, s);
  }

  lemma PasseKeeps(n: nat, adj: Lists, s: Etat)
    requires LoopHead(n, adj, s)
    ensures LoopHead(n, adj, Passe(n, s))
  {
    if !Finished(n, s) && !Rejected(s) {
      AcceptConserves(n, adj, s);
      AcceptGreedy(n, adj, s);
    }
  }

  lemma StartKeeps(n: nat, adj: Lists)
    requires WellFormed(n, adj)
    ensures LoopHead(n, adj, Start(adj))
  {
    var M := MinimumExists(Edges(adj));
    assert Taken([]) <= M;
    assert forall i :: 0 <= i < n ==> Built(n, [])[i] == [];
  }

  /** What kruskal promises at every head of its loop, for every input graph. */
  lemma EveryLoopHead(n: nat, adj: Lists, k: nat)
    requires WellFormed(n, adj)
    ensures LoopHead(n, adj, Passes(n, Start(adj), k))
  {
    StartKeeps(n, adj);
    forall t | LoopHead(n, adj, t) ensures LoopHead(n, adj, Passe(n, t)) {
      PasseKeeps(n, adj, t);
    }
    Keeps(t => Passe(n, t), t => LoopHead(n, adj, t), Start(adj), k);
  }
}
