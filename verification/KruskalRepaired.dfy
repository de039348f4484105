/**
  * NOT the source's loop: kruskal repaired so that a rejected edge leaves the list too,
  * and so that the loop ends when no listed edge is lighter than the sentinel.
  */
module KruskalRepaired {
  import opened Aretes
  import opened Forests
  import opened Graphes
  import opened GraphesPonderes
  import opened Kruskal

  /** The edges arete_poids_min can find. */
  ghost function Light(adj: Lists): set<Arete> {
    set e | e in Edges(adj) && e.poids < SENTINEL.poids
  }

  /** Each findable edge is still listed or already joined; the accepted ones extend to a minimum forest. */
  ghost predicate Progress(n: nat, adj: Lists, s: Etat) {
    && Sound(n, s)
    && Light(s.list) <= Light(adj)
    && Extendable(Light(adj), Taken(s.accepted))
    && forall e :: e in Light(adj) ==> e in Light(s.list) || Joined(Taken(s.accepted), e.v, e.w)
  }

  lemma {:induction false} LengthAt(adj: Lists, i: nat, s: seq<Arete>)
    requires i < |adj|
    ensures |Flat(adj[i := s])| == |Flat(adj)| - |adj[i]| + |s|
  {
    var k := |adj| - 1;
    if i < k {
      LengthAt(adj[..k], i, s);
      assert adj[i := s][..k] == adj[..k][i := s];
    } else {
      assert adj[i := s][..k] == adj[..k];
    }
  }

  lemma {:induction false} DropLength(s: seq<Arete>, a: Arete)
    ensures |Drop(s, a)| == if a in s then |s| - 1 else |s|
  {
    if s != [] && s[0] != a { DropLength(s[1..], a); }
  }

  /** Taking out a listed edge leaves fewer entries. */
  lemma Fewer(n: nat, list: Lists, a: Arete)
    requires WellFormed(n, list) && a in Edges(list)
    ensures |Flat(Minus(list, a))| < |Flat(list)|
  {
    EntryAtBothEnds(n, list, a);
    var once := list[a.v := Drop(list[a.v], a)];
    LengthAt(list, a.v, Drop(list[a.v], a));
    LengthAt(once, a.w, Drop(once[a.w], a));
    DropLength(list[a.v], a);
    DropLength(once[a.w], a);
  }

  lemma OthersStay(n: nat, list: Lists, a: Arete, e: Arete)
    requires WellFormed(n, list) && Inside(n, a) && e in Edges(list) && e != a
    ensures e in Edges(Minus(list, a))
  {
    var i :| 0 <= i < n && e in list[i];
    MinusAt(list, a, i, e);
    assert e in multiset(Minus(list, a)[i]);
    assert e in Minus(list, a)[i];
  }

  lemma StepProgress(n: nat, adj: Lists, s: Etat, accepted: seq<Arete>)
    requires WellFormed(n, adj) && Progress(n, adj, s) && Next(s).poids < SENTINEL.poids
    requires accepted == if Rejected(s) then s.accepted else s.accepted + [Next(s)]
    ensures Progress(n, adj, Etat(Minus(s.list, Next(s)), accepted))
  {
    var a, T, E := Next(s), Taken(s.accepted), Light(adj);
    var t := Etat(Minus(s.list, a), accepted);
    NextInside(n, s);
    TakenLinks(s.accepted);
    MinusKeeps(n, s.list, a);
    MinusShrinks(n, s.list, a);
    if !Rejected(s) {
      var M :| MinimumSpanningForest(M, E) && T <= M;
      var M' := GreedyStep(E, T, M, a);
      assert Taken(accepted) == T + {a};
      JoinedByOwnEdge(T + {a}, a);
    }
    forall e | e in E ensures e in Light(t.list) || Joined(Taken(accepted), e.v, e.w) {
      if e in Light(s.list) && e != a {
        OthersStay(n, s.list, a, e);
      } else if e != a {
        JoinedMonotone(T, Taken(accepted), e.v, e.w);
      }
    }
  }

  /** The repaired loop builds a minimum spanning forest of the findable edges of any graph. */
  method KruskalRepare(n: nat, adj: Lists) returns (G: GraphePondere, ghost accepted: seq<Arete>)
    requires WellFormed(n, adj)
    ensures G.Valid() && G.adjacence == Built(n, accepted)
    ensures MinimumSpanningForest(Taken(accepted), Light(adj))
  {
    var P;
    G, P := GraphePondere.Vides(n);
    accepted := [];
    var list := adj;
    var M := MinimumExists(Light(adj));
    assert Taken([]) <= M;
    var a := GraphePondere.AretePoidsMin(list);
    while a.poids < SENTINEL.poids
      invariant fresh(G) && fresh(P) && fresh(P.parent) && GraphePondere.Mirrors(n, G, P, accepted)
      invariant Progress(n, adj, Etat(list, accepted)) && a == Next(Etat(list, accepted))
      decreases |Flat(list)|
    {
      ghost var s := Etat(list, accepted);
      NextInside(n, s);
      Fewer(n, list, a);
      StepProgress(n, adj, s, if Rejected(s) then accepted else accepted + [a]);
      var connectes := P.SontConnectes(a.v, a.w);
      if !connectes.value {
        GraphePondere.Accepte(n, G, P, a, accepted);
        accepted := accepted + [a];
      }
      list := GraphePondere.SuppressionArete(list, a);
      a := GraphePondere.AretePoidsMin(list);
    }
    NextInside(n, Etat(list, accepted));
    SpanningIsMinimum(Light(adj), Taken(accepted));
  }
}
