/** RO/APNEE2/GraphePondere.java: the graph object and its methods. */
module GraphesPonderes {
  import opened Aretes
  import opened Graphes
  import opened K = Kruskal
  import opened Outcomes
  import opened Partitions

  class GraphePondere {
    const n: nat
    var m: nat
    var adjacence: Lists

    ghost predicate Valid()
      reads this
    {
      WellFormed(n, adjacence)
    }

    constructor (n: nat)
      requires 0 < n
      ensures Valid() && this.n == n && m == 0 && adjacence == Built(n, [])
    {
      this.n := n;
      m := 0;
      adjacence := seq(n, i => []);
    }

    /** The constructor as its callers see it: a size below 1 throws. */
    static method Creer(n: int) returns (r: Outcome<GraphePondere>)
      ensures r == IllegalArgument || r.Ok?
      ensures r.Ok? <==> 1 <= n
      ensures r.Ok? ==> fresh(r.value) && r.value.Valid() && r.value.n == n && r.value.m == 0 && r.value.adjacence == Built(n, [])
    {
      if n < 1 { return IllegalArgument; }
      var g := new GraphePondere(n);
      return Ok(g);
    }

    /** Lists e at both its ends, twice at the same vertex when it is a loop. */
    method AjouteArete(e: Arete) returns (r: Outcome<()>)
      requires Valid()
      modifies this`m, this`adjacence
      ensures Valid()
      ensures r == if Inside(n, e) then Ok(()) else IllegalArgument
      ensures r.Ok? ==> adjacence == Plus(old(adjacence), e) && m == old(m) + 1
      ensures r.Ok? ==> Listed(old(adjacence), e, adjacence)
      ensures !r.Ok? ==> adjacence == old(adjacence) && m == old(m)
    {
      if e.v >= n || e.w >= n { return IllegalArgument; }
      PlusKeeps(n, adjacence, e);
      adjacence := adjacence[e.v := adjacence[e.v] + [e]];
      adjacence := adjacence[e.w := adjacence[e.w] + [e]];
      m := m + 1;
      return Ok(());
    }

    /** The first listed edge of least weight, or the sentinel when none is lighter than it. */
    static method AretePoidsMin(list: Lists) returns (min: Arete)
      ensures Found(list, min) && min == Lightest(Flat(list))
    {
      min := SENTINEL;
      assert list[..0] == [];
      for i := 0 to |list|
        invariant min == Lightest(Flat(list[..i]))
      {
        ghost var before := Flat(list[..i]);
        assert before + list[i][..0] == before;
        for j := 0 to |list[i]|
          invariant min == Lightest(before + list[i][..j])
        {
          assert (before + list[i][..j + 1])[..|before| + j] == before + list[i][..j];
          if list[i][j].poids < min.poids {
            min := list[i][j];
          }
        }
        assert list[i][..|list[i]|] == list[i];
        assert list[..i + 1][..i] == list[..i];
      }
      assert list[..|list|] == list;
      LightestIsFound(list);
    }

    /** Takes one entry of a out of the list of each of its ends. */
    static method SuppressionArete(list: Lists, a: Arete) returns (renvoi: Lists)
      requires Inside(|list|, a)
      ensures renvoi == Minus(list, a)
      ensures Unlisted(list, a, renvoi)
    {
      renvoi := list;
      var i := 0;
      while i < |renvoi[a.v]| && a != renvoi[a.v][i]
        invariant i <= |renvoi[a.v]| && a !in renvoi[a.v][..i]
      {
        i := i + 1;
      }
      DropAt(renvoi[a.v], a, i);
      if i < |renvoi[a.v]| {
        renvoi := renvoi[a.v := renvoi[a.v][..i] + renvoi[a.v][i + 1..]];
      }
      assert renvoi == list[a.v := Drop(list[a.v], a)];
      i := 0;
      while i < |renvoi[a.w]| && a != renvoi[a.w][i]
        invariant i <= |renvoi[a.w]| && a !in renvoi[a.w][..i]
      {
        i := i + 1;
      }
      DropAt(renvoi[a.w], a, i);
      if i < |renvoi[a.w]| {
        renvoi := renvoi[a.w := renvoi[a.w][..i] + renvoi[a.w][i + 1..]];
      }
    }

    /** Whether every vertex is an end of some edge: less than connected. */
    method SommetCouvert() returns (couvert: bool)
      requires Valid()
      ensures couvert <==> Covers(n, Flat(adjacence))
    {
      var tab := new bool[n](i => false);
      assert adjacence[..0] == [];
      for i := 0 to n
        invariant forall x :: 0 <= x < n ==> (tab[x] <==> TouchedBy(Flat(adjacence[..i]), x))
      {
        ghost var before := Flat(adjacence[..i]);
        assert before + adjacence[i][..0] == before;
        for j := 0 to |adjacence[i]|
          invariant forall x :: 0 <= x < n ==> (tab[x] <==> TouchedBy(before + adjacence[i][..j], x))
        {
          var a := adjacence[i][j];
          assert a in adjacence[i];
          ghost var seen := before + adjacence[i][..j];
          assert before + adjacence[i][..j + 1] == seen + [a];
          forall x | 0 <= x < n
            ensures TouchedBy(seen + [a], x) <==> TouchedBy(seen, x) || a.v == x || a.w == x
          {
            assert forall e :: e in seen + [a] <==> e in seen || e == a;
          }
          tab[a.v] := true;
          tab[a.w] := true;
        }
        assert adjacence[i][..|adjacence[i]|] == adjacence[i];
        assert adjacence[..i + 1][..i] == adjacence[..i];
      }
      assert adjacence[..n] == adjacence;
      for i := 0 to n
        invariant forall x :: 0 <= x < i ==> TouchedBy(Flat(adjacence), x)
      {
        if !tab[i] { return false; }
      }
      return true;
    }

    /** G holds the given edges, added in order to an empty graph. */
    static ghost predicate Holds(n: nat, G: GraphePondere, edges: seq<Arete>)
      reads G
    {
      && AllInside(n, edges)
      && G.Valid() && G.n == n && G.adjacence == Built(n, edges) && G.m == |edges|
    }

    /** P unites the ends of the given edges. */
    static ghost predicate Unites(n: nat, P: Partition, edges: seq<Arete>)
      reads P, P.parent
    {
      P.Valid() && P.parent.Length == n && P.unions == PairsOf(edges)
    }

    static ghost predicate Mirrors(n: nat, G: GraphePondere, P: Partition, accepted: seq<Arete>)
      reads G, P, P.parent
    {
      Holds(n, G, accepted) && Unites(n, P, accepted)
    }

    static method Vides(n: nat) returns (G: GraphePondere, P: Partition)
      requires 0 < n
      ensures fresh(G) && fresh(P) && fresh(P.parent) && Mirrors(n, G, P, [])
    {
      G := new GraphePondere(n);
      P := new Partition(n);
      assert PairsOf([]) == [];
    }

    /** The test at the head of the loop. */
    static method Fini(n: nat, G: GraphePondere, ghost accepted: seq<Arete>) returns (fini: bool)
      requires Holds(n, G, accepted)
      ensures fini <==> Covers(n, accepted)
    {
      fini := G.SommetCouvert();
      BuiltCovers(n, accepted);
    }

    /** Adds a to the tree and unites its ends. */
    static method Accepte(n: nat, G: GraphePondere, P: Partition, a: Arete, ghost accepted: seq<Arete>)
      requires Mirrors(n, G, P, accepted) && Inside(n, a)
      modifies G, P, P.parent
      ensures Mirrors(n, G, P, accepted + [a]) && P.parent == old(P.parent)
    {
      BuiltMore(n, accepted, a);
      PairsMore(accepted, a);
      var _ := G.AjouteArete(a);
      var _ := P.Unir(a.v, a.w);
    }

    /** The edge that comes up next. */
    method Suivante(ghost accepted: seq<Arete>) returns (a: Arete)
      requires Valid() && AllInside(n, accepted)
      ensures a == Next(Etat(adjacence, accepted)) && Inside(n, a)
    {
      NextInside(n, Etat(adjacence, accepted));
      a := AretePoidsMin(adjacence);
    }

    method Retirer(a: Arete)
      requires Valid() && Inside(n, a)
      modifies this`adjacence
      ensures Valid() && adjacence == Minus(old(adjacence), a)
    {
      MinusKeeps(n, adjacence, a);
      adjacence := SuppressionArete(adjacence, a);
    }

    /** The body of the loop. */
    method Passe(G: GraphePondere, P: Partition, ghost accepted: seq<Arete>) returns (ghost accepted': seq<Arete>)
      requires Valid() && Mirrors(n, G, P, accepted) && G != this && !Covers(n, accepted)
      modifies this`adjacence, G, P, P.parent
      ensures Valid() && Mirrors(n, G, P, accepted') && P.parent == old(P.parent)
      ensures Etat(adjacence, accepted') == K.Passe(n, Etat(old(adjacence), accepted))
    {
      accepted' := accepted;
      var a := Suivante(accepted);
      var connectes := P.SontConnectes(a.v, a.w);
      if !connectes.value {
        Accepte(n, G, P, a, accepted);
        Retirer(a);
        accepted' := accepted + [a];
      }
    }

    /**
      * The loop of kruskal, stopped after the given number of passes if it has not exited.
      * The accepted edges leave this graph, whose m is not adjusted.
      */
    method Kruskal(passes: nat) returns (G: GraphePondere, P: Partition, ghost accepted: seq<Arete>, fini: bool)
      requires Valid()
      modifies this`adjacence
      ensures Valid() && fresh(G) && fresh(P) && Mirrors(n, G, P, accepted)
      ensures Etat(adjacence, accepted) == Passes(n, Start(old(adjacence)), passes)
      ensures fini <==> Covers(n, accepted)
    {
      ghost var start := Start(adjacence);
      G, P := Vides(n);
      accepted := [];
      fini := Fini(n, G, accepted);
      for k := 0 to passes
        invariant Valid() && fresh(G) && fresh(P) && fresh(P.parent) && Mirrors(n, G, P, accepted)
        invariant Etat(adjacence, accepted) == Passes(n, start, k)
        invariant fini <==> Covers(n, accepted)
      {
        PassesNext(n, start, k);
        if !fini {
          accepted := Passe(G, P, accepted);
          fini := Fini(n, G, accepted);
        }
      }
    }
  }
}
