/** Spanning forests of a finite set of weighted edges, and the exchange argument. */
module Forests {
  import opened Connectivity
  import opened Aretes

  ghost predicate Joined(F: set<Arete>, a: nat, b: nat) {
    Connected(Links(F), a, b)
  }

  /** No edge closes a cycle: without it, its ends are apart. */
  ghost predicate Acyclic(F: set<Arete>) {
    forall e :: e in F ==> !Joined(F - {e}, e.v, e.w)
  }

  ghost predicate Spans(F: set<Arete>, E: set<Arete>) {
    F <= E && forall e :: e in E ==> Joined(F, e.v, e.w)
  }

  ghost predicate SpanningForest(F: set<Arete>, E: set<Arete>) {
    Acyclic(F) && Spans(F, E)
  }

  ghost function Weight(F: set<Arete>): real {
    if F == {} then 0.0 else var e :| e in F; e.poids + Weight(F - {e})
  }

  ghost predicate MinimumSpanningForest(F: set<Arete>, E: set<Arete>) {
    && SpanningForest(F, E)
    && forall G :: SpanningForest(G, E) ==> Weight(F) <= Weight(G)
  }

  // ---- weights ----

  lemma {:induction false} WeightWithout(F: set<Arete>, e: Arete)
    requires e in F
    ensures Weight(F) == e.poids + Weight(F - {e})
  {
    var d :| d in F && Weight(F) == d.poids + Weight(F - {d});
    if d != e {
      WeightWithout(F - {d}, e);
      WeightWithout(F - {e}, d);
      assert F - {d} - {e} == F - {e} - {d};
    }
  }

  // ---- joining ----

  lemma JoinedMonotone(F: set<Arete>, G: set<Arete>, a: nat, b: nat)
    requires F <= G && Joined(F, a, b)
    ensures Joined(G, a, b)
  {
    Monotone(Links(F), Links(G), a, b);
  }

  lemma JoinedByOwnEdge(F: set<Arete>, e: Arete)
    requires e in F
    ensures Joined(F, e.v, e.w) && Joined(F, e.w, e.v)
  {
    assert LinkOf(e) in Links(F);
    Direct(Links(F), e.v, e.w);
    Direct(Links(F), e.w, e.v);
  }

  /** If F joins the ends of every edge of E, it joins whatever E joins. */
  lemma JoinedAbsorb(E: set<Arete>, F: set<Arete>, a: nat, b: nat)
    requires forall e :: e in E ==> Joined(F, e.v, e.w)
    requires Joined(E, a, b)
    ensures Joined(F, a, b)
  {
    forall l | l in Links(E) ensures Connected(Links(F), l.0, l.1) {
      var e :| e in E && LinkOf(e) == l;
      assert Joined(F, e.v, e.w);
    }
    AbsorbAll(Links(E), Links(F), a, b);
  }

  lemma OneMoreEdge(F: set<Arete>, e: Arete, a: nat, b: nat)
    ensures Joined(F + {e}, a, b) <==> Through(Links(F), e.v, e.w, a, b)
  {
    assert Links(F + {e}) == Links(F) + {(e.v, e.w)};
    OneMoreLink(Links(F), e.v, e.w, a, b);
  }

  // ---- acyclic sets ----

  lemma AcyclicSubset(F: set<Arete>, G: set<Arete>)
    requires F <= G && Acyclic(G)
    ensures Acyclic(F)
  {
    forall e | e in F ensures !Joined(F - {e}, e.v, e.w) {
      if Joined(F - {e}, e.v, e.w) {
        JoinedMonotone(F - {e}, G - {e}, e.v, e.w);
      }
    }
  }

  /** An edge between two separate trees closes no cycle, and only such an edge. */
  lemma AcyclicExtend(F: set<Arete>, a: Arete)
    requires Acyclic(F) && a !in F
    ensures Acyclic(F + {a}) <==> !Joined(F, a.v, a.w)
  {
    var G := F + {a};
    assert G - {a} == F;
    if !Joined(F, a.v, a.w) {
      forall e | e in G ensures !Joined(G - {e}, e.v, e.w) {
        if e in F && Joined(G - {e}, e.v, e.w) {
          ClosingEdge(F, a, e);
          assert false;
        }
      }
    }
  }

  lemma ClosingEdge(F: set<Arete>, a: Arete, e: Arete)
    requires e in F && a !in F && !Joined(F - {e}, e.v, e.w)
    requires Joined(F + {a} - {e}, e.v, e.w)
    ensures Joined(F, a.v, a.w)
  {
    var H := F - {e};
    assert F + {a} - {e} == H + {a};
    OneMoreEdge(H, a, e.v, e.w);
    JoinedByOwnEdge(F, e);
    var L := Links(F);
    if Joined(H, e.v, a.v) && Joined(H, a.w, e.w) {
      JoinedMonotone(H, F, e.v, a.v); JoinedMonotone(H, F, a.w, e.w);
      Symmetric(L, e.v, a.v); Symmetric(L, a.w, e.w);
      Transitive(L, a.v, e.v, e.w); Transitive(L, a.v, e.w, a.w);
    } else {
      JoinedMonotone(H, F, e.v, a.w); JoinedMonotone(H, F, a.v, e.w);
      Symmetric(L, e.v, a.w);
      Transitive(L, a.v, e.w, e.v); Transitive(L, a.v, e.v, a.w);
    }
  }

  // ---- the exchange ----

  /** Dropping from N the edges outside T one by one, some edge f is the one that parts a and b. */
  lemma {:induction false} PartingEdge(T: set<Arete>, N: set<Arete>, a: nat, b: nat)
    returns (f: Arete, K: set<Arete>)
    requires T <= N && Joined(N, a, b) && !Joined(T, a, b)
    ensures f in K && f !in T && T <= K <= N
    ensures Joined(K, a, b) && !Joined(K - {f}, a, b)
    decreases N
  {
    assert N <= T ==> N == T;
    f :| f in N && f !in T;
    if Joined(N - {f}, a, b) {
      f, K := PartingEdge(T, N - {f}, a, b);
    } else {
      K := N;
    }
  }

  /** In an acyclic M, an edge that parts a and b in a subset parts them in M. */
  lemma PartsEverywhere(M: set<Arete>, K: set<Arete>, f: Arete, a: nat, b: nat)
    requires Acyclic(M) && K <= M && f in K
    requires Joined(K, a, b) && !Joined(K - {f}, a, b)
    ensures !Joined(M - {f}, a, b)
  {
    var H := K - {f};
    var R := M - {f};
    var L := Links(R);
    if Joined(R, a, b) {
      assert K == H + {f};
      OneMoreEdge(H, f, a, b);
      if Joined(H, a, f.v) && Joined(H, f.w, b) {
        JoinedMonotone(H, R, a, f.v); JoinedMonotone(H, R, f.w, b);
        Symmetric(L, a, f.v); Symmetric(L, f.w, b);
        Transitive(L, f.v, a, b); Transitive(L, f.v, b, f.w);
      } else {
        JoinedMonotone(H, R, a, f.w); JoinedMonotone(H, R, f.v, b);
        Symmetric(L, a, b);
        Transitive(L, f.v, b, a); Transitive(L, f.v, a, f.w);
      }
      assert false;
    }
  }

  /** Replacing f by an edge a that f parts keeps a spanning forest. */
  lemma Exchange(E: set<Arete>, M: set<Arete>, f: Arete, a: Arete)
    requires SpanningForest(M, E) && f in M && a in E && a !in M
    requires !Joined(M - {f}, a.v, a.w)
    ensures SpanningForest(M - {f} + {a}, E)
    ensures Weight(M - {f} + {a}) == Weight(M) - f.poids + a.poids
  {
    var R := M - {f};
    var N := R + {a};
    AcyclicSubset(R, M);
    AcyclicExtend(R, a);
    assert M == R + {f};
    assert N - {a} == R;
    WeightWithout(M, f);
    WeightWithout(N, a);
    // f's ends are joined in N, around a
    OneMoreEdge(R, f, a.v, a.w);
    assert Joined(M, a.v, a.w);
    var L := Links(R);
    if Connected(L, a.v, f.v) && Connected(L, f.w, a.w) {
      Symmetric(L, a.v, f.v); Symmetric(L, f.w, a.w);
      Symmetric(L, a.w, f.w);
    } else {
      Symmetric(L, a.v, f.w);
      Symmetric(L, f.v, a.w); Symmetric(L, f.w, a.v);
    }
    OneMoreEdge(R, a, f.v, f.w);
    assert Joined(N, f.v, f.w);
    forall e | e in M ensures Joined(N, e.v, e.w) {
      if e != f { JoinedByOwnEdge(N, e); }
    }
    forall e | e in E ensures Joined(N, e.v, e.w) {
      JoinedAbsorb(M, N, e.v, e.w);
    }
  }

  /** The greedy step: a lightest of the edges between trees of T extends some minimum spanning forest. */
  lemma GreedyStep(E: set<Arete>, T: set<Arete>, M: set<Arete>, a: Arete) returns (M': set<Arete>)
    requires MinimumSpanningForest(M, E) && T <= M
    requires a in E && !Joined(T, a.v, a.w)
    requires forall e :: e in E - T && !Joined(T, e.v, e.w) ==> a.poids <= e.poids
    ensures MinimumSpanningForest(M', E) && T + {a} <= M'
  {
    if a in M {
      M' := M;
    } else {
      assert Joined(M, a.v, a.w);
      var f, K := PartingEdge(T, M, a.v, a.w);
      PartsEverywhere(M, K, f, a.v, a.w);
      Exchange(E, M, f, a);
      if Joined(T, f.v, f.w) { JoinedMonotone(T, M - {f}, f.v, f.w); }
      M' := M - {f} + {a};
    }
  }

  // ---- part of a minimum spanning forest ----

  /** The edges of T belong to some minimum spanning forest of E. */
  ghost predicate Extendable(E: set<Arete>, T: set<Arete>) {
    exists M :: MinimumSpanningForest(M, E) && T <= M
  }

  /** If such edges span, they are themselves a minimum spanning forest. */
  lemma SpanningIsMinimum(E: set<Arete>, T: set<Arete>)
    requires Extendable(E, T) && Spans(T, E)
    ensures MinimumSpanningForest(T, E)
  {
    var M :| MinimumSpanningForest(M, E) && T <= M;
    forall e | e in M ensures e in T {
      if e !in T {
        assert Joined(T, e.v, e.w);
        JoinedMonotone(T, M - {e}, e.v, e.w);
      }
    }
    assert T == M;
  }

  // ---- existence ----

  lemma {:induction false} SpanningForestExists(E: set<Arete>) returns (F: set<Arete>)
    ensures SpanningForest(F, E)
  {
    if E == {} {
      F := {};
    } else {
      var a :| a in E;
      var G := SpanningForestExists(E - {a});
      if Joined(G, a.v, a.w) {
        F := G;
      } else {
        F := G + {a};
        AcyclicExtend(G, a);
        JoinedByOwnEdge(F, a);
      }
      forall e | e in E ensures Joined(F, e.v, e.w) {
        if e != a { JoinedMonotone(G, F, e.v, e.w); }
      }
    }
  }

  /** Among the candidate sets of S, one has least weight. */
  lemma {:induction false} LightestOf(S: set<set<Arete>>) returns (m: set<Arete>)
    requires S != {}
    ensures m in S && forall G :: G in S ==> Weight(m) <= Weight(G)
  {
    var s :| s in S;
    if S == {s} {
      m := s;
    } else {
      var r := LightestOf(S - {s});
      m := if Weight(s) <= Weight(r) then s else r;
      forall G | G in S ensures Weight(m) <= Weight(G) {
        if G != s { assert G in S - {s}; }
      }
    }
  }

  lemma MinimumExists(E: set<Arete>) returns (M: set<Arete>)
    ensures MinimumSpanningForest(M, E)
  {
    var F := SpanningForestExists(E);
    var S := set G | G <= E && SpanningForest(G, E);
    assert F in S;
    M := LightestOf(S);
    forall G | SpanningForest(G, E) ensures Weight(M) <= Weight(G) {
      assert G in S;
    }
  }
}
