/** What estCouplage of Algo6/APNEE4/Graphe.java decides: degrees, the handshake count, perfect matchings. */
module Couplages {
  import opened ArcGraphes
  import opened Indicatrices

  /** The ends of an arc: the vertex whose list holds it, and its destination. */
  type Paire = (int, int)

  function PairesDe(i: int, arcs: seq<Arc>): (r: seq<Paire>)
    ensures |r| == |arcs|
  {
    seq(|arcs|, k requires 0 <= k < |arcs| => (i, arcs[k].destination))
  }

  function Paires(g: Listes): seq<Paire> {
    if g == [] then [] else Paires(g[..|g| - 1]) + PairesDe(|g| - 1, g[|g| - 1])
  }

  predicate Bornees(n: nat, ps: seq<Paire>) {
    forall k :: 0 <= k < |ps| ==> 0 <= ps[k].0 < n && 0 <= ps[k].1 < n
  }

  predicate Incident(p: Paire, v: int) { p.0 == v || p.1 == v }

  /** A loop counts twice. */
  function Degre(ps: seq<Paire>, v: int): nat {
    if ps == [] then 0 else Degre(ps[..|ps| - 1], v) + Un(ps[|ps| - 1].0 == v) + Un(ps[|ps| - 1].1 == v)
  }

  lemma DegrePlus(ps: seq<Paire>, p: Paire, v: int)
    ensures Degre(ps + [p], v) == Degre(ps, v) + Un(p.0 == v) + Un(p.1 == v)
  {
  }

  function SommeDegres(ps: seq<Paire>, n: nat): nat {
    if n == 0 then 0 else SommeDegres(ps, n - 1) + Degre(ps, n - 1)
  }

  // ---- the handshake ----

  lemma {:induction false} SommePlus(ps: seq<Paire>, p: Paire, n: nat)
    requires 0 <= p.0 && 0 <= p.1
    ensures SommeDegres(ps + [p], n) == SommeDegres(ps, n) + Un(p.0 < n) + Un(p.1 < n)
  {
    if n > 0 {
      SommePlus(ps, p, n - 1);
      DegrePlus(ps, p, n - 1);
    }
  }

  lemma {:induction false} SommeVide(n: nat)
    ensures SommeDegres([], n) == 0
  {
    if n > 0 { SommeVide(n - 1); }
  }

  /** The degrees sum to twice the number of arcs. */
  lemma {:induction false} PoigneesDeMain(ps: seq<Paire>, n: nat)
    requires Bornees(n, ps)
    ensures SommeDegres(ps, n) == 2 * |ps|
    decreases |ps|
  {
    if ps == [] {
      SommeVide(n);
    } else {
      var init, last := ps[..|ps| - 1], ps[|ps| - 1];
      PoigneesDeMain(init, n);
      SommePlus(init, last, n);
      assert init + [last] == ps;
    }
  }

  predicate Plafonnes(ps: seq<Paire>, n: nat) {
    forall v :: 0 <= v < n ==> Degre(ps, v) <= 1
  }

  predicate TousUn(ps: seq<Paire>, n: nat) {
    forall v :: 0 <= v < n ==> Degre(ps, v) == 1
  }

  /** Degrees of at most 1 that sum to n are all 1, and conversely. */
  lemma {:induction false} Tiroirs(ps: seq<Paire>, n: nat)
    requires Plafonnes(ps, n)
    ensures SommeDegres(ps, n) <= n
    ensures SommeDegres(ps, n) == n <==> TousUn(ps, n)
  {
    if n > 0 {
      Tiroirs(ps, n - 1);
      assert Degre(ps, n - 1) <= 1;
      assert TousUn(ps, n) <==> TousUn(ps, n - 1) && Degre(ps, n - 1) == 1;
    }
  }

  // ---- matchings ----

  /** Arc k is the only one with v as an end. */
  ghost predicate SeulArc(ps: seq<Paire>, v: int, k: int) {
    && 0 <= k < |ps| && Incident(ps[k], v)
    && forall l :: 0 <= l < |ps| && Incident(ps[l], v) ==> l == k
  }

  ghost predicate Couvert(ps: seq<Paire>, v: int) {
    exists k :: SeulArc(ps, v, k)
  }

  ghost predicate CouvertSansBoucle(ps: seq<Paire>, v: int) {
    exists k :: SeulArc(ps, v, k) && ps[k].0 != ps[k].1
  }

  /** Every vertex is an end of exactly one arc, and no arc is a loop. */
  ghost predicate CouplageParfait(n: nat, ps: seq<Paire>) {
    && (forall v :: 0 <= v < n ==> Couvert(ps, v))
    && forall k :: 0 <= k < |ps| ==> ps[k].0 != ps[k].1
  }

  lemma {:induction false} DegreNul(ps: seq<Paire>, v: int)
    ensures Degre(ps, v) == 0 <==> forall k :: 0 <= k < |ps| ==> !Incident(ps[k], v)
    decreases |ps|
  {
    if ps != [] {
      var init := ps[..|ps| - 1];
      DegreNul(init, v);
      assert forall k :: 0 <= k < |init| ==> init[k] == ps[k];
    }
  }

  lemma {:induction false} DegreUn(ps: seq<Paire>, v: int)
    ensures Degre(ps, v) == 1 <==> CouvertSansBoucle(ps, v)
    decreases |ps|
  {
    if ps != [] {
      var init, last := ps[..|ps| - 1], ps[|ps| - 1];
      assert forall k :: 0 <= k < |init| ==> init[k] == ps[k];
      DegreUn(init, v);
      DegreNul(init, v);
      if Incident(last, v) {
        assert forall k :: SeulArc(ps, v, k) ==> k == |ps| - 1;
        if Degre(ps, v) == 1 { assert SeulArc(ps, v, |ps| - 1); }
      } else {
        forall k ensures SeulArc(ps, v, k) <==> SeulArc(init, v, k) {}
      }
    }
  }

  /** Maximum degree at most 1 with n = 2m is exactly a perfect matching. */
  lemma CouplageSsi(n: nat, ps: seq<Paire>)
    requires Bornees(n, ps)
    ensures Plafonnes(ps, n) && n == 2 * |ps| <==> CouplageParfait(n, ps)
  {
    PoigneesDeMain(ps, n);
    forall v: int ensures Degre(ps, v) == 1 <==> CouvertSansBoucle(ps, v) { DegreUn(ps, v); }
    if Plafonnes(ps, n) && n == 2 * |ps| {
      Tiroirs(ps, n);
      forall v | 0 <= v < n ensures Couvert(ps, v) {
        assert CouvertSansBoucle(ps, v);
      }
      forall k | 0 <= k < |ps| ensures ps[k].0 != ps[k].1 {
        assert CouvertSansBoucle(ps, ps[k].0);
        var l :| SeulArc(ps, ps[k].0, l) && ps[l].0 != ps[l].1;
        assert Incident(ps[k], ps[k].0);
      }
    }
    if CouplageParfait(n, ps) {
      forall v | 0 <= v < n ensures Degre(ps, v) == 1 {
        assert Couvert(ps, v);
      }
      Tiroirs(ps, n);
    }
  }

  lemma {:induction false} PairesLength(g: Listes, m: nat)
    requires m < |g|
    ensures g[..m + 1][..m] == g[..m]
    ensures Paires(g[..m + 1]) == Paires(g[..m]) + PairesDe(m, g[m])
  {
  }

  /** d holds the degrees, and at i some arcs more: those whose destinations are still to be counted. */
  ghost predicate Compte(d: seq<int>, ps: seq<Paire>, i: int, reste: int) {
    forall v :: 0 <= v < |d| ==> d[v] == Degre(ps, v) + if v == i then reste else 0
  }

  lemma CompteArc(d: seq<int>, ps: seq<Paire>, i: int, reste: int, p: Paire)
    requires Compte(d, ps, i, reste) && p.0 == i && 0 <= p.1 < |d|
    ensures Compte(d[p.1 := d[p.1] + 1], ps + [p], i, reste - 1)
  {
    forall v | 0 <= v < |d| ensures Degre(ps + [p], v) == Degre(ps, v) + Un(i == v) + Un(p.1 == v) { DegrePlus(ps, p, v); }
  }

  predicate ListeBornee(n: nat, arcs: seq<Arc>) {
    forall k :: 0 <= k < |arcs| ==> 0 <= arcs[k].destination < n
  }

  /** Every arc's destination is a vertex. */
  predicate DestinationsBornees(g: Listes) {
    forall i :: 0 <= i < |g| ==> ListeBornee(|g|, g[i])
  }

  lemma {:induction false} PairesBornees(g: Listes, m: nat)
    requires m <= |g| && DestinationsBornees(g)
    ensures Bornees(|g|, Paires(g[..m]))
  {
    if m > 0 {
      PairesLength(g, m - 1);
      PairesBornees(g, m - 1);
    }
  }

  // ---- the same on the lists themselves ----

  /** Where the arcs that arrive at v stand: list and place. */
  function Arrivees(g: Listes, v: int): set<(int, int)> {
    set i, k | 0 <= i < |g| && 0 <= k < |g[i]| && g[i][k].destination == v :: (i, k)
  }

  /** The arcs in the list of v and the arcs that arrive at v; a loop is among both. */
  function DegreArcs(g: Listes, v: nat): nat
    requires v < |g|
  {
    |g[v]| + |Arrivees(g, v)|
  }

  function ArriveesDe(i: int, arcs: seq<Arc>, v: int): set<(int, int)> {
    set k | 0 <= k < |arcs| && arcs[k].destination == v :: (i, k)
  }

  lemma {:induction false} DegreConcat(a: seq<Paire>, b: seq<Paire>, v: int)
    ensures Degre(a + b, v) == Degre(a, v) + Degre(b, v)
    decreases |b|
  {
    if b == [] {
      assert a + b == a;
    } else {
      assert (a + b)[..|a + b| - 1] == a + b[..|b| - 1];
      DegreConcat(a, b[..|b| - 1], v);
    }
  }

  lemma ArriveesDePlus(i: int, init: seq<Arc>, arc: Arc, v: int)
    ensures |ArriveesDe(i, init + [arc], v)| == |ArriveesDe(i, init, v)| + Un(arc.destination == v)
  {
    var p := (i, |init|);
    assert ArriveesDe(i, init + [arc], v) == ArriveesDe(i, init, v) + if arc.destination == v then {p} else {};
    assert p !in ArriveesDe(i, init, v);
  }

  lemma PairesDePlus(i: int, init: seq<Arc>, arc: Arc)
    ensures PairesDe(i, init + [arc]) == PairesDe(i, init) + [(i, arc.destination)]
  {
  }

  lemma {:induction false} DegreListe(i: int, arcs: seq<Arc>, v: int)
    ensures Degre(PairesDe(i, arcs), v) == (if i == v then |arcs| else 0) + |ArriveesDe(i, arcs, v)|
    decreases |arcs|
  {
    if arcs == [] {
      assert ArriveesDe(i, arcs, v) == {};
    } else {
      var init, arc := arcs[..|arcs| - 1], arcs[|arcs| - 1];
      assert arcs == init + [arc];
      DegreListe(i, init, v);
      PairesDePlus(i, init, arc);
      DegrePlus(PairesDe(i, init), (i, arc.destination), v);
      ArriveesDePlus(i, init, arc, v);
    }
  }

  lemma ArriveesPlus(g: Listes, m: nat, v: int)
    requires m < |g|
    ensures |Arrivees(g[..m + 1], v)| == |Arrivees(g[..m], v)| + |ArriveesDe(m, g[m], v)|
  {
    assert Arrivees(g[..m + 1], v) == Arrivees(g[..m], v) + ArriveesDe(m, g[m], v);
    assert Arrivees(g[..m], v) !! ArriveesDe(m, g[m], v);
  }

  lemma {:induction false} DegrePrefixe(g: Listes, m: nat, v: nat)
    requires m <= |g| && v < |g|
    ensures Degre(Paires(g[..m]), v) == (if v < m then |g[v]| else 0) + |Arrivees(g[..m], v)|
  {
    if m == 0 {
      assert Arrivees(g[..0], v) == {};
    } else {
      DegrePrefixe(g, m - 1, v);
      PairesLength(g, m - 1);
      DegreConcat(Paires(g[..m - 1]), PairesDe(m - 1, g[m - 1]), v);
      DegreListe(m - 1, g[m - 1], v);
      ArriveesPlus(g, m - 1, v);
    }
  }

  /** What degre counts is the number of arc ends at v. */
  lemma DegreEstArcs(g: Listes, v: nat)
    requires v < |g|
    ensures Degre(Paires(g), v) == DegreArcs(g, v)
  {
    assert g[..|g|] == g;
    DegrePrefixe(g, |g|, v);
  }

  /** Where the arcs stand: list and place. */
  function Places(g: Listes): set<(int, int)> {
    set i, k | 0 <= i < |g| && 0 <= k < |g[i]| :: (i, k)
  }

  lemma PlacesPlus(debut: Listes, arcs: seq<Arc>, arc: Arc)
    ensures |Places(debut + [arcs + [arc]])| == |Places(debut + [arcs])| + 1
  {
    var p := (|debut|, |arcs|);
    assert Places(debut + [arcs + [arc]]) == Places(debut + [arcs]) + {p} && p !in Places(debut + [arcs]);
  }

  lemma {:induction false} PlacesListe(debut: Listes, arcs: seq<Arc>)
    ensures |Places(debut + [arcs])| == |Places(debut)| + |arcs|
    decreases |arcs|
  {
    if arcs == [] {
      assert Places(debut + [arcs]) == Places(debut);
    } else {
      var init := arcs[..|arcs| - 1];
      assert arcs == init + [arcs[|arcs| - 1]];
      PlacesListe(debut, init);
      PlacesPlus(debut, init, arcs[|arcs| - 1]);
    }
  }

  /** There are as many pairs of ends as arcs. */
  lemma {:induction false} AutantQueDArcs(g: Listes, m: nat)
    requires m <= |g|
    ensures |Paires(g[..m])| == |Places(g[..m])|
  {
    if m == 0 {
      assert Places(g[..0]) == {};
    } else {
      AutantQueDArcs(g, m - 1);
      PairesLength(g, m - 1);
      PlacesListe(g[..m - 1], g[m - 1]);
      assert g[..m - 1] + [g[m - 1]] == g[..m];
    }
  }

  /** The arc at place k of list i has v as an end. */
  predicate Touche(g: Listes, v: int, i: int, k: int) {
    0 <= i < |g| && 0 <= k < |g[i]| && (i == v || g[i][k].destination == v)
  }

  ghost predicate SeuleTouche(g: Listes, v: int, i: int, k: int) {
    Touche(g, v, i, k) && forall a, b :: Touche(g, v, a, b) ==> a == i && b == k
  }

  ghost predicate UnSeulArc(g: Listes, v: int) {
    exists i, k :: SeuleTouche(g, v, i, k)
  }

  predicate SansBoucle(i: int, arcs: seq<Arc>) {
    forall k :: 0 <= k < |arcs| ==> arcs[k].destination != i
  }

  /** Every vertex is an end of exactly one arc, and no arc is a loop. */
  ghost predicate Apparie(g: Listes) {
    && (forall v :: 0 <= v < |g| ==> UnSeulArc(g, v))
    && forall i :: 0 <= i < |g| ==> SansBoucle(i, g[i])
  }

  lemma UneEntree(g: Listes, v: nat)
    requires v < |g| && g[v] != [] && DegreArcs(g, v) == 1 && forall i :: 0 <= i < |g| ==> SansBoucle(i, g[i])
    ensures SeuleTouche(g, v, v, 0)
  {
    forall a, b | Touche(g, v, a, b) ensures a == v && b == 0 {
      assert a != v ==> (a, b) in Arrivees(g, v);
    }
  }

  lemma UneArrivee(g: Listes, v: nat) returns (i: int, k: int)
    requires v < |g| && g[v] == [] && DegreArcs(g, v) == 1
    ensures SeuleTouche(g, v, i, k)
  {
    var p :| p in Arrivees(g, v);
    i, k := p.0, p.1;
    assert |Arrivees(g, v) - {p}| == 0;
    forall a, b | Touche(g, v, a, b) ensures a == i && b == k {
      assert (a, b) in Arrivees(g, v);
      assert (a, b) !in Arrivees(g, v) - {p};
    }
  }

  /** Degree 1 without loops is having exactly one arc. */
  lemma UneSeule(g: Listes, v: nat)
    requires v < |g| && forall i :: 0 <= i < |g| ==> SansBoucle(i, g[i])
    ensures DegreArcs(g, v) == 1 <==> UnSeulArc(g, v)
  {
    if DegreArcs(g, v) == 1 {
      if g[v] != [] { UneEntree(g, v); } else { var i, k := UneArrivee(g, v); }
    }
    if i, k :| SeuleTouche(g, v, i, k) {
      if i == v {
        assert Arrivees(g, v) == {} by {
          forall p | p in Arrivees(g, v) ensures false { assert Touche(g, v, p.0, p.1); }
        }
        assert |g[v]| > 1 ==> Touche(g, v, v, 0) && Touche(g, v, v, 1);
      } else {
        assert g[v] != [] ==> Touche(g, v, v, 0);
        assert Arrivees(g, v) == {(i, k)} by {
          forall p | p in Arrivees(g, v) ensures p == (i, k) { assert Touche(g, v, p.0, p.1); }
        }
      }
    }
  }

  /** A loop is counted twice at its vertex. */
  lemma BoucleCompteDeux(g: Listes, i: nat)
    requires i < |g| && !SansBoucle(i, g[i])
    ensures DegreArcs(g, i) >= 2
  {
    var k :| 0 <= k < |g[i]| && g[i][k].destination == i;
    assert (i, k) in Arrivees(g, i);
  }

  /** All degrees 1 is every vertex an end of exactly one arc, none a loop. */
  lemma TousUnEstApparie(g: Listes)
    ensures TousUn(Paires(g), |g|) <==> Apparie(g)
  {
    forall v: nat | v < |g| ensures Degre(Paires(g), v) == DegreArcs(g, v) { DegreEstArcs(g, v); }
    if TousUn(Paires(g), |g|) {
      forall i | 0 <= i < |g| ensures SansBoucle(i, g[i]) {
        if !SansBoucle(i, g[i]) { BoucleCompteDeux(g, i); }
      }
    }
    if forall i :: 0 <= i < |g| ==> SansBoucle(i, g[i]) {
      forall v | 0 <= v < |g| ensures Degre(Paires(g), v) == 1 <==> UnSeulArc(g, v) { UneSeule(g, v); }
    }
  }

  /** The test of estCouplage, on the lists. */
  lemma ApparieSsi(g: Listes)
    requires DestinationsBornees(g)
    ensures Plafonnes(Paires(g), |g|) && |g| == 2 * |Paires(g)| <==> Apparie(g)
  {
    assert g[..|g|] == g;
    PairesBornees(g, |g|);
    PoigneesDeMain(Paires(g), |g|);
    TousUnEstApparie(g);
    if Plafonnes(Paires(g), |g|) { Tiroirs(Paires(g), |g|); }
  }
}
