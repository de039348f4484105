/** What existe_chemin looks for, and why its flood fill finds it. */
module Chemins {
  import opened Terrains

  // ---- paths ----

  predicate Voisins(a: Couple, b: Couple) {
    || (a.j == b.j && (a.i == b.i + 1 || b.i == a.i + 1))
    || (a.i == b.i && (a.j == b.j + 1 || b.j == a.j + 1))
  }

  predicate Pas(libres: set<Couple>, a: Couple, b: Couple) {
    Voisins(a, b) && b in libres
  }

  /** Four-neighbour steps, every cell after the first being free. */
  ghost predicate Chemin(libres: set<Couple>, p: seq<Couple>) {
    && p != []
    && forall k :: 0 <= k < |p| - 1 ==> Pas(libres, p[k], p[k + 1])
  }

  ghost predicate Joignable(libres: set<Couple>, a: Couple, b: Couple) {
    exists p :: Chemin(libres, p) && p[0] == a && p[|p| - 1] == b
  }

  lemma JoignableSoi(libres: set<Couple>, a: Couple)
    ensures Joignable(libres, a, a)
  {
    assert Chemin(libres, [a]);
  }

  lemma JoignablePas(libres: set<Couple>, a: Couple, b: Couple, c: Couple)
    requires Joignable(libres, a, b) && Voisins(b, c) && c in libres
    ensures Joignable(libres, a, c)
  {
    var p :| Chemin(libres, p) && p[0] == a && p[|p| - 1] == b;
    assert Chemin(libres, p + [c]);
  }

  // ---- the state of the flood fill ----

  /** Marked and queued cells are reachable. */
  ghost predicate Atteints(libres: set<Couple>, depart: Couple, cells: set<Couple>) {
    forall c :: c in cells ==> Joignable(libres, depart, c)
  }

  /** Every free neighbour of a marked cell is marked or queued. */
  ghost predicate Frontiere(libres: set<Couple>, vus: set<Couple>, ens: seq<Couple>) {
    forall c, d :: c in vus && d in libres && Voisins(c, d) ==> d in vus || d in ens
  }

  /** The target is not a free neighbour of a marked cell. */
  ghost predicate Manque(libres: set<Couple>, vus: set<Couple>, but: Couple) {
    forall c :: c in vus && Voisins(c, but) ==> but !in libres
  }

  /** How far the first unmarked entry is, or the length when all are marked. */
  ghost function Rang(ens: seq<Couple>, vus: set<Couple>): (r: nat)
    ensures r <= |ens|
  {
    if ens == [] || ens[0] !in vus then 0 else 1 + Rang(ens[1..], vus)
  }

  lemma {:induction false} RangAppend(ens: seq<Couple>, more: seq<Couple>, vus: set<Couple>)
    ensures Rang(ens, vus) < |ens| ==> Rang(ens + more, vus) == Rang(ens, vus)
    ensures Rang(ens, vus) == |ens| ==> forall c :: c in ens ==> c in vus
  {
    if ens == [] {
    } else {
      assert (ens + more)[1..] == ens[1..] + more;
      if ens[0] in vus { RangAppend(ens[1..], more, vus); }
    }
  }

  /** Dequeuing an already marked cell brings the first unmarked entry nearer, or shortens the queue. */
  lemma DejaVu(libres: set<Couple>, vus: set<Couple>, ens: seq<Couple>, more: seq<Couple>)
    requires ens != [] && ens[0] in vus && Frontiere(libres, vus, ens)
    requires forall d :: d in more ==> d in libres && d !in vus && Voisins(ens[0], d)
    ensures Rang(ens[1..] + more, vus) < Rang(ens, vus)
  {
    assert more != [] ==> more[0] in more;
    assert forall d :: d in more ==> d in ens && d != ens[0];
    assert ens == [ens[0]] + ens[1..];
    RangAppend(ens[1..], more, vus);
    if Rang(ens[1..], vus) == |ens| - 1 {
      assert ens[1..] + more == ens[1..];
    }
  }

  /** Marking the head of the queue and queuing its unmarked free neighbours keeps the frontier. */
  lemma FrontiereTient(libres: set<Couple>, vus: set<Couple>, ens: seq<Couple>, more: seq<Couple>)
    requires ens != [] && Frontiere(libres, vus, ens)
    requires forall d :: d in libres && Voisins(ens[0], d) && d !in vus + {ens[0]} ==> d in more
    ensures Frontiere(libres, vus + {ens[0]}, ens[1..] + more)
  {
  }

  /** With nothing queued, the marked cells are closed, so the target is out of reach. */
  lemma {:induction false} Ferme(libres: set<Couple>, vus: set<Couple>, p: seq<Couple>)
    requires Frontiere(libres, vus, []) && Chemin(libres, p) && p[0] in vus
    ensures p[|p| - 1] in vus
  {
    if |p| > 1 {
      Ferme(libres, vus, p[..|p| - 1]);
      assert Pas(libres, p[|p| - 2], p[|p| - 2 + 1]);
    }
  }

  lemma HorsDAtteinte(libres: set<Couple>, vus: set<Couple>, depart: Couple, but: Couple)
    requires Frontiere(libres, vus, []) && depart in vus && Manque(libres, vus, but) && but != depart
    ensures !Joignable(libres, depart, but)
  {
    if Joignable(libres, depart, but) {
      var p :| Chemin(libres, p) && p[0] == depart && p[|p| - 1] == but;
      assert Pas(libres, p[|p| - 2], p[|p| - 2 + 1]);
      Ferme(libres, vus, p[..|p| - 1]);
    }
  }

  // ---- one turn of the loop ----

  ghost function Nouveau(libres: set<Couple>, vus: set<Couple>, d: Couple): seq<Couple> {
    if d in libres && d !in vus then [d] else []
  }

  /** What a turn queues, in the order of the four tests. */
  ghost function Suivants(libres: set<Couple>, vus: set<Couple>, c: Couple): seq<Couple> {
    Nouveau(libres, vus, Couple(c.i + 1, c.j)) + Nouveau(libres, vus, Couple(c.i - 1, c.j))
    + Nouveau(libres, vus, Couple(c.i, c.j + 1)) + Nouveau(libres, vus, Couple(c.i, c.j - 1))
  }

  lemma QuatreEnsemble(rest: seq<Couple>, libres: set<Couple>, vus: set<Couple>, c: Couple)
    ensures rest + Nouveau(libres, vus, Couple(c.i + 1, c.j)) + Nouveau(libres, vus, Couple(c.i - 1, c.j))
            + Nouveau(libres, vus, Couple(c.i, c.j + 1)) + Nouveau(libres, vus, Couple(c.i, c.j - 1))
            == rest + Suivants(libres, vus, c)
  {
  }

  lemma SuivantsSont(libres: set<Couple>, vus: set<Couple>, c: Couple, d: Couple)
    ensures d in Suivants(libres, vus, c) <==> d in libres && d !in vus && Voisins(c, d)
  {
  }

  ghost predicate EnCours(libres: set<Couple>, depart: Couple, but: Couple, vus: set<Couple>, ens: seq<Couple>) {
    && Atteints(libres, depart, vus + set c | c in ens)
    && Frontiere(libres, vus, ens)
    && Manque(libres, vus, but)
    && (depart in vus || depart in ens)
  }

  /** A turn that does not meet the target keeps the invariant. */
  lemma {:induction false} TourTient(libres: set<Couple>, depart: Couple, but: Couple, vus: set<Couple>, ens: seq<Couple>)
    requires EnCours(libres, depart, but, vus, ens) && ens != []
    requires !(Voisins(ens[0], but) && but in libres)
    ensures EnCours(libres, depart, but, vus + {ens[0]}, ens[1..] + Suivants(libres, vus + {ens[0]}, ens[0]))
  {
    var c := ens[0];
    var vus' := vus + {c};
    var more := Suivants(libres, vus', c);
    assert ens == [c] + ens[1..];
    forall d ensures d in more <==> d in libres && d !in vus' && Voisins(c, d) { SuivantsSont(libres, vus', c, d); }
    FrontiereTient(libres, vus, ens, more);
    forall d | d in more ensures Joignable(libres, depart, d) {
      JoignablePas(libres, depart, c, d);
    }
  }

  /** A turn that meets the target has found a path. */
  lemma TourTrouve(libres: set<Couple>, depart: Couple, but: Couple, vus: set<Couple>, ens: seq<Couple>)
    requires EnCours(libres, depart, but, vus, ens) && ens != []
    requires Voisins(ens[0], but) && but in libres
    ensures Joignable(libres, depart, but)
  {
    assert ens[0] in ens;
    JoignablePas(libres, depart, ens[0], but);
  }

  /** A turn on a marked cell comes nearer to the first unmarked entry. */
  lemma TourAvance(libres: set<Couple>, vus: set<Couple>, ens: seq<Couple>)
    requires ens != [] && ens[0] in vus && Frontiere(libres, vus, ens)
    ensures Rang(ens[1..] + Suivants(libres, vus, ens[0]), vus) < Rang(ens, vus)
  {
    var more := Suivants(libres, vus, ens[0]);
    forall d ensures d in more <==> d in libres && d !in vus && Voisins(ens[0], d) { SuivantsSont(libres, vus, ens[0], d); }
    DejaVu(libres, vus, ens, more);
  }

  /** The same, seen after the cell is marked again. */
  lemma TourAvanceMarque(libres: set<Couple>, vus: set<Couple>, ens: seq<Couple>, vus': set<Couple>)
    requires ens != [] && ens[0] in vus && vus' == vus + {ens[0]} && Frontiere(libres, vus, ens)
    ensures vus' == vus
    ensures Rang(ens[1..] + Suivants(libres, vus', ens[0]), vus') < Rang(ens, vus)
  {
    assert vus' == vus;
    TourAvance(libres, vus, ens);
  }
}
