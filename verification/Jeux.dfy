/** The rules of Moteur.action on the board as a value, and what every game keeps. */
module Jeux {
  import opened Cases
  import opened Chemins
  import opened Indicatrices
  import opened Terrains

  /** atteints counts the calls of but_atteint, which the source does not store. */
  datatype Etat = Etat(grille: Grille, pousseur: Couple, nbBut: nat, atteints: nat, nbMouvement: nat, nbActions: nat)

  function LibresDe(g: Grille): set<Couple> {
    set c | c in g && g[c].EstLibre()
  }

  /** The pusher stands on the cell the fields say, and nowhere else. */
  ghost predicate UnPousseur(g: Grille, p: Couple) {
    p in g && forall c :: c in g ==> (g[c].Contient(POUSSEUR) <==> c == p)
  }

  /** p is the last pusher that a scan by lines meets before (i, j), or (0, 0) when it meets none. */
  ghost predicate Dernier(g: Grille, p: Couple, i: int, j: int) {
    if exists c :: c in g && g[c].Contient(POUSSEUR) && Avant(c, i, j)
    then p in g && g[p].Contient(POUSSEUR) && Avant(p, i, j)
         && forall c :: c in g && g[c].Contient(POUSSEUR) && Avant(c, i, j) ==> c == p || Avant(c, p.i, p.j)
    else p == Couple(0, 0)
  }

  lemma DernierCase(g: Grille, p: Couple, i: int, j: int)
    requires Dernier(g, p, i, j) && Couple(i, j) in g
    ensures Dernier(g, if g[Couple(i, j)].Contient(POUSSEUR) then Couple(i, j) else p, i, j + 1)
  {
    forall c: Couple ensures Avant(c, i, j + 1) <==> Avant(c, i, j) || c == Couple(i, j) {}
  }

  lemma DernierLigne(g: Grille, p: Couple, i: int, largeur: nat)
    requires Dernier(g, p, i, largeur) && forall c :: c in g ==> 0 <= c.j < largeur
    ensures Dernier(g, p, i + 1, 0)
  {
    forall c | c in g ensures Avant(c, i + 1, 0) <==> Avant(c, i, largeur) {}
  }

  lemma DernierUnique(g: Grille, p: Couple, q: Couple, hauteur: nat)
    requires Dernier(g, p, hauteur, 0) && UnPousseur(g, q) && forall c :: c in g ==> c.i < hauteur
    ensures p == q
  {
    assert Avant(q, hauteur, 0);
  }

  /** A cell once its sack or pusher has gone. */
  function Sans(k: Case): Case {
    if k.Contient(BUT) then BUT else LIBRE
  }

  function Avec(k: Case): Case {
    if k.Contient(BUT) then POUSSEUR_SUR_BUT else POUSSEUR
  }

  function Abs(i: int): nat { if i < 0 then -i else i }

  function Distance(a: Couple, b: Couple): nat {
    Abs(a.i - b.i) + Abs(a.j - b.j)
  }

  function Deplace(e: Etat, c: Couple): Etat
    requires e.pousseur in e.grille && c in e.grille
  {
    var g, p := e.grille, e.pousseur;
    e.(grille := g[p := Sans(g[p])][c := Avec(g[c])], pousseur := c,
       nbMouvement := e.nbMouvement + Distance(p, c), nbActions := e.nbActions + 1)
  }

  /** A sack pushed onto a goal disappears with it; pushed elsewhere its cell's content moves as it is. */
  function Pousse(e: Etat, c: Couple, cible: Couple): Etat
    requires e.pousseur in e.grille && c in e.grille && cible in e.grille
  {
    var g, p := e.grille, e.pousseur;
    var but := g[cible].Contient(BUT);
    Etat(g[cible := if but then Sans(g[c]) else g[c]][c := g[p]][p := Sans(g[p])], c,
         if but && e.nbBut > 0 then e.nbBut - 1 else e.nbBut,
         if but then e.atteints + 1 else e.atteints,
         e.nbMouvement + 1, e.nbActions)
  }

  /** The cell on the other side of the sack. */
  function Cible(p: Couple, c: Couple): Couple {
    Couple(2 * c.i - p.i, 2 * c.j - p.j)
  }

  predicate Poussable(e: Etat, c: Couple)
    requires c in e.grille
  {
    && e.grille[c].Contient(SAC) && Voisins(e.pousseur, c)
    && Cible(e.pousseur, c) in e.grille && e.grille[Cible(e.pousseur, c)].EstLibre()
  }

  ghost predicate Accessible(e: Etat, c: Couple)
    requires c in e.grille
  {
    e.grille[c].EstLibre() && Joignable(LibresDe(e.grille), e.pousseur, c)
  }

  ghost predicate Accepte(e: Etat, c: Couple)
    requires c in e.grille
  {
    Accessible(e, c) || Poussable(e, c)
  }

  ghost function Coup(e: Etat, c: Couple): Etat
    requires e.pousseur in e.grille && c in e.grille
  {
    if Accessible(e, c) then Deplace(e, c)
    else if Poussable(e, c) then Pousse(e, c, Cible(e.pousseur, c))
    else e
  }

  // ---- sacks ----

  function Sacs(g: Grille): set<Couple> {
    set c | c in g && g[c].Contient(SAC)
  }

  lemma SacsAt(g: Grille, c: Couple, k: Case)
    requires c in g
    ensures |Sacs(g[c := k])| == |Sacs(g)| - Un(g[c].Contient(SAC)) + Un(k.Contient(SAC))
  {
    var others := Sacs(g) - {c};
    assert Sacs(g[c := k]) == others + if k.Contient(SAC) then {c} else {};
    assert Sacs(g) == others + if g[c].Contient(SAC) then {c} else {};
  }

  // ---- what a move keeps ----

  ghost predicate MemesObstacles(g: Grille, h: Grille) {
    g.Keys == h.Keys && forall c :: c in g ==> (g[c].Contient(OBSTACLE) <==> h[c].Contient(OBSTACLE))
  }

  function Reste(initial: nat, atteints: nat): nat {
    if initial > atteints then initial - atteints else 0
  }

  /** The game invariant, relative to the board the game started from. */
  ghost predicate Partie(e0: Etat, e: Etat) {
    && UnPousseur(e.grille, e.pousseur)
    && MemesObstacles(e0.grille, e.grille)
    && |Sacs(e.grille)| + e.atteints == |Sacs(e0.grille)| + e0.atteints
    && e0.atteints <= e.atteints
    && e.nbBut == Reste(e0.nbBut, e.atteints - e0.atteints)
  }

  lemma DeplaceTient(e0: Etat, e: Etat, c: Couple)
    requires Partie(e0, e) && c in e.grille && e.grille[c].EstLibre()
    ensures Partie(e0, Deplace(e, c))
  {
    var g, p := e.grille, e.pousseur;
    Holding(g[p]);
    Holding(g[c]);
    Holding(Sans(g[p]));
    Holding(Avec(g[c]));
    SacsAt(g, p, Sans(g[p]));
    SacsAt(g[p := Sans(g[p])], c, Avec(g[c]));
  }

  lemma PousseSacs(e: Etat, c: Couple)
    requires UnPousseur(e.grille, e.pousseur) && c in e.grille && Poussable(e, c)
    ensures var e' := Pousse(e, c, Cible(e.pousseur, c));
            |Sacs(e'.grille)| + e'.atteints == |Sacs(e.grille)| + e.atteints
  {
    var g, p, d := e.grille, e.pousseur, Cible(e.pousseur, c);
    var sac := if g[d].Contient(BUT) then Sans(g[c]) else g[c];
    Holding(g[p]);
    Holding(g[c]);
    Holding(g[d]);
    Holding(sac);
    Holding(Sans(g[p]));
    SacsAt(g, d, sac);
    SacsAt(g[d := sac], c, g[p]);
    SacsAt(g[d := sac][c := g[p]], p, Sans(g[p]));
  }

  lemma PousseForme(e: Etat, c: Couple)
    requires UnPousseur(e.grille, e.pousseur) && c in e.grille && Poussable(e, c)
    ensures var e' := Pousse(e, c, Cible(e.pousseur, c));
            UnPousseur(e'.grille, e'.pousseur) && MemesObstacles(e.grille, e'.grille)
  {
  }

  lemma PousseTient(e0: Etat, e: Etat, c: Couple)
    requires Partie(e0, e) && c in e.grille && Poussable(e, c)
    ensures Partie(e0, Pousse(e, c, Cible(e.pousseur, c)))
  {
    PousseSacs(e, c);
    PousseForme(e, c);
  }

  lemma CoupTient(e0: Etat, e: Etat, c: Couple)
    requires Partie(e0, e) && c in e.grille
    ensures Partie(e0, Coup(e, c))
  {
    if Accessible(e, c) {
      DeplaceTient(e0, e, c);
    } else if Poussable(e, c) {
      PousseTient(e0, e, c);
    }
  }

  /** The states of a game that plays the given cells in order. */
  ghost function Joue(e: Etat, coups: seq<Couple>): (r: Etat)
    requires e.pousseur in e.grille && forall c :: c in coups ==> c in e.grille
    ensures r.grille.Keys == e.grille.Keys && r.pousseur in r.grille
  {
    if coups == [] then e else Coup(Joue(e, coups[..|coups| - 1]), coups[|coups| - 1])
  }

  /** Every game keeps its pusher, its obstacles, and the balance of sacks and reached goals. */
  lemma {:induction false} TouteLaPartie(e: Etat, coups: seq<Couple>)
    requires UnPousseur(e.grille, e.pousseur) && forall c :: c in coups ==> c in e.grille
    ensures Partie(e, Joue(e, coups))
  {
    if coups != [] {
      TouteLaPartie(e, coups[..|coups| - 1]);
      CoupTient(e, Joue(e, coups[..|coups| - 1]), coups[|coups| - 1]);
    }
  }

  /** A refused move changes nothing and an accepted one always moves the pusher. */
  lemma RefusSansEffet(e: Etat, c: Couple)
    requires UnPousseur(e.grille, e.pousseur) && c in e.grille
    ensures Accepte(e, c) <==> Coup(e, c) != e
    ensures Accepte(e, c) ==> Coup(e, c).pousseur == c != e.pousseur
  {
  }

  // ---- each move, cell by cell ----

  ghost predicate AilleursPareil(g: Grille, h: Grille, changes: set<Couple>) {
    g.Keys == h.Keys && forall x :: x in g && x !in changes ==> h[x] == g[x]
  }

  /** A walk: two cells change, the pusher's and the one it goes to, and the distance is added to the moves. */
  lemma CoupMarche(e: Etat, c: Couple)
    requires UnPousseur(e.grille, e.pousseur) && c in e.grille && Accessible(e, c)
    ensures var g, p, e' := e.grille, e.pousseur, Coup(e, c);
            && AilleursPareil(g, e'.grille, {p, c})
            && e'.grille[p] == (if g[p] == POUSSEUR_SUR_BUT then BUT else LIBRE)
            && e'.grille[c] == (if g[c] == BUT then POUSSEUR_SUR_BUT else POUSSEUR)
            && e'.pousseur == c && e'.nbBut == e.nbBut && e'.atteints == e.atteints && e'.nbActions == e.nbActions + 1
            && e'.nbMouvement - e.nbMouvement == (if p.i < c.i then c.i - p.i else p.i - c.i)
                                                 + (if p.j < c.j then c.j - p.j else p.j - c.j)
  {
    Holding(e.grille[e.pousseur]);
    Holding(e.grille[c]);
  }

  /**
    * A push: three cells in line change. The sack goes one cell on, or off the board when that cell is a goal,
    * which is then counted.
    */
  lemma CoupPousse(e: Etat, c: Couple)
    requires UnPousseur(e.grille, e.pousseur) && c in e.grille && Poussable(e, c)
    ensures var g, p, d, e' := e.grille, e.pousseur, Couple(2 * c.i - e.pousseur.i, 2 * c.j - e.pousseur.j), Coup(e, c);
            && d in g && AilleursPareil(g, e'.grille, {p, c, d})
            && Sacs(e'.grille) == Sacs(g) - {c} + (if g[d] == BUT then {} else {d})
            && e'.grille[p] == (if g[p] == POUSSEUR_SUR_BUT then BUT else LIBRE) && e'.grille[c] == g[p]
            && e'.grille[d] == (if g[d] != BUT then g[c] else if g[c] == SAC_SUR_BUT then BUT else LIBRE)
            && e'.pousseur == c && e'.nbActions == e.nbActions && e'.nbMouvement == e.nbMouvement + 1
            && e'.atteints == (if g[d] == BUT then e.atteints + 1 else e.atteints)
            && e'.nbBut == (if g[d] == BUT && e.nbBut > 0 then e.nbBut - 1 else e.nbBut)
  {
    var g, p, d := e.grille, e.pousseur, Cible(e.pousseur, c);
    Holding(g[p]);
    Holding(g[c]);
    Holding(g[d]);
    var h := Coup(e, c).grille;
    Holding(h[p]);
    Holding(h[d]);
  }

  /** A sack can be pushed exactly when the pusher stands on one side of it and the cell on the other side is free. */
  lemma PoussableSsi(e: Etat, c: Couple)
    requires c in e.grille
    ensures Poussable(e, c) <==>
            && (e.grille[c] == SAC || e.grille[c] == SAC_SUR_BUT)
            && (|| (e.pousseur == Couple(c.i + 1, c.j) && Couple(c.i - 1, c.j) in LibresDe(e.grille))
                || (e.pousseur == Couple(c.i - 1, c.j) && Couple(c.i + 1, c.j) in LibresDe(e.grille))
                || (e.pousseur == Couple(c.i, c.j + 1) && Couple(c.i, c.j - 1) in LibresDe(e.grille))
                || (e.pousseur == Couple(c.i, c.j - 1) && Couple(c.i, c.j + 1) in LibresDe(e.grille)))
  {
    Holding(e.grille[c]);
  }

  // ---- what it does not keep: the goals ----

  lemma MarcheGardeLesButs(e: Etat, c: Couple)
    requires UnPousseur(e.grille, e.pousseur) && c in e.grille && e.grille[c].EstLibre()
    ensures Buts(Deplace(e, c).grille) == Buts(e.grille)
  {
  }

  /**
    * A push copies the pusher's cell forward and carries the sack's cell along, goals included.
    * The goals stay where they are exactly when the three cells in line are all goals or all plain.
    */
  lemma PousseeGardeLesButsSsi(e: Etat, c: Couple)
    requires UnPousseur(e.grille, e.pousseur) && c in e.grille && Poussable(e, c)
    ensures var p, d := e.pousseur, Cible(e.pousseur, c);
            Buts(Pousse(e, c, d).grille) == Buts(e.grille)
            <==> (e.grille[p].Contient(BUT) <==> e.grille[c].Contient(BUT))
                 && (e.grille[c].Contient(BUT) <==> e.grille[d].Contient(BUT))
  {
    var g, p, d := e.grille, e.pousseur, Cible(e.pousseur, c);
    Holding(g[p]);
    Holding(g[c]);
    Holding(g[d]);
    Holding(Sans(g[p]));
    Holding(Sans(g[c]));
    var h := Pousse(e, c, d).grille;
    assert p != c && c != d && p != d;
    assert forall x :: x in g && x != p && x != c && x != d ==> h[x] == g[x];
    assert c in Buts(h) <==> g[p].Contient(BUT);
    assert d in Buts(h) <==> g[c].Contient(BUT);
    assert p in Buts(h) <==> g[p].Contient(BUT);
    assert c in Buts(g) <==> g[c].Contient(BUT);
    assert d in Buts(g) <==> g[d].Contient(BUT);
  }

  /** The board of defaut: pusher, sack and goal in line on an otherwise empty 5 by 5 board. */
  function Defaut(): Etat {
    Etat(map i, j | 0 <= i < 5 && 0 <= j < 5 :: Couple(i, j) :=
           if i != 2 then LIBRE else if j == 1 then POUSSEUR else if j == 2 then SAC else if j == 3 then BUT else LIBRE,
         Couple(2, 1), 1, 0, 0, 0)
  }

  /** Pushing the sack of the default board onto its goal takes that goal off the board. */
  lemma PousseeEffaceUnBut()
    ensures UnPousseur(Defaut().grille, Defaut().pousseur) && Accepte(Defaut(), Couple(2, 2))
    ensures Buts(Defaut().grille) == {Couple(2, 3)} && Buts(Coup(Defaut(), Couple(2, 2)).grille) == {}
  {
    var g := Defaut().grille;
    assert Cible(Couple(2, 1), Couple(2, 2)) == Couple(2, 3);
    assert g[Couple(2, 1)] == POUSSEUR && g[Couple(2, 2)] == SAC && g[Couple(2, 3)] == BUT;
    assert forall c :: c in g ==> (g[c].Contient(BUT) <==> c == Couple(2, 3));
  }

  ghost predicate Seules(g: Grille, a: Couple, b: Couple, c: Couple) {
    forall x :: x in g <==> x == a || x == b || x == c
  }

  /** A line of three: a pusher on a goal, a sack, a free cell. */
  ghost predicate SurUnBut(e: Etat, a: Couple, b: Couple, c: Couple) {
    && a == Couple(0, 0) && b == Couple(0, 1) && c == Couple(0, 2) && e.pousseur == a && Seules(e.grille, a, b, c)
    && e.grille[a] == POUSSEUR_SUR_BUT && e.grille[b] == SAC && e.grille[c] == LIBRE
  }

  lemma LigneDeTrois() returns (e: Etat, a: Couple, b: Couple, c: Couple)
    ensures SurUnBut(e, a, b, c)
  {
    a, b, c := Couple(0, 0), Couple(0, 1), Couple(0, 2);
    e := Etat(map[a := POUSSEUR_SUR_BUT, b := SAC, c := LIBRE], a, 1, 0, 0, 0);
  }

  /** A push away from a goal leaves that goal and makes a second one under the pusher. */
  lemma PousseeDoubleUnBut() returns (e: Etat, a: Couple, b: Couple, c: Couple)
    ensures SurUnBut(e, a, b, c) && UnPousseur(e.grille, a) && Accepte(e, b)
    ensures Buts(e.grille) == {a} && Buts(Coup(e, b).grille) == {a, b}
  {
    e, a, b, c := LigneDeTrois();
    EnLigne(a, b, c);
    TroisCases(e, a, b, c);
  }

  lemma EnLigne(a: Couple, b: Couple, c: Couple)
    requires a == Couple(0, 0) && b == Couple(0, 1) && c == Couple(0, 2)
    ensures Voisins(a, b) && Cible(a, b) == c && a != b && b != c && a != c
  {
  }

  lemma TroisCases(e: Etat, a: Couple, b: Couple, c: Couple)
    requires Seules(e.grille, a, b, c) && e.pousseur == a && Voisins(a, b) && Cible(a, b) == c && b != c && a != c
    requires e.grille[a] == POUSSEUR_SUR_BUT && e.grille[b] == SAC && e.grille[c] == LIBRE
    ensures UnPousseur(e.grille, a) && Accepte(e, b) && Buts(e.grille) == {a} && Buts(Coup(e, b).grille) == {a, b}
  {
    UnButUnPousseur(e.grille, a, b, c);
    SacLibre(e, b, c);
    DeuxButsApres(e, a, b, c);
  }

  /** The sack at b can be pushed to c. */
  lemma SacLibre(e: Etat, b: Couple, c: Couple)
    requires b in e.grille && c in e.grille && e.grille[b] == SAC && e.grille[c] == LIBRE
    requires Voisins(e.pousseur, b) && Cible(e.pousseur, b) == c
    ensures Poussable(e, b) && Accepte(e, b)
  {
    Holding(e.grille[b]);
    Holding(e.grille[c]);
  }

  lemma DeuxButsApres(e: Etat, a: Couple, b: Couple, c: Couple)
    requires Seules(e.grille, a, b, c) && e.pousseur == a && UnPousseur(e.grille, a) && Poussable(e, b)
    requires Cible(a, b) == c && a != b && b != c && a != c
    requires e.grille[a] == POUSSEUR_SUR_BUT && e.grille[b] == SAC && e.grille[c] == LIBRE
    ensures Buts(Coup(e, b).grille) == {a, b}
  {
    CoupPousse(e, b);
    DeuxButs(Coup(e, b).grille, a, b, c);
  }

  lemma UnButUnPousseur(g: Grille, a: Couple, b: Couple, c: Couple)
    requires Seules(g, a, b, c) && a != b && b != c && a != c && g[a] == POUSSEUR_SUR_BUT && g[b] == SAC && g[c] == LIBRE
    ensures UnPousseur(g, a) && Buts(g) == {a}
  {
    forall x | x in g ensures g[x].Contient(POUSSEUR) <==> x == a {
      Holding(g[x]);
    }
    forall x | x in g ensures g[x].Contient(BUT) <==> x == a {
      Holding(g[x]);
    }
  }

  lemma DeuxButs(h: Grille, a: Couple, b: Couple, c: Couple)
    requires Seules(h, a, b, c) && h[a] == BUT && h[b] == POUSSEUR_SUR_BUT && h[c] == SAC
    ensures Buts(h) == {a, b}
  {
    Holding(h[a]);
    Holding(h[b]);
    Holding(h[c]);
  }

  /** nb_mouvement counts a walk by its distance, never more than the steps of any path. */
  lemma {:induction false} DistanceAuPlus(libres: set<Couple>, p: seq<Couple>)
    requires Chemin(libres, p)
    ensures Distance(p[0], p[|p| - 1]) <= |p| - 1
  {
    if |p| > 1 {
      DistanceAuPlus(libres, p[..|p| - 1]);
      assert Pas(libres, p[|p| - 2], p[|p| - 2 + 1]);
    }
  }

  /** A step of a path moves by one cell along one axis. */
  lemma PasUnitaire(a: Couple, b: Couple)
    ensures Voisins(a, b) <==> Distance(a, b) == 1
  {
  }

  ghost predicate Marche(p: seq<Couple>) {
    p != [] && forall k :: 0 <= k < |p| - 1 ==> Voisins(p[k], p[k + 1])
  }

  /** That distance is what a shortest path needs when nothing is in the way. */
  lemma {:induction false} DistanceAtteinte(a: Couple, b: Couple) returns (p: seq<Couple>)
    ensures Marche(p) && p[0] == a && p[|p| - 1] == b && |p| - 1 == Distance(a, b)
    decreases Distance(a, b)
  {
    if a == b {
      p := [a];
    } else {
      var c := if a.i < b.i then Couple(b.i - 1, b.j)
               else if a.i > b.i then Couple(b.i + 1, b.j)
               else if a.j < b.j then Couple(b.i, b.j - 1)
               else Couple(b.i, b.j + 1);
      var q := DistanceAtteinte(a, c);
      p := q + [b];
    }
  }
}
