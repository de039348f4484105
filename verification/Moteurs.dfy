/** Algo6/Sokoban/Moteur.java: reachability and the moves of the game. */
module Moteurs {
  import opened Cases
  import opened Chemins
  import opened Jeux
  import opened Terrains

  const NORD := 1
  const OUEST := 2
  const SUD := 3
  const EST := 4

  class Moteur {
    const t: Terrain
    var lignePousseur: int
    var colonnePousseur: int
    var nb_actions: nat
    var nb_mouvement: nat
    ghost var atteints: nat

    /** The scan finds the last pusher, which is the pusher of a board that has one; without any the fields are 0. */
    constructor (t: Terrain)
      ensures this.t == t && nb_actions == 0 && nb_mouvement == 0 && atteints == 0
      ensures Dernier(t.Vue(), Couple(lignePousseur, colonnePousseur), t.Hauteur(), 0)
      ensures forall p :: UnPousseur(t.Vue(), p) ==> Couple(lignePousseur, colonnePousseur) == p
    {
      this.t := t;
      lignePousseur, colonnePousseur := 0, 0;
      new;
      ghost var g := t.Vue();
      for i := 0 to t.Hauteur()
        invariant Dernier(g, Couple(lignePousseur, colonnePousseur), i, 0)
      {
        for j := 0 to t.Largeur()
          invariant Dernier(g, Couple(lignePousseur, colonnePousseur), i, j)
        {
          DernierCase(g, Couple(lignePousseur, colonnePousseur), i, j);
          if t.Consulter(i, j).Contient(POUSSEUR) {
            lignePousseur, colonnePousseur := i, j;
          }
        }
        DernierLigne(g, Couple(lignePousseur, colonnePousseur), i, t.Largeur());
      }
      nb_actions, nb_mouvement, atteints := 0, 0, 0;
      forall p | UnPousseur(g, p) ensures Couple(lignePousseur, colonnePousseur) == p {
        DernierUnique(g, Couple(lignePousseur, colonnePousseur), p, t.Hauteur());
      }
    }

    ghost function Vu(): Etat
      reads this, t, t.terrain
    {
      Etat(t.Vue(), Couple(lignePousseur, colonnePousseur), t.nb_but, atteints, nb_mouvement, nb_actions)
    }

    ghost function Libres(): set<Couple>
      reads t.terrain
    {
      LibresDe(t.Vue())
    }

    /** est_possible; t_chemin is the same object as t. */
    predicate EstPossible(i: int, j: int)
      reads t.terrain
      ensures EstPossible(i, j) <==> Couple(i, j) in Libres()
    {
      j < t.Largeur() && j >= 0 && i < t.Hauteur() && i >= 0 && t.Consulter(i, j).EstLibre()
    }

    predicate EstPossibleSansLibre(i: int, j: int) {
      j < t.Largeur() && j >= 0 && i < t.Hauteur() && i >= 0
    }

    /** The marks, as the set of marked cells. */
    ghost predicate Marques(marqued: array2<bool>, vus: set<Couple>)
      reads marqued
    {
      && marqued.Length0 == t.Hauteur() && marqued.Length1 == t.Largeur()
      && vus <= Bornes(t.Hauteur(), t.Largeur())
      && forall i, j :: 0 <= i < t.Hauteur() && 0 <= j < t.Largeur() ==> (marqued[i, j] <==> Couple(i, j) in vus)
    }

    /** One of the four tests of the flood fill. */
    method Visiter(ens: seq<Couple>, marqued: array2<bool>, found: bool, but: Couple, i: int, j: int,
                   ghost libres: set<Couple>, ghost vus: set<Couple>)
      returns (ens': seq<Couple>, found': bool)
      requires Marques(marqued, vus) && libres == Libres()
      ensures ens' == ens + Nouveau(libres, vus, Couple(i, j))
      ensures found' <==> found || (Couple(i, j) in libres && Couple(i, j) == but)
    {
      ens', found' := ens, found;
      if EstPossible(i, j) {
        if !marqued[i, j] {
          ens' := ens' + [Couple(i, j)];
        }
        if but.Same(Couple(i, j), but) {
          found' := true;
        }
      }
    }

    /** The body of the flood fill: marks c, queues its unmarked free neighbours, and looks for the target. */
    method Tour(c: Couple, rest: seq<Couple>, marqued: array2<bool>, but: Couple, ghost libres: set<Couple>, ghost vus: set<Couple>)
      returns (ens: seq<Couple>, found: bool)
      requires Marques(marqued, vus) && libres == Libres() && t.Dans(c.i, c.j)
      modifies marqued
      ensures Marques(marqued, vus + {c}) && libres == Libres()
      ensures ens == rest + Suivants(libres, vus + {c}, c)
      ensures found <==> Voisins(c, but) && but in libres
    {
      marqued[c.i, c.j] := true;
      ghost var vus' := vus + {c};
      assert Marques(marqued, vus') && libres == Libres();
      ens, found := Quatre(c, rest, marqued, but, libres, vus');
    }

    method Quatre(c: Couple, rest: seq<Couple>, marqued: array2<bool>, but: Couple, ghost libres: set<Couple>, ghost vus: set<Couple>)
      returns (ens: seq<Couple>, found: bool)
      requires Marques(marqued, vus) && libres == Libres()
      ensures ens == rest + Suivants(libres, vus, c)
      ensures found <==> Voisins(c, but) && but in libres
    {
      ens, found := Visiter(rest, marqued, false, but, c.i + 1, c.j, libres, vus);
      ens, found := Visiter(ens, marqued, found, but, c.i - 1, c.j, libres, vus);
      ens, found := Visiter(ens, marqued, found, but, c.i, c.j + 1, libres, vus);
      ens, found := Visiter(ens, marqued, found, but, c.i, c.j - 1, libres, vus);
      QuatreEnsemble(rest, libres, vus, c);
    }

    /** The queue holds cells of the board. */
    ghost predicate SurPlateau(ens: seq<Couple>) {
      forall c :: c in ens ==> t.Dans(c.i, c.j)
    }

    lemma ResteSurPlateau(ens: seq<Couple>, libres: set<Couple>, vus: set<Couple>, c: Couple)
      requires ens != [] && SurPlateau(ens) && libres == Libres()
      ensures SurPlateau(ens[1..] + Suivants(libres, vus, c))
    {
      forall d | d in ens[1..] + Suivants(libres, vus, c) ensures t.Dans(d.i, d.j) { SuivantsSont(libres, vus, c, d); }
    }

    /**
      * Whether a walker at (i, j) can reach (buty, butx) through free cells.
      * Cells are marked when they leave the queue, so entries repeat; the first unmarked entry still comes nearer.
      */
    method ExisteChemin(i: int, j: int, buty: int, butx: int) returns (found: bool)
      requires (i == buty && j == butx) || t.Dans(i, j)
      ensures found <==> Joignable(Libres(), Couple(i, j), Couple(buty, butx))
    {
      ghost var libres, depart := Libres(), Couple(i, j);
      JoignableSoi(libres, depart);
      found := false;
      if i == buty && j == butx {
        return true;
      }
      var but := Couple(buty, butx);
      var marqued := new bool[t.Hauteur(), t.Largeur()]((k, l) => false);
      ghost var vus: set<Couple> := {};
      var ens := [Couple(i, j)];
      while ens != [] && !found
        invariant Marques(marqued, vus) && libres == Libres() && SurPlateau(ens)
        invariant if found then Joignable(libres, depart, but) else EnCours(libres, depart, but, vus, ens)
        decreases Bornes(t.Hauteur(), t.Largeur()) - vus, Rang(ens, vus)
      {
        var c := ens[0];
        assert c in ens;
        ghost var vus' := vus + {c};
        if Voisins(c, but) && but in libres {
          TourTrouve(libres, depart, but, vus, ens);
        } else {
          TourTient(libres, depart, but, vus, ens);
        }
        if c in vus { TourAvanceMarque(libres, vus, ens, vus'); }
        ResteSurPlateau(ens, libres, vus', c);
        ens, found := Tour(c, ens[1..], marqued, but, libres, vus);
        vus := vus';
      }
      if !found {
        HorsDAtteinte(libres, vus, depart, but);
      }
    }
  
    /** On which side of the sack the pusher stands, or -1. */
    function SacAdjacent(i: int, j: int): int
      reads this
    {
      if EstPossibleSansLibre(i + 1, j) && lignePousseur == i + 1 && colonnePousseur == j then NORD
      else if EstPossibleSansLibre(i - 1, j) && lignePousseur == i - 1 && colonnePousseur == j then SUD
      else if EstPossibleSansLibre(i, j + 1) && lignePousseur == i && colonnePousseur == j + 1 then OUEST
      else if EstPossibleSansLibre(i, j - 1) && lignePousseur == i && colonnePousseur == j - 1 then EST
      else -1
    }

    /** The pusher's bit leaves its cell and enters (i, j). */
    method Transferer(i: int, j: int)
      requires UnPousseur(t.Vue(), Couple(lignePousseur, colonnePousseur)) && t.Dans(i, j)
      requires t.Consulter(i, j).EstLibre()
      modifies t.terrain
      ensures var g, p, c := old(t.Vue()), Couple(lignePousseur, colonnePousseur), Couple(i, j);
              t.Vue() == g[p := Sans(g[p])][c := Avec(g[c])]
    {
      ghost var g := t.Vue();
      RetraitPresent(t.Consulter(lignePousseur, colonnePousseur), POUSSEUR);
      Holding(t.Consulter(i, j));
      AjoutPousseur(t.Consulter(i, j));
      var courante := t.Consulter(lignePousseur, colonnePousseur).Retrait(POUSSEUR).value;
      t.Assigner(courante, lignePousseur, colonnePousseur);
      assert t.Consulter(i, j) == g[Couple(i, j)];
      courante := t.Consulter(i, j).Ajout(POUSSEUR).value;
      t.Assigner(courante, i, j);
    }

    /** The walk of action. */
    method Marcher(i: int, j: int)
      requires UnPousseur(Vu().grille, Vu().pousseur) && t.Dans(i, j) && t.Consulter(i, j).EstLibre()
      modifies this, t.terrain
      ensures Vu() == Deplace(old(Vu()), Couple(i, j))
    {
      Transferer(i, j);
      ghost var g := t.Vue();
      nb_mouvement := nb_mouvement + Distance(Couple(lignePousseur, colonnePousseur), Couple(i, j));
      lignePousseur, colonnePousseur := i, j;
      nb_actions := nb_actions + 1;
      assert t.Vue() == g;
    }

    /** Sack, pusher and what was under the pusher each move one cell on. */
    method Decaler(sac: Case, i: int, j: int, k: int, l: int)
      requires UnPousseur(t.Vue(), Couple(lignePousseur, colonnePousseur)) && t.Dans(i, j) && t.Dans(k, l)
      modifies t.terrain
      ensures var g, p := old(t.Vue()), Couple(lignePousseur, colonnePousseur);
              t.Vue() == g[Couple(k, l) := sac][Couple(i, j) := g[p]][p := Sans(g[p])]
    {
      var pousseur := t.Consulter(lignePousseur, colonnePousseur);
      var c := t.Consulter(lignePousseur, colonnePousseur);
      RetraitPresent(c, POUSSEUR);
      t.Assigner(sac, k, l);
      t.Assigner(pousseur, i, j);
      c := c.Retrait(POUSSEUR).value;
      t.Assigner(c, lignePousseur, colonnePousseur);
    }

    /** What of the sack goes on to (k, l): on a goal it counts and disappears. */
    method SacPousse(i: int, j: int, k: int, l: int) returns (sac: Case)
      requires t.Dans(i, j) && t.Dans(k, l) && t.Consulter(i, j).Contient(SAC)
      modifies this`atteints, t
      ensures var g, but := t.Vue(), t.Consulter(k, l).Contient(BUT);
              && sac == (if but then Sans(g[Couple(i, j)]) else g[Couple(i, j)])
              && t.nb_but == (if but && old(t.nb_but) > 0 then old(t.nb_but) - 1 else old(t.nb_but))
              && atteints == if but then old(atteints) + 1 else old(atteints)
    {
      sac := t.Consulter(i, j);
      RetraitPresent(sac, SAC);
      if t.Consulter(k, l).Contient(BUT) {
        sac := sac.Retrait(SAC).value;
        t.ButAtteint();
        atteints := atteints + 1;
      }
    }

    /** A push towards (k, l): the same statements in each direction. */
    method Pousser(i: int, j: int, k: int, l: int)
      requires UnPousseur(Vu().grille, Vu().pousseur) && t.Dans(i, j) && Poussable(Vu(), Couple(i, j))
      requires Couple(k, l) == Cible(Vu().pousseur, Couple(i, j))
      modifies this, t, t.terrain
      ensures Vu() == Pousse(old(Vu()), Couple(i, j), Couple(k, l))
    {
      var sac := SacPousse(i, j, k, l);
      Decaler(sac, i, j, k, l);
      ghost var g := t.Vue();
      lignePousseur, colonnePousseur := i, j;
      nb_mouvement := nb_mouvement + 1;
      assert t.Vue() == g;
    }

    /** A click on (i, j): a walk, a push, or nothing. */
    method Action(i: int, j: int) returns (fait: bool)
      requires UnPousseur(Vu().grille, Vu().pousseur) && t.Dans(i, j)
      modifies this, t, t.terrain
      ensures Vu() == Coup(old(Vu()), Couple(i, j))
      ensures fait <==> Accepte(old(Vu()), Couple(i, j))
      ensures if fait then Vu().pousseur == Couple(i, j) != old(Vu().pousseur) else Vu() == old(Vu())
    {
      RefusSansEffet(Vu(), Couple(i, j));
      if t.Consulter(i, j).EstLibre() {
        Holding(t.Consulter(i, j));
        var chemin := ExisteChemin(lignePousseur, colonnePousseur, i, j);
        if chemin {
          Marcher(i, j);
        }
        return chemin;
      } else if t.Consulter(i, j).Contient(SAC) {
        var direction := SacAdjacent(i, j);
        if direction == NORD && EstPossible(i - 1, j) {
          Pousser(i, j, i - 1, j);
          return true;
        } else if direction == SUD && EstPossible(i + 1, j) {
          Pousser(i, j, i + 1, j);
          return true;
        } else if direction == EST && EstPossible(i, j + 1) {
          Pousser(i, j, i, j + 1);
          return true;
        } else if direction == OUEST && EstPossible(i, j - 1) {
          Pousser(i, j, i, j - 1);
          return true;
        }
      }
      return false;
    }

    /** A whole game: any cells of the board, clicked in any order. */
    method Jouer(coups: seq<Couple>)
      requires UnPousseur(Vu().grille, Vu().pousseur) && SurPlateau(coups)
      modifies this, t, t.terrain
      ensures Partie(old(Vu()), Vu())
    {
      for k := 0 to |coups|
        invariant Partie(old(Vu()), Vu())
      {
        assert coups[k] in coups;
        ghost var e := Vu();
        var _ := Action(coups[k].i, coups[k].j);
        CoupTient(old(Vu()), e, coups[k]);
      }
    }
  }
}
