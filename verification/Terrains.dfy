/** Algo6/Sokoban/Terrain.java and Couple.java: the board and its coordinates. */
module Terrains {
  import opened Cases

  datatype Couple = Couple(i: int, j: int) {
    predicate Same(a: Couple, b: Couple) { a.i == b.i && a.j == b.j }
  }

  type Grille = map<Couple, Case>

  ghost function Bornes(hauteur: nat, largeur: nat): set<Couple> {
    set i, j | 0 <= i < hauteur && 0 <= j < largeur :: Couple(i, j)
  }

  function Buts(g: Grille): set<Couple> {
    set c | c in g && g[c].Contient(BUT)
  }

  /** The cells that a scan by lines reaches before (i, j). */
  predicate Avant(c: Couple, i: int, j: int) {
    c.i < i || (c.i == i && c.j < j)
  }

  function ButsAvant(g: Grille, i: int, j: int): set<Couple> {
    set c | c in Buts(g) && Avant(c, i, j)
  }

  lemma UneCase(g: Grille, i: int, j: int)
    requires Couple(i, j) in g
    ensures |ButsAvant(g, i, j + 1)| == |ButsAvant(g, i, j)| + if g[Couple(i, j)].Contient(BUT) then 1 else 0
  {
    assert ButsAvant(g, i, j + 1) == ButsAvant(g, i, j) + if g[Couple(i, j)].Contient(BUT) then {Couple(i, j)} else {};
  }

  lemma LigneFinie(g: Grille, i: int, largeur: nat)
    requires forall c :: c in g ==> 0 <= c.j < largeur
    ensures ButsAvant(g, i + 1, 0) == ButsAvant(g, i, largeur)
  {
  }

  class Terrain {
    const terrain: array2<Case>
    var nb_but: nat

    /** A board whose lines have been read; the scan counts the goals, occupied or not. */
    constructor (terrain: array2<Case>)
      ensures this.terrain == terrain && nb_but == |Buts(Vue())|
    {
      this.terrain := terrain;
      nb_but := 0;
      new;
      ghost var g := Vue();
      for i := 0 to terrain.Length0
        invariant nb_but == |ButsAvant(g, i, 0)|
      {
        for j := 0 to terrain.Length1
          invariant nb_but == |ButsAvant(g, i, j)|
        {
          UneCase(g, i, j);
          if Consulter(i, j).Contient(BUT) {
            nb_but := nb_but + 1;
          }
        }
        LigneFinie(g, i, terrain.Length1);
      }
      assert ButsAvant(g, terrain.Length0, 0) == Buts(g);
    }

    function Hauteur(): nat { terrain.Length0 }

    function Largeur(): nat { terrain.Length1 }

    predicate Dans(i: int, j: int) {
      0 <= i < Hauteur() && 0 <= j < Largeur()
    }

    ghost function Vue(): (g: Grille)
      reads terrain
    {
      map i, j | 0 <= i < terrain.Length0 && 0 <= j < terrain.Length1 :: Couple(i, j) := terrain[i, j]
    }

    predicate Fini()
      reads this
    {
      nb_but == 0
    }

    method ButAtteint()
      modifies this
      ensures nb_but == if old(nb_but) > 0 then old(nb_but) - 1 else 0
    {
      if nb_but > 0 {
        nb_but := nb_but - 1;
      }
    }

    function Consulter(ligne: int, colonne: int): (c: Case)
      requires Dans(ligne, colonne)
      reads terrain
      ensures c == Vue()[Couple(ligne, colonne)]
    {
      terrain[ligne, colonne]
    }

    method Assigner(c: Case, ligne: int, colonne: int)
      requires Dans(ligne, colonne)
      modifies terrain
      ensures Vue() == old(Vue())[Couple(ligne, colonne) := c]
    {
      terrain[ligne, colonne] := c;
    }
  }
}
