/** Algo6/APNEE4/Graphe.java and Maillon.java: the graph as an array of linked lists of arcs. */
module GraphesArcs {
  import opened ArcGraphes
  import opened Couplages
  import opened Decimals

  class Maillon {
    var arc: Arc
    var suivant: Maillon?
    /** Which list holds this link, and at which place. */
    ghost var liste: int
    ghost var rang: int

    constructor (arc: Arc)
      ensures this.arc == arc && suivant == null
    {
      this.arc := arc;
      suivant := null;
    }
  }

  function Tete(l: seq<Maillon>, k: nat): Maillon? {
    if k < |l| then l[k] else null
  }

  class Graphe {
    var sommets: array<Maillon?>
    ghost var listes: seq<seq<Maillon>>
    ghost var repr: set<Maillon>
    /** The arcs of each list, in order. */
    ghost var arcs: Listes

    ghost predicate Tient(i: int, k: int)
      requires |listes| == |arcs| && 0 <= i < |listes|
      requires |listes[i]| == |arcs[i]| && 0 <= k < |listes[i]|
      reads this, repr
    {
      var c := listes[i][k];
      c in repr && c.arc == arcs[i][k] && c.liste == i && c.rang == k && c.suivant == Tete(listes[i], k + 1)
    }

    /** Each vertex heads the chain of the links listed for it; no link occurs twice. */
    ghost predicate Valid()
      reads this, sommets, repr
    {
      && |listes| == |arcs| == sommets.Length
      && (forall i :: 0 <= i < |listes| ==> sommets[i] == Tete(listes[i], 0) && |listes[i]| == |arcs[i]|)
      && forall i, k :: 0 <= i < |listes| && 0 <= k < |listes[i]| ==> Tient(i, k)
    }

    constructor ()
      ensures Valid() && fresh(sommets) && repr == {} && arcs == []
    {
      sommets := new Maillon?[0];
      listes := [];
      repr := {};
      arcs := [];
    }

    /** The last link of a chain that is not empty. */
    method Dernier(s: int) returns (courant: Maillon)
      requires Valid() && 0 <= s < sommets.Length && sommets[s] != null
      ensures listes[s] != [] && courant == listes[s][|listes[s]| - 1]
    {
      courant := sommets[s];
      ghost var k := 0;
      assert Tient(s, k);
      while courant.suivant != null
        invariant 0 <= k < |listes[s]| && courant == listes[s][k] && Tient(s, k)
        decreases |listes[s]| - k
      {
        courant := courant.suivant;
        k := k + 1;
        assert Tient(s, k);
      }
    }

    /** Links a new link after the last one of list s, or at its head. */
    method Accrocher(s: int, nouveau: Maillon)
      requires Valid() && 0 <= s < sommets.Length && nouveau !in repr
      modifies sommets, repr
      ensures forall i :: 0 <= i < sommets.Length ==>
                sommets[i] == if i == s && listes[s] == [] then nouveau else old(sommets[i])
      ensures forall c :: c in repr ==> c.arc == old(c.arc) && c.liste == old(c.liste) && c.rang == old(c.rang)
      ensures forall c :: c in repr ==>
                c.suivant == if listes[s] != [] && c == listes[s][|listes[s]| - 1] then nouveau else old(c.suivant)
    {
      if sommets[s] == null {
        sommets[s] := nouveau;
      } else {
        var courant := Dernier(s);
        assert Tient(s, |listes[s]| - 1);
        courant.suivant := nouveau;
      }
    }

    /** Appends an arc to the list of its source, at the end of the chain. */
    method Ajouter(arc: Arc)
      requires Valid() && 0 <= arc.source < sommets.Length
      modifies this, sommets, repr
      ensures Valid() && sommets == old(sommets) && fresh(repr - old(repr))
      ensures arcs == Place(old(arcs), arc)
    {
      var s := arc.source;
      ghost var l := listes[s];
      var nouveau := new Maillon(arc);
      nouveau.liste, nouveau.rang := s, |l|;
      Accrocher(s, nouveau);
      listes := listes[s := l + [nouveau]];
      arcs := Place(arcs, arc);
      repr := repr + {nouveau};
      forall i, k | 0 <= i < |listes| && 0 <= k < |listes[i]| ensures Tient(i, k) {
        if i != s || k < |l| {
          assert old(Tient(i, k));
          assert l != [] ==> old(Tient(s, |l| - 1));
        }
      }
    }
  
    /** n empty lists. */
    method Vider(n: nat)
      modifies this
      ensures Valid() && fresh(sommets) && repr == {} && arcs == Vide(n)
    {
      sommets := new Maillon?[n](i => null);
      listes, arcs, repr := seq(n, i => []), Vide(n), {};
    }

    /** The while loop of lire, over the tokens behind the count. */
    method LireSuite(tokens: seq<string>) returns (r: Outcome<()>)
      requires Valid()
      modifies this, sommets, repr
      ensures sommets == old(sommets) && fresh(repr - old(repr))
      ensures match LireArcs(old(arcs), tokens)
              case Ok(g) => r.Ok? && Valid() && arcs == g
              case Malforme => r == Malforme
              case HorsLimites => r == HorsLimites
    {
      var i := 0;
      while i < |tokens|
        invariant 0 <= i <= |tokens|
        invariant Valid() && sommets == old(sommets) && fresh(repr - old(repr))
        invariant LireArcs(old(arcs), tokens) == LireArcs(arcs, tokens[i..])
      {
        assert tokens[i..][1..] == tokens[i + 1..];
        var lu := LireArc(tokens[i]);
        if lu.Malforme? { return Malforme; }
        if lu.HorsLimites? || !(0 <= lu.value.source < sommets.Length) { return HorsLimites; }
        Ajouter(lu.value);
        i := i + 1;
      }
      return Ok(());
    }

    /** Reads the text format; on success the lists are those the tokens describe. */
    method Lire(text: string, sep: char) returns (r: Outcome<()>)
      modifies this
      ensures match ArcGraphes.Lire(text, sep)
              case Ok(g) => r.Ok? && Valid() && fresh(sommets) && fresh(repr) && arcs == g
              case Malforme => r == Malforme
              case HorsLimites => r == HorsLimites
    {
      var tokens := Tokens(text);
      if tokens == [] { return Malforme; }
      var compte := LireCompte(tokens[0], sep);
      if compte.Malforme? { return Malforme; }
      if compte.HorsLimites? { return HorsLimites; }
      Vider(compte.value);
      r := LireSuite(tokens[1..]);
    }

    /** Prints one more arc. */
    static method Ligne(resultat: string, arc: Arc, ghost debut: string, ghost avant: seq<Arc>) returns (r: string)
      requires resultat == debut + Lignes(Mots(avant))
      ensures r == debut + Lignes(Mots(avant + [arc]))
    {
      LignesPlus(debut, avant, arc);
      r := resultat + (arc.ToString() + "\n");
    }

    /** Prints the arcs of one list after those printed so far. */
    method Imprimer(resultat: string, i: int, ghost debut: string, ghost avant: seq<Arc>) returns (r: string)
      requires Valid() && 0 <= i < sommets.Length
      requires resultat == debut + Lignes(Mots(avant))
      ensures r == debut + Lignes(Mots(avant + arcs[i]))
    {
      r := resultat;
      var courant := sommets[i];
      ghost var k := 0;
      assert avant + arcs[i][..0] == avant;
      while courant != null
        invariant 0 <= k <= |arcs[i]| && courant == Tete(listes[i], k)
        invariant r == debut + Lignes(Mots(avant + arcs[i][..k]))
        decreases |arcs[i]| - k
      {
        assert Tient(i, k);
        OneMore(avant, arcs[i], k);
        r := Ligne(r, courant.arc, debut, avant + arcs[i][..k]);
        courant := courant.suivant;
        k := k + 1;
      }
      assert arcs[i][..k] == arcs[i];
    }

    /** Prints the vertex count and every arc, one a line. */
    method ToString() returns (resultat: string)
      requires Valid()
      ensures resultat == ArcGraphes.ToString(arcs)
    {
      resultat := Entier(sommets.Length) + "\n";
      ghost var debut := resultat;
      assert arcs[..0] == [] && debut + Lignes(Mots([])) == debut;
      for i := 0 to sommets.Length
        invariant resultat == debut + Lignes(Mots(Flat(arcs[..i])))
      {
        FlatPlus(arcs, i);
        resultat := Imprimer(resultat, i, debut, Flat(arcs[..i]));
      }
      assert arcs[..|arcs|] == arcs;
    }

    method NombreArcs() returns (resultat: nat)
      requires Valid()
      ensures resultat == |Places(arcs)| == |Paires(arcs)|
    {
      resultat := 0;
      assert arcs[..0] == [];
      for i := 0 to sommets.Length
        invariant resultat == |Paires(arcs[..i])|
      {
        PairesLength(arcs, i);
        var courant := sommets[i];
        ghost var k := 0;
        while courant != null
          invariant 0 <= k <= |arcs[i]| && courant == Tete(listes[i], k)
          invariant resultat == |Paires(arcs[..i])| + k
          decreases |arcs[i]| - k
        {
          assert Tient(i, k);
          resultat := resultat + 1;
          courant := courant.suivant;
          k := k + 1;
        }
      }
      assert arcs[..|arcs|] == arcs;
      AutantQueDArcs(arcs, |arcs|);
    }

    /** The destinations of the arcs in one list, in order. */
    method Successeurs(source: int) returns (resultat: array<int>)
      requires Valid() && 0 <= source < sommets.Length
      ensures fresh(resultat) && resultat.Length == |arcs[source]|
      ensures forall k :: 0 <= k < resultat.Length ==> resultat[k] == arcs[source][k].destination
    {
      var nombre := 0;
      var courant := sommets[source];
      while courant != null
        invariant 0 <= nombre <= |arcs[source]| && courant == Tete(listes[source], nombre)
        decreases |arcs[source]| - nombre
      {
        assert Tient(source, nombre);
        nombre := nombre + 1;
        courant := courant.suivant;
      }
      resultat := new int[nombre];
      var indice := 0;
      courant := sommets[source];
      while courant != null
        invariant 0 <= indice <= nombre && courant == Tete(listes[source], indice)
        invariant forall k :: 0 <= k < indice ==> resultat[k] == arcs[source][k].destination
        decreases nombre - indice
      {
        assert Tient(source, indice);
        resultat[indice] := courant.arc.destination;
        indice := indice + 1;
        courant := courant.suivant;
      }
    }

    /** Counts one destination. */
    static method Incrementer(degre: array<int>, dest: int, ghost i: int, ghost ps: seq<Paire>, ghost reste: int)
      requires 0 <= dest < degre.Length && Compte(degre[..], ps, i, reste)
      modifies degre
      ensures Compte(degre[..], ps + [(i, dest)], i, reste - 1)
    {
      ghost var d := degre[..];
      CompteArc(d, ps, i, reste, (i, dest));
      degre[dest] := degre[dest] + 1;
      assert degre[..] == d[dest := d[dest] + 1];
    }

    /** Counts the destinations of list i, up to one that is no vertex. */
    static method CompterArrivees(i: int, succ: array<int>, degre: array<int>, ghost liste: seq<Arc>, ghost before: seq<Paire>)
      returns (dedans: bool)
      requires succ != degre && succ.Length == |liste| && Compte(degre[..], before, i, |liste|)
      requires forall k :: 0 <= k < succ.Length ==> succ[k] == liste[k].destination
      modifies degre
      ensures dedans <==> ListeBornee(degre.Length, liste)
      ensures dedans ==> Compte(degre[..], before + PairesDe(i, liste), i, 0)
    {
      ghost var ps := PairesDe(i, liste);
      assert before + ps[..0] == before;
      for j := 0 to succ.Length
        invariant ListeBornee(degre.Length, liste[..j])
        invariant Compte(degre[..], before + ps[..j], i, |liste| - j)
      {
        if !(0 <= succ[j] < degre.Length) { return false; }
        OneMore(before, ps, j);
        Incrementer(degre, succ[j], i, before + ps[..j], |liste| - j);
      }
      assert ps[..|ps|] == ps && liste[..|liste|] == liste;
      return true;
    }

    /** Counts the ends of the arcs of list i at every vertex; a destination that is no vertex is out of the array. */
    method Compter(i: int, degre: array<int>, ghost before: seq<Paire>) returns (dedans: bool)
      requires Valid() && 0 <= i < sommets.Length == degre.Length && Compte(degre[..], before, i, 0)
      modifies degre
      ensures dedans <==> ListeBornee(|arcs|, arcs[i])
      ensures dedans ==> Compte(degre[..], before + PairesDe(i, arcs[i]), i, 0)
    {
      var succ := Successeurs(i);
      degre[i] := degre[i] + succ.Length;
      dedans := CompterArrivees(i, succ, degre, arcs[i], before);
    }

    /** The last loop of degre: the greatest of 0 and the entries. */
    static method Maximum(d: array<int>) returns (max: int)
      ensures max == 0 || max in d[..]
      ensures forall v :: 0 <= v < d.Length ==> d[..][v] <= max
    {
      max := 0;
      for i := 0 to d.Length
        invariant max == 0 || max in d[..]
        invariant forall v :: 0 <= v < i ==> d[..][v] <= max
      {
        assert d[..][i] == d[i];
        if d[i] > max {
          max := d[i];
        }
      }
    }

    /** The greatest degree, loops counting twice; a destination that is no vertex throws. */
    method DegreMax() returns (resultat: Outcome<int>)
      requires Valid()
      ensures resultat == HorsLimites || resultat.Ok?
      ensures resultat.Ok? <==> DestinationsBornees(arcs)
      ensures resultat.Ok? ==> forall v :: 0 <= v < |arcs| ==> Degre(Paires(arcs), v) == DegreArcs(arcs, v) <= resultat.value
      ensures resultat.Ok? && resultat.value != 0 ==> exists v :: 0 <= v < |arcs| && DegreArcs(arcs, v) == resultat.value
    {
      var degre_sommet := new int[sommets.Length](i => 0);
      assert arcs[..0] == [];
      for i := 0 to sommets.Length
        invariant forall k :: 0 <= k < i ==> ListeBornee(|arcs|, arcs[k])
        invariant Compte(degre_sommet[..], Paires(arcs[..i]), i, 0)
      {
        PairesLength(arcs, i);
        var dedans := Compter(i, degre_sommet, Paires(arcs[..i]));
        if !dedans { return HorsLimites; }
      }
      assert arcs[..|arcs|] == arcs;
      var max := Maximum(degre_sommet);
      forall v | 0 <= v < |arcs| ensures degre_sommet[..][v] == Degre(Paires(arcs), v) == DegreArcs(arcs, v) {
        DegreEstArcs(arcs, v);
      }
      return Ok(max);
    }

    /** Whether the arcs match every vertex with exactly one other. */
    method EstCouplage() returns (couplage: Outcome<bool>)
      requires Valid()
      ensures couplage == if DestinationsBornees(arcs) then Ok(Apparie(arcs)) else HorsLimites
      ensures couplage.Ok? ==> couplage.value == CouplageParfait(|arcs|, Paires(arcs))
    {
      var degre := DegreMax();
      if !degre.Ok? { return HorsLimites; }
      var nombre := NombreArcs();
      PairesBornees(arcs, |arcs|);
      assert arcs[..|arcs|] == arcs;
      CouplageSsi(|arcs|, Paires(arcs));
      ApparieSsi(arcs);
      return Ok(degre.value <= 1 && sommets.Length == 2 * nombre);
    }
  }
}
