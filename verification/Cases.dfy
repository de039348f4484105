/** Algo6/Sokoban/Case.java: what a cell holds, as a bit code. */
module Cases {

  /** The case, or the RuntimeException of ajout and retrait. */
  datatype Outcome = Ok(value: Case) | Impossible

  datatype Case =
    | LIBRE | OBSTACLE | SAC | POUSSEUR | BUT | SAC_SUR_BUT | POUSSEUR_SUR_BUT | INVALIDE
  {
    function Contenu(): bv8 {
      match this
      case LIBRE => 0
      case OBSTACLE => 2
      case SAC => 4
      case POUSSEUR => 8
      case BUT => 16
      case SAC_SUR_BUT => 20
      case POUSSEUR_SUR_BUT => 24
      case INVALIDE => 32
    }

    predicate Contient(c: Case) {
      (Contenu() & c.Contenu()) == c.Contenu()
    }

    predicate EstLibre() {
      Contenu() == 0 || Contenu() == 16
    }

    function Ajout(c: Case): Outcome {
      var code := Contenu() | c.Contenu();
      if code == 4 then Ok(SAC)
      else if code == 8 then Ok(POUSSEUR)
      else if code == 20 then Ok(SAC_SUR_BUT)
      else if code == 24 then Ok(POUSSEUR_SUR_BUT)
      else Impossible
    }

    function Retrait(c: Case): Outcome {
      var code := Contenu() & !c.Contenu();
      if code == 0 then Ok(LIBRE)
      else if code == 16 then Ok(BUT)
      else Impossible
    }
  }

  /** Content by content, which cells hold what. */
  lemma Holding(c: Case)
    ensures c.EstLibre() <==> c == LIBRE || c == BUT
    ensures c.Contient(POUSSEUR) <==> c == POUSSEUR || c == POUSSEUR_SUR_BUT
    ensures c.Contient(SAC) <==> c == SAC || c == SAC_SUR_BUT
    ensures c.Contient(BUT) <==> c == BUT || c == SAC_SUR_BUT || c == POUSSEUR_SUR_BUT
    ensures c.Contient(OBSTACLE) <==> c == OBSTACLE
  {
  }

  /** Putting the pusher down works exactly on free cells and pusher cells, and keeps the goal. */
  lemma AjoutPousseur(c: Case)
    ensures c.Ajout(POUSSEUR).Ok? <==> c.EstLibre() || c.Contient(POUSSEUR)
    ensures c.EstLibre() ==> c.Ajout(POUSSEUR) == Ok(if c == BUT then POUSSEUR_SUR_BUT else POUSSEUR)
  {
  }

  /** Lifting the pusher or the sack off a cell that holds it leaves the goal or nothing. */
  lemma RetraitPresent(c: Case, d: Case)
    requires (d == POUSSEUR || d == SAC) && c.Contient(d)
    ensures c.Retrait(d) == Ok(if c.Contient(BUT) then BUT else LIBRE)
  {
  }

  /** What stands on a cell, apart from the code. */
  datatype Choses = Choses(mur: bool, sac: bool, pousseur: bool, but: bool, hors: bool)

  function Sur(c: Case): Choses {
    match c
    case LIBRE => Choses(false, false, false, false, false)
    case OBSTACLE => Choses(true, false, false, false, false)
    case SAC => Choses(false, true, false, false, false)
    case POUSSEUR => Choses(false, false, true, false, false)
    case BUT => Choses(false, false, false, true, false)
    case SAC_SUR_BUT => Choses(false, true, false, true, false)
    case POUSSEUR_SUR_BUT => Choses(false, false, true, true, false)
    case INVALIDE => Choses(false, false, false, false, true)
  }

  function Union(a: Choses, b: Choses): Choses {
    Choses(a.mur || b.mur, a.sac || b.sac, a.pousseur || b.pousseur, a.but || b.but, a.hors || b.hors)
  }

  function Difference(a: Choses, b: Choses): Choses {
    Choses(a.mur && !b.mur, a.sac && !b.sac, a.pousseur && !b.pousseur, a.but && !b.but, a.hors && !b.hors)
  }

  /** contient is inclusion, and estLibre is holding at most a goal. */
  lemma ContientEstInclus(c: Case, d: Case)
    ensures c.Contient(d) <==> Union(Sur(c), Sur(d)) == Sur(c)
    ensures c.EstLibre() <==> Difference(Sur(c), Sur(BUT)) == Sur(LIBRE)
  {
  }

  /** ajout gives the cell with the things of both, if that is a sack or a pusher, on a goal or not; it throws otherwise. */
  lemma AjoutEstUnion(c: Case, d: Case)
    ensures var u := Union(Sur(c), Sur(d));
            match c.Ajout(d)
            case Ok(r) => Sur(r) == u && u.sac != u.pousseur
            case Impossible => u.sac == u.pousseur || u.mur || u.hors
  {
  }

  /** retrait gives the cell without the things of the other, if a goal or nothing is left; it throws otherwise. */
  lemma RetraitEstDifference(c: Case, d: Case)
    ensures var u := Difference(Sur(c), Sur(d));
            match c.Retrait(d)
            case Ok(r) => Sur(r) == u
            case Impossible => u.mur || u.sac || u.pousseur || u.hors
  {
  }
}
