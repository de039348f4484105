/**
  * SR/TP5/peterson.c: two processes, three shared cells. Every read and write of a cell is one step; the entry and
  * exit code repeats without bound, of which the program's single pass is a prefix.
  */
module Peterson {

  /** Where a process stands: outside, flag raised, about to read the other's flag, about to read the turn, inside. */
  datatype Pc = Dehors | Leve | LitDrapeau | LitTour | Critique

  /** The cells C1, C2 and T_pet, and the two processes. */
  datatype Etat = Etat(c1: int, c2: int, t: int, p1: Pc, p2: Pc)

  datatype Qui = Fils | Pere

  const INIT := Etat(0, 0, 1, Dehors, Dehors)

  /** The child: raises C1, gives the turn to 2, waits while C2 is raised and the turn is 2. */
  function PasFils(s: Etat): Etat {
    match s.p1
    case Dehors => s.(c1 := 1, p1 := Leve)
    case Leve => s.(t := 2, p1 := LitDrapeau)
    case LitDrapeau => s.(p1 := if s.c2 == 1 then LitTour else Critique)
    case LitTour => s.(p1 := if s.t == 2 then LitDrapeau else Critique)
    case Critique => s.(c1 := 0, p1 := Dehors)
  }

  /** The parent: raises C2, gives the turn to 1, waits while C1 is raised and the turn is 1. */
  function PasPere(s: Etat): Etat {
    match s.p2
    case Dehors => s.(c2 := 1, p2 := Leve)
    case Leve => s.(t := 1, p2 := LitDrapeau)
    case LitDrapeau => s.(p2 := if s.c1 == 1 then LitTour else Critique)
    case LitTour => s.(p2 := if s.t == 1 then LitDrapeau else Critique)
    case Critique => s.(c2 := 0, p2 := Dehors)
  }

  function Pas(s: Etat, q: Qui): Etat {
    if q == Fils then PasFils(s) else PasPere(s)
  }

  function Run(s: Etat, plan: seq<Qui>): Etat {
    if plan == [] then s else Pas(Run(s, plan[..|plan| - 1]), plan[|plan| - 1])
  }

  predicate Attend(p: Pc) { p == LitDrapeau || p == LitTour }

  /** While one process is inside, the other, once it has given the turn away, finds it against itself. */
  predicate Inv(s: Etat) {
    && s.c1 == (if s.p1 == Dehors then 0 else 1)
    && s.c2 == (if s.p2 == Dehors then 0 else 1)
    && (s.t == 1 || s.t == 2)
    && (s.p1 == Critique && (Attend(s.p2) || s.p2 == Critique) ==> s.t == 1)
    && (s.p2 == Critique && (Attend(s.p1) || s.p1 == Critique) ==> s.t == 2)
  }

  lemma {:induction false} RunInv(plan: seq<Qui>)
    ensures Inv(Run(INIT, plan))
  {
    if plan != [] { RunInv(plan[..|plan| - 1]); }
  }

  /** In every interleaving the two are never inside together. */
  lemma ExclusionMutuelle(plan: seq<Qui>)
    ensures !(Run(INIT, plan).p1 == Critique && Run(INIT, plan).p2 == Critique)
  {
    RunInv(plan);
  }

  // ---- they never hold each other up ----

  function Compte(plan: seq<Qui>, q: Qui): nat {
    if plan == [] then 0 else Compte(plan[1..], q) + if plan[0] == q then 1 else 0
  }

  /** Who the turn favours when both wait. */
  function Favori(s: Etat): Qui { if s.t == 1 then Fils else Pere }

  function Position(s: Etat, q: Qui): Pc { if q == Fils then s.p1 else s.p2 }

  /** How many of its own steps the favoured process is from entering. */
  function Reste(p: Pc): nat {
    match p case LitDrapeau => 2 case LitTour => 1 case _ => 0
  }

  lemma {:induction false} RunFirst(s: Etat, plan: seq<Qui>)
    requires plan != []
    ensures Run(s, plan) == Run(Pas(s, plan[0]), plan[1..])
    decreases |plan|
  {
    if |plan| == 1 {
      assert plan[..0] == [] && plan[1..] == [];
    } else {
      RunFirst(s, plan[..|plan| - 1]);
      assert plan[..|plan| - 1][1..] == plan[1..][..|plan| - 2];
    }
  }

  /**
    * When both wait, the favoured process enters as soon as it has made two steps of its own,
    * however many the other makes in between; so they are never both held for ever.
    */
  lemma JamaisTousDeux(s: Etat, plan: seq<Qui>) returns (k: nat)
    requires Inv(s) && Attend(s.p1) && Attend(s.p2)
    requires Compte(plan, Favori(s)) >= Reste(Position(s, Favori(s)))
    ensures k <= |plan| && Position(Run(s, plan[..k]), Favori(s)) == Critique
  {
    k := FavoriEntre(s, plan, Favori(s));
  }

  // ---- nor overtakes a waiting one twice ----

  /** The entries of q into its critical section along the plan. */
  function Entrees(s: Etat, plan: seq<Qui>, q: Qui): nat
    decreases |plan|
  {
    if plan == [] then 0
    else
      var s' := Pas(s, plan[0]);
      Entrees(s', plan[1..], q) + if Position(s, q) != Critique && Position(s', q) == Critique then 1 else 0
  }

  /** The process waits in every state of the run. */
  predicate AttendToujours(s: Etat, plan: seq<Qui>, q: Qui)
    decreases |plan|
  {
    Attend(Position(s, q)) && (plan != [] ==> AttendToujours(Pas(s, plan[0]), plan[1..], q))
  }

  function Autre(q: Qui): Qui { if q == Fils then Pere else Fils }

  /** The one entry the other process may still make before the waiting one. */
  function Passage(s: Etat, q: Qui): nat {
    if Favori(s) == Autre(q) && Attend(Position(s, Autre(q))) then 1 else 0
  }

  /** While a process waits, the other enters at most once, and not at all unless the turn already favours it. */
  lemma {:induction false} UnSeulDepassement(s: Etat, plan: seq<Qui>, q: Qui)
    requires Inv(s) && AttendToujours(s, plan, q)
    ensures Entrees(s, plan, Autre(q)) <= Passage(s, q)
    decreases |plan|
  {
    if plan != [] {
      UnSeulDepassement(Pas(s, plan[0]), plan[1..], q);
    }
  }

  // ---- every wait ends ----

  /** How many steps the other process makes, at most, before the turn favours the waiting q. */
  function Retard(s: Etat, q: Qui): nat {
    if Favori(s) == q then 0
    else
      match Position(s, Autre(q))
      case LitDrapeau => 5
      case LitTour => 4
      case Critique => 3
      case Dehors => 2
      case Leve => 1
  }

  function Moins(n: nat): nat { if n == 0 then 0 else n - 1 }

  /** A step leaves q waiting, no later in its turn and nearer to it when the step is the other's, or lets q in. */
  lemma PasAttente(s: Etat, p: Qui, q: Qui)
    requires Inv(s) && Attend(Position(s, q))
    ensures var s' := Pas(s, p);
            && Inv(s')
            && (Position(s', q) == Critique
                || (Attend(Position(s', q)) && Retard(s', q) <= if p == q then Retard(s, q) else Moins(Retard(s, q))))
  {
  }

  /** While q waits, the turn comes to it within as many steps of the other as it is late. */
  lemma {:induction false} TourVient(s: Etat, plan: seq<Qui>, q: Qui) returns (k: nat)
    requires Inv(s) && Attend(Position(s, q)) && Compte(plan, Autre(q)) >= Retard(s, q)
    ensures k <= |plan| && Inv(Run(s, plan[..k]))
    ensures var s' := Run(s, plan[..k]);
            Position(s', q) == Critique || (k == |plan| && Attend(Position(s', q)) && Favori(s') == q)
    decreases |plan|
  {
    if plan == [] {
      k := 0;
    } else {
      PasAttente(s, plan[0], q);
      var s' := Pas(s, plan[0]);
      assert plan[..1] == [plan[0]] && [plan[0]][..0] == [];
      if Position(s', q) == Critique {
        assert Run(s, [plan[0]]) == s';
        k := 1;
      } else {
        var j := TourVient(s', plan[1..], q);
        k := j + 1;
        RunFirst(s, plan[..k]);
        assert plan[..k][1..] == plan[1..][..j];
      }
    }
  }

  /** A process that waits with the turn for it enters by its own second step, wherever the other is. */
  lemma {:induction false} FavoriEntre(s: Etat, plan: seq<Qui>, q: Qui) returns (k: nat)
    requires Inv(s) && Attend(Position(s, q)) && Favori(s) == q && Compte(plan, q) >= Reste(Position(s, q))
    ensures k <= |plan| && Position(Run(s, plan[..k]), q) == Critique
    decreases |plan|
  {
    PasAttente(s, plan[0], q);
    var s' := Pas(s, plan[0]);
    assert plan[..1] == [plan[0]] && [plan[0]][..0] == [];
    if Position(s', q) == Critique {
      assert Run(s, [plan[0]]) == s';
      k := 1;
    } else {
      var j := FavoriEntre(s', plan[1..], q);
      k := j + 1;
      RunFirst(s, plan[..k]);
      assert plan[..k][1..] == plan[1..][..j];
    }
  }

  lemma {:induction false} RunConcat(s: Etat, a: seq<Qui>, b: seq<Qui>)
    ensures Run(s, a + b) == Run(Run(s, a), b)
    decreases |b|
  {
    if b == [] {
      assert a + b == a;
    } else {
      assert (a + b)[..|a + b| - 1] == a + b[..|b| - 1];
      RunConcat(s, a, b[..|b| - 1]);
    }
  }

  /** Whoever waits is in once the other has made five steps and, after those, it has made two of its own. */
  lemma AttenteBornee(s: Etat, a: seq<Qui>, b: seq<Qui>, q: Qui) returns (k: nat)
    requires Inv(s) && Attend(Position(s, q)) && Compte(a, Autre(q)) >= 5 && Compte(b, q) >= 2
    ensures k <= |a + b| && Position(Run(s, (a + b)[..k]), q) == Critique
  {
    var i := TourVient(s, a, q);
    if Position(Run(s, a[..i]), q) == Critique {
      k := i;
      assert (a + b)[..k] == a[..i];
    } else {
      assert a[..i] == a;
      var j := FavoriEntre(Run(s, a), b, q);
      k := |a| + j;
      assert (a + b)[..k] == a + b[..j];
      RunConcat(s, a, b[..j]);
    }
  }

  /** Nor does a process that stays outside hold the other up: two steps of its own let it in. */
  lemma SansConcurrent(s: Etat, q: Qui)
    requires Inv(s) && Attend(Position(s, q)) && Position(s, Autre(q)) == Dehors
    ensures Position(Pas(s, q), q) == Critique || Position(Pas(Pas(s, q), q), q) == Critique
  {
  }
}
