/**
  * SR/TD4/tell_wait.c and slow_write.c: a parent tells, a child waits, by signals.
  * Each process runs a list of actions; the scheduler interleaves their steps.
  */
module TellWait {

  datatype Acte = Ecrit(c: char) | Dit | Attend

  /** In wait_parent: about to test the flag, called or calling sigsuspend, or past the loop with the flag still up. */
  datatype Phase = Teste | Suspendu | Sorti

  /**
    * pendant: SIGUSR2 is pending for the child; autre: another caught signal is;
    * bloque: both were blocked before the fork, so that they are delivered only inside sigsuspend.
    * The counters are kept for the statements: tells, deliveries of SIGUSR2, and waits that have returned.
    */
  datatype Etat = Etat(
    parent: seq<Acte>, enfant: seq<Acte>, phase: Phase,
    pendant: bool, autre: bool, flag: bool, bloque: bool,
    sortie: string, dits: nat, livres: nat, retours: nat)

  datatype Pas = Parent | Enfant | Signal | Livraison

  function PasParent(s: Etat): Etat {
    if s.parent == [] then s
    else
      match s.parent[0]
      case Ecrit(c) => s.(sortie := s.sortie + [c], parent := s.parent[1..])
      case Dit => s.(pendant := true, dits := s.dits + 1, parent := s.parent[1..])
      case Attend => s
  }

  /** The handlers of the pending signals run; SIGUSR2's raises the flag. */
  function Livre(s: Etat): Etat {
    s.(flag := s.flag || s.pendant, livres := s.livres + if s.pendant then 1 else 0, pendant := false, autre := false)
  }

  function PasEnfant(s: Etat): Etat {
    if s.enfant == [] then s
    else
      match s.enfant[0]
      case Ecrit(c) => s.(sortie := s.sortie + [c], enfant := s.enfant[1..])
      case Dit => s
      case Attend =>
        match s.phase
        case Teste => s.(phase := if s.flag then Sorti else Suspendu)
        case Suspendu => if s.pendant || s.autre then Livre(s).(phase := Teste) else s
        case Sorti => s.(flag := false, phase := Teste, retours := s.retours + 1, enfant := s.enfant[1..])
  }

  /** Livraison: a signal that is not blocked is handled wherever the child is. */
  function Step(s: Etat, p: Pas): Etat {
    match p
    case Parent => PasParent(s)
    case Enfant => PasEnfant(s)
    case Signal => s.(autre := true)
    case Livraison => if s.bloque then s else Livre(s)
  }

  function Run(s: Etat, plan: seq<Pas>): Etat
    decreases |plan|
  {
    if plan == [] then s else Step(Run(s, plan[..|plan| - 1]), plan[|plan| - 1])
  }

  /** After init_synchro and the fork, with the signals blocked or not. */
  function Depart(parent: seq<Acte>, enfant: seq<Acte>, bloque: bool): Etat {
    Etat(parent, enfant, Teste, false, false, false, bloque, "", 0, 0, 0)
  }

  // ---- the rendezvous ----

  /** Every delivery has its wait: returned, or on its way with the flag up. */
  predicate Inv(s: Etat) {
    && s.bloque
    && s.livres == s.retours + (if s.flag then 1 else 0)
    && s.livres + (if s.pendant then 1 else 0) <= s.dits
    && (s.phase == Sorti ==> s.flag) && (s.phase == Suspendu ==> !s.flag)
    && (s.phase != Teste ==> s.enfant != [] && s.enfant[0] == Attend)
  }

  lemma ParentInv(s: Etat)
    requires Inv(s)
    ensures Inv(PasParent(s))
  {
  }

  lemma EnfantInv(s: Etat)
    requires Inv(s)
    ensures Inv(PasEnfant(s))
  {
  }

  lemma {:induction false} RunInv(s: Etat, plan: seq<Pas>)
    requires Inv(s)
    ensures Inv(Run(s, plan))
    decreases |plan|
  {
    if plan != [] {
      RunInv(s, plan[..|plan| - 1]);
      ParentInv(Run(s, plan[..|plan| - 1]));
      EnfantInv(Run(s, plan[..|plan| - 1]));
    }
  }

  /** No wait returns before its tell. */
  lemma RetourApresAppel(parent: seq<Acte>, enfant: seq<Acte>, plan: seq<Pas>)
    ensures var s := Run(Depart(parent, enfant, true), plan); s.retours <= s.livres <= s.dits
  {
    RunInv(Depart(parent, enfant, true), plan);
  }

  /** How many tells of the run found the signal of an earlier one still pending. */
  function Reunis(s: Etat, plan: seq<Pas>): nat
    decreases |plan|
  {
    if plan == [] then 0
    else
      var s' := Run(s, plan[..|plan| - 1]);
      Reunis(s, plan[..|plan| - 1])
      + if plan[|plan| - 1] == Parent && s'.parent != [] && s'.parent[0] == Dit && s'.pendant then 1 else 0
  }

  /** Each tell is delivered, pending, or merged into one that was pending. */
  lemma {:induction false} Bilan(parent: seq<Acte>, enfant: seq<Acte>, plan: seq<Pas>)
    ensures var d := Depart(parent, enfant, true);
            var s := Run(d, plan);
            s.dits == s.livres + (if s.pendant then 1 else 0) + Reunis(d, plan)
    decreases |plan|
  {
    var d := Depart(parent, enfant, true);
    if plan != [] {
      Bilan(parent, enfant, plan[..|plan| - 1]);
      PasBilan(Run(d, plan[..|plan| - 1]), plan[|plan| - 1]);
    }
  }

  lemma PasBilan(s: Etat, p: Pas)
    ensures var s' := Step(s, p);
            s'.dits - s'.livres - (if s'.pendant then 1 else 0)
            == s.dits - s.livres - (if s.pendant then 1 else 0)
               + if p == Parent && s.parent != [] && s.parent[0] == Dit && s.pendant then 1 else 0
  {
  }

  /** Every tell wakes a wait of its own exactly when none found the signal already pending. */
  lemma ChacunSonReveil(parent: seq<Acte>, enfant: seq<Acte>, plan: seq<Pas>)
    ensures var d := Depart(parent, enfant, true);
            var s := Run(d, plan);
            s.dits == s.livres + (if s.pendant then 1 else 0) <==> Reunis(d, plan) == 0
  {
    Bilan(parent, enfant, plan);
  }

  /**
    * No wake-up is lost: after a tell, until the wait it is delivered to returns, the signal is pending or the flag
    * is up; a tell that falls between the loop exit and the reset stays pending for the next wait.
    */
  lemma {:induction false} PasPerdu(s: Etat, plan: seq<Pas>)
    requires Inv(s) && s.pendant
    ensures Run(s, plan).livres >= s.livres
    ensures var s' := Run(s, plan);
            s'.pendant || s'.livres > s.livres
    ensures var s' := Run(s, plan);
            s'.pendant || s'.flag || s'.retours > s.livres
    decreases |plan|
  {
    if plan != [] {
      var init := plan[..|plan| - 1];
      PasPerdu(s, init);
      RunInv(s, init);
      RunInv(s, plan);
    }
  }

  function Compte(plan: seq<Pas>, p: Pas): nat {
    if plan == [] then 0 else Compte(plan[..|plan| - 1], p) + if plan[|plan| - 1] == p then 1 else 0
  }

  /** How many steps of its own a called child is from returning. */
  function Besoin(s: Etat): nat {
    match s.phase
    case Sorti => 1
    case Suspendu => 3
    case Teste => if s.flag then 2 else 4
  }

  /** The child waits, and its wake-up is pending or delivered. */
  predicate Appele(s: Etat) {
    Inv(s) && s.enfant != [] && s.enfant[0] == Attend && (s.pendant || s.flag)
  }

  lemma PasAppele(s: Etat, p: Pas)
    requires Appele(s)
    ensures var s' := Step(s, p);
            || s'.retours == s.retours + 1
            || (Appele(s') && s'.retours == s.retours && Besoin(s') + (if p == Enfant then 1 else 0) <= Besoin(s))
  {
  }

  lemma RetoursCroissent(s: Etat, p: Pas)
    ensures Step(s, p).retours >= s.retours
  {
  }

  /** Whatever else happens in between, a called child returns by its own fourth step at the latest. */
  lemma {:induction false} Reveille(s: Etat, plan: seq<Pas>)
    requires Appele(s)
    ensures var s' := Run(s, plan);
            || s'.retours > s.retours
            || (Appele(s') && s'.retours == s.retours && Besoin(s') + Compte(plan, Enfant) <= Besoin(s))
    ensures Compte(plan, Enfant) >= 4 ==> Run(s, plan).retours > s.retours
    decreases |plan|
  {
    if plan != [] {
      var init := plan[..|plan| - 1];
      Reveille(s, init);
      RetoursCroissent(Run(s, init), plan[|plan| - 1]);
      if Run(s, init).retours == s.retours { PasAppele(Run(s, init), plan[|plan| - 1]); }
    }
  }

  /** A child woken by the other signal alone tests the flag again and sleeps on. */
  lemma AutreSignal(s: Etat)
    requires Inv(s) && s.phase == Suspendu && !s.pendant
    ensures PasEnfant(Step(s, Signal)).phase == Teste
    ensures PasEnfant(PasEnfant(Step(s, Signal))) == s.(autre := false)
  {
  }

  /**
    * Without the mask the rendezvous fails: a delivery between the test and sigsuspend leaves the flag up
    * and the child asleep, and no step of either process wakes it.
    */
  lemma SansMasquePerdu(plan: seq<Pas>)
    requires forall p :: p in plan ==> p != Signal
    ensures var s := Run(Run(Depart([Dit], [Attend], false), [Enfant, Parent, Livraison]), plan);
            s.parent == [] && s.flag && s.phase == Suspendu && s.retours == 0
    decreases |plan|
  {
    var d := Depart([Dit], [Attend], false);
    assert [Enfant, Parent, Livraison][..2] == [Enfant, Parent] && [Enfant, Parent][..1] == [Enfant] && [Enfant][..0] == [];
    assert Run(d, [Enfant]) == Step(d, Enfant);
    assert Run(d, [Enfant, Parent]) == Step(Step(d, Enfant), Parent);
    var s0 := Run(d, [Enfant, Parent, Livraison]);
    assert s0 == Step(Step(Step(d, Enfant), Parent), Livraison);
    Endormi(s0, plan);
  }

  lemma {:induction false} Endormi(s: Etat, plan: seq<Pas>)
    requires s.parent == [] && s.enfant == [Attend] && s.phase == Suspendu && !s.pendant && !s.autre
    requires forall p :: p in plan ==> p != Signal
    ensures Run(s, plan) == s
    decreases |plan|
  {
    if plan != [] {
      var init := plan[..|plan| - 1];
      assert plan == init + [plan[|plan| - 1]];
      assert forall p :: p in init ==> p in plan;
      assert plan[|plan| - 1] in plan;
      Endormi(s, init);
      assert Step(s, plan[|plan| - 1]) == s;
    }
  }

  // ---- slow_write ----

  function Texte(t: string): seq<Acte> {
    seq(|t|, k requires 0 <= k < |t| => Ecrit(t[k]))
  }

  /** The program: the parent writes its text and tells; the child waits and writes its own. */
  function SlowWrite(p: string, e: string): Etat {
    Depart(Texte(p) + [Dit], [Attend] + Texte(e), true)
  }

  /** The parent has written i letters, the child j, and the child none before the parent's last. */
  predicate EnOrdre(p: string, e: string, i: nat, j: nat, s: Etat) {
    && i <= |p| && j <= |e| && (j > 0 ==> i == |p|)
    && s.sortie == p[..i] + e[..j]
  }

  predicate Avancee(p: string, e: string, i: nat, j: nat, s: Etat) {
    && EnOrdre(p, e, i, j, s) && Inv(s)
    && s.parent == (if s.dits == 0 then Texte(p[i..]) + [Dit] else [])
    && (s.dits > 0 ==> i == |p|)
    && s.enfant == (if s.retours == 0 then [Attend] + Texte(e[j..]) else Texte(e[j..]))
    && (s.retours == 0 ==> j == 0) && (s.retours > 0 ==> s.dits > 0)
    && (s.dits > 0 ==> s.pendant || s.livres > 0)
  }

  lemma TexteTete(t: string)
    requires t != []
    ensures Texte(t) == [Ecrit(t[0])] + Texte(t[1..])
  {
  }

  lemma ParentAvance(p: string, e: string, i: nat, j: nat, s: Etat) returns (i': nat)
    requires Avancee(p, e, i, j, s)
    ensures Avancee(p, e, i', j, PasParent(s))
  {
    i' := i;
    if s.dits == 0 && i < |p| {
      TexteTete(p[i..]);
      assert p[i..][1..] == p[i + 1..] && p[..i] + [p[i]] == p[..i + 1];
      assert s.sortie == p[..i];
      assert s.parent[1..] == Texte(p[i + 1..]) + [Dit];
      i' := i + 1;
    } else if s.dits == 0 {
      assert s.parent == [Dit];
    }
  }

  /** The child's step while it waits. */
  lemma EnfantAttend(p: string, e: string, i: nat, s: Etat)
    requires Avancee(p, e, i, 0, s) && s.retours == 0
    ensures Avancee(p, e, i, 0, PasEnfant(s))
  {
    EnfantInv(s);
    assert s.enfant[0] == Attend && s.enfant[1..] == Texte(e[0..]);
  }

  /** The child's step while it writes. */
  lemma EnfantEcrit(p: string, e: string, i: nat, j: nat, s: Etat)
    requires Avancee(p, e, i, j, s) && s.retours > 0 && j < |e|
    ensures Avancee(p, e, i, j + 1, PasEnfant(s))
  {
    EnfantInv(s);
    TexteTete(e[j..]);
    assert e[j..][1..] == e[j + 1..] && e[..j] + [e[j]] == e[..j + 1];
    assert s.enfant[1..] == Texte(e[j + 1..]);
    assert s.sortie + [e[j]] == p[..i] + e[..j + 1];
  }

  lemma EnfantAvance(p: string, e: string, i: nat, j: nat, s: Etat) returns (j': nat)
    requires Avancee(p, e, i, j, s)
    ensures Avancee(p, e, i, j', PasEnfant(s))
  {
    j' := j;
    if s.retours == 0 {
      EnfantAttend(p, e, i, s);
    } else if j < |e| {
      EnfantEcrit(p, e, i, j, s);
      j' := j + 1;
    }
  }

  lemma {:induction false} RunAvance(p: string, e: string, plan: seq<Pas>) returns (i: nat, j: nat)
    ensures Avancee(p, e, i, j, Run(SlowWrite(p, e), plan))
    decreases |plan|
  {
    if plan == [] {
      i, j := 0, 0;
      assert p[0..] == p && e[0..] == e;
    } else {
      i, j := RunAvance(p, e, plan[..|plan| - 1]);
      var s := Run(SlowWrite(p, e), plan[..|plan| - 1]);
      match plan[|plan| - 1]
      case Parent => i := ParentAvance(p, e, i, j, s);
      case Enfant => j := EnfantAvance(p, e, i, j, s);
      case Signal =>
      case Livraison =>
    }
  }

  /** In every run, the child writes nothing before the whole of the parent's text is out. */
  lemma ParentDAbord(p: string, e: string, plan: seq<Pas>)
    ensures exists i, j :: EnOrdre(p, e, i, j, Run(SlowWrite(p, e), plan))
  {
    var i, j := RunAvance(p, e, plan);
  }

  /** Until both are through, one of them has a step to take; once they are, both texts are out, the parent's first. */
  lemma JusquAuBout(p: string, e: string, plan: seq<Pas>)
    ensures var s := Run(SlowWrite(p, e), plan);
            if s.parent == [] && s.enfant == [] then s.sortie == p + e
            else PasParent(s) != s || PasEnfant(s) != s
  {
    var i, j := RunAvance(p, e, plan);
    assert p[..|p|] == p && e[..|e|] == e;
  }
}
