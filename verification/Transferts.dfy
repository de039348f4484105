/**
  * SR/projet_ftp (slave.c, client.c, master.c): GET and its resumption after silent client crashes.
  * One client address; a crash is silence, noticed by a timeout; one socket write is one read; names arrive whole;
  * the server's files do not change. Master and slave do not fail, so an exchange between them is one step.
  * A running client answers in time, except at its prompt.
  */
module Transferts {
  import opened Registres

  type Byte = b: int | 0 <= b < 256

  type Bytes = seq<Byte>

  type Fichiers = map<string, Bytes>

  const MAXLINE := 8192

  const IP := "client"

  datatype Msg =
    | OK | GET | REPRISE | DEFAUT
    | NOM(nom: string) | OFFSET(n: int) | TAILLE(n: int) | DONNEES(b: Bytes)

  /** Where the client stands in client.c; the numbers are its locals nb and nb_octets. COrphelin: its slave has left. */
  datatype Client =
    | CMort
    | COrphelin
    | CAccueil
    | CPret
    | CGet(nom: string)
    | CNomEnvoye(nom: string)
    | CNomReprise
    | COffset(nom: string)
    | CTaille(nom: string, nb: int)
    | CReception(nom: string, nb: int, total: int)
    | CLu(nom: string, nb: int, total: int, b: Bytes)
    | CEcrit(nom: string, nb: int, total: int)

  /** Where the slave stands in slave.c; after SAcq(debut, nb) it has sent the bytes from debut to nb. */
  datatype Slave =
    | SLibre
    | SReprise1(nom: string, nb: int)
    | SReprise2(nom: string, nb: int)
    | SReprise3(nom: string, nb: int)
    | SReprise4(nom: string, nb: int, total: int)
    | SBoucle
    | SNom
    | SOkGet(nom: string, total: int)
    | SEnvoi(nom: string, nb: int, total: int)
    | SAcq(nom: string, debut: int, nb: int, total: int)

  /** disk: the client's files, which outlive its crashes; s2c and c2s: what is on the way. */
  datatype Etat = Etat(disk: Fichiers, client: Client, slave: Slave, s2c: seq<Msg>, c2s: seq<Msg>, registre: seq<Entree>)

  // ---- the client ----

  /** write at position nb, over what the file held: the file is opened without truncation. */
  function Ecrire(f: Bytes, nb: int, b: Bytes): (r: Bytes)
    requires 0 <= nb <= |f|
    ensures |r| == if nb + |b| <= |f| then |f| else nb + |b|
    ensures forall i :: 0 <= i < |r| ==> r[i] == if nb <= i < nb + |b| then b[i - nb] else f[i]
  {
    f[..nb] + b + if nb + |b| <= |f| then f[nb + |b|..] else []
  }

  /** The client runs to its next blocking point. */
  function ClientAvance(s: Etat): Etat {
    match s.client
    case CLu(nom, nb, total, b) =>
      if nom in s.disk && 0 <= nb <= |s.disk[nom]| then
        s.(disk := s.disk[nom := Ecrire(s.disk[nom], nb, b)], client := CEcrit(nom, nb + |b|, total))
      else s
    case CEcrit(nom, nb, total) =>
      s.(client := if nb < total then CReception(nom, nb, total) else CPret, c2s := s.c2s + [OK])
    case _ => if s.s2c == [] then s else ClientLit(s.(s2c := s.s2c[1..]), s.s2c[0])
  }

  function ClientLit(s: Etat, m: Msg): Etat {
    match (s.client, m)
    case (CAccueil, REPRISE) => s.(client := CNomReprise, c2s := s.c2s + [OK])
    case (CAccueil, DEFAUT) => s.(client := CPret)
    case (CGet(nom), OK) => s.(client := CNomEnvoye(nom), c2s := s.c2s + [NOM(nom)])
    case (CNomEnvoye(nom), TAILLE(n)) =>
      if n > 0 then
        s.(disk := if nom in s.disk then s.disk else s.disk[nom := []], client := CReception(nom, 0, n), c2s := s.c2s + [OK])
      else s.(client := CPret)
    case (CNomReprise, NOM(nom)) => s.(client := COffset(nom), c2s := s.c2s + [OK])
    case (COffset(nom), OFFSET(n)) => s.(client := CTaille(nom, n), c2s := s.c2s + [OK])
    case (CTaille(nom, nb), TAILLE(n)) =>
      if nom in s.disk then s.(client := if nb < n then CReception(nom, nb, n) else CPret, c2s := s.c2s + [OK])
      else s.(client := CMort)
    case (CReception(nom, nb, total), DONNEES(b)) => s.(client := CLu(nom, nb, total, b))
    case _ => s
  }

  // ---- the slave ----

  /** The end of the chunk that starts at nb. */
  function Suivant(nb: int, total: int): int {
    if total - nb < MAXLINE then total else nb + MAXLINE
  }

  /** The slave waits for an answer of the client. */
  predicate Attend(s: Slave) {
    !s.SLibre? && !s.SEnvoi?
  }

  /** The slave runs to its next wait, reading the answer it waits for if there is one. */
  function SlaveAvance(srv: Fichiers, s: Etat): Etat {
    match s.slave
    case SEnvoi(nom, nb, total) =>
      if nb < total then
        if nom in srv && 0 <= nb < total <= |srv[nom]| then
          var fin := Suivant(nb, total);
          s.(slave := SAcq(nom, nb, fin, total), s2c := s.s2c + [DONNEES(srv[nom][nb..fin])])
        else s
      else s.(slave := SBoucle)
    case _ => if s.c2s == [] then s else SlaveLit(srv, s.(c2s := s.c2s[1..]), Compris(s.slave, s.c2s[0]))
  }

  /** OK and GET are the same integer: which one it is depends on what the slave waits for. */
  function Compris(s: Slave, m: Msg): Msg {
    if m.OK? || m.GET? then if s.SBoucle? then GET else OK else m
  }

  function SlaveLit(srv: Fichiers, s: Etat, m: Msg): Etat {
    match (s.slave, m)
    case (SReprise1(nom, nb), OK) => s.(slave := SReprise2(nom, nb), s2c := s.s2c + [NOM(nom)])
    case (SReprise2(nom, nb), OK) => s.(slave := SReprise3(nom, nb), s2c := s.s2c + [OFFSET(nb)])
    case (SReprise3(nom, nb), OK) =>
      if nom in srv then s.(slave := SReprise4(nom, nb, |srv[nom]|), s2c := s.s2c + [TAILLE(|srv[nom]|)])
      else s
    case (SReprise4(nom, nb, total), OK) => s.(slave := SEnvoi(nom, nb, total))
    case (SBoucle, GET) => s.(slave := SNom, s2c := s.s2c + [OK])
    case (SNom, NOM(nom)) =>
      if nom in srv then s.(slave := SOkGet(nom, |srv[nom]|), s2c := s.s2c + [TAILLE(|srv[nom]|)])
      else s.(slave := SBoucle, s2c := s.s2c + [TAILLE(-1)])
    case (SOkGet(nom, total), OK) => s.(slave := SEnvoi(nom, 0, total))
    case (SAcq(nom, _, nb, total), OK) => s.(slave := SEnvoi(nom, nb, total))
    case _ => s
  }

  /** Nothing comes from the client: it is dead, at its prompt, or waiting itself. */
  predicate Muet(s: Etat) {
    s.c2s == [] && (s.client.CMort? || ((s.client.CPret? || s.client.CGet?) && s.s2c == []))
  }

  /** The wait times out: the client is given up, and an interrupted transfer registered MAXLINE bytes back. */
  function Delai(s: Etat): Etat {
    var registre := if s.slave.SAcq? && s.slave.nb - MAXLINE >= 0
                    then [Entree(IP, s.slave.nb - MAXLINE, s.slave.nom)] + s.registre
                    else s.registre;
    s.(client := if s.client.CMort? then CMort else COrphelin, slave := SLibre, s2c := [], c2s := [], registre := registre)
  }

  // ---- connection ----

  /** A new client process: the master gives the slave the registered interruption, if any, and forgets it. */
  function Connecte(s: Etat): Etat {
    if Contient(s.registre, IP) then
      var e := s.registre[Rang(s.registre, IP)];
      s.(client := CAccueil, slave := SReprise1(e.filename, e.nb_bytes), s2c := [REPRISE], c2s := [],
         registre := s.registre[1..])
    else
      s.(client := CAccueil, slave := SBoucle, s2c := [DEFAUT], c2s := [])
  }

  datatype Pas = Client_ | Slave_ | Demande(nom: string) | Crash | Timeout | Connexion

  /** One step; a step that is not enabled changes nothing. */
  function Step(srv: Fichiers, s: Etat, p: Pas): Etat {
    match p
    case Client_ => ClientAvance(s)
    case Slave_ => SlaveAvance(srv, s)
    case Demande(nom) =>
      if s.client.CPret? then s.(client := CGet(nom), c2s := s.c2s + [GET])
      else if s.client.COrphelin? then s.(client := CMort)
      else s
    case Crash => s.(client := CMort)
    case Timeout => if Attend(s.slave) && Muet(s) then Delai(s) else s
    case Connexion => if s.slave.SLibre? && s.client.CMort? then Connecte(s) else s
  }

  function Run(srv: Fichiers, s: Etat, pas: seq<Pas>): Etat {
    if pas == [] then s else Step(srv, Run(srv, s, pas[..|pas| - 1]), pas[|pas| - 1])
  }

  /** No client yet, nothing registered; the client may already hold any files. */
  predicate Initial(s: Etat) {
    s.client.CMort? && s.slave.SLibre? && s.s2c == [] && s.c2s == [] && s.registre == []
  }

  // ---- the invariant ----

  /** The client's file begins with the first k bytes of the server's. */
  predicate Correct(srv: Fichiers, disk: Fichiers, nom: string, k: int) {
    && nom in srv && nom in disk
    && 0 <= k <= |srv[nom]| && k <= |disk[nom]| && disk[nom][..k] == srv[nom][..k]
  }

  predicate Registrable(srv: Fichiers, disk: Fichiers, nom: string, nb: int) {
    Correct(srv, disk, nom, nb) && nb < |srv[nom]|
  }

  predicate RegistreOk(srv: Fichiers, s: Etat) {
    && |s.registre| <= 1 && (s.registre != [] ==> s.slave.SLibre?)
    && forall e :: e in s.registre ==> e.ip == IP && Registrable(srv, s.disk, e.filename, e.nb_bytes)
  }

  /** What the slave knows of the client's file, whether the client still runs or not. */
  predicate SlaveOk(srv: Fichiers, s: Etat) {
    match s.slave
    case SLibre => true
    case SReprise1(nom, nb) => Registrable(srv, s.disk, nom, nb) && (s.c2s == [] || s.c2s == [OK])
    case SReprise2(nom, nb) => Registrable(srv, s.disk, nom, nb) && (s.c2s == [] || s.c2s == [OK])
    case SReprise3(nom, nb) => Registrable(srv, s.disk, nom, nb) && (s.c2s == [] || s.c2s == [OK])
    case SReprise4(nom, nb, total) =>
      Registrable(srv, s.disk, nom, nb) && total == |srv[nom]| && (s.c2s == [] || s.c2s == [OK])
    case SBoucle => s.c2s == [] || s.c2s == [GET]
    case SNom => s.c2s == [] || (|s.c2s| == 1 && s.c2s[0].NOM?)
    case SOkGet(nom, total) =>
      && nom in srv && total == |srv[nom]|
      && (s.c2s == [] || (s.c2s == [OK] && Correct(srv, s.disk, nom, 0)) || (total == 0 && s.c2s == [GET]))
    case SEnvoi(nom, nb, total) =>
      && nom in srv && total == |srv[nom]|
      && (Correct(srv, s.disk, nom, nb) || nb == total == 0) && (s.c2s == [] || (nb == total && s.c2s == [GET]))
    case SAcq(nom, debut, nb, total) =>
      && Correct(srv, s.disk, nom, debut) && total == |srv[nom]| && debut < total && nb == Suivant(debut, total)
      && (s.c2s == [] || (Correct(srv, s.disk, nom, nb) && (s.c2s == [OK] || (nb == total && s.c2s == [OK, GET]))))
  }

  /** Exactly one of a pair of processes has the next move: what a running client, its slave and the wires can be. */
  predicate Accord(srv: Fichiers, s: Etat)
    requires SlaveOk(srv, s)
  {
    var c, down, up := s.client, s.s2c, s.c2s;
    match s.slave
    case SLibre => c == COrphelin && down == [] && up == []
    case SReprise1(nom, nb) => (c == CAccueil && down == [REPRISE] && up == []) || (c == CNomReprise && down == [] && up == [OK])
    case SReprise2(nom, nb) => (c == CNomReprise && down == [NOM(nom)] && up == []) || (c == COffset(nom) && down == [] && up == [OK])
    case SReprise3(nom, nb) => (c == COffset(nom) && down == [OFFSET(nb)] && up == []) || (c == CTaille(nom, nb) && down == [] && up == [OK])
    case SReprise4(nom, nb, total) =>
      (c == CTaille(nom, nb) && down == [TAILLE(total)] && up == []) || (c == CReception(nom, nb, total) && down == [] && up == [OK])
    case SBoucle =>
      || (c == CAccueil && down == [DEFAUT] && up == [])
      || (c == CPret && down == [] && up == [])
      || (c.CGet? && down == [] && (up == [GET] || up == []))
      || (c.CNomEnvoye? && down == [TAILLE(-1)] && up == [])
    case SNom => (c.CGet? && down == [OK] && up == []) || (c.CNomEnvoye? && down == [] && up == [NOM(c.nom)])
    case SOkGet(nom, total) =>
      || (c == CNomEnvoye(nom) && down == [TAILLE(total)] && up == [])
      || (down == [] && total > 0 && c == CReception(nom, 0, total) && up == [OK])
      || (down == [] && total == 0 && Suite(c, nom, 0, 0, up, []))
    case SEnvoi(nom, nb, total) => down == [] && (Suite(c, nom, nb, total, up, []) || (total == 0 && c.CGet? && up == []))
    case SAcq(nom, debut, nb, total) =>
      || (c == CReception(nom, debut, total) && down == [DONNEES(srv[nom][debut..nb])] && up == [])
      || (c == CLu(nom, debut, total, srv[nom][debut..nb]) && down == [] && up == [])
      || (c == CEcrit(nom, nb, total) && down == [] && up == [] && Correct(srv, s.disk, nom, nb))
      || (down == [] && Suite(c, nom, nb, total, up, [OK]))
  }

  /** After acknowledging up to nb, the client waits for more, or is at its prompt, or has asked for another file. */
  predicate Suite(c: Client, nom: string, nb: int, total: int, up: seq<Msg>, ack: seq<Msg>) {
    if nb < total then c == CReception(nom, nb, total) && up == ack
    else (c == CPret && up == ack) || (c.CGet? && up == ack + [GET])
  }

  predicate Inv(srv: Fichiers, s: Etat) {
    && RegistreOk(srv, s)
    && SlaveOk(srv, s)
    && (s.client.CMort? || Accord(srv, s))
  }

  // ---- correct prefixes only grow ----

  /** Writing the server's bytes behind a correct prefix. */
  lemma EcrireCorrect(srv: Fichiers, disk: Fichiers, nom: string, debut: int, fin: int)
    requires Correct(srv, disk, nom, debut) && debut <= fin <= |srv[nom]|
    ensures Correct(srv, disk[nom := Ecrire(disk[nom], debut, srv[nom][debut..fin])], nom, fin)
    ensures forall k :: Correct(srv, disk, nom, k) ==>
              Correct(srv, disk[nom := Ecrire(disk[nom], debut, srv[nom][debut..fin])], nom, k)
  {
  }

  /** Every correct prefix of any file stays one. */
  ghost predicate Grandit(srv: Fichiers, disk: Fichiers, disk': Fichiers) {
    forall nom, k :: Correct(srv, disk, nom, k) ==> Correct(srv, disk', nom, k)
  }

  /** What a running client does to its disk: nothing, a new empty file, or the chunk at its place. */
  lemma ClientGrandit(srv: Fichiers, s: Etat)
    requires Inv(srv, s)
    ensures Grandit(srv, s.disk, ClientAvance(s).disk)
  {
    if s.client.CLu? {
      var CLu(nom, debut, total, b) := s.client;
      assert s.slave.SAcq?;
      EcrireCorrect(srv, s.disk, nom, debut, s.slave.nb);
    }
  }

  lemma StepGrandit(srv: Fichiers, s: Etat, p: Pas)
    requires Inv(srv, s)
    ensures Grandit(srv, s.disk, Step(srv, s, p).disk)
  {
    if p.Client_? { ClientGrandit(srv, s); }
  }

  lemma EcritureInv(srv: Fichiers, s: Etat)
    requires Inv(srv, s) && s.client.CLu?
    ensures Inv(srv, ClientAvance(s))
  {
    ClientGrandit(srv, s);
    EcrireCorrect(srv, s.disk, s.client.nom, s.client.nb, s.slave.nb);
  }

  lemma RepriseClientInv(srv: Fichiers, s: Etat)
    requires Inv(srv, s) && (s.slave.SReprise1? || s.slave.SReprise2? || s.slave.SReprise3? || s.slave.SReprise4?)
    ensures Inv(srv, ClientAvance(s))
  {
  }

  lemma EnvoiClientInv(srv: Fichiers, s: Etat)
    requires Inv(srv, s) && (s.slave.SEnvoi? || s.slave.SAcq?) && !s.client.CLu?
    ensures Inv(srv, ClientAvance(s))
  {
  }

  lemma ClientInv(srv: Fichiers, s: Etat)
    requires Inv(srv, s)
    ensures Inv(srv, ClientAvance(s))
  {
    if s.client.CLu? {
      EcritureInv(srv, s);
    } else if s.slave.SReprise1? || s.slave.SReprise2? || s.slave.SReprise3? || s.slave.SReprise4? {
      RepriseClientInv(srv, s);
    } else if s.slave.SEnvoi? || s.slave.SAcq? {
      EnvoiClientInv(srv, s);
    } else {
      ClientGrandit(srv, s);
    }
  }

  lemma RepriseSlaveInv(srv: Fichiers, s: Etat)
    requires Inv(srv, s) && (s.slave.SReprise1? || s.slave.SReprise2? || s.slave.SReprise3? || s.slave.SReprise4?)
    ensures Inv(srv, SlaveAvance(srv, s))
  {
  }

  lemma EnvoiSlaveInv(srv: Fichiers, s: Etat)
    requires Inv(srv, s) && (s.slave.SEnvoi? || s.slave.SAcq?)
    ensures Inv(srv, SlaveAvance(srv, s))
  {
  }

  lemma SlaveInv(srv: Fichiers, s: Etat)
    requires Inv(srv, s)
    ensures Inv(srv, SlaveAvance(srv, s))
  {
    match s.slave
    case SReprise1(_, _) => RepriseSlaveInv(srv, s);
    case SReprise2(_, _) => RepriseSlaveInv(srv, s);
    case SReprise3(_, _) => RepriseSlaveInv(srv, s);
    case SReprise4(_, _, _) => RepriseSlaveInv(srv, s);
    case SEnvoi(_, _, _) => EnvoiSlaveInv(srv, s);
    case SAcq(_, _, _, _) => EnvoiSlaveInv(srv, s);
    case SLibre =>
    case SBoucle =>
    case SNom =>
    case SOkGet(_, _) =>
  }

  lemma DelaiInv(srv: Fichiers, s: Etat)
    requires Inv(srv, s) && Attend(s.slave) && Muet(s)
    ensures Inv(srv, Delai(s))
  {
  }

  lemma ConnecteInv(srv: Fichiers, s: Etat)
    requires Inv(srv, s) && s.slave.SLibre? && s.client.CMort?
    ensures Inv(srv, Connecte(s))
  {
  }

  lemma StepInv(srv: Fichiers, s: Etat, p: Pas)
    requires Inv(srv, s)
    ensures Inv(srv, Step(srv, s, p))
  {
    match p
    case Client_ => ClientInv(srv, s);
    case Slave_ => SlaveInv(srv, s);
    case Demande(nom) =>
    case Crash =>
    case Timeout => if Attend(s.slave) && Muet(s) { DelaiInv(srv, s); }
    case Connexion => if s.slave.SLibre? && s.client.CMort? { ConnecteInv(srv, s); }
  }

  // ---- every run ----

  /** In every reachable state the invariant holds; in particular whatever is registered is a correct prefix. */
  lemma {:induction false} RunInv(srv: Fichiers, s: Etat, pas: seq<Pas>)
    requires Initial(s)
    ensures Inv(srv, Run(srv, s, pas))
  {
    if pas != [] {
      RunInv(srv, s, pas[..|pas| - 1]);
      StepInv(srv, Run(srv, s, pas[..|pas| - 1]), pas[|pas| - 1]);
    }
  }

  /** Over any number of crashes and resumptions, a correct prefix never shrinks. */
  lemma {:induction false} RunGrandit(srv: Fichiers, s: Etat, pas: seq<Pas>, k: nat)
    requires Initial(s) && k <= |pas|
    ensures Grandit(srv, Run(srv, s, pas[..k]).disk, Run(srv, s, pas).disk)
    decreases |pas|
  {
    if k < |pas| {
      var init := pas[..|pas| - 1];
      assert init[..k] == pas[..k];
      RunGrandit(srv, s, init, k);
      RunInv(srv, s, init);
      StepGrandit(srv, Run(srv, s, init), pas[|pas| - 1]);
    } else {
      assert pas[..k] == pas;
    }
  }

  /** The client ends a transfer when it acknowledges its last byte. */
  predicate Acheve(s: Etat, s': Etat) {
    s.client.CEcrit? && s'.client == CPret
  }

  lemma AcheveEtat(srv: Fichiers, s: Etat, p: Pas)
    requires Inv(srv, s) && Acheve(s, Step(srv, s, p))
    ensures s.client.nom in srv && s.client.total == |srv[s.client.nom]|
    ensures Correct(srv, Step(srv, s, p).disk, s.client.nom, s.client.total)
  {
    assert s.slave.SAcq? && p.Client_?;
  }

  /** Whenever a transfer completes, the client's file begins with the whole of the server's, at the size announced. */
  lemma AcheveComplet(srv: Fichiers, s0: Etat, pas: seq<Pas>, p: Pas)
    requires Initial(s0)
    requires Acheve(Run(srv, s0, pas), Step(srv, Run(srv, s0, pas), p))
    ensures var s := Run(srv, s0, pas);
            && s.client.nom in srv && s.client.total == |srv[s.client.nom]|
            && Correct(srv, Step(srv, s, p).disk, s.client.nom, s.client.total)
  {
    RunInv(srv, s0, pas);
    AcheveEtat(srv, Run(srv, s0, pas), p);
  }

  /** What giving up the client of s leaves, and registers. */
  ghost predicate Abandon(srv: Fichiers, s: Etat, s': Etat) {
    && s'.slave == SLibre && s'.s2c == [] && s'.c2s == [] && s'.disk == s.disk
    && s'.client == (if s.client.CMort? then CMort else COrphelin)
    && (s.slave.SAcq? ==>
          && s.slave.nom in srv && s.slave.total == |srv[s.slave.nom]|
          && s.slave.nb == if s.slave.total - s.slave.debut < 8192 then s.slave.total else s.slave.debut + 8192)
    && (s'.registre != [] <==> s.slave.SAcq? && s.slave.total >= 8192)
    && (s'.registre != [] ==>
          && s'.registre == [Entree(IP, s.slave.nb - 8192, s.slave.nom)]
          && s.slave.debut - 8192 < s.slave.nb - 8192 <= s.slave.debut)
  }

  lemma DelaiAbandonne(srv: Fichiers, s: Etat)
    requires Inv(srv, s) && Attend(s.slave) && Muet(s)
    ensures Abandon(srv, s, Step(srv, s, Timeout))
  {
  }

  /**
    * A client that falls silent is registered exactly when the slave was waiting for the acknowledgement of a chunk
    * of a file of at least MAXLINE bytes: not while the resumption itself is being agreed. The offset is at most the
    * acknowledged position and less than MAXLINE behind it.
    */
  lemma SilenceEnregistree(srv: Fichiers, s0: Etat, pas: seq<Pas>)
    requires Initial(s0)
    requires Attend(Run(srv, s0, pas).slave) && Muet(Run(srv, s0, pas))
    ensures Abandon(srv, Run(srv, s0, pas), Run(srv, s0, pas + [Timeout]))
  {
    RunInv(srv, s0, pas);
    assert (pas + [Timeout])[..|pas|] == pas;
    DelaiAbandonne(srv, Run(srv, s0, pas));
  }

  /** The next connection resumes the registered file at the registered offset, and forgets the entry. */
  lemma Reprend(srv: Fichiers, s: Etat)
    requires Inv(srv, s) && s.slave.SLibre? && s.client.CMort? && s.registre != []
    ensures var e, s' := s.registre[0], Step(srv, s, Connexion);
            && s'.slave == SReprise1(e.filename, e.nb_bytes) && s'.registre == [] && s'.s2c == [REPRISE]
            && Registrable(srv, s'.disk, e.filename, e.nb_bytes)
  {
  }

  /** Without an entry, the next connection starts at the prompt; a client that its slave has left ends at its next command. */
  lemma Reconnexion(srv: Fichiers, s: Etat, nom: string)
    requires Inv(srv, s) && s.slave.SLibre? && s.registre == []
    ensures Run(srv, s, [Demande(nom), Connexion, Client_]) == s.(client := CPret, slave := SBoucle, s2c := [], c2s := [])
  {
    RunTwo(srv, s, Demande(nom), Connexion);
    RunConcat(srv, s, [Demande(nom), Connexion], [Client_]);
    RunUn(srv, Run(srv, s, [Demande(nom), Connexion]), Client_);
    assert [Demande(nom), Connexion] + [Client_] == [Demande(nom), Connexion, Client_];
    assert Step(srv, s, Demande(nom)) == s.(client := CMort);
  }

  /** Every offset in the register, in every reachable state, counts only correct leading bytes of the client's file. */
  lemma OffsetsCorrects(srv: Fichiers, s: Etat, pas: seq<Pas>)
    requires Initial(s)
    ensures forall e :: e in Run(srv, s, pas).registre ==> Correct(srv, Run(srv, s, pas).disk, e.filename, e.nb_bytes)
  {
    RunInv(srv, s, pas);
  }

  // ---- without a crash, a transfer ends ----

  lemma {:induction false} RunConcat(srv: Fichiers, s: Etat, a: seq<Pas>, b: seq<Pas>)
    ensures Run(srv, s, a + b) == Run(srv, Run(srv, s, a), b)
    decreases |b|
  {
    if b == [] {
      assert a + b == a;
    } else {
      assert (a + b)[..|a + b| - 1] == a + b[..|b| - 1];
      RunConcat(srv, s, a, b[..|b| - 1]);
    }
  }

  lemma {:induction false} RunFive(srv: Fichiers, s: Etat, a: Pas, b: Pas, c: Pas, d: Pas, e: Pas)
    ensures Run(srv, s, [a, b, c, d, e]) == Step(srv, Step(srv, Step(srv, Step(srv, Step(srv, s, a), b), c), d), e)
  {
    assert [a, b, c, d, e][..4] == [a, b, c, d] && [a, b, c, d][..3] == [a, b, c];
    assert [a, b, c][..2] == [a, b] && [a, b][..1] == [a] && [a][..0] == [];
    assert Run(srv, s, [a]) == Step(srv, s, a);
    assert Run(srv, s, [a, b]) == Step(srv, Run(srv, s, [a]), b);
    assert Run(srv, s, [a, b, c]) == Step(srv, Run(srv, s, [a, b]), c);
  }

  const ECHANGE: seq<Pas> := [Slave_, Client_, Client_, Client_, Slave_]

  /** The slave sends a chunk and the client reads it. */
  lemma ChunkLu(srv: Fichiers, s: Etat)
    requires Inv(srv, s) && s.slave.SEnvoi? && s.slave.nb < s.slave.total && !s.client.CMort?
    ensures var SEnvoi(nom, nb, total), s' := s.slave, Step(srv, Step(srv, s, Slave_), Client_);
            && Inv(srv, s') && s'.slave == SAcq(nom, nb, Suivant(nb, total), total) && s'.client.CLu? && s'.c2s == []
  {
  }

  /** The client writes it and acknowledges, and the slave reads the acknowledgement. */
  lemma ChunkEcrit(srv: Fichiers, s: Etat)
    requires Inv(srv, s) && s.slave.SAcq? && s.client.CLu? && s.c2s == []
    ensures var SAcq(nom, debut, nb, total), s' := s.slave, Step(srv, Step(srv, Step(srv, s, Client_), Client_), Slave_);
            && Inv(srv, s') && s'.slave == SEnvoi(nom, nb, total)
            && s'.client == if nb < total then CReception(nom, nb, total) else CPret
  {
    EcritureInv(srv, s);
    var s1 := Step(srv, s, Client_);
    assert s1.client.CEcrit? && s1.slave == s.slave && s1.c2s == [];
    EnvoiClientInv(srv, s1);
    EnvoiSlaveInv(srv, Step(srv, s1, Client_));
  }

  /** A chunk sent, read, written and acknowledged. */
  lemma UnEchange(srv: Fichiers, s: Etat)
    requires Inv(srv, s) && s.slave.SEnvoi? && s.slave.nb < s.slave.total && !s.client.CMort?
    ensures var SEnvoi(nom, nb, total), s' := s.slave, Run(srv, s, ECHANGE);
            && Inv(srv, s') && s'.slave == SEnvoi(nom, Suivant(nb, total), total)
            && s'.client == if Suivant(nb, total) < total then CReception(nom, Suivant(nb, total), total) else CPret
  {
    RunFive(srv, s, Slave_, Client_, Client_, Client_, Slave_);
    ChunkLu(srv, s);
    ChunkEcrit(srv, Step(srv, Step(srv, s, Slave_), Client_));
  }

  /** The client at its prompt, the slave waiting for a command, and nothing on the way. */
  predicate ALInvite(s: Etat) {
    s.client == CPret && s.slave == SBoucle && s.s2c == [] && s.c2s == []
  }

  /** At the prompt with the whole file. */
  predicate Servi(srv: Fichiers, s: Etat, nom: string) {
    ALInvite(s) && nom in srv && Correct(srv, s.disk, nom, |srv[nom]|)
  }

  lemma FinEnvoi(srv: Fichiers, s: Etat)
    requires Inv(srv, s) && s.slave.SEnvoi? && s.slave.nb == s.slave.total > 0 && s.client == CPret
    ensures Servi(srv, SlaveAvance(srv, s), s.slave.nom)
  {
  }

  /** From any point of a transfer between chunks, the two processes alone bring it to its end. */
  lemma {:induction false} Aboutit(srv: Fichiers, s: Etat) returns (pas: seq<Pas>)
    requires Inv(srv, s) && s.slave.SEnvoi? && s.slave.nb < s.slave.total && !s.client.CMort?
    ensures forall p :: p in pas ==> p == Client_ || p == Slave_
    ensures Servi(srv, Run(srv, s, pas), s.slave.nom)
    decreases s.slave.total - s.slave.nb
  {
    UnEchange(srv, s);
    var s' := Run(srv, s, ECHANGE);
    if s'.slave.nb < s'.slave.total {
      var reste := Aboutit(srv, s');
      pas := ECHANGE + reste;
      RunConcat(srv, s, ECHANGE, reste);
    } else {
      pas := ECHANGE + [Slave_];
      RunConcat(srv, s, ECHANGE, [Slave_]);
      RunUn(srv, s', Slave_);
      FinEnvoi(srv, s');
    }
  }

  lemma RunUn(srv: Fichiers, s: Etat, p: Pas)
    ensures Run(srv, s, [p]) == Step(srv, s, p)
  {
    assert [p][..0] == [];
  }

  // ---- a slave without a client is free again ----

  /** How many steps the slave of a silent client makes, at most, before it only waits. */
  function Restant(s: Etat): nat {
    2 * |s.c2s| + if s.slave.SEnvoi? then 1 else 0
  }

  lemma UnPasDeMoins(srv: Fichiers, s: Etat)
    requires Inv(srv, s) && s.client.CMort? && Restant(s) > 0 && !s.slave.SLibre?
    ensures var s' := SlaveAvance(srv, s); s'.client.CMort? && Restant(s') < Restant(s) && !s'.slave.SLibre?
  {
  }

  /** Whatever a client was doing when it died, its slave, alone, comes to give it up. */
  lemma {:induction false} Libere(srv: Fichiers, s: Etat) returns (pas: seq<Pas>)
    requires Inv(srv, s) && s.client.CMort? && !s.slave.SLibre?
    ensures forall p :: p in pas ==> p == Slave_ || p == Timeout
    ensures Run(srv, s, pas).slave.SLibre?
    decreases Restant(s)
  {
    if Restant(s) == 0 {
      pas := [Timeout];
      RunUn(srv, s, Timeout);
    } else {
      UnPasDeMoins(srv, s);
      SlaveInv(srv, s);
      RunUn(srv, s, Slave_);
      var reste := Libere(srv, SlaveAvance(srv, s));
      pas := [Slave_] + reste;
      RunConcat(srv, s, [Slave_], reste);
    }
  }

  /** A client may die anywhere, and nothing else shows it: what it sent still arrives. */
  lemma CrashMuet(srv: Fichiers, s: Etat)
    ensures Step(srv, s, Crash).client.CMort?
    ensures SlaveAvance(srv, Step(srv, s, Crash)) == SlaveAvance(srv, s).(client := CMort)
  {
  }

  /** A client that stays at its prompt too long, or waits itself, is given up too, and nothing is registered. */
  lemma InviteOubliee(srv: Fichiers, s: Etat)
    requires ALInvite(s) || ChacunAttend(s)
    ensures Step(srv, s, Timeout) == s.(client := COrphelin, slave := SLibre)
  {
  }

  // ---- a GET without a crash ends ----

  /** The slave answers the request. */
  lemma Requete(srv: Fichiers, s: Etat, nom: string)
    requires Inv(srv, s) && s.client == CPret && s.slave == SBoucle
    ensures var s' := Step(srv, Step(srv, s, Demande(nom)), Slave_);
            Inv(srv, s') && s'.client == CGet(nom) && s'.slave == SNom && s'.s2c == [OK] && s'.c2s == []
  {
    StepInv(srv, s, Demande(nom));
    SlaveInv(srv, Step(srv, s, Demande(nom)));
  }

  /** The client sends the name and the slave the size. */
  lemma NomEtTaille(srv: Fichiers, s: Etat, nom: string)
    requires Inv(srv, s) && s.client == CGet(nom) && s.slave == SNom && s.s2c == [OK] && s.c2s == [] && nom in srv
    ensures var s' := Step(srv, Step(srv, s, Client_), Slave_);
            && Inv(srv, s') && s'.slave == SOkGet(nom, |srv[nom]|) && s'.client == CNomEnvoye(nom)
            && s'.s2c == [TAILLE(|srv[nom]|)] && s'.c2s == []
  {
    ClientInv(srv, s);
    SlaveInv(srv, ClientAvance(s));
  }

  /** From the prompt to the size of the file. */
  lemma Taille(srv: Fichiers, s: Etat, nom: string)
    requires Inv(srv, s) && s.client == CPret && s.slave == SBoucle && nom in srv
    ensures var s' := Run(srv, s, [Demande(nom)] + [Slave_, Client_, Slave_]);
            && Inv(srv, s') && s'.slave == SOkGet(nom, |srv[nom]|) && s'.client == CNomEnvoye(nom)
            && s'.s2c == [TAILLE(|srv[nom]|)] && s'.c2s == []
  {
    RunFour(srv, s, Demande(nom), Slave_, Client_, Slave_);
    assert [Demande(nom)] + [Slave_, Client_, Slave_] == [Demande(nom), Slave_, Client_, Slave_];
    Requete(srv, s, nom);
    NomEtTaille(srv, Step(srv, Step(srv, s, Demande(nom)), Slave_), nom);
  }

  lemma RequeteSeule(srv: Fichiers, s: Etat, nom: string)
    requires ALInvite(s)
    ensures Step(srv, Step(srv, s, Demande(nom)), Slave_) == s.(client := CGet(nom), slave := SNom, s2c := [OK])
  {
  }

  lemma NomRefuse(srv: Fichiers, s: Etat, nom: string)
    requires ALInvite(s) && nom !in srv
    ensures var s2 := s.(client := CGet(nom), slave := SNom, s2c := [OK]);
            Step(srv, Step(srv, Step(srv, s2, Client_), Slave_), Client_) == s
  {
    var s2 := s.(client := CGet(nom), slave := SNom, s2c := [OK]);
    var s3 := Step(srv, s2, Client_);
    assert s3 == s.(client := CNomEnvoye(nom), slave := SNom, c2s := [NOM(nom)]);
    assert Step(srv, s3, Slave_) == s.(client := CNomEnvoye(nom), s2c := [TAILLE(-1)]);
  }

  /** From any prompt, asking for a file that the server does not have leads back to the prompt and changes nothing. */
  lemma GetAbsent(srv: Fichiers, s: Etat, nom: string)
    requires Inv(srv, s) && s.client == CPret && s.slave == SBoucle && nom !in srv
    ensures ALInvite(s) && Run(srv, s, [Demande(nom), Slave_, Client_, Slave_, Client_]) == s
  {
    RunFive(srv, s, Demande(nom), Slave_, Client_, Slave_, Client_);
    RequeteSeule(srv, s, nom);
    NomRefuse(srv, s, nom);
  }

  /** The size of a file that is not empty is acknowledged. */
  lemma TailleAcquittee(srv: Fichiers, s: Etat, nom: string)
    requires Inv(srv, s) && nom in srv && srv[nom] != []
    requires s.slave == SOkGet(nom, |srv[nom]|) && s.client == CNomEnvoye(nom) && s.s2c == [TAILLE(|srv[nom]|)] && s.c2s == []
    ensures var s' := Run(srv, s, [Client_, Slave_]);
            Inv(srv, s') && s'.slave == SEnvoi(nom, 0, |srv[nom]|) && !s'.client.CMort?
  {
    RunTwo(srv, s, Client_, Slave_);
    ClientInv(srv, s);
    SlaveInv(srv, ClientAvance(s));
  }

  lemma JusquALEnvoi(srv: Fichiers, s: Etat, nom: string) returns (suite: seq<Pas>)
    requires Inv(srv, s) && s.client == CPret && s.slave == SBoucle && nom in srv && srv[nom] != []
    ensures forall p :: p in suite ==> p == Client_ || p == Slave_
    ensures var s' := Run(srv, s, [Demande(nom)] + suite);
            Inv(srv, s') && s'.slave == SEnvoi(nom, 0, |srv[nom]|) && !s'.client.CMort?
  {
    Taille(srv, s, nom);
    TailleAcquittee(srv, Run(srv, s, [Demande(nom)] + [Slave_, Client_, Slave_]), nom);
    suite := [Slave_, Client_, Slave_] + [Client_, Slave_];
    RunApres(srv, s, [Demande(nom)], [Slave_, Client_, Slave_], [Client_, Slave_]);
  }

  /** From any prompt, asking for a file that is not empty brings the whole of it. */
  lemma GetComplet(srv: Fichiers, s: Etat, nom: string) returns (pas: seq<Pas>)
    requires Inv(srv, s) && s.client == CPret && s.slave == SBoucle && nom in srv && srv[nom] != []
    ensures forall p :: p in pas ==> p == Client_ || p == Slave_
    ensures Servi(srv, Run(srv, s, [Demande(nom)] + pas), nom)
  {
    var suite := JusquALEnvoi(srv, s, nom);
    var envoi := Aboutit(srv, Run(srv, s, [Demande(nom)] + suite));
    pas := suite + envoi;
    RunApres(srv, s, [Demande(nom)], suite, envoi);
  }

  lemma RunApres(srv: Fichiers, s: Etat, a: seq<Pas>, b: seq<Pas>, c: seq<Pas>)
    ensures Run(srv, s, a + (b + c)) == Run(srv, Run(srv, s, a + b), c)
  {
    assert a + (b + c) == a + b + c;
    RunConcat(srv, s, a + b, c);
  }

  lemma {:induction false} RunFour(srv: Fichiers, s: Etat, a: Pas, b: Pas, c: Pas, d: Pas)
    ensures Run(srv, s, [a, b, c, d]) == Step(srv, Step(srv, Step(srv, Step(srv, s, a), b), c), d)
  {
    RunTwo(srv, s, a, b);
    RunTwo(srv, Run(srv, s, [a, b]), c, d);
    RunConcat(srv, s, [a, b], [c, d]);
    assert [a, b] + [c, d] == [a, b, c, d];
  }

  // ---- a registered transfer, resumed, ends ----

  /** The slave waits for the client's next answer in the resumption, and the client has its message to read. */
  predicate EnReprise(s: Etat) {
    (s.slave.SReprise1? || s.slave.SReprise2? || s.slave.SReprise3? || s.slave.SReprise4?) && s.s2c != [] && !s.client.CMort?
  }

  function Stade(s: Slave): nat {
    match s
    case SReprise1(_, _) => 4
    case SReprise2(_, _) => 3
    case SReprise3(_, _) => 2
    case SReprise4(_, _, _) => 1
    case _ => 0
  }

  function NomDe(s: Slave): string {
    match s
    case SReprise1(nom, _) => nom
    case SReprise2(nom, _) => nom
    case SReprise3(nom, _) => nom
    case SReprise4(nom, _, _) => nom
    case SEnvoi(nom, _, _) => nom
    case _ => ""
  }

  /** The client reads and answers. */
  lemma Repond(srv: Fichiers, s: Etat)
    requires Inv(srv, s) && EnReprise(s)
    ensures var s' := ClientAvance(s);
            Inv(srv, s') && s'.slave == s.slave && s'.s2c == [] && s'.c2s == [OK] && !s'.client.CMort?
  {
    RepriseClientInv(srv, s);
  }

  /** The slave reads the answer. */
  lemma Recoit(srv: Fichiers, s: Etat)
    requires Inv(srv, s) && Stade(s.slave) > 0 && s.s2c == [] && s.c2s == [OK] && !s.client.CMort?
    ensures var s' := SlaveAvance(srv, s);
            && Inv(srv, s') && NomDe(s'.slave) == NomDe(s.slave) && !s'.client.CMort?
            && if Stade(s.slave) > 1 then EnReprise(s') && Stade(s'.slave) == Stade(s.slave) - 1
               else s'.slave.SEnvoi? && s'.slave.nb < s'.slave.total
  {
    RepriseSlaveInv(srv, s);
  }

  /** One stage further, at last to the sending loop. */
  lemma UnStade(srv: Fichiers, s: Etat)
    requires Inv(srv, s) && EnReprise(s)
    ensures var s' := Run(srv, s, [Client_, Slave_]);
            && Inv(srv, s') && NomDe(s'.slave) == NomDe(s.slave) && !s'.client.CMort?
            && if Stade(s.slave) > 1 then EnReprise(s') && Stade(s'.slave) == Stade(s.slave) - 1
               else s'.slave.SEnvoi? && s'.slave.nb < s'.slave.total
  {
    RunTwo(srv, s, Client_, Slave_);
    Repond(srv, s);
    Recoit(srv, ClientAvance(s));
  }

  lemma RunTwo(srv: Fichiers, s: Etat, a: Pas, b: Pas)
    ensures Run(srv, s, [a, b]) == Step(srv, Step(srv, s, a), b)
  {
    assert [a, b][..1] == [a] && [a][..0] == [];
    assert Run(srv, s, [a]) == Step(srv, s, a);
  }

  lemma {:induction false} RepriseAboutit(srv: Fichiers, s: Etat) returns (pas: seq<Pas>)
    requires Inv(srv, s) && EnReprise(s)
    ensures forall p :: p in pas ==> p == Client_ || p == Slave_
    ensures Servi(srv, Run(srv, s, pas), NomDe(s.slave))
    decreases Stade(s.slave)
  {
    UnStade(srv, s);
    var s' := Run(srv, s, [Client_, Slave_]);
    var reste;
    if Stade(s.slave) > 1 { reste := RepriseAboutit(srv, s'); } else { reste := Aboutit(srv, s'); }
    pas := [Client_, Slave_] + reste;
    RunConcat(srv, s, [Client_, Slave_], reste);
  }

  /** After any run that leaves a registered transfer, a connection without a further crash brings the whole file. */
  lemma RepriseComplete(srv: Fichiers, s0: Etat, pas: seq<Pas>) returns (suite: seq<Pas>)
    requires Initial(s0)
    requires var s := Run(srv, s0, pas); s.slave.SLibre? && s.client.CMort? && s.registre != []
    ensures forall p :: p in suite ==> p == Client_ || p == Slave_
    ensures Servi(srv, Run(srv, s0, pas + [Connexion] + suite), Run(srv, s0, pas).registre[0].filename)
  {
    RunInv(srv, s0, pas);
    var s := Run(srv, s0, pas);
    assert s.registre[0] in s.registre;
    StepInv(srv, s, Connexion);
    assert (pas + [Connexion])[..|pas|] == pas;
    suite := RepriseAboutit(srv, Step(srv, s, Connexion));
    RunConcat(srv, s0, pas + [Connexion], suite);
  }

  // ---- three runs in which the client does not get its file ----

  /** One more step of a run. */
  lemma Puis(srv: Fichiers, s0: Etat, pas: seq<Pas>, p: Pas) returns (plus: seq<Pas>, s: Etat)
    ensures plus == pas + [p] && s == Step(srv, Run(srv, s0, pas), p) == Run(srv, s0, plus)
  {
    plus := pas + [p];
    s := Step(srv, Run(srv, s0, pas), p);
    assert plus[..|pas|] == pas;
  }

  /** A first connection. */
  lemma Accueil(srv: Fichiers, s0: Etat) returns (pas: seq<Pas>, s: Etat)
    requires Initial(s0)
    ensures s == Run(srv, s0, pas)
    ensures s.client == CPret && s.slave == SBoucle && s.s2c == [] && s.c2s == [] && s.registre == []
  {
    pas, s := Puis(srv, s0, [], Connexion);
    pas, s := Puis(srv, s0, pas, Client_);
  }

  /** The name of a file has been asked for. */
  lemma Nommee(srv: Fichiers, s0: Etat, nom: string) returns (pas: seq<Pas>, s: Etat)
    requires Initial(s0)
    ensures s == Run(srv, s0, pas)
    ensures s.client == CNomEnvoye(nom) && s.slave == SNom && s.s2c == [] && s.c2s == [NOM(nom)] && s.registre == []
  {
    pas, s := Accueil(srv, s0);
    pas, s := Puis(srv, s0, pas, Demande(nom));
    assert s.client == CGet(nom) && s.slave == SBoucle && s.s2c == [] && s.c2s == [GET] && s.registre == [];
    pas, s := Puis(srv, s0, pas, Slave_);
    assert s.client == CGet(nom) && s.slave == SNom && s.s2c == [OK] && s.c2s == [] && s.registre == [];
    pas, s := Puis(srv, s0, pas, Client_);
  }

  /** A first GET, up to the size of the file: the client asks for an empty file no further. */
  lemma Demandee(srv: Fichiers, s0: Etat, nom: string) returns (pas: seq<Pas>, s: Etat)
    requires Initial(s0) && nom in srv
    ensures s == Run(srv, s0, pas) && s.slave == SOkGet(nom, |srv[nom]|) && s.s2c == [] && s.registre == []
    ensures if srv[nom] == [] then s.client == CPret && s.c2s == []
            else s.client == CReception(nom, 0, |srv[nom]|) && s.c2s == [OK]
  {
    pas, s := Nommee(srv, s0, nom);
    pas, s := Puis(srv, s0, pas, Slave_);
    assert s.client == CNomEnvoye(nom) && s.s2c == [TAILLE(|srv[nom]|)] && s.c2s == [] && s.registre == [];
    pas, s := Puis(srv, s0, pas, Client_);
  }

  /** The client falls silent at the first chunk. */
  lemma PremierSilence(srv: Fichiers, s0: Etat, nom: string) returns (pas: seq<Pas>, s: Etat)
    requires Initial(s0) && nom in srv && srv[nom] != []
    ensures s == Run(srv, s0, pas) && s.slave == SLibre && s.client == CMort
    ensures s.registre == if |srv[nom]| >= MAXLINE then [Entree(IP, 0, nom)] else []
  {
    pas, s := Demandee(srv, s0, nom);
    pas, s := Puis(srv, s0, pas, Slave_);
    pas, s := Puis(srv, s0, pas, Slave_);
    assert s.slave == SAcq(nom, 0, Suivant(0, |srv[nom]|), |srv[nom]|) && s.c2s == [] && s.registre == [];
    pas, s := Puis(srv, s0, pas, Crash);
    pas, s := Puis(srv, s0, pas, Timeout);
  }

  /** A short file interrupted at its only chunk is not registered: the next connection starts afresh. */
  lemma PetitPerdu(srv: Fichiers, s0: Etat, nom: string) returns (pas: seq<Pas>)
    requires Initial(s0) && nom in srv && 0 < |srv[nom]| < MAXLINE
    ensures var s := Run(srv, s0, pas); s.client == CAccueil && s.slave == SBoucle && s.s2c == [DEFAUT] && s.registre == []
  {
    var s;
    pas, s := PremierSilence(srv, s0, nom);
    pas, s := Puis(srv, s0, pas, Connexion);
  }

  /** The next client has answered that it resumes. */
  lemma Reconnecte(srv: Fichiers, s0: Etat, avant: seq<Pas>, nom: string) returns (pas: seq<Pas>, s: Etat)
    requires var s := Run(srv, s0, avant); s.slave == SLibre && s.client == CMort && s.registre == [Entree(IP, 0, nom)]
    ensures pas == avant + [Connexion] + [Client_] && s == Run(srv, s0, pas)
    ensures s.slave == SReprise1(nom, 0) && s.client == CNomReprise && s.s2c == [] && s.c2s == [OK] && s.registre == []
  {
    pas, s := Puis(srv, s0, avant, Connexion);
    assert s.slave == SReprise1(nom, 0) && s.client == CAccueil && s.s2c == [REPRISE] && s.c2s == [] && s.registre == [];
    pas, s := Puis(srv, s0, pas, Client_);
  }

  /** A registered transfer is forgotten when its client falls silent again before the second message of the resumption. */
  lemma RepriseOubliee(srv: Fichiers, s0: Etat, nom: string) returns (pas: seq<Pas>, k: nat)
    requires Initial(s0) && nom in srv && |srv[nom]| >= MAXLINE
    ensures k < |pas| && Run(srv, s0, pas[..k]).registre == [Entree(IP, 0, nom)]
    ensures var s := Run(srv, s0, pas); s.slave == SReprise2(nom, 0) && s.client == CMort && s.c2s == []
    ensures Run(srv, s0, pas + [Timeout]).slave == SLibre && Run(srv, s0, pas + [Timeout]).registre == []
  {
    var debut, s := PremierSilence(srv, s0, nom);
    k := |debut|;
    pas, s := Reconnecte(srv, s0, debut, nom);
    pas, s := Puis(srv, s0, pas, Slave_);
    assert s.slave == SReprise2(nom, 0) && s.c2s == [] && s.registre == [];
    pas, s := Puis(srv, s0, pas, Crash);
    assert pas[..k] == debut;
    var fin, s' := Puis(srv, s0, pas, Timeout);
  }

  /** A second GET, taken for the acknowledgement that the slave waits for. */
  lemma GetPrisPourOk(srv: Fichiers, s0: Etat, pas: seq<Pas>, nom: string, autre: string)
    requires var s := Run(srv, s0, pas); s.slave == SOkGet(nom, 0) && s.client == CPret && s.s2c == [] && s.c2s == []
    ensures var s := Run(srv, s0, pas + [Demande(autre), Slave_, Slave_]);
            s.slave == SBoucle && s.client == CGet(autre) && s.s2c == [] && s.c2s == []
  {
    var fin, s := Puis(srv, s0, pas, Demande(autre));
    fin, s := Puis(srv, s0, fin, Slave_);
    assert s.slave == SEnvoi(nom, 0, 0) && s.client == CGet(autre) && s.s2c == [] && s.c2s == [];
    fin, s := Puis(srv, s0, fin, Slave_);
    assert fin == pas + [Demande(autre), Slave_, Slave_];
  }

  /** The slave waits for an acknowledgement of the client at its prompt, which will not send one. */
  predicate SansAccuse(s: Etat) {
    s.slave.SOkGet? && s.client.CPret? && s.s2c == [] && s.c2s == []
  }

  /** The client waits for the answer to a GET, the slave for a command. */
  predicate ChacunAttend(s: Etat) {
    s.slave.SBoucle? && s.client.CGet? && s.s2c == [] && s.c2s == []
  }

  /** Out of step: what one side waits for, the other does not send. */
  predicate Bloque(s: Etat) {
    SansAccuse(s) || ChacunAttend(s)
  }

  /**
    * An empty file: the client is back at its prompt while the slave waits for an acknowledgement. Left alone, the
    * slave gives the running client up; a second GET is taken for the acknowledgement, and both then wait.
    */
  lemma FichierVide(srv: Fichiers, s0: Etat, nom: string, autre: string) returns (pas: seq<Pas>)
    requires Initial(s0) && nom in srv && srv[nom] == []
    ensures SansAccuse(Run(srv, s0, pas))
    ensures var s := Run(srv, s0, pas + [Timeout]); s.slave == SLibre && s.client == COrphelin
    ensures var s := Run(srv, s0, pas + [Demande(autre), Slave_, Slave_]);
            ChacunAttend(s) && s.client == CGet(autre) && ClientAvance(s) == s && SlaveAvance(srv, s) == s
  {
    var s;
    pas, s := Demandee(srv, s0, nom);
    var fin, s' := Puis(srv, s0, pas, Timeout);
    GetPrisPourOk(srv, s0, pas, nom, autre);
  }

  /** In every run, a running client that has read the size of a file has acknowledged it unless the file is empty. */
  lemma AccuseSsi(srv: Fichiers, s0: Etat, pas: seq<Pas>)
    requires Initial(s0)
    requires var s := Run(srv, s0, pas); s.slave.SOkGet? && s.s2c == [] && !s.client.CMort?
    ensures var s := Run(srv, s0, pas); s.c2s == [OK] <==> s.slave.total > 0
  {
    RunInv(srv, s0, pas);
  }

  predicate AucunVide(srv: Fichiers) {
    forall nom :: nom in srv ==> srv[nom] != []
  }

  /** The request of a client that faces the slave's loop is on its way. */
  predicate RequeteEnRoute(s: Etat) {
    s.client.CGet? && (s.slave.SBoucle? || s.slave.SEnvoi?) ==> s.c2s == [GET]
  }

  lemma ClientEnRoute(srv: Fichiers, s: Etat)
    requires Inv(srv, s) && RequeteEnRoute(s)
    ensures RequeteEnRoute(ClientAvance(s))
  {
  }

  lemma SlaveEnRoute(srv: Fichiers, s: Etat)
    requires Inv(srv, s) && AucunVide(srv) && RequeteEnRoute(s)
    ensures RequeteEnRoute(SlaveAvance(srv, s))
  {
  }

  lemma StepEnRoute(srv: Fichiers, s: Etat, p: Pas)
    requires Inv(srv, s) && AucunVide(srv) && RequeteEnRoute(s)
    ensures RequeteEnRoute(Step(srv, s, p))
  {
    match p
    case Client_ => ClientEnRoute(srv, s);
    case Slave_ => SlaveEnRoute(srv, s);
    case Demande(_) =>
    case Crash =>
    case Timeout =>
    case Connexion =>
  }

  lemma {:induction false} RunEnRoute(srv: Fichiers, s0: Etat, pas: seq<Pas>)
    requires Initial(s0) && AucunVide(srv)
    ensures RequeteEnRoute(Run(srv, s0, pas))
  {
    if pas != [] {
      var init := pas[..|pas| - 1];
      RunInv(srv, s0, init);
      RunEnRoute(srv, s0, init);
      StepEnRoute(srv, Run(srv, s0, init), pas[|pas| - 1]);
    }
  }

  /** When no served file is empty, no run of any clients gets out of step. */
  lemma JamaisBloque(srv: Fichiers, s0: Etat, pas: seq<Pas>)
    requires Initial(s0) && AucunVide(srv)
    ensures !Bloque(Run(srv, s0, pas))
  {
    RunInv(srv, s0, pas);
    RunEnRoute(srv, s0, pas);
  }

  predicate MeneSansAccuse(srv: Fichiers, s0: Etat, pas: seq<Pas>) { SansAccuse(Run(srv, s0, pas)) }

  predicate MeneChacunAttend(srv: Fichiers, s0: Etat, pas: seq<Pas>) { ChacunAttend(Run(srv, s0, pas)) }

  predicate MeneBloque(srv: Fichiers, s0: Etat, pas: seq<Pas>) { Bloque(Run(srv, s0, pas)) }

  /** Some run gets slave and client out of step, in either way, exactly when some served file is empty. */
  lemma BloqueSsi(srv: Fichiers, s0: Etat)
    requires Initial(s0)
    ensures (exists pas :: MeneSansAccuse(srv, s0, pas)) <==> exists nom :: nom in srv && srv[nom] == []
    ensures (exists pas :: MeneChacunAttend(srv, s0, pas)) <==> exists nom :: nom in srv && srv[nom] == []
    ensures (exists pas :: MeneBloque(srv, s0, pas)) <==> exists nom :: nom in srv && srv[nom] == []
  {
    if nom :| nom in srv && srv[nom] == [] {
      var pas := FichierVide(srv, s0, nom, nom);
      assert MeneSansAccuse(srv, s0, pas) && MeneBloque(srv, s0, pas);
      assert MeneChacunAttend(srv, s0, pas + [Demande(nom), Slave_, Slave_]);
    } else {
      forall pas ensures !MeneBloque(srv, s0, pas) && !MeneSansAccuse(srv, s0, pas) && !MeneChacunAttend(srv, s0, pas) {
        JamaisBloque(srv, s0, pas);
      }
    }
  }
}
