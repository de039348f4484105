/** SR/TP7/csapp.c, the Rio package: robust reads and writes over a descriptor that may deliver little at a time. */
module RioPackage {

  type Byte = b: int | 0 <= b < 256

  type Bytes = seq<Byte>

  const NEWLINE: Byte := 10

  const RIO_BUFSIZE := 8192

  /** What the kernel does at one system call; after the script it delivers all it can. Nul: a write that takes nothing. */
  datatype Evenement = Interrompu | Erreur | Nul | Donne(n: nat)

  /**
    * apres is what is left of the script avant. The events used hold no Erreur, but for the last one when the call
    * failed, which is one.
    */
  predicate Consommes(avant: seq<Evenement>, apres: seq<Evenement>, echec: bool) {
    && |apres| <= |avant| && avant[|avant| - |apres|..] == apres
    && var used := avant[..|avant| - |apres|];
       if echec then used != [] && used[|used| - 1] == Erreur && Erreur !in used[..|used| - 1] else Erreur !in used
  }

  lemma Enchaine(a: seq<Evenement>, b: seq<Evenement>, c: seq<Evenement>, echec: bool)
    requires Consommes(a, b, false) && Consommes(b, c, echec)
    ensures Consommes(a, c, echec)
  {
    var ab, bc := a[..|a| - |b|], b[..|b| - |c|];
    assert a == ab + b && b == bc + c;
    assert a[..|a| - |c|] == ab + bc && a[|a| - |c|..] == c;
    assert echec ==> (ab + bc)[..|ab + bc| - 1] == ab + bc[..|bc| - 1];
  }

  lemma SansErreur(a: seq<Evenement>, b: seq<Evenement>, echec: bool)
    requires Consommes(a, b, echec) && Erreur !in a
    ensures !echec && Erreur !in b
  {
    assert forall e :: e in a[..|a| - |b|] || e in b ==> e in a;
  }

  /** The last of these events makes a write fail: an error, or nothing taken while errno is not EINTR. */
  predicate Fatal(used: seq<Evenement>, avant: bool) {
    used != [] && (used[|used| - 1] == Erreur || (used[|used| - 1] == Nul && !avant && Interrompu !in used))
  }

  /** One more event used. */
  lemma UnDePlus(debut: seq<Evenement>, milieu: seq<Evenement>, fin: seq<Evenement>, avant: bool)
    requires Ecrits(debut, milieu, avant, false) && fin == if milieu == [] then [] else milieu[1..]
    ensures |fin| <= |debut|
    ensures var used, plus := debut[..|debut| - |milieu|], debut[..|debut| - |fin|];
            && plus == used + milieu[..|milieu| - |fin|]
            && Ecrits(debut, fin, avant, Fatal(plus, avant))
  {
    var used, plus := debut[..|debut| - |milieu|], debut[..|debut| - |fin|];
    assert debut == used + milieu;
    assert plus == used + milieu[..|milieu| - |fin|];
    forall k | 0 <= k < |plus| ensures !Fatal(plus[..k], avant) {
      assert k <= |used|;
      assert plus[..k] == used[..k];
      assert used[..|used|] == used;
    }
  }

  /** The events used are those up to the first that makes a write fail, if the call failed, and none such otherwise. */
  predicate Ecrits(debut: seq<Evenement>, fin: seq<Evenement>, avant: bool, echec: bool) {
    && |fin| <= |debut| && debut[|debut| - |fin|..] == fin
    && var used := debut[..|debut| - |fin|];
       (echec <==> Fatal(used, avant)) && forall k :: 0 <= k < |used| ==> !Fatal(used[..k], avant)
  }

  function Min(a: nat, b: nat): nat { if a < b then a else b }

  /** v is u with the bytes of pris written from place at on. */
  ghost predicate Pose(v: Bytes, u: Bytes, at: nat, pris: Bytes) {
    && |v| == |u| && at + |pris| <= |u|
    && forall i :: 0 <= i < |v| ==> v[i] == if at <= i < at + |pris| then pris[i - at] else u[i]
  }

  lemma PoseSuite(w: Bytes, v: Bytes, u: Bytes, debut: Bytes, suite: Bytes)
    requires Pose(v, u, 0, debut) && Pose(w, v, |debut|, suite)
    ensures Pose(w, u, 0, debut + suite)
  {
  }

  class Descripteur {
    var reste: Bytes
    var ecrit: Bytes
    var script: seq<Evenement>

    /** How many of the n bytes asked for the kernel moves, at least one if there is one. */
    static function Quantite(n: nat, disponible: nat, k: nat): (q: nat)
      ensures q <= n && q <= disponible && (q == 0 <==> n == 0 || disponible == 0)
    {
      var m := if k == 0 then 1 else k;
      var p := if n < m then n else m;
      if disponible < p then disponible else p
    }

    /** read: -1 with or without EINTR, 0 at the end, or some bytes written from at on. */
    method Read(tampon: array<Byte>, at: nat, n: nat) returns (rc: int, eintr: bool, ghost pris: Bytes)
      requires at + n <= tampon.Length
      modifies this`reste, this`script, tampon
      ensures -1 <= rc <= n && (eintr ==> rc == -1) && |pris| == if rc < 0 then 0 else rc
      ensures |script| <= |old(script)| && (rc == -1 ==> |script| < |old(script)|)
      ensures Consommes(old(script), script, rc == -1 && !eintr)
      ensures old(reste) == pris + reste && Pose(tampon[..], old(tampon[..]), at, pris)
      ensures rc == 0 ==> n == 0 || reste == []
    {
      var k := n;
      pris := [];
      if script != [] {
        var e := script[0];
        script := script[1..];
        if e.Interrompu? { return -1, true, []; }
        if e.Erreur? { return -1, false, []; }
        if e.Donne? { k := e.n; }
      }
      var q := Quantite(n, |reste|, k);
      pris := reste[..q];
      forall i | 0 <= i < q { tampon[at + i] := reste[i]; }
      reste := reste[q..];
      return q, false, pris;
    }

    /** write: -1 with or without EINTR, none or some of the bytes taken. Unless it fails errno stays as it was. */
    method Write(tampon: array<Byte>, at: nat, n: nat, avant: bool) returns (rc: int, eintr: bool)
      requires 0 < n && at + n <= tampon.Length
      modifies this`ecrit, this`script
      ensures -1 <= rc <= n
      ensures script == if old(script) == [] then [] else old(script)[1..]
      ensures if old(script) == [] || old(script)[0].Donne? then rc > 0 && eintr == avant
              else if old(script)[0].Nul? then rc == 0 && eintr == avant
              else rc == -1 && (eintr <==> old(script)[0].Interrompu?)
      ensures ecrit == old(ecrit) + if rc == -1 then [] else tampon[at..at + rc]
    {
      var k := n;
      if script != [] {
        var e := script[0];
        script := script[1..];
        match e
        case Interrompu => return -1, true;
        case Erreur => return -1, false;
        case Nul => return 0, avant;
        case Donne(m) => k := m;
      }
      var q := Quantite(n, n, k);
      ecrit := ecrit + tampon[at..at + q];
      return q, avant;
    }
  }

  /** rio_readn: n bytes, or all up to the end, straight from the descriptor, unless the kernel reports an error. */
  method RioReadn(fd: Descripteur, usrbuf: array<Byte>, n: nat) returns (rc: int, ghost pris: Bytes)
    requires n <= usrbuf.Length
    modifies fd`reste, fd`script, usrbuf
    ensures old(fd.reste) == pris + fd.reste && Pose(usrbuf[..], old(usrbuf[..]), 0, pris)
    ensures |pris| <= n && Consommes(old(fd.script), fd.script, rc == -1)
    ensures rc != -1 ==> rc == |pris| == Min(n, |old(fd.reste)|)
  {
    ghost var f, u := fd.reste, usrbuf[..];
    var nleft, bufp := n, 0;
    pris := [];
    while nleft > 0
      invariant 0 <= nleft && |pris| == bufp && bufp + nleft == n
      invariant f == pris + fd.reste && Pose(usrbuf[..], u, 0, pris) && Consommes(old(fd.script), fd.script, false)
      decreases nleft + |fd.script|
    {
      ghost var v, recu, script := usrbuf[..], [], fd.script;
      var nread, eintr;
      nread, eintr, recu := fd.Read(usrbuf, bufp, nleft);
      Enchaine(old(fd.script), script, fd.script, nread == -1 && !eintr);
      PoseSuite(usrbuf[..], v, u, pris, recu);
      pris := pris + recu;
      if nread < 0 {
        if eintr { nread := 0; } else { return -1, pris; }
      } else if nread == 0 {
        break;
      }
      nleft := nleft - nread;
      bufp := bufp + nread;
    }
    return n - nleft, pris;
  }

  /**
    * rio_writen: n bytes, or a prefix of them before an error of the kernel. A write that takes nothing is judged by
    * what errno was left at; avant says whether that is EINTR on entry.
    */
  method RioWriten(fd: Descripteur, usrbuf: array<Byte>, n: nat, avant: bool) returns (rc: int, ghost ecrits: nat)
    requires n <= usrbuf.Length
    modifies fd`ecrit, fd`script
    ensures ecrits <= n && fd.ecrit == old(fd.ecrit) + usrbuf[..ecrits]
    ensures Ecrits(old(fd.script), fd.script, avant, rc == -1)
    ensures rc != -1 ==> rc == n == ecrits
  {
    var nleft, bufp, eintr := n, 0, avant;
    ecrits := 0;
    while nleft > 0
      invariant 0 <= nleft && ecrits == bufp && bufp + nleft == n
      invariant fd.ecrit == old(fd.ecrit) + usrbuf[..ecrits]
      invariant Ecrits(old(fd.script), fd.script, avant, false)
      invariant eintr <==> avant || Interrompu in old(fd.script)[..|old(fd.script)| - |fd.script|]
      decreases nleft + |fd.script|
    {
      ghost var script := fd.script;
      var nwritten;
      nwritten, eintr := fd.Write(usrbuf, bufp, nleft, eintr);
      UnDePlus(old(fd.script), script, fd.script, avant);
      if nwritten <= 0 {
        if eintr { nwritten := 0; } else { return -1, ecrits; }
      }
      assert usrbuf[..bufp] + usrbuf[bufp..bufp + nwritten] == usrbuf[..bufp + nwritten];
      nleft := nleft - nwritten;
      bufp := bufp + nwritten;
      ecrits := ecrits + nwritten;
    }
    return n, ecrits;
  }

  // ---- lines ----

  /** The length of the first line of s, newline included, cut at max bytes. */
  function LigneLen(s: Bytes, max: nat): (k: nat)
    ensures k <= max && k <= |s|
  {
    if max == 0 || s == [] then 0
    else if s[0] == NEWLINE then 1
    else 1 + LigneLen(s[1..], max - 1)
  }

  /** That length stops at the first newline, at the cut or at the end, whichever comes first. */
  lemma {:induction false} LigneEstPlusCourte(s: Bytes, max: nat, k: nat)
    ensures k == LigneLen(s, max) <==>
            && k <= max && k <= |s|
            && (forall i :: 0 <= i < k - 1 ==> s[i] != 10)
            && (k == max || k == |s| || (0 < k && s[k - 1] == 10))
            && (k == 0 ==> max == 0 || s == [])
  {
    if max != 0 && s != [] && s[0] != NEWLINE && k > 0 {
      LigneEstPlusCourte(s[1..], max - 1, k - 1);
      assert forall i :: 0 < i < |s| ==> s[i] == s[1..][i - 1];
    }
  }

  predicate FiniParNewline(s: Bytes) {
    s != [] && s[|s| - 1] == NEWLINE
  }

  /** Whether the last byte read is the newline shows in the buffer. */
  lemma DernierPose(v: Bytes, u: Bytes, pris: Bytes, recu: Bytes)
    requires |recu| == 1 && Pose(v, u, 0, pris + recu)
    ensures |pris| < |v| && v[|pris|] == recu[0]
    ensures FiniParNewline(pris + recu) <==> recu[0] == NEWLINE
  {
  }

  lemma SansPlus(pris: Bytes, recu: Bytes)
    requires |recu| == 1 && SansNewline(pris) && recu[0] != NEWLINE
    ensures SansNewline(pris + recu)
  {
  }

  predicate SansNewline(s: Bytes) {
    forall i :: 0 <= i < |s| ==> s[i] != NEWLINE
  }

  /** How the loop ends with n == rc: the first line of f is taken; the count exceeds it by one unless a newline ends it. */
  ghost predicate Sortie(f: Bytes, pris: Bytes, max: nat, rc: int, eof: bool) {
    && |pris| == LigneLen(f, max)
    && rc == (if FiniParNewline(pris) then |pris| else |pris| + 1)
    && (eof <==> rc == |pris| + 1 && |pris| == |f| && |pris| < max)
  }

  lemma SortieNewline(f: Bytes, debut: Bytes, recu: Bytes, reste: Bytes, max: nat)
    requires f == debut + recu + reste && |recu| == 1 && |debut| < max && SansNewline(debut) && recu[0] == NEWLINE
    ensures Sortie(f, debut + recu, max, |debut| + 1, false)
  {
    assert (debut + recu)[|debut|] == NEWLINE;
    LigneEstPlusCourte(f, max, |debut| + 1);
  }

  lemma SortieSans(f: Bytes, pris: Bytes, reste: Bytes, max: nat, eof: bool)
    requires f == pris + reste && SansNewline(pris) && |pris| <= max
    requires if eof then reste == [] && |pris| < max else |pris| == max
    ensures Sortie(f, pris, max, |pris| + 1, eof)
  {
    LigneEstPlusCourte(f, max, |pris|);
  }

  /** One turn of the loop read an ordinary byte, a newline or the end, or an error stopped it. */
  datatype Tour = Octet | Ligne | Fin | Panne

  /** What has been taken of f after a turn with counter n. */
  ghost predicate TourFait(f: Bytes, pris: Bytes, max: nat, n: nat, tour: Tour) {
    match tour
    case Octet => SansNewline(pris) && |pris| == n
    case Ligne => Sortie(f, pris, max, n, false) && |pris| == n
    case Fin => Sortie(f, pris, max, n, true) && |pris| == n - 1
    case Panne => |pris| == n - 1
  }

  lemma OctetLu(v: Bytes, u: Bytes, f: Bytes, pris: Bytes, recu: Bytes, reste: Bytes, max: nat)
    requires |recu| == 1 && Pose(v, u, 0, pris + recu) && f == pris + recu + reste
    requires |pris| < max && SansNewline(pris)
    ensures |pris| < |v| && TourFait(f, pris + recu, max, |pris| + 1, if v[|pris|] == NEWLINE then Ligne else Octet)
  {
    DernierPose(v, u, pris, recu);
    if recu[0] == NEWLINE { SortieNewline(f, pris, recu, reste, max); } else { SansPlus(pris, recu); }
  }

  lemma RienLu(f: Bytes, pris: Bytes, recu: Bytes, reste: Bytes, max: nat, fin: bool)
    requires recu == [] && f == pris + recu + reste && |pris| < max && SansNewline(pris) && (fin ==> reste == [])
    ensures TourFait(f, pris + recu, max, |pris| + 1, if fin then Fin else Panne)
  {
    assert pris + recu == pris;
    if fin { SortieSans(f, pris, reste, max, true); }
  }

  datatype Appel = Lire(n: nat) | LireLigne(maxlen: nat)

  /** How many bytes of the stream f a call takes. */
  function Prise(f: Bytes, a: Appel): (k: nat)
    ensures k <= |f|
  {
    match a
    case Lire(n) => Min(n, |f|)
    case LireLigne(maxlen) => LigneLen(f, if maxlen == 0 then 0 else maxlen - 1)
  }

  /** How many bytes of the stream f the calls take in all. */
  function Prises(f: Bytes, appels: seq<Appel>): (k: nat)
    ensures k <= |f|
  {
    if appels == [] then 0
    else
      var k := Prises(f, appels[..|appels| - 1]);
      k + Prise(f[k..], appels[|appels| - 1])
  }

  // ---- the buffered reader ----

  lemma Tranche(b: Bytes, p: nat, c: nat, q: nat)
    requires p + c <= q <= |b|
    ensures b[p..q] == b[p..p + c] + b[p + c..q] && (p + c == q ==> b[p + c..q] == [])
  {
  }

  lemma Assoc(a: Bytes, b: Bytes, c: Bytes)
    ensures a + b + c == a + (b + c)
  {
  }

  lemma ResteDuFlux(l: Bytes, f: Bytes, l0: Bytes, f0: Bytes, p: nat)
    requires l + f == l0 + f0 && p <= |f0|
    ensures |l| == |l0| + p ==> f == f0[p..] && l == l0 + f0[..p]
  {
    if |l| == |l0| + p {
      assert l == (l + f)[..|l|] && f == (l + f)[|l|..];
      assert (l0 + f0)[..|l|] == l0 + f0[..p] && (l0 + f0)[|l|..] == f0[p..];
    }
  }

  class Rio {
    const fd: Descripteur
    const buf: array<Byte>
    var cnt: int
    var ptr: nat
    /** All the bytes handed to callers so far. */
    ghost var livre: Bytes

    ghost predicate Valid()
      reads this
    {
      buf.Length == RIO_BUFSIZE && (cnt > 0 ==> ptr + cnt <= RIO_BUFSIZE)
    }

    /** The bytes read ahead and not yet delivered. */
    ghost function Tampon(): Bytes
      requires Valid()
      reads this, buf
    {
      if cnt > 0 then buf[..][ptr..ptr + cnt] else []
    }

    /** The bytes still to be delivered: buffered, then unread. */
    ghost function Flux(): Bytes
      requires Valid()
      reads this, fd, buf
    {
      Tampon() + fd.reste
    }

    /** rio_readinitb */
    constructor (fd: Descripteur)
      ensures Valid() && this.fd == fd && fresh(buf) && livre == [] && Flux() == fd.reste
    {
      this.fd := fd;
      buf := new Byte[RIO_BUFSIZE](i => 0);
      cnt, ptr, livre := 0, 0, [];
    }

    /** One read into the empty buffer. */
    method Lecture() returns (eintr: bool)
      requires Valid() && cnt <= 0
      modifies this`cnt, this`ptr, fd`reste, fd`script, buf
      ensures Valid() && Flux() == old(Flux()) && (cnt == 0 ==> Flux() == [])
      ensures |fd.script| <= |old(fd.script)| && (cnt < 0 ==> |fd.script| < |old(fd.script)|)
      ensures Consommes(old(fd.script), fd.script, cnt < 0 && !eintr)
    {
      ghost var f := fd.reste;
      assert Flux() == f;
      ghost var pris;
      cnt, eintr, pris := fd.Read(buf, 0, RIO_BUFSIZE);
      if cnt > 0 {
        ptr := 0;
        assert Tampon() == pris;
      } else {
        assert [] + fd.reste == f;
      }
    }

    /** Refills the buffer when it is empty. */
    method Remplir() returns (rc: int)
      requires Valid()
      modifies this`cnt, this`ptr, fd`reste, fd`script, buf
      ensures Valid() && Flux() == old(Flux())
      ensures rc == -1 || (rc == 0 && Flux() == []) || (rc == 1 && cnt > 0)
      ensures Consommes(old(fd.script), fd.script, rc == -1)
    {
      while cnt <= 0
        invariant Valid() && Flux() == old(Flux()) && Consommes(old(fd.script), fd.script, false)
        decreases |fd.script|, if cnt <= 0 then 1 else 0
      {
        ghost var script := fd.script;
        var eintr := Lecture();
        Enchaine(old(fd.script), script, fd.script, cnt < 0 && !eintr);
        if cnt < 0 {
          if !eintr { return -1; }
        } else if cnt == 0 {
          return 0;
        }
      }
      return 1;
    }

    /** The memcpy of rio_read and the two assignments after it. */
    method Copier(usrbuf: array<Byte>, at: nat, c: nat) returns (ghost pris: Bytes)
      requires Valid() && usrbuf != buf && at + c <= usrbuf.Length && 0 < cnt && c <= cnt
      modifies this`cnt, this`ptr, this`livre, usrbuf
      ensures Valid() && old(Tampon()) == pris + Tampon() && |pris| == c
      ensures livre == old(livre) + pris && Pose(usrbuf[..], old(usrbuf[..]), at, pris)
    {
      ghost var b := buf[..];
      pris := b[ptr..ptr + c];
      Tranche(b, ptr, c, ptr + cnt);
      forall i | 0 <= i < c { usrbuf[at + i] := buf[ptr + i]; }
      assert buf[..] == b;
      livre := livre + pris;
      ptr := ptr + c;
      cnt := cnt - c;
    }

    /** rio_read: delivers at most n bytes into usrbuf. */
    method RioRead(usrbuf: array<Byte>, at: nat, n: nat) returns (rc: int, ghost pris: Bytes)
      requires Valid() && usrbuf != buf && at + n <= usrbuf.Length
      modifies this`cnt, this`ptr, this`livre, fd`reste, fd`script, buf, usrbuf
      ensures Valid() && -1 <= rc <= n && |pris| == if rc < 0 then 0 else rc
      ensures rc == 0 ==> n == 0 || Flux() == []
      ensures Consommes(old(fd.script), fd.script, rc == -1)
      ensures old(Flux()) == pris + Flux() && livre == old(livre) + pris
      ensures Pose(usrbuf[..], old(usrbuf[..]), at, pris)
    {
      var plein := Remplir();
      if plein <= 0 { return plein, []; }
      var c := n;
      if cnt < n { c := cnt; }
      ghost var b := fd.reste;
      pris := Copier(usrbuf, at, c);
      Assoc(pris, Tampon(), b);
      return c, pris;
    }

    /** The bytes pris have gone from the stream f to the caller, into the buffer v. */
    ghost predicate Livres(v: Bytes, u: Bytes, f: Bytes, l: Bytes, pris: Bytes)
      reads this, fd, buf
    {
      Valid() && f == pris + Flux() && livre == l + pris && Pose(v, u, 0, pris)
    }

    /** One rio_read of either loop, behind the bytes already copied. */
    method UnMorceau(usrbuf: array<Byte>, lus: nat, n: nat, ghost u: Bytes, ghost f: Bytes, ghost l: Bytes, ghost pris: Bytes)
      returns (rc: int, ghost recu: Bytes)
      requires usrbuf != buf && 0 < n && lus + n <= usrbuf.Length && lus == |pris|
      requires Livres(usrbuf[..], u, f, l, pris)
      modifies this`cnt, this`ptr, this`livre, fd`reste, fd`script, buf, usrbuf
      ensures -1 <= rc <= n && |recu| == if rc < 0 then 0 else rc
      ensures Livres(usrbuf[..], u, f, l, pris + recu)
      ensures rc == 0 ==> Flux() == []
      ensures Consommes(old(fd.script), fd.script, rc == -1)
      ensures old(Flux()) == recu + Flux()
    {
      ghost var v := usrbuf[..];
      rc, recu := RioRead(usrbuf, lus, n);
      PoseSuite(usrbuf[..], v, u, pris, recu);
      Assoc(pris, recu, Flux());
      Assoc(l, pris, recu);
    }

    /** rio_readnb: delivers n bytes, or all up to the end; an error keeps what was delivered before it. */
    method RioReadnb(usrbuf: array<Byte>, n: nat) returns (rc: int, ghost pris: Bytes)
      requires Valid() && usrbuf != buf && n <= usrbuf.Length
      modifies this`cnt, this`ptr, this`livre, fd`reste, fd`script, buf, usrbuf
      ensures Livres(usrbuf[..], old(usrbuf[..]), old(Flux()), old(livre), pris)
      ensures |pris| <= n && Consommes(old(fd.script), fd.script, rc == -1)
      ensures rc != -1 ==> rc == |pris| == Min(n, |old(Flux())|)
    {
      ghost var u, f, l := usrbuf[..], Flux(), livre;
      var nleft, bufp := n, 0;
      pris := [];
      while nleft > 0
        invariant 0 <= nleft && |pris| == bufp && bufp + nleft == n
        invariant Livres(usrbuf[..], u, f, l, pris) && Consommes(old(fd.script), fd.script, false)
        decreases nleft
      {
        ghost var script := fd.script;
        var nread, recu := UnMorceau(usrbuf, bufp, nleft, u, f, l, pris);
        Enchaine(old(fd.script), script, fd.script, nread == -1);
        pris := pris + recu;
        if nread < 0 {
          return -1, pris;
        } else if nread == 0 {
          break;
        }
        nleft := nleft - nread;
        bufp := bufp + nread;
      }
      return n - nleft, pris;
    }

    /** One turn of the loop of rio_readlineb with counter n: an ordinary byte, a newline, the end, or an error. */
    method UnOctet(usrbuf: array<Byte>, n: nat, maxlen: nat, ghost u: Bytes, ghost f: Bytes, ghost l: Bytes, ghost pris: Bytes)
      returns (tour: Tour, ghost pris': Bytes)
      requires usrbuf != buf && n < maxlen <= usrbuf.Length && n == |pris| + 1 && SansNewline(pris)
      requires Livres(usrbuf[..], u, f, l, pris)
      modifies this`cnt, this`ptr, this`livre, fd`reste, fd`script, buf, usrbuf
      ensures Livres(usrbuf[..], u, f, l, pris')
      ensures TourFait(f, pris', maxlen - 1, n, tour)
      ensures Consommes(old(fd.script), fd.script, tour == Panne)
    {
      var rc, recu := UnMorceau(usrbuf, n - 1, 1, u, f, l, pris);
      pris' := pris + recu;
      if rc == 1 {
        OctetLu(usrbuf[..], u, f, pris, recu, Flux(), maxlen - 1);
        tour := if usrbuf[n - 1] == NEWLINE then Ligne else Octet;
      } else {
        RienLu(f, pris, recu, Flux(), maxlen - 1, rc == 0);
        tour := if rc == 0 then Fin else Panne;
      }
    }

    /** The loop of rio_readlineb: its counter n, or -1 on an error, and whether it met the end of the stream. */
    method BoucleLigne(usrbuf: array<Byte>, maxlen: nat) returns (rc: int, eof: bool, lus: nat, ghost pris: Bytes)
      requires Valid() && usrbuf != buf && 0 < maxlen <= usrbuf.Length
      modifies this`cnt, this`ptr, this`livre, fd`reste, fd`script, buf, usrbuf
      ensures Livres(usrbuf[..], old(usrbuf[..]), old(Flux()), old(livre), pris)
      ensures lus == |pris| < maxlen
      ensures rc == -1 || Sortie(old(Flux()), pris, maxlen - 1, rc, eof)
      ensures Consommes(old(fd.script), fd.script, rc == -1)
    {
      ghost var u, f, l := usrbuf[..], Flux(), livre;
      var n := 1;
      pris := [];
      while n < maxlen
        invariant 1 <= n <= maxlen && |pris| == n - 1 && SansNewline(pris)
        invariant Livres(usrbuf[..], u, f, l, pris) && Consommes(old(fd.script), fd.script, false)
        decreases maxlen - n
      {
        ghost var script := fd.script;
        var tour;
        tour, pris := UnOctet(usrbuf, n, maxlen, u, f, l, pris);
        Enchaine(old(fd.script), script, fd.script, tour == Panne);
        match tour
        case Octet => n := n + 1;
        case Ligne => return n, false, n, pris;
        case Fin => return n, true, n - 1, pris;
        case Panne => return -1, false, n - 1, pris;
      }
      SortieSans(f, pris, Flux(), maxlen - 1, false);
      return n, false, n - 1, pris;
    }

    /** v is u with the bytes of pris, then a zero, written at its front. */
    ghost predicate Terminee(v: Bytes, u: Bytes, pris: Bytes) {
      |pris| < |u| && Pose(v, u, 0, pris + [0])
    }

    /**
      * rio_readlineb: delivers one line of at most maxlen - 1 bytes and a terminating zero.
      * The count returned includes the zero unless a newline was read; at an immediate end nothing is stored.
      */
    method RioReadlineb(usrbuf: array<Byte>, maxlen: nat) returns (rc: int, ghost pris: Bytes)
      requires Valid() && usrbuf != buf && maxlen <= usrbuf.Length && 0 < usrbuf.Length
      modifies this`cnt, this`ptr, this`livre, fd`reste, fd`script, buf, usrbuf
      ensures Valid() && old(Flux()) == pris + Flux() && livre == old(livre) + pris
      ensures Consommes(old(fd.script), fd.script, rc == -1)
      ensures rc != -1 ==> |pris| == LigneLen(old(Flux()), if maxlen == 0 then 0 else maxlen - 1)
      ensures rc != -1 ==>
                rc == if pris != [] && pris[|pris| - 1] == 10 then |pris| else if old(Flux()) == [] && maxlen > 1 then 0 else |pris| + 1
      ensures if rc <= 0 then Pose(usrbuf[..], old(usrbuf[..]), 0, pris)
              else Terminee(usrbuf[..], old(usrbuf[..]), pris) && usrbuf[|pris|] == 0
    {
      var eof, lus;
      rc, eof, lus, pris := BoucleLigne(usrbuf, if maxlen == 0 then 1 else maxlen);
      if rc == -1 { return; }
      if eof && rc == 1 {
        rc := 0;
        return;
      }
      ghost var v := usrbuf[..];
      Zero(usrbuf, lus);
      PoseSuite(usrbuf[..], v, old(usrbuf[..]), pris, [0]);
    }

    /** The final *bufp = 0. */
    method Zero(usrbuf: array<Byte>, at: nat)
      requires Valid() && usrbuf != buf && at < usrbuf.Length
      modifies usrbuf
      ensures Valid() && Flux() == old(Flux()) && Pose(usrbuf[..], old(usrbuf[..]), at, [0])
    {
      usrbuf[at] := 0;
      assert Tampon() == old(Tampon());
    }
  
    /** One call into a buffer of the caller's. */
    method UnAppel(a: Appel)
      requires Valid()
      modifies this`cnt, this`ptr, this`livre, fd`reste, fd`script, buf
      ensures Valid() && livre + Flux() == old(livre + Flux())
      ensures Erreur in old(fd.script) || (Erreur !in fd.script && |livre| == |old(livre)| + Prise(old(Flux()), a))
    {
      ghost var l := livre;
      var rc;
      ghost var pris;
      match a {
        case Lire(n) =>
          var usrbuf := new Byte[n];
          rc, pris := RioReadnb(usrbuf, n);
        case LireLigne(maxlen) =>
          var usrbuf := new Byte[if maxlen == 0 then 1 else maxlen];
          rc, pris := RioReadlineb(usrbuf, maxlen);
      }
      if Erreur !in old(fd.script) { SansErreur(old(fd.script), fd.script, rc == -1); }
      Assoc(l, pris, Flux());
    }

    /**
      * Any mix of calls, over any script: delivered, buffered and unread bytes together stay the original stream.
      * Unless the kernel reports an error, what is delivered depends on the stream and the calls alone.
      */
    method Session(appels: seq<Appel>)
      requires Valid()
      modifies this`cnt, this`ptr, this`livre, fd`reste, fd`script, buf
      ensures Valid() && livre + Tampon() + fd.reste == old(livre + Tampon() + fd.reste)
      ensures Erreur in old(fd.script) || livre == old(livre) + old(Flux())[..Prises(old(Flux()), appels)]
    {
      ghost var l0, f0, prises := livre, Flux(), 0;
      assert appels[..0] == [];
      Assoc(livre, Tampon(), fd.reste);
      for k := 0 to |appels|
        invariant Valid() && livre + Flux() == l0 + f0
        invariant prises == Prises(f0, appels[..k])
        invariant Erreur in old(fd.script) || (Erreur !in fd.script && |livre| == |l0| + prises)
      {
        ResteDuFlux(livre, Flux(), l0, f0, prises);
        assert appels[..k + 1][..k] == appels[..k];
        UnAppel(appels[k]);
        prises := prises + Prise(f0[prises..], appels[k]);
      }
      assert appels[..|appels|] == appels;
      Assoc(livre, Tampon(), fd.reste);
      ResteDuFlux(livre, Flux(), l0, f0, prises);
    }
  }
}
