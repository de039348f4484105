/** Algo6/APNEE4/Arc.java and the text format of Graphe.java: printing an arc list and reading it back. */
module ArcGraphes {
  import opened Decimals

  datatype Outcome<+T> = Ok(value: T) | Malforme | HorsLimites

  const MAX_INT := 0x7FFF_FFFF

  /** i + 1 in 32 bits. */
  function Incr(i: int): int { if i == MAX_INT then -MAX_INT - 1 else i + 1 }

  datatype Arc = Arc(numero: int, source: int, destination: int) {
    function ToString(): string {
      Entier(numero) + "/" + Entier(Incr(source)) + "+" + Entier(Incr(destination)) + "/"
    }
  }

  /** For each vertex, the arcs in its list. */
  type Listes = seq<seq<Arc>>

  // ---- printing ----

  function Mots(arcs: seq<Arc>): seq<string> {
    if arcs == [] then [] else [arcs[0].ToString()] + Mots(arcs[1..])
  }

  function Lignes(mots: seq<string>): string {
    if mots == [] then [] else Lignes(mots[..|mots| - 1]) + (mots[|mots| - 1] + "\n")
  }

  function Flat(g: Listes): seq<Arc> {
    if g == [] then [] else Flat(g[..|g| - 1]) + g[|g| - 1]
  }

  lemma OneMore<T>(a: seq<T>, s: seq<T>, k: nat)
    requires k < |s|
    ensures a + s[..k + 1] == a + s[..k] + [s[k]]
  {
  }

  lemma FlatPlus(g: Listes, m: nat)
    requires m < |g|
    ensures Flat(g[..m + 1]) == Flat(g[..m]) + g[m]
  {
    assert g[..m + 1][..m] == g[..m];
  }

  lemma {:induction false} MotsPlus(arcs: seq<Arc>, arc: Arc)
    ensures Mots(arcs + [arc]) == Mots(arcs) + [arc.ToString()]
    decreases |arcs|
  {
    if arcs == [] {
      assert arcs + [arc] == [arc];
      assert [arc][1..] == [];
    } else {
      assert (arcs + [arc])[1..] == arcs[1..] + [arc];
      MotsPlus(arcs[1..], arc);
    }
  }

  lemma {:induction false} LignesPlus(debut: string, arcs: seq<Arc>, arc: Arc)
    ensures debut + Lignes(Mots(arcs + [arc])) == debut + Lignes(Mots(arcs)) + (arc.ToString() + "\n")
  {
    MotsPlus(arcs, arc);
    var mots := Mots(arcs) + [arc.ToString()];
    assert mots[..|mots| - 1] == Mots(arcs);
  }

  function ToString(g: Listes): string {
    Entier(|g|) + "\n" + Lignes(Mots(Flat(g)))
  }

  // ---- reading: tokens ----

  /** The whitespace of Java among the first 128 characters. */
  predicate IsBlank(c: char) { '\t' <= c <= '\r' || '\U{1C}' <= c <= ' ' }

  predicate IsToken(s: string) {
    s != [] && forall k :: 0 <= k < |s| ==> !IsBlank(s[k])
  }

  /** The blank-separated tokens of text, after the pending characters of one being read. */
  function TokensFrom(pending: string, text: string): seq<string>
    decreases |text|
  {
    if text == [] then if pending == [] then [] else [pending]
    else if !IsBlank(text[0]) then TokensFrom(pending + [text[0]], text[1..])
    else (if pending == [] then [] else [pending]) + TokensFrom([], text[1..])
  }

  function Tokens(text: string): seq<string> { TokensFrom([], text) }

  lemma {:induction false} TokensPending(pending: string, t: string, rest: string)
    requires forall k :: 0 <= k < |t| ==> !IsBlank(t[k])
    ensures TokensFrom(pending, t + rest) == TokensFrom(pending + t, rest)
    decreases |t|
  {
    if t == [] {
      assert t + rest == rest && pending + t == pending;
    } else {
      TokensPending(pending + [t[0]], t[1..], rest);
      assert (t + rest)[1..] == t[1..] + rest;
      assert pending + [t[0]] + t[1..] == pending + t;
    }
  }

  lemma TokensLine(t: string, rest: string)
    requires IsToken(t)
    ensures Tokens(t + "\n" + rest) == [t] + Tokens(rest)
  {
    TokensPending([], t, "\n" + rest);
    assert t + "\n" + rest == t + ("\n" + rest);
    assert [] + t == t;
    assert ("\n" + rest)[1..] == rest;
  }

  // ---- reading: one arc ----

  datatype Lu = Rien | Lu(chiffres: string, reste: string)

  /** The digits before the first other character, and what follows. */
  function Couper(s: string): (r: (string, string))
    ensures s == r.0 + r.1 && Digits(r.0) && (r.1 != [] ==> !IsDigit(r.1[0]))
  {
    if s != [] && IsDigit(s[0]) then
      var (d, rest) := Couper(s[1..]);
      assert s == [s[0]] + s[1..];
      ([s[0]] + d, rest)
    else ([], s)
  }

  lemma {:induction false} CouperIs(d: string, rest: string)
    requires Digits(d) && (rest != [] ==> !IsDigit(rest[0]))
    ensures Couper(d + rest) == (d, rest)
  {
    if d == [] {
      assert d + rest == rest;
    } else {
      assert (d + rest)[1..] == d[1..] + rest;
      CouperIs(d[1..], rest);
      assert [d[0]] + d[1..] == d;
    }
  }

  /** A non-empty number ended by the given character. */
  function Nombre(s: string, fin: char): Lu {
    var (d, rest) := Couper(s);
    if d != [] && rest != [] && rest[0] == fin then Lu(d, rest[1..]) else Rien
  }

  lemma NombreIff(s: string, fin: char, d: string, rest: string)
    requires !IsDigit(fin)
    ensures Nombre(s, fin) == Lu(d, rest) <==> d != [] && Digits(d) && s == d + ([fin] + rest)
  {
    var (d', r) := Couper(s);
    if d != [] && Digits(d) && s == d + ([fin] + rest) {
      CouperIs(d, [fin] + rest);
      assert ([fin] + rest)[1..] == rest;
    }
    if Nombre(s, fin) == Lu(d, rest) {
      assert r == [fin] + rest;
    }
  }

  /** number/source+destination/ with the vertices counted from 1. */
  function LireArc(s: string): Outcome<Arc> {
    match Nombre(s, '/')
    case Rien => Malforme
    case Lu(x, s1) =>
      match Nombre(s1, '+')
      case Rien => Malforme
      case Lu(y, s2) =>
        match Nombre(s2, '/')
        case Rien => Malforme
        case Lu(z, s3) => if s3 != [] then Malforme else Valeurs(x, y, z)
  }

  function Valeurs(x: string, y: string, z: string): Outcome<Arc> {
    if Valeur(x) > MAX_INT || Valeur(y) > MAX_INT || Valeur(z) > MAX_INT then HorsLimites
    else Ok(Arc(Valeur(x), Valeur(y) - 1, Valeur(z) - 1))
  }

  /** s is x/y+z/ for three non-empty runs of digits. */
  ghost predicate Forme(s: string, x: string, y: string, z: string) {
    && x != [] && y != [] && z != [] && Digits(x) && Digits(y) && Digits(z)
    && s == x + "/" + y + "+" + z + "/"
  }

  lemma FormeNested(x: string, y: string, z: string)
    ensures x + "/" + y + "+" + z + "/" == x + (['/'] + (y + (['+'] + (z + (['/'] + [])))))
  {
  }

  lemma NestedIsRead(s: string, x: string, s1: string, y: string, s2: string, z: string)
    requires x != [] && y != [] && z != [] && Digits(x) && Digits(y) && Digits(z)
    requires s == x + (['/'] + s1) && s1 == y + (['+'] + s2) && s2 == z + (['/'] + [])
    ensures LireArc(s) == Valeurs(x, y, z)
  {
    NombreIff(s, '/', x, s1);
    NombreIff(s1, '+', y, s2);
    NombreIff(s2, '/', z, []);
  }

  lemma FormeIsRead(s: string, x: string, y: string, z: string)
    requires Forme(s, x, y, z)
    ensures LireArc(s) == Valeurs(x, y, z)
  {
    FormeNested(x, y, z);
    NestedIsRead(s, x, y + (['+'] + (z + (['/'] + []))), y, z + (['/'] + []), z);
  }

  lemma ReadIsForme(s: string) returns (x: string, y: string, z: string)
    requires !LireArc(s).Malforme?
    ensures Forme(s, x, y, z)
  {
    x := Nombre(s, '/').chiffres;
    var s1 := Nombre(s, '/').reste;
    y := Nombre(s1, '+').chiffres;
    var s2 := Nombre(s1, '+').reste;
    z := Nombre(s2, '/').chiffres;
    NombreIff(s, '/', x, s1);
    NombreIff(s1, '+', y, s2);
    NombreIff(s2, '/', z, []);
    FormeNested(x, y, z);
  }

  /** A token passes the format test exactly when it has the announced form. */
  lemma MalformeIff(s: string)
    ensures LireArc(s).Malforme? <==> !exists x, y, z :: Forme(s, x, y, z)
  {
    if x, y, z :| Forme(s, x, y, z) {
      FormeIsRead(s, x, y, z);
    }
    if !LireArc(s).Malforme? {
      var x, y, z := ReadIsForme(s);
    }
  }

  // ---- reading: the file ----

  function SansSigne(s: string): string {
    if s != [] && (s[0] == '-' || s[0] == '+') then s[1..] else s
  }

  /** Threes of digits, each behind the locale's group separator. */
  predicate Groupes(s: string, sep: char)
    decreases |s|
  {
    s == [] || (|s| >= 4 && s[0] == sep && Digits(s[1..4]) && Groupes(s[4..], sep))
  }

  /** Digits, or one to three digits that do not begin with 0 and threes behind them. */
  predicate Numeral(s: string, sep: char) {
    var (d, rest) := Couper(s);
    d != [] && (rest == [] || (|d| <= 3 && d[0] != '0' && Groupes(rest, sep)))
  }

  function Chiffres(s: string): string {
    if s == [] then [] else (if IsDigit(s[0]) then [s[0]] else []) + Chiffres(s[1..])
  }

  /** The vertex count as the scanner reads an int; an array cannot have a negative length. */
  function LireCompte(s: string, sep: char): Outcome<nat> {
    var u := SansSigne(s);
    var v := Valeur(Chiffres(u));
    if !Numeral(u, sep) then Malforme
    else if s[0] == '-' then if v == 0 then Ok(0) else if v <= MAX_INT + 1 then HorsLimites else Malforme
    else if v <= MAX_INT then Ok(v)
    else Malforme
  }

  lemma {:induction false} ChiffresSeuls(s: string)
    requires Digits(s)
    ensures Chiffres(s) == s
  {
    if s != [] {
      ChiffresSeuls(s[1..]);
      assert [s[0]] + s[1..] == s;
    }
  }

  /** A printed count is read back in any locale. */
  lemma CompteReadsBack(n: nat, sep: char)
    requires n <= MAX_INT
    ensures LireCompte(Decimal(n), sep) == Ok(n)
  {
    var s := Decimal(n);
    DecimalReads(n);
    assert IsDigit(s[0]);
    CouperIs(s, []);
    assert s + [] == s;
    ChiffresSeuls(s);
  }

  function Place(g: Listes, arc: Arc): (r: Listes)
    requires 0 <= arc.source < |g|
    ensures |r| == |g|
  {
    g[arc.source := g[arc.source] + [arc]]
  }

  /** Arcs are appended to the list of their source, in the order of the tokens. */
  function LireArcs(g: Listes, tokens: seq<string>): Outcome<Listes>
    decreases |tokens|
  {
    if tokens == [] then Ok(g)
    else
      match LireArc(tokens[0])
      case Malforme => Malforme
      case HorsLimites => HorsLimites
      case Ok(arc) =>
        if 0 <= arc.source < |g| then LireArcs(Place(g, arc), tokens[1..]) else HorsLimites
  }

  function Vide(n: nat): Listes {
    seq(n, i => [])
  }

  /** sep is the group separator of the locale the scanner runs in. */
  function Lire(text: string, sep: char): Outcome<Listes> {
    var tokens := Tokens(text);
    if tokens == [] then Malforme
    else
      match LireCompte(tokens[0], sep)
      case Ok(n) => LireArcs(Vide(n), tokens[1..])
      case Malforme => Malforme
      case HorsLimites => HorsLimites
  }

  // ---- the round trip ----

  /** An arc of ints whose source is one of n vertices. */
  predicate Dedans(n: nat, arc: Arc) {
    0 <= arc.source < n <= MAX_INT && arc.destination <= MAX_INT && arc.numero <= MAX_INT
  }

  predicate Range(n: nat, i: int, arcs: seq<Arc>) {
    forall k :: 0 <= k < |arcs| ==> Dedans(n, arcs[k]) && arcs[k].source == i
  }

  /** List i holds arcs of source i; their destinations and numbers are any ints. */
  predicate Imprimable(g: Listes) {
    |g| <= MAX_INT && forall i :: 0 <= i < |g| ==> Range(|g|, i, g[i])
  }

  /** No part is printed with a sign. */
  predicate Relisible(arc: Arc) {
    0 <= arc.numero && -1 <= arc.destination < MAX_INT
  }

  predicate Relisibles(arcs: seq<Arc>) {
    forall k :: 0 <= k < |arcs| ==> Relisible(arcs[k])
  }

  lemma DigitsAreNotBlank(s: string)
    requires Digits(s)
    ensures forall k :: 0 <= k < |s| ==> !IsBlank(s[k])
  {
  }

  lemma EntierIsToken(n: int)
    ensures IsToken(Entier(n)) && (n < 0 ==> Entier(n)[0] == '-')
  {
    var d := Decimal(if n < 0 then -n else n);
    DecimalReads(if n < 0 then -n else n);
    DigitsAreNotBlank(d);
  }

  lemma ArcIsToken(arc: Arc)
    ensures IsToken(arc.ToString())
  {
    EntierIsToken(arc.numero);
    EntierIsToken(Incr(arc.source));
    EntierIsToken(Incr(arc.destination));
  }

  lemma Assoc<T>(a: seq<T>, b: seq<T>, c: seq<T>)
    ensures a + b + c == a + (b + c)
  {
  }

  lemma {:induction false} LignesTokens(mots: seq<string>, rest: string)
    requires forall k :: 0 <= k < |mots| ==> IsToken(mots[k])
    ensures Tokens(Lignes(mots) + rest) == mots + Tokens(rest)
    decreases |mots|
  {
    if mots == [] {
      assert Lignes(mots) + rest == rest;
    } else {
      var init, mot := mots[..|mots| - 1], mots[|mots| - 1];
      Assoc(Lignes(init), mot + "\n", rest);
      LignesTokens(init, mot + "\n" + rest);
      TokensLine(mot, rest);
      Assoc(init, [mot], Tokens(rest));
      assert init + [mot] == mots;
    }
  }

  lemma {:induction false} FileTokens(premier: string, mots: seq<string>)
    requires IsToken(premier) && forall k :: 0 <= k < |mots| ==> IsToken(mots[k])
    ensures Tokens(premier + "\n" + Lignes(mots)) == [premier] + mots
  {
    TokensLine(premier, Lignes(mots));
    LignesTokens(mots, []);
    assert Lignes(mots) + [] == Lignes(mots);
    assert mots + Tokens([]) == mots;
  }

  lemma {:induction false} MotsAreTokens(arcs: seq<Arc>)
    ensures forall k :: 0 <= k < |Mots(arcs)| ==> IsToken(Mots(arcs)[k])
    decreases |arcs|
  {
    if arcs != [] {
      ArcIsToken(arcs[0]);
      MotsAreTokens(arcs[1..]);
    }
  }

  lemma PrintedTokens(g: Listes)
    ensures Tokens(ToString(g)) == [Entier(|g|)] + Mots(Flat(g))
  {
    EntierIsToken(|g|);
    MotsAreTokens(Flat(g));
    FileTokens(Entier(|g|), Mots(Flat(g)));
  }

  lemma NoLeadingDigit(s: string)
    requires s != [] && !IsDigit(s[0])
    ensures LireArc(s).Malforme?
  {
  }

  lemma ValeursSont(x: string, y: string, z: string)
    ensures Valeurs(x, y, z) == if Valeur(x) > 2147483647 || Valeur(y) > 2147483647 || Valeur(z) > 2147483647 then HorsLimites
                                else Ok(Arc(Valeur(x), Valeur(y) - 1, Valeur(z) - 1))
  {
  }

  lemma NestedIsMalformed(s: string, x: string, s1: string, y: string, s2: string)
    requires x != [] && y != [] && Digits(x) && Digits(y)
    requires s == x + (['/'] + s1) && s1 == y + (['+'] + s2) && s2 != [] && !IsDigit(s2[0])
    ensures LireArc(s) == Malforme
  {
    NombreIff(s, '/', x, s1);
    NombreIff(s1, '+', y, s2);
  }

  lemma SignIsMalformed(x: string, y: string, z: string)
    requires x != [] && y != [] && z != [] && Digits(x) && Digits(y) && !IsDigit(z[0])
    ensures LireArc(x + "/" + y + "+" + z + "/") == Malforme
  {
    FormeNested(x, y, z);
    NestedIsMalformed(x + "/" + y + "+" + z + "/", x, y + (['+'] + (z + (['/'] + []))), y, z + (['/'] + []));
  }

  lemma SignFirst(x: string, y: string, z: string)
    requires x != [] && !IsDigit(x[0])
    ensures LireArc(x + "/" + y + "+" + z + "/") == Malforme
  {
    FormeNested(x, y, z);
    NoLeadingDigit(x + (['/'] + (y + (['+'] + (z + (['/'] + []))))));
  }

  lemma Parts(arc: Arc, x: string, y: string, z: string)
    requires x == Entier(arc.numero) && y == Entier(Incr(arc.source)) && z == Entier(Incr(arc.destination))
    ensures arc.ToString() == x + "/" + y + "+" + z + "/"
  {
  }

  /** A printed integer starts with a digit exactly when it is not negative, and then reads back. */
  lemma EntierReads(n: int)
    ensures Entier(n) != [] && (n < 0 ==> !IsDigit(Entier(n)[0]))
    ensures n >= 0 ==> Digits(Entier(n)) && Valeur(Entier(n)) == n
  {
    DecimalReads(if n < 0 then -n else n);
  }

  /** What is read of three parts, the second of which is digits. */
  lemma TroisParts(x: string, y: string, z: string)
    requires x != [] && y != [] && z != [] && Digits(y)
    ensures !IsDigit(x[0]) ==> LireArc(x + "/" + y + "+" + z + "/") == Malforme
    ensures Digits(x) && !IsDigit(z[0]) ==> LireArc(x + "/" + y + "+" + z + "/") == Malforme
    ensures Digits(x) && Digits(z) ==> LireArc(x + "/" + y + "+" + z + "/") == Valeurs(x, y, z)
  {
    if !IsDigit(x[0]) { SignFirst(x, y, z); }
    if Digits(x) && !IsDigit(z[0]) { SignIsMalformed(x, y, z); }
    if Digits(x) && Digits(z) { FormeIsRead(x + "/" + y + "+" + z + "/", x, y, z); }
  }

  /** Which of the three it is, for the printed parts of an arc; r is what is read. */
  lemma PartsRead(arc: Arc, x: string, y: string, z: string, r: Outcome<Arc>)
    requires 0 <= arc.source < MAX_INT && arc.destination <= MAX_INT && arc.numero <= MAX_INT
    requires x != [] && z != [] && Valeur(y) == arc.source + 1
    requires if arc.numero < 0 then !IsDigit(x[0]) else Digits(x) && Valeur(x) == arc.numero
    requires if Incr(arc.destination) < 0 then !IsDigit(z[0]) else Digits(z) && Valeur(z) == Incr(arc.destination)
    requires !IsDigit(x[0]) ==> r == Malforme
    requires Digits(x) && !IsDigit(z[0]) ==> r == Malforme
    requires Digits(x) && Digits(z) ==> r == Valeurs(x, y, z)
    ensures r == if Relisible(arc) then Ok(arc) else Malforme
  {
    ValeursSont(x, y, z);
  }

  /** A printed arc reads back as itself exactly when none of its parts is printed with a sign. */
  lemma ArcReadsBack(n: nat, arc: Arc)
    requires Dedans(n, arc)
    ensures LireArc(arc.ToString()) == if Relisible(arc) then Ok(arc) else Malforme
  {
    var x, y, z := Entier(arc.numero), Entier(Incr(arc.source)), Entier(Incr(arc.destination));
    EntierReads(arc.numero);
    EntierReads(Incr(arc.source));
    EntierReads(Incr(arc.destination));
    Parts(arc, x, y, z);
    TroisParts(x, y, z);
    PartsRead(arc, x, y, z, LireArc(arc.ToString()));
  }

  function Placer(g: Listes, arcs: seq<Arc>): (r: Listes)
    ensures |r| == |g|
    decreases |arcs|
  {
    if arcs == [] then g
    else if 0 <= arcs[0].source < |g| then Placer(Place(g, arcs[0]), arcs[1..])
    else g
  }

  lemma RelisiblesTail(arcs: seq<Arc>)
    requires arcs != []
    ensures Relisibles(arcs) <==> Relisible(arcs[0]) && Relisibles(arcs[1..])
  {
    assert forall k :: 0 < k < |arcs| ==> arcs[k] == arcs[1..][k - 1];
  }

  /** Reading printed arcs places them in order, or stops at the first sign. */
  lemma {:induction false} ArcsReadBack(g: Listes, arcs: seq<Arc>)
    requires forall a :: a in arcs ==> Dedans(|g|, a)
    ensures LireArcs(g, Mots(arcs)) == if Relisibles(arcs) then Ok(Placer(g, arcs)) else Malforme
    decreases |arcs|
  {
    if arcs != [] {
      ArcReadsBack(|g|, arcs[0]);
      assert Mots(arcs)[1..] == Mots(arcs[1..]);
      RelisiblesTail(arcs);
      if Relisible(arcs[0]) {
        ArcsReadBack(Place(g, arcs[0]), arcs[1..]);
      }
    }
  }

  lemma {:induction false} PlacerConcat(g: Listes, a: seq<Arc>, b: seq<Arc>)
    requires forall x :: x in a ==> 0 <= x.source < |g|
    ensures Placer(g, a + b) == Placer(Placer(g, a), b)
    decreases |a|
  {
    if a == [] {
      assert a + b == b;
    } else {
      assert (a + b)[1..] == a[1..] + b;
      PlacerConcat(Place(g, a[0]), a[1..], b);
    }
  }

  lemma {:induction false} PlacerList(g: Listes, i: nat, arcs: seq<Arc>)
    requires i < |g| && forall x :: x in arcs ==> x.source == i
    ensures Placer(g, arcs) == g[i := g[i] + arcs]
    decreases |arcs|
  {
    if arcs == [] {
      assert g[i] + arcs == g[i];
      assert g[i := g[i]] == g;
    } else {
      var h := Place(g, arcs[0]);
      PlacerList(h, i, arcs[1..]);
      assert h[i] + arcs[1..] == g[i] + arcs;
    }
  }

  /** The first m lists of g, the others empty. */
  function Debut(g: Listes, m: nat): Listes
    requires m <= |g|
  {
    g[..m] + Vide(|g| - m)
  }

  lemma {:induction false} FlatMember(g: Listes, m: nat, arc: Arc)
    requires Imprimable(g) && m <= |g| && arc in Flat(g[..m])
    ensures Dedans(|g|, arc)
  {
    if m > 0 {
      assert g[..m][..m - 1] == g[..m - 1];
      if arc in Flat(g[..m - 1]) {
        FlatMember(g, m - 1, arc);
      } else {
        var k :| 0 <= k < |g[m - 1]| && g[m - 1][k] == arc;
      }
    }
  }

  lemma {:induction false} PlacerFlat(g: Listes, m: nat)
    requires Imprimable(g) && m <= |g|
    ensures Placer(Vide(|g|), Flat(g[..m])) == Debut(g, m)
  {
    if m == 0 {
      assert Debut(g, 0) == Vide(|g|);
    } else {
      var init, last, h := Flat(g[..m - 1]), g[m - 1], Debut(g, m - 1);
      assert g[..m][..m - 1] == g[..m - 1];
      PlacerFlat(g, m - 1);
      forall x | x in init ensures 0 <= x.source < |g| { FlatMember(g, m - 1, x); }
      PlacerConcat(Vide(|g|), init, last);
      PlacerList(h, m - 1, last);
      assert h[m - 1] + last == last;
      assert h[m - 1 := last] == Debut(g, m);
    }
  }

  /** Reading a printed graph restores it, in every list and in order, exactly when no arc is printed with a sign. */
  lemma {:induction false} ReadPrinted(g: Listes, sep: char)
    requires Imprimable(g)
    ensures Lire(ToString(g), sep) == if Relisibles(Flat(g)) then Ok(g) else Malforme
  {
    var tokens := Tokens(ToString(g));
    PrintedTokens(g);
    assert tokens[1..] == Mots(Flat(g));
    CompteReadsBack(|g|, sep);
    assert g[..|g|] == g;
    forall x | x in Flat(g) ensures Dedans(|g|, x) { FlatMember(g, |g|, x); }
    ArcsReadBack(Vide(|g|), Flat(g));
    PlacerFlat(g, |g|);
    assert Debut(g, |g|) == g;
  }

  // ---- what has been read can be printed and read again ----

  predicate Lue(n: nat, i: int, arcs: seq<Arc>) {
    Range(n, i, arcs) && Relisibles(arcs)
  }

  predicate Lues(g: Listes) {
    |g| <= MAX_INT && forall i :: 0 <= i < |g| ==> Lue(|g|, i, g[i])
  }

  lemma PlaceLues(g: Listes, arc: Arc)
    requires Lues(g) && Dedans(|g|, arc) && Relisible(arc)
    ensures Lues(Place(g, arc))
  {
    var h := Place(g, arc);
    forall i | 0 <= i < |h| ensures Lue(|h|, i, h[i]) {
      assert Lue(|g|, i, g[i]);
    }
  }

  lemma {:induction false} LireArcsLues(g: Listes, tokens: seq<string>)
    requires Lues(g) && LireArcs(g, tokens).Ok?
    ensures Lues(LireArcs(g, tokens).value)
    decreases |tokens|
  {
    if tokens != [] {
      var arc := LireArc(tokens[0]).value;
      PlaceLues(g, arc);
      LireArcsLues(Place(g, arc), tokens[1..]);
    }
  }

  lemma {:induction false} FlatRelisibles(g: Listes, m: nat)
    requires Lues(g) && m <= |g|
    ensures Relisibles(Flat(g[..m]))
  {
    if m > 0 {
      FlatPlus(g, m - 1);
      FlatRelisibles(g, m - 1);
      assert Lue(|g|, m - 1, g[m - 1]);
    }
  }

  /** Whatever text lire accepts, printing the graph it built and reading that, in any locale, restores the graph. */
  lemma LitImprimeRelit(text: string, sep: char, autre: char)
    requires Lire(text, sep).Ok?
    ensures Lire(ToString(Lire(text, sep).value), autre) == Lire(text, sep)
  {
    var tokens := Tokens(text);
    var vide := Vide(LireCompte(tokens[0], sep).value);
    assert Lues(vide) by { assert forall i :: 0 <= i < |vide| ==> Lue(|vide|, i, vide[i]); }
    LireArcsLues(vide, tokens[1..]);
    var g := Lire(text, sep).value;
    assert Imprimable(g) by { assert forall i :: 0 <= i < |g| ==> Lue(|g|, i, g[i]); }
    FlatRelisibles(g, |g|);
    assert g[..|g|] == g;
    ReadPrinted(g, autre);
  }
}
