/** What the text format of Algo6/APNEE4/Graphe.java is, said without the functions that print and read it. */
module ArcTextes {
  import opened ArcGraphes
  import opened Decimals
  import opened Decoupes

  // ---- one arc ----

  /** number/source+destination/ is read as those three numbers, the vertices less 1, unless one is beyond an int. */
  lemma ArcLu(s: string, x: string, y: string, z: string)
    requires Forme(s, x, y, z)
    ensures LireArc(s) == if Valeur(x) > 2147483647 || Valeur(y) > 2147483647 || Valeur(z) > 2147483647 then HorsLimites
                          else Ok(Arc(Valeur(x), Valeur(y) - 1, Valeur(z) - 1))
  {
    FormeIsRead(s, x, y, z);
    ValeursSont(x, y, z);
  }

  /** An arc is printed as those three numbers, the vertices plus 1. */
  lemma ArcImprime(arc: Arc)
    requires arc.source < 2147483647 && arc.destination < 2147483647
    ensures arc.ToString() == Entier(arc.numero) + "/" + Entier(arc.source + 1) + "+" + Entier(arc.destination + 1) + "/"
  {
  }

  // ---- the tokens ----

  /** The blanks are the whitespace of Java among the first 128 characters. */
  lemma Blancs(c: char)
    ensures IsBlank(c) <==>
            c in {' ', '\t', '\n', '\U{0B}', '\U{0C}', '\r', '\U{1C}', '\U{1D}', '\U{1E}', '\U{1F}'}
  {
  }

  /** The text made of these tokens between these gaps. */
  function Texte(gaps: seq<string>, tokens: seq<string>): string {
    if gaps == [] then []
    else if tokens == [] then gaps[0]
    else gaps[0] + (tokens[0] + Texte(gaps[1..], tokens[1..]))
  }

  predicate AllBlank(s: string) {
    forall k :: 0 <= k < |s| ==> IsBlank(s[k])
  }

  predicate Boundary(rest: string) {
    rest == [] || IsBlank(rest[0])
  }

  /** Blank gaps, tokens without blanks, and no token that could have been longer. */
  ghost predicate Cuts(gaps: seq<string>, tokens: seq<string>) {
    && |gaps| == |tokens| + 1
    && AllBlank(gaps[0])
    && (tokens != [] ==> IsToken(tokens[0]) && Boundary(Texte(gaps[1..], tokens[1..])) && Cuts(gaps[1..], tokens[1..]))
  }

  ghost predicate CutInto(text: string, tokens: seq<string>) {
    exists gaps :: Cuts(gaps, tokens) && Texte(gaps, tokens) == text
  }

  lemma {:induction false} TokensBlanks(b: string, rest: string)
    requires AllBlank(b)
    ensures Tokens(b + rest) == Tokens(rest)
  {
    if b == [] {
      assert b + rest == rest;
    } else {
      assert (b + rest)[1..] == b[1..] + rest;
      TokensBlanks(b[1..], rest);
    }
  }

  lemma TokensRun(t: string, rest: string)
    requires IsToken(t) && Boundary(rest)
    ensures Tokens(t + rest) == [t] + Tokens(rest)
  {
    TokensPending([], t, rest);
    assert [] + t == t;
    if rest != [] { assert TokensFrom(t, rest) == [t] + TokensFrom([], rest[1..]); }
  }

  lemma {:induction false} CutIsTokens(gaps: seq<string>, tokens: seq<string>)
    requires Cuts(gaps, tokens)
    ensures Tokens(Texte(gaps, tokens)) == tokens
    decreases |tokens|
  {
    if tokens == [] {
      assert gaps[0] + [] == gaps[0];
      TokensBlanks(gaps[0], []);
    } else {
      var rest := Texte(gaps[1..], tokens[1..]);
      CutIsTokens(gaps[1..], tokens[1..]);
      TokensBlanks(gaps[0], tokens[0] + rest);
      TokensRun(tokens[0], rest);
      assert tokens == [tokens[0]] + tokens[1..];
    }
  }

  /** The length of the run without blanks at the front of s. */
  function RunLength(s: string): (n: nat)
    ensures n <= |s| && Boundary(s[n..]) && forall k :: 0 <= k < n ==> !IsBlank(s[k])
  {
    if s == [] || IsBlank(s[0]) then 0 else 1 + RunLength(s[1..])
  }

  lemma {:induction false} TokensCut(text: string) returns (gaps: seq<string>)
    ensures Cuts(gaps, Tokens(text)) && Texte(gaps, Tokens(text)) == text
    decreases |text|
  {
    if text == [] {
      gaps := [[]];
    } else if IsBlank(text[0]) {
      assert Tokens(text) == Tokens(text[1..]);
      var rest := TokensCut(text[1..]);
      gaps := CutBlank(text, rest, Tokens(text[1..]));
    } else {
      var n := RunLength(text);
      assert text == text[..n] + text[n..];
      TokensRun(text[..n], text[n..]);
      assert Tokens(text) == [text[..n]] + Tokens(text[n..]);
      var rest := TokensCut(text[n..]);
      CutToken(text, n, rest, Tokens(text[n..]));
      gaps := [[]] + rest;
    }
  }

  lemma CutBlank(s: string, gaps: seq<string>, tokens: seq<string>) returns (more: seq<string>)
    requires s != [] && IsBlank(s[0]) && Cuts(gaps, tokens) && Texte(gaps, tokens) == s[1..]
    ensures Cuts(more, tokens) && Texte(more, tokens) == s
  {
    more := [[s[0]] + gaps[0]] + gaps[1..];
    assert more[1..] == gaps[1..];
    assert [s[0]] + s[1..] == s;
    if tokens != [] {
      assert [s[0]] + gaps[0] + (tokens[0] + Texte(gaps[1..], tokens[1..])) == [s[0]] + Texte(gaps, tokens);
    }
  }

  lemma CutToken(s: string, n: nat, gaps: seq<string>, tokens: seq<string>)
    requires 0 < n <= |s| && Cuts(gaps, tokens) && Texte(gaps, tokens) == s[n..] && IsToken(s[..n]) && Boundary(s[n..])
    ensures Cuts([[]] + gaps, [s[..n]] + tokens) && Texte([[]] + gaps, [s[..n]] + tokens) == s
  {
    assert ([[]] + gaps)[1..] == gaps && ([s[..n]] + tokens)[1..] == tokens;
    assert [] + (s[..n] + s[n..]) == s;
  }

  /** The tokens are the only way to cut the text: blanks alone in the gaps, and every token as long as it can be. */
  lemma TokensIff(text: string, tokens: seq<string>)
    ensures tokens == Tokens(text) <==> CutInto(text, tokens)
  {
    if tokens == Tokens(text) { var gaps := TokensCut(text); }
    if gaps :| Cuts(gaps, tokens) && Texte(gaps, tokens) == text { CutIsTokens(gaps, tokens); }
  }

  // ---- the vertex count ----

  predicate Trois(threes: seq<string>) {
    forall k :: 0 <= k < |threes| ==> |threes[k]| == 3 && Digits(threes[k])
  }

  function Separes(threes: seq<string>, sep: char): string {
    if threes == [] then [] else [sep] + threes[0] + Separes(threes[1..], sep)
  }

  function Concat(threes: seq<string>): string {
    if threes == [] then [] else threes[0] + Concat(threes[1..])
  }

  /** s is digits, or digits grouped by threes from the right that do not begin with 0; d is the digits alone. */
  ghost predicate Groupe(s: string, sep: char, d: string) {
    || (s == d && d != [] && Digits(d))
    || exists tete, threes :: EnTrois(s, sep, d, tete, threes)
  }

  ghost predicate EnTrois(s: string, sep: char, d: string, tete: string, threes: seq<string>) {
    && 1 <= |tete| <= 3 && Digits(tete) && tete[0] != '0' && threes != [] && Trois(threes)
    && s == tete + Separes(threes, sep) && d == tete + Concat(threes)
  }

  lemma {:induction false} ChiffresConcat(a: string, b: string)
    ensures Chiffres(a + b) == Chiffres(a) + Chiffres(b)
  {
    if a == [] {
      assert a + b == b;
    } else {
      assert (a + b)[1..] == a[1..] + b;
      ChiffresConcat(a[1..], b);
    }
  }

  lemma {:induction false} SeparesEstGroupes(threes: seq<string>, sep: char)
    requires Trois(threes) && !IsDigit(sep)
    ensures Groupes(Separes(threes, sep), sep) && Chiffres(Separes(threes, sep)) == Concat(threes)
    decreases |threes|
  {
    if threes != [] {
      var t, rest := threes[0], Separes(threes[1..], sep);
      var s := [sep] + t + rest;
      SeparesEstGroupes(threes[1..], sep);
      assert s[1..4] == t && s[4..] == rest && s[1..] == t + rest;
      ChiffresConcat(t, rest);
      ChiffresSeuls(t);
    }
  }

  lemma {:induction false} GroupesSontSepares(s: string, sep: char) returns (threes: seq<string>)
    requires Groupes(s, sep)
    ensures Trois(threes) && s == Separes(threes, sep) && (s != [] ==> threes != [])
    decreases |s|
  {
    if s == [] {
      threes := [];
    } else {
      var rest := GroupesSontSepares(s[4..], sep);
      threes := [s[1..4]] + rest;
      assert threes[1..] == rest;
      assert s == [s[0]] + s[1..4] + s[4..];
    }
  }

  lemma GroupeEstNumeral(u: string, sep: char, d: string)
    requires !IsDigit(sep) && Groupe(u, sep, d)
    ensures Numeral(u, sep) && Chiffres(u) == d
  {
    if u == d && d != [] && Digits(d) {
      CouperIs(d, []);
      assert d + [] == d;
      ChiffresSeuls(d);
    } else {
      var tete, threes :| EnTrois(u, sep, d, tete, threes);
      SeparesEstGroupes(threes, sep);
      assert Separes(threes, sep)[0] == sep;
      CouperIs(tete, Separes(threes, sep));
      ChiffresConcat(tete, Separes(threes, sep));
      ChiffresSeuls(tete);
    }
  }

  lemma NumeralEstGroupe(u: string, sep: char)
    requires !IsDigit(sep) && Numeral(u, sep)
    ensures Groupe(u, sep, Chiffres(u))
  {
    var (tete, rest) := Couper(u);
    if rest == [] {
      assert u == tete;
      ChiffresSeuls(u);
    } else {
      var threes := GroupesSontSepares(rest, sep);
      SeparesEstGroupes(threes, sep);
      ChiffresConcat(tete, rest);
      ChiffresSeuls(tete);
      assert EnTrois(u, sep, Chiffres(u), tete, threes);
    }
  }

  predicate Signe(s: string) { s == "" || s == "-" || s == "+" }

  lemma SansSigneEst(signe: string, u: string)
    requires Signe(signe) && u != [] && IsDigit(u[0])
    ensures SansSigne(signe + u) == u && ((signe + u)[0] == '-' <==> signe == "-")
  {
    assert signe == "" ==> signe + u == u;
    assert signe != "" ==> (signe + u)[1..] == u;
  }

  lemma GroupeCommence(u: string, sep: char, d: string)
    requires Groupe(u, sep, d)
    ensures u != [] && IsDigit(u[0])
  {
    if !(u == d && d != [] && Digits(d)) {
      var tete, threes :| EnTrois(u, sep, d, tete, threes);
      assert u[0] == tete[0];
    }
  }

  /** A count is a sign or none and digits, grouped or not; what it gives depends on the sign and the size. */
  lemma CompteLu(signe: string, u: string, sep: char, d: string)
    requires !IsDigit(sep) && Signe(signe) && Groupe(u, sep, d)
    ensures LireCompte(signe + u, sep)
            == if signe == "-" then (if Valeur(d) == 0 then Ok(0) else if Valeur(d) <= 2147483648 then HorsLimites else Malforme)
               else if Valeur(d) <= 2147483647 then Ok(Valeur(d)) else Malforme
  {
    GroupeCommence(u, sep, d);
    SansSigneEst(signe, u);
    GroupeEstNumeral(u, sep, d);
  }

  /** Anything else is refused. */
  lemma CompteRefuse(s: string, sep: char)
    requires !IsDigit(sep) && !exists signe, u, d :: Signe(signe) && Groupe(u, sep, d) && s == signe + u
    ensures LireCompte(s, sep) == Malforme
  {
    var u := SansSigne(s);
    if Numeral(u, sep) {
      NumeralEstGroupe(u, sep);
      var signe := s[..|s| - |u|];
      assert s == signe + u && Signe(signe);
    }
  }

  // ---- the arcs of a file ----

  /** The token is an arc whose source is one of n vertices. */
  predicate Bon(n: nat, token: string) {
    LireArc(token).Ok? && 0 <= LireArc(token).value.source < n
  }

  /** The arcs of source i among the tokens, in order. */
  function DeSource(tokens: seq<string>, i: int): seq<Arc> {
    if tokens == [] then []
    else
      var lu := LireArc(tokens[0]);
      (if lu.Ok? && lu.value.source == i then [lu.value] else []) + DeSource(tokens[1..], i)
  }

  /** Every token good: each list gets the arcs of its source behind those it had, in the order of the tokens. */
  lemma {:induction false} ArcsLus(g: Listes, tokens: seq<string>)
    requires forall k :: 0 <= k < |tokens| ==> Bon(|g|, tokens[k])
    ensures LireArcs(g, tokens).Ok? && |LireArcs(g, tokens).value| == |g|
    ensures forall i :: 0 <= i < |g| ==> LireArcs(g, tokens).value[i] == g[i] + DeSource(tokens, i)
    decreases |tokens|
  {
    if tokens != [] {
      assert Bon(|g|, tokens[0]);
      ArcsLus(Place(g, LireArc(tokens[0]).value), tokens[1..]);
    }
  }

  /** Otherwise the first token that is not good decides: badly formed, or a number or a source out of range. */
  lemma {:induction false} ArcsRefuses(g: Listes, tokens: seq<string>, k: nat)
    requires k < |tokens| && !Bon(|g|, tokens[k]) && forall l :: 0 <= l < k ==> Bon(|g|, tokens[l])
    ensures LireArcs(g, tokens) == if LireArc(tokens[k]).Malforme? then Malforme else HorsLimites
    decreases |tokens|
  {
    if k > 0 {
      assert Bon(|g|, tokens[0]);
      ArcsRefuses(Place(g, LireArc(tokens[0]).value), tokens[1..], k - 1);
    }
  }

  /** A file of good tokens behind its count: list i holds the arcs of source i, in the order of the tokens. */
  lemma FichierLu(text: string, sep: char, n: nat, compte: string, arcs: seq<string>)
    requires Tokens(text) == [compte] + arcs && LireCompte(compte, sep) == Ok(n)
    requires forall k :: 0 <= k < |arcs| ==> Bon(n, arcs[k])
    ensures Lire(text, sep).Ok? && |Lire(text, sep).value| == n
    ensures forall i :: 0 <= i < n ==> Lire(text, sep).value[i] == DeSource(arcs, i)
  {
    ArcsLus(Vide(n), arcs);
    assert ([compte] + arcs)[1..] == arcs;
    assert forall i :: 0 <= i < n ==> Vide(n)[i] + DeSource(arcs, i) == DeSource(arcs, i);
  }

  /** Any other is refused, in particular one with an arc whose source is no vertex. */
  lemma FichierRefuse(text: string, sep: char, n: nat, compte: string, arcs: seq<string>, k: nat)
    requires Tokens(text) == [compte] + arcs && LireCompte(compte, sep) == Ok(n)
    requires k < |arcs| && !Bon(n, arcs[k]) && forall l :: 0 <= l < k ==> Bon(n, arcs[l])
    ensures Lire(text, sep) == if LireArc(arcs[k]).Malforme? then Malforme else HorsLimites
  {
    assert ([compte] + arcs)[1..] == arcs;
    ArcsRefuses(Vide(n), arcs, k);
  }

  // ---- the printed file ----

  /** How many arcs stand in the lists before list i. */
  function Decalage(g: Listes, i: nat): nat
    requires i <= |g|
  {
    if i == 0 then 0 else Decalage(g, i - 1) + |g[i - 1]|
  }

  lemma {:induction false} FlatLongueur(g: Listes, i: nat)
    requires i <= |g|
    ensures |Flat(g[..i])| == Decalage(g, i)
  {
    if i > 0 {
      FlatPlus(g, i - 1);
      FlatLongueur(g, i - 1);
    }
  }

  lemma {:induction false} FlatPrefixe(g: Listes, i: nat)
    requires i <= |g|
    ensures |Flat(g[..i])| <= |Flat(g)| && Flat(g)[..|Flat(g[..i])|] == Flat(g[..i])
    decreases |g| - i
  {
    if i == |g| {
      assert g[..i] == g;
    } else {
      FlatPlus(g, i);
      FlatPrefixe(g, i + 1);
      assert Flat(g[..i + 1])[..|Flat(g[..i])|] == Flat(g[..i]);
    }
  }

  lemma {:induction false} MotsAt(arcs: seq<Arc>, m: nat)
    requires m < |arcs|
    ensures |Mots(arcs)| == |arcs| && Mots(arcs)[m] == arcs[m].ToString()
    decreases m
  {
    var first, rest := [arcs[0].ToString()], Mots(arcs[1..]);
    MotsLongueur(arcs);
    MotsLongueur(arcs[1..]);
    if m > 0 {
      MotsAt(arcs[1..], m - 1);
      assert (first + rest)[m] == rest[m - 1] && arcs[1..][m - 1] == arcs[m];
    }
  }

  lemma {:induction false} MotsLongueur(arcs: seq<Arc>)
    ensures |Mots(arcs)| == |arcs|
  {
    if arcs != [] { MotsLongueur(arcs[1..]); }
  }

  /** The arc at place k of list i is printed behind those of the lists before i and the k before it. */
  lemma LigneDe(g: Listes, i: nat, k: nat)
    requires i < |g| && k < |g[i]|
    ensures Decalage(g, i) + k < |Mots(Flat(g))| && Mots(Flat(g))[Decalage(g, i) + k] == g[i][k].ToString()
  {
    var m := Decalage(g, i) + k;
    FlatLongueur(g, i);
    FlatPlus(g, i);
    FlatPrefixe(g, i + 1);
    assert Flat(g[..i + 1])[m] == g[i][k] && Flat(g)[m] == Flat(g)[..|Flat(g[..i + 1])|][m];
    MotsAt(Flat(g), m);
  }

  lemma {:induction false} LignesJoin(mots: seq<string>)
    ensures Lignes(mots) == Join(mots + [""], '\n')
    decreases |mots|
  {
    if mots == [] {
      assert mots + [""] == [""];
    } else {
      var init, last := mots[..|mots| - 1], mots[|mots| - 1];
      LignesJoin(init);
      assert mots + [""] == init + [last, ""];
      JoinEnd(init, last, '\n');
    }
  }

  /** The printed file: the vertex count and the arcs, each on a line of its own and ended by a line feed. */
  lemma LignesImprimees(g: Listes)
    ensures ToString(g) == Join([Entier(|g|)] + Mots(Flat(g)) + [""], '\n')
  {
    LignesJoin(Mots(Flat(g)));
    JoinFirst(Entier(|g|), Mots(Flat(g)), '\n');
  }
}
