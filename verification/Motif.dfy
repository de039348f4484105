/** Algo6/APNEE1/RechercheMotif.java: naive pattern search and its Karp-Rabin refinement. */
module Motif {

  /** Java chars, read as the integers the hash adds up. */
  type CodeUnit = c: int | 0 <= c < 0x1_0000

  type Texte = seq<CodeUnit>

  // ---- 32-bit arithmetic ----

  function Wrap(x: int): (r: int)
    ensures -0x8000_0000 <= r < 0x8000_0000
    ensures -0x8000_0000 <= x < 0x8000_0000 ==> r == x
    ensures (r - x) % 0x1_0000_0000 == 0
  {
    (x + 0x8000_0000) % 0x1_0000_0000 - 0x8000_0000
  }

  /** Wrapping early or late gives the same 32 bits. */
  lemma WrapAdd(x: int, y: int)
    ensures Wrap(Wrap(x) + y) == Wrap(x + y)
  {
  }

  function Sum(s: Texte): int {
    if s == [] then 0 else Sum(s[..|s| - 1]) + s[|s| - 1]
  }

  lemma {:induction false} SumFront(c: CodeUnit, s: Texte)
    ensures Sum([c] + s) == c + Sum(s)
  {
    if s != [] {
      assert ([c] + s)[..|s|] == [c] + s[..|s| - 1];
      SumFront(c, s[..|s| - 1]);
    }
  }

  /** The hash of a window: its sum in wrapping 32-bit arithmetic. */
  function HashOf(s: Texte): int {
    Wrap(Sum(s))
  }

  /** The hash of a window one letter longer is the hash before plus the letter, up to 32 bits. */
  lemma HashExtends(s: Texte, c: CodeUnit)
    ensures HashOf([]) == 0
    ensures -0x8000_0000 <= HashOf(s + [c]) < 0x8000_0000
    ensures (HashOf(s + [c]) - (HashOf(s) + c)) % 0x1_0000_0000 == 0
    ensures HashOf(s) + c < 0x8000_0000 ==> HashOf(s + [c]) == HashOf(s) + c
  {
    assert (s + [c])[..|s|] == s;
    WrapAdd(Sum(s), c);
  }

  // ---- occurrences ----

  predicate OccursAt(texte: Texte, motif: Texte, i: int) {
    0 <= i <= |texte| - |motif| && texte[i..i + |motif|] == motif
  }

  /** The occurrences that start before k, in order. */
  function Before(texte: Texte, motif: Texte, k: nat): seq<nat> {
    if k == 0 then []
    else Before(texte, motif, k - 1) + if OccursAt(texte, motif, k - 1) then [k - 1] else []
  }

  function Occurrences(texte: Texte, motif: Texte): seq<nat> {
    if |motif| <= |texte| then Before(texte, motif, |texte| - |motif| + 1) else []
  }

  predicate Ascending(s: seq<nat>) {
    forall a, b :: 0 <= a < b < |s| ==> s[a] < s[b]
  }

  lemma {:induction false} BeforeHas(texte: Texte, motif: Texte, k: nat, i: nat)
    ensures i in Before(texte, motif, k) <==> i < k && OccursAt(texte, motif, i)
  {
    if k > 0 { BeforeHas(texte, motif, k - 1, i); }
  }

  lemma {:induction false} BeforeAscends(texte: Texte, motif: Texte, k: nat)
    ensures Ascending(Before(texte, motif, k))
  {
    if k > 0 {
      BeforeAscends(texte, motif, k - 1);
      var p := Before(texte, motif, k - 1);
      forall a | 0 <= a < |p| ensures p[a] < k - 1 {
        BeforeHas(texte, motif, k - 1, p[a]);
      }
    }
  }

  /** The reported indices are all the places of the pattern, each once, in increasing order. */
  lemma OccurrencesAreAll(texte: Texte, motif: Texte)
    ensures forall i :: i in Occurrences(texte, motif) <==> OccursAt(texte, motif, i)
    ensures Ascending(Occurrences(texte, motif))
  {
    if |motif| <= |texte| {
      var k := |texte| - |motif| + 1;
      forall i: nat ensures i in Before(texte, motif, k) <==> OccursAt(texte, motif, i) {
        BeforeHas(texte, motif, k, i);
      }
      BeforeAscends(texte, motif, k);
    }
  }

  /** The inner loop of both searches: compares the pattern with the window at i, letter by letter. */
  method Comparer(texte: Texte, motif: Texte, i: nat) returns (trouve: bool)
    requires i + |motif| <= |texte|
    ensures trouve <==> OccursAt(texte, motif, i)
  {
    var j := 0;
    while j < |motif| && texte[i + j] == motif[j]
      invariant j <= |motif| && texte[i..i + j] == motif[..j]
    {
      assert texte[i..i + j + 1] == texte[i..i + j] + [texte[i + j]];
      assert motif[..j + 1] == motif[..j] + [motif[j]];
      j := j + 1;
    }
    assert j < |motif| ==> texte[i..i + |motif|][j] != motif[j];
    trouve := j == |motif|;
  }

  /** trouves collects the indices the source prints. */
  method Recherche(texte: Texte, motif: Texte) returns (trouves: seq<nat>)
    ensures trouves == Occurrences(texte, motif)
  {
    trouves := [];
    var i := 0;
    while i < |texte| - |motif| + 1
      invariant trouves == Before(texte, motif, i)
      invariant i <= |texte| - |motif| + 1 || (i == 0 && |motif| > |texte|)
    {
      var trouve := Comparer(texte, motif, i);
      if trouve {
        trouves := trouves + [i];
      }
      i := i + 1;
    }
  }

  method Hash(s: Texte, debut: nat, fin: nat) returns (h: int)
    requires debut <= fin <= |s|
    ensures h == HashOf(s[debut..fin])
    ensures -0x8000_0000 <= h < 0x8000_0000 && (debut == fin ==> h == 0)
    ensures debut < fin ==> (h - (HashOf(s[debut..fin - 1]) + s[fin - 1])) % 0x1_0000_0000 == 0
  {
    h := 0;
    for i := debut to fin
      invariant h == HashOf(s[debut..i])
    {
      assert s[debut..i + 1][..i - debut] == s[debut..i];
      WrapAdd(Sum(s[debut..i]), s[i]);
      h := Wrap(h + s[i]);
    }
    if debut < fin {
      assert s[debut..fin] == s[debut..fin - 1] + [s[fin - 1]];
      HashExtends(s[debut..fin - 1], s[fin - 1]);
    }
  }

  function UpdateHash(s: Texte, hash: int, debut: nat, fin: nat): (h: int)
    requires 0 < debut <= |s| && 0 < fin <= |s|
    ensures -0x8000_0000 <= h < 0x8000_0000
    ensures (h - (hash - s[debut - 1] + s[fin - 1])) % 0x1_0000_0000 == 0
  {
    Wrap(Wrap(hash - s[debut - 1]) + s[fin - 1])
  }

  /** From the hash of one window, the update yields the hash of the next. */
  lemma UpdateRolls(s: Texte, debut: nat, fin: nat)
    requires 0 < debut <= fin <= |s|
    ensures UpdateHash(s, HashOf(s[debut - 1..fin - 1]), debut, fin) == HashOf(s[debut..fin])
  {
    var a: int, b: int := s[debut - 1], s[fin - 1];
    var whole := s[debut - 1..fin];
    assert whole == [a] + s[debut..fin] && whole == s[debut - 1..fin - 1] + [b];
    SumFront(a, s[debut..fin]);
    assert whole[..|whole| - 1] == s[debut - 1..fin - 1];
    WrapAdd(Sum(s[debut - 1..fin - 1]), -a);
    WrapAdd(Sum(s[debut - 1..fin - 1]) - a, b);
  }

  /** Windows with another hash cannot be occurrences. */
  lemma HashFilters(texte: Texte, motif: Texte, i: nat)
    requires i + |motif| <= |texte| && HashOf(texte[i..i + |motif|]) != HashOf(motif)
    ensures !OccursAt(texte, motif, i)
  {
  }

  /** The hash of the window at i, computed afresh for the first and rolled from the previous after. */
  method HashFenetre(texte: Texte, hcourant: int, i: nat, m: nat) returns (h: int)
    requires i + m <= |texte|
    requires i > 0 ==> hcourant == HashOf(texte[i - 1..i - 1 + m])
    ensures h == HashOf(texte[i..i + m])
  {
    if i == 0 {
      h := Hash(texte, i, i + m);
    } else {
      UpdateRolls(texte, i, i + m);
      h := UpdateHash(texte, hcourant, i, i + m);
    }
  }

  /** Karp-Rabin reports what the naive search reports. */
  method RechercheKR(texte: Texte, motif: Texte) returns (trouves: seq<nat>)
    ensures trouves == Occurrences(texte, motif)
  {
    trouves := [];
    var hcourant := 0;
    var hmotif := Hash(motif, 0, |motif|);
    assert motif[0..|motif|] == motif;
    var i := 0;
    while i < |texte| - |motif| + 1
      invariant trouves == Before(texte, motif, i)
      invariant i <= |texte| - |motif| + 1 || (i == 0 && |motif| > |texte|)
      invariant i > 0 ==> hcourant == HashOf(texte[i - 1..i - 1 + |motif|])
    {
      hcourant := HashFenetre(texte, hcourant, i, |motif|);
      if hcourant == hmotif {
        var trouve := Comparer(texte, motif, i);
        if trouve {
          trouves := trouves + [i];
        }
      } else {
        HashFilters(texte, motif, i);
      }
      i := i + 1;
    }
  }
}
