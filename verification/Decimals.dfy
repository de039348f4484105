/** Decimal notation, as string concatenation prints integers and Integer.valueOf reads them. */
module Decimals {

  predicate IsDigit(c: char) { '0' <= c <= '9' }

  predicate Digits(s: string) {
    forall k :: 0 <= k < |s| ==> IsDigit(s[k])
  }

  function Chiffre(d: nat): (c: char)
    requires d < 10
    ensures IsDigit(c) && ValeurChiffre(c) == d
  {
    ('0' as int + d) as char
  }

  function Decimal(n: nat): string {
    if n < 10 then [Chiffre(n)] else Decimal(n / 10) + [Chiffre(n % 10)]
  }

  function ValeurChiffre(c: char): nat {
    if IsDigit(c) then c as int - '0' as int else 0
  }

  function Valeur(s: string): nat {
    if s == [] then 0 else 10 * Valeur(s[..|s| - 1]) + ValeurChiffre(s[|s| - 1])
  }

  function Entier(n: int): string {
    if n < 0 then "-" + Decimal(-n) else Decimal(n)
  }

  lemma {:induction false} DecimalReads(n: nat)
    ensures Decimal(n) != [] && Digits(Decimal(n)) && Valeur(Decimal(n)) == n
  {
    if n < 10 {
      assert Decimal(n)[..0] == [];
    } else {
      DecimalReads(n / 10);
      assert Decimal(n)[..|Decimal(n)| - 1] == Decimal(n / 10);
    }
  }

  /** Each further digit is worth ten times less than the one before it. */
  lemma ValeurSuivante(s: string, c: char)
    requires '0' <= c <= '9'
    ensures Valeur([]) == 0 && Valeur(s + [c]) == 10 * Valeur(s) + (c as int - '0' as int)
  {
    assert (s + [c])[..|s|] == s;
  }

  /** Only 0 is printed with a leading 0; a negative number is printed as a minus and its opposite. */
  lemma {:induction false} EntierForme(n: int)
    requires 0 <= n
    ensures Entier(n) != [] && (Entier(n)[0] == '0' <==> n == 0) && Entier(0) == "0"
    ensures n > 0 ==> Entier(-n) == "-" + Entier(n)
  {
    if n >= 10 { EntierForme(n / 10); }
  }
}
