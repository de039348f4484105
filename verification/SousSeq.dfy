/** Algo6/TD2_4/sousseq.java: the length of a longest common subsequence, twice. */
module SousSeq {

  // ---- what is computed ----

  ghost predicate Increasing(at: seq<nat>) {
    forall k, l :: 0 <= k < l < |at| ==> at[k] < at[l]
  }

  /** The letters of c are those of s at the positions listed in at. */
  ghost predicate Embeds(c: string, s: string, at: seq<nat>) {
    && |at| == |c|
    && Increasing(at)
    && forall k :: 0 <= k < |c| ==> at[k] < |s| && s[at[k]] == c[k]
  }

  ghost predicate Subsequence(c: string, s: string) {
    exists at :: Embeds(c, s, at)
  }

  ghost predicate Common(c: string, s: string, t: string) {
    Subsequence(c, s) && Subsequence(c, t)
  }

  ghost predicate CommonOfLength(s: string, t: string, n: nat) {
    exists c :: Common(c, s, t) && |c| == n
  }

  /** n is the greatest length of a common subsequence. */
  ghost predicate Longest(s: string, t: string, n: nat) {
    && CommonOfLength(s, t, n)
    && forall c :: Common(c, s, t) ==> |c| <= n
  }

  lemma LongestUnique(s: string, t: string, m: nat, n: nat)
    requires Longest(s, t, m) && Longest(s, t, n)
    ensures m == n
  {
  }

  // ---- subsequences and first letters ----

  lemma Skip(c: string, x: char, s: string)
    requires Subsequence(c, s)
    ensures Subsequence(c, [x] + s)
  {
    var at :| Embeds(c, s, at);
    assert Embeds(c, [x] + s, seq(|at|, k requires 0 <= k < |at| => at[k] + 1));
  }

  lemma Match(c: string, x: char, s: string)
    requires Subsequence(c, s)
    ensures Subsequence([x] + c, [x] + s)
  {
    var at :| Embeds(c, s, at);
    assert Embeds([x] + c, [x] + s, [0] + seq(|at|, k requires 0 <= k < |at| => at[k] + 1));
  }

  /** A subsequence that starts with another letter does not use the first. */
  lemma Unskip(c: string, x: char, s: string)
    requires Subsequence(c, [x] + s) && c != [] && c[0] != x
    ensures Subsequence(c, s)
  {
    var at :| Embeds(c, [x] + s, at);
    assert at[0] != 0;
    assert Embeds(c, s, seq(|at|, k requires 0 <= k < |at| => at[k] - 1));
  }

  lemma Tail(c: string, x: char, s: string)
    requires Subsequence(c, [x] + s) && c != []
    ensures Subsequence(c[1..], s)
  {
    var at :| Embeds(c, [x] + s, at);
    var tl := seq(|at| - 1, k requires 0 <= k < |at| - 1 => if at[k + 1] == 0 then 0 else at[k + 1] - 1);
    assert forall k :: 0 < k < |at| ==> at[0] < at[k];
    assert Embeds(c[1..], s, tl);
  }

  lemma {:induction false} AtLeast(at: seq<nat>, k: nat)
    requires Increasing(at) && k < |at|
    ensures k <= at[k]
  {
    if k > 0 { AtLeast(at, k - 1); }
  }

  lemma NoLonger(c: string, s: string)
    requires Subsequence(c, s)
    ensures |c| <= |s|
  {
    var at :| Embeds(c, s, at);
    if c != [] { AtLeast(at, |c| - 1); }
  }

  lemma FrontEmpty(s: string, t: string)
    requires s == [] || t == []
    ensures Longest(s, t, 0)
  {
    assert Embeds([], s, []) && Embeds([], t, []);
    assert Common([], s, t);
    forall c | Common(c, s, t) ensures |c| <= 0 {
      NoLonger(c, s);
      NoLonger(c, t);
    }
  }

  lemma FrontMatch(x: char, s: string, t: string, n: nat)
    requires Longest(s, t, n)
    ensures Longest([x] + s, [x] + t, n + 1)
  {
    var c :| Common(c, s, t) && |c| == n;
    Match(c, x, s);
    Match(c, x, t);
    assert Common([x] + c, [x] + s, [x] + t);
    forall d | Common(d, [x] + s, [x] + t) ensures |d| <= n + 1 {
      if d != [] {
        Tail(d, x, s);
        Tail(d, x, t);
        assert Common(d[1..], s, t);
      }
    }
  }

  lemma FrontDiffer(x: char, y: char, s: string, t: string, m: nat, n: nat)
    requires x != y && Longest([x] + s, t, m) && Longest(s, [y] + t, n)
    ensures Longest([x] + s, [y] + t, if m > n then m else n)
  {
    if m > n {
      var c :| Common(c, [x] + s, t) && |c| == m;
      Skip(c, y, t);
      assert Common(c, [x] + s, [y] + t);
    } else {
      var c :| Common(c, s, [y] + t) && |c| == n;
      Skip(c, x, s);
      assert Common(c, [x] + s, [y] + t);
    }
    forall d | Common(d, [x] + s, [y] + t) ensures |d| <= if m > n then m else n {
      if d != [] {
        if d[0] != x {
          Unskip(d, x, s);
          assert Common(d, s, [y] + t);
        } else {
          Unskip(d, y, t);
          assert Common(d, [x] + s, t);
        }
      }
    }
  }

  // ---- the recursion over suffixes ----

  function Max(a: int, b: int): int {
    if a > b then a else b
  }

  /** plssc, with the two strings passed instead of held in static fields. */
  function Plssc(s1: string, s2: string, i: nat, j: nat): int
    requires i <= |s1| && j <= |s2|
    decreases |s1| - i + |s2| - j
  {
    if i == |s1| || j == |s2| then 0
    else if s1[i] == s2[j] then 1 + Plssc(s1, s2, i + 1, j + 1)
    else Max(Plssc(s1, s2, i, j + 1), Plssc(s1, s2, i + 1, j))
  }

  /** The recursion is optimal on every pair of suffixes. */
  lemma {:induction false} PlsscIsLongest(s1: string, s2: string, i: nat, j: nat)
    requires i <= |s1| && j <= |s2|
    ensures 0 <= Plssc(s1, s2, i, j) && Longest(s1[i..], s2[j..], Plssc(s1, s2, i, j))
    decreases |s1| - i + |s2| - j
  {
    if i == |s1| || j == |s2| {
      FrontEmpty(s1[i..], s2[j..]);
    } else {
      var s, t := s1[i + 1..], s2[j + 1..];
      assert s1[i..] == [s1[i]] + s && s2[j..] == [s2[j]] + t;
      if s1[i] == s2[j] {
        PlsscIsLongest(s1, s2, i + 1, j + 1);
        FrontMatch(s1[i], s, t, Plssc(s1, s2, i + 1, j + 1));
      } else {
        PlsscIsLongest(s1, s2, i, j + 1);
        PlsscIsLongest(s1, s2, i + 1, j);
        FrontDiffer(s1[i], s2[j], s, t, Plssc(s1, s2, i, j + 1), Plssc(s1, s2, i + 1, j));
      }
    }
  }

  // ---- the same from the last letters, by mirroring ----

  function Mirror(s: string): (m: string)
    ensures |m| == |s|
  {
    seq(|s|, k requires 0 <= k < |s| => s[|s| - 1 - k])
  }

  lemma MirrorTwice(s: string)
    ensures Mirror(Mirror(s)) == s
  {
  }

  lemma MirrorSubsequence(c: string, s: string)
    requires Subsequence(c, s)
    ensures Subsequence(Mirror(c), Mirror(s))
  {
    var at :| Embeds(c, s, at);
    var back := seq(|at|, k requires 0 <= k < |at| => |s| - 1 - at[|at| - 1 - k]);
    assert Embeds(Mirror(c), Mirror(s), back);
  }

  lemma MirrorLongest(s: string, t: string, n: nat)
    requires Longest(s, t, n)
    ensures Longest(Mirror(s), Mirror(t), n)
  {
    var c :| Common(c, s, t) && |c| == n;
    MirrorSubsequence(c, s);
    MirrorSubsequence(c, t);
    assert Common(Mirror(c), Mirror(s), Mirror(t));
    forall d | Common(d, Mirror(s), Mirror(t)) ensures |d| <= n {
      MirrorSubsequence(d, Mirror(s));
      MirrorSubsequence(d, Mirror(t));
      MirrorTwice(s);
      MirrorTwice(t);
      assert Common(Mirror(d), s, t);
    }
  }

  lemma MirrorAppend(s: string, x: char)
    ensures Mirror(s + [x]) == [x] + Mirror(s)
    ensures Mirror([x] + Mirror(s)) == s + [x]
  {
  }

  lemma BackMatch(s: string, t: string, x: char, n: nat)
    requires Longest(s, t, n)
    ensures Longest(s + [x], t + [x], n + 1)
  {
    MirrorLongest(s, t, n);
    FrontMatch(x, Mirror(s), Mirror(t), n);
    MirrorLongest([x] + Mirror(s), [x] + Mirror(t), n + 1);
    MirrorAppend(s, x);
    MirrorAppend(t, x);
  }

  lemma BackDiffer(s: string, t: string, x: char, y: char, m: nat, n: nat)
    requires x != y && Longest(s + [x], t, m) && Longest(s, t + [y], n)
    ensures Longest(s + [x], t + [y], if m > n then m else n)
  {
    MirrorLongest(s + [x], t, m);
    MirrorLongest(s, t + [y], n);
    MirrorAppend(s, x);
    MirrorAppend(t, y);
    FrontDiffer(x, y, Mirror(s), Mirror(t), m, n);
    MirrorLongest([x] + Mirror(s), [y] + Mirror(t), if m > n then m else n);
  }

  // ---- the table over prefixes ----

  /** The cell is the optimum for the prefixes of lengths i and j. */
  ghost predicate Cell(s1: string, s2: string, i: nat, j: nat, value: int)
    requires i <= |s1| && j <= |s2|
  {
    0 <= value && Longest(s1[..i], s2[..j], value)
  }

  lemma CellStep(s1: string, s2: string, i: nat, j: nat, diagonal: int, left: int, above: int)
    requires 0 < i <= |s1| && 0 < j <= |s2|
    requires Cell(s1, s2, i - 1, j - 1, diagonal) && Cell(s1, s2, i, j - 1, left) && Cell(s1, s2, i - 1, j, above)
    ensures Cell(s1, s2, i, j, if s1[i - 1] == s2[j - 1] then diagonal + 1 else Max(left, above))
  {
    var s, t := s1[..i - 1], s2[..j - 1];
    assert s1[..i] == s + [s1[i - 1]] && s2[..j] == t + [s2[j - 1]];
    if s1[i - 1] == s2[j - 1] {
      BackMatch(s, t, s1[i - 1], diagonal);
    } else {
      BackDiffer(s, t, s1[i - 1], s2[j - 1], left, above);
    }
  }

  /** The table's answer is the optimum, hence the recursion's answer too. */
  method Matrice(s1: string, s2: string) returns (r: int)
    ensures 0 <= r && Longest(s1, s2, r)
    ensures r == Plssc(s1, s2, 0, 0)
  {
    var imax, jmax := |s1| + 1, |s2| + 1;
    var mat := new int[imax, jmax];
    for i := 0 to imax
      invariant forall a, b :: 0 <= a < i && 0 <= b < jmax ==> mat[a, b] == 0
    {
      for j := 0 to jmax
        invariant forall a, b :: 0 <= a < i && 0 <= b < jmax ==> mat[a, b] == 0
        invariant forall b :: 0 <= b < j ==> mat[i, b] == 0
      {
        mat[i, j] := 0;
      }
    }
    forall a, b | 0 <= a < imax && 0 <= b < jmax && (a == 0 || b == 0) ensures Cell(s1, s2, a, b, mat[a, b]) {
      FrontEmpty(s1[..a], s2[..b]);
    }
    for i := 1 to imax
      invariant forall a, b :: 0 <= a < imax && 0 <= b < jmax && (a < i || b == 0) ==> Cell(s1, s2, a, b, mat[a, b])
    {
      for j := 1 to jmax
        invariant forall a, b :: 0 <= a < imax && 0 <= b < jmax && (a < i || b == 0) ==> Cell(s1, s2, a, b, mat[a, b])
        invariant forall b :: 0 <= b < j ==> Cell(s1, s2, i, b, mat[i, b])
      {
        CellStep(s1, s2, i, j, mat[i - 1, j - 1], mat[i, j - 1], mat[i - 1, j]);
        if s1[i - 1] == s2[j - 1] {
          mat[i, j] := mat[i - 1, j - 1] + 1;
        } else {
          mat[i, j] := Max(mat[i, j - 1], mat[i - 1, j]);
        }
      }
    }
    r := mat[imax - 1, jmax - 1];
    assert s1[..|s1|] == s1 && s2[..|s2|] == s2 && s1[0..] == s1 && s2[0..] == s2;
    PlsscIsLongest(s1, s2, 0, 0);
    LongestUnique(s1, s2, r, Plssc(s1, s2, 0, 0));
  }
}
