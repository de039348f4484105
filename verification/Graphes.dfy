/** RO/APNEE2/GraphePondere.java: adjacency lists, and the loop of kruskal. */
module Graphes {
  import opened Aretes

  type Lists = seq<seq<Arete>>

  const SENTINEL := Arete(0, 0, 0, 1000000000.0)

  // ---- adjacency lists as values ----

  predicate Inside(n: nat, e: Arete) { e.v < n && e.w < n }

  /** Every entry is listed at its ends only. */
  ghost predicate AtEnds(n: nat, adj: Lists)
    requires |adj| == n
  {
    forall i, e :: 0 <= i < n && e in adj[i] ==> Inside(n, e) && (i == e.v || i == e.w)
  }

  ghost predicate BalancedAt(adj: Lists, e: Arete) {
    Inside(|adj|, e) ==> multiset(adj[e.v])[e] == multiset(adj[e.w])[e]
  }

  /** Every edge is listed as often at one end as at the other. */
  ghost predicate Balanced(adj: Lists) {
    forall e :: BalancedAt(adj, e)
  }

  ghost predicate WellFormed(n: nat, adj: Lists) {
    0 < n == |adj| && AtEnds(n, adj) && Balanced(adj)
  }

  ghost function Edges(adj: Lists): set<Arete> {
    set i, e | 0 <= i < |adj| && e in adj[i] :: e
  }

  /** The lists once e is added; an edge with an end outside is refused. */
  function Plus(adj: Lists, e: Arete): (r: Lists)
    ensures |r| == |adj|
  {
    if !Inside(|adj|, e) then adj
    else
      var once := adj[e.v := adj[e.v] + [e]];
      once[e.w := once[e.w] + [e]]
  }

  predicate AllInside(n: nat, edges: seq<Arete>) {
    forall e :: e in edges ==> Inside(n, e)
  }

  /** The lists of the graph with n vertices and these edges, added in order. */
  function Built(n: nat, edges: seq<Arete>): (r: Lists)
    ensures |r| == n
  {
    if edges == [] then seq(n, i => [])
    else Plus(Built(n, edges[..|edges| - 1]), edges[|edges| - 1])
  }

  function Drop(s: seq<Arete>, a: Arete): seq<Arete> {
    if s == [] then [] else if s[0] == a then s[1..] else [s[0]] + Drop(s[1..], a)
  }

  function Minus(adj: Lists, a: Arete): (r: Lists)
    ensures |r| == |adj|
  {
    if !Inside(|adj|, a) then adj
    else
      var once := adj[a.v := Drop(adj[a.v], a)];
      once[a.w := Drop(once[a.w], a)]
  }

  function Flat(adj: Lists): seq<Arete> {
    if adj == [] then [] else Flat(adj[..|adj| - 1]) + adj[|adj| - 1]
  }

  /** The first entry lighter than all before it and than the sentinel. */
  function Lightest(s: seq<Arete>): Arete {
    if s == [] then SENTINEL
    else
      var best, last := Lightest(s[..|s| - 1]), s[|s| - 1];
      if last.poids < best.poids then last else best
  }

  ghost predicate TouchedBy(s: seq<Arete>, x: nat) {
    exists e :: e in s && (e.v == x || e.w == x)
  }

  /** Every one of the n vertices is an end of some edge. */
  ghost predicate Covers(n: nat, edges: seq<Arete>) {
    forall x :: 0 <= x < n ==> TouchedBy(edges, x)
  }

  lemma {:induction false} DropCounts(s: seq<Arete>, a: Arete)
    ensures multiset(Drop(s, a)) == multiset(s) - multiset{a}
  {
    if s != [] {
      assert s == [s[0]] + s[1..];
      if s[0] != a { DropCounts(s[1..], a); }
    }
  }

  lemma {:induction false} DropAt(s: seq<Arete>, a: Arete, i: nat)
    requires i <= |s| && a !in s[..i] && (i < |s| ==> s[i] == a)
    ensures Drop(s, a) == if i < |s| then s[..i] + s[i + 1..] else s
  {
    if i > 0 {
      assert s[0] == s[..i][0];
      assert s[..i][1..] == s[1..][..i - 1];
      DropAt(s[1..], a, i - 1);
      if i < |s| { assert [s[0]] + (s[1..][..i - 1] + s[1..][i..]) == s[..i] + s[i + 1..]; }
    }
  }

  lemma {:induction false} LightestIsLeast(s: seq<Arete>)
    ensures Lightest(s) == SENTINEL || Lightest(s) in s
    ensures Lightest(s).poids <= SENTINEL.poids
    ensures forall e :: e in s ==> Lightest(s).poids <= e.poids
  {
    if s != [] {
      var t := s[..|s| - 1];
      assert s == t + [s[|s| - 1]];
      LightestIsLeast(t);
    }
  }

  /** Scanned by lines, (a, b) comes before (i, j). */
  predicate Scanned(a: nat, b: nat, i: nat, j: nat) { a < i || (a == i && b < j) }

  /** (i, j) is the place of the first of the lightest entries. */
  ghost predicate FirstLightest(adj: Lists, i: nat, j: nat) {
    && i < |adj| && j < |adj[i]|
    && forall a, b :: 0 <= a < |adj| && 0 <= b < |adj[a]| ==>
         adj[i][j].poids <= adj[a][b].poids && (Scanned(a, b, i, j) ==> adj[i][j].poids < adj[a][b].poids)
  }

  /** What a scan for the lightest entry below 1000000000 finds. */
  ghost predicate Found(adj: Lists, min: Arete) {
    if exists a, b :: 0 <= a < |adj| && 0 <= b < |adj[a]| && adj[a][b].poids < 1000000000.0
    then exists i: nat, j: nat :: FirstLightest(adj, i, j) && min == adj[i][j]
    else min.v == 0 == min.w && min.poids == 1000000000.0
  }

  lemma {:induction false} LightestIsFirst(s: seq<Arete>) returns (k: nat)
    ensures if Lightest(s).poids < 1000000000.0
            then k < |s| && s[k] == Lightest(s) && forall l :: 0 <= l < k ==> s[k].poids < s[l].poids
            else Lightest(s) == SENTINEL
  {
    k := 0;
    if s != [] {
      var t := s[..|s| - 1];
      k := LightestIsFirst(t);
      LightestIsLeast(t);
      if s[|s| - 1].poids < Lightest(t).poids { k := |s| - 1; }
    }
  }

  /** The place of an entry of the flattened lists; the entries scanned before it stand before it there. */
  lemma {:induction false} FlatPlace(adj: Lists, m: nat) returns (i: nat, j: nat)
    requires m < |Flat(adj)|
    ensures i < |adj| && j < |adj[i]| && adj[i][j] == Flat(adj)[m]
    ensures forall a, b :: 0 <= a < |adj| && 0 <= b < |adj[a]| && Scanned(a, b, i, j) ==> adj[a][b] in Flat(adj)[..m]
  {
    var init, last := adj[..|adj| - 1], adj[|adj| - 1];
    if m < |Flat(init)| {
      i, j := FlatPlace(init, m);
      assert Flat(adj)[..m] == Flat(init)[..m];
      assert forall a :: 0 <= a <= i ==> init[a] == adj[a];
    } else {
      i, j := |adj| - 1, m - |Flat(init)|;
      forall a, b | 0 <= a < |adj| && 0 <= b < |adj[a]| && Scanned(a, b, i, j) ensures adj[a][b] in Flat(adj)[..m] {
        if a < i {
          assert init[a] == adj[a];
          assert adj[a][b] in init[a];
          FlatHas(init, adj[a][b]);
          assert Flat(adj)[..m][..|Flat(init)|] == Flat(init);
        } else {
          assert Flat(adj)[..m][|Flat(init)| + b] == last[b];
        }
      }
    }
  }

  lemma LightestIsFound(adj: Lists)
    ensures Found(adj, Lightest(Flat(adj)))
  {
    var s := Flat(adj);
    LightestIsLeast(s);
    forall a, b | 0 <= a < |adj| && 0 <= b < |adj[a]| ensures adj[a][b] in s && Lightest(s).poids <= adj[a][b].poids {
      assert adj[a][b] in adj[a];
      FlatHas(adj, adj[a][b]);
    }
    var k := LightestIsFirst(s);
    if Lightest(s).poids < 1000000000.0 {
      var i, j := FlatPlace(adj, k);
      assert FirstLightest(adj, i, j);
    }
  }

  /** e has been listed behind the others at its ends, twice at the same one when it is a loop. */
  ghost predicate Listed(before: Lists, e: Arete, after: Lists) {
    && |after| == |before|
    && forall i :: 0 <= i < |after| ==> after[i] == before[i] + (if i == e.v then [e] else []) + (if i == e.w then [e] else [])
  }

  /** The list of each end of a has lost the first entry of a, its first two when a is a loop. */
  ghost predicate Unlisted(before: Lists, a: Arete, after: Lists) {
    && |after| == |before|
    && forall i :: 0 <= i < |after| ==>
         after[i] == if i == a.v && i == a.w then Drop(Drop(before[i], a), a)
                     else if i == a.v || i == a.w then Drop(before[i], a)
                     else before[i]
  }

  lemma {:induction false} FlatHas(adj: Lists, e: Arete)
    ensures e in Flat(adj) <==> e in Edges(adj)
  {
    if adj != [] {
      var init, last := adj[..|adj| - 1], adj[|adj| - 1];
      FlatHas(init, e);
      if e in Edges(init) {
        var i :| 0 <= i < |init| && e in init[i];
        assert adj[i] == init[i];
      }
      if e in Edges(adj) {
        var i :| 0 <= i < |adj| && e in adj[i];
        if i < |init| { assert init[i] == adj[i]; }
      }
      if e in last { assert e in adj[|adj| - 1]; }
    }
  }

  lemma PlusKeeps(n: nat, adj: Lists, e: Arete)
    requires WellFormed(n, adj) && Inside(n, e)
    ensures WellFormed(n, Plus(adj, e))
  {
    forall f ensures BalancedAt(Plus(adj, e), f) {
      assert BalancedAt(adj, f);
    }
  }

  lemma MinusCounts(adj: Lists, a: Arete)
    requires Inside(|adj|, a) && a.v != a.w
    ensures forall i :: 0 <= i < |adj| ==>
              multiset(Minus(adj, a)[i]) == if i == a.v || i == a.w then multiset(adj[i]) - multiset{a} else multiset(adj[i])
  {
    DropCounts(adj[a.v], a);
    DropCounts(adj[a.w], a);
  }

  lemma MinusAt(adj: Lists, a: Arete, i: nat, e: Arete)
    requires Inside(|adj|, a) && i < |adj|
    ensures multiset(Minus(adj, a)[i])[e] <= multiset(adj[i])[e]
    ensures e != a ==> multiset(Minus(adj, a)[i])[e] == multiset(adj[i])[e]
  {
    if a.v == a.w {
      DropCounts(adj[a.v], a);
      DropCounts(Drop(adj[a.v], a), a);
    } else {
      MinusCounts(adj, a);
    }
  }

  lemma MinusBalances(adj: Lists, a: Arete, e: Arete)
    requires Inside(|adj|, a) && Inside(|adj|, e)
    requires BalancedAt(adj, e)
    ensures BalancedAt(Minus(adj, a), e)
  {
    if e != a {
      MinusAt(adj, a, e.v, e);
      MinusAt(adj, a, e.w, e);
    } else if a.v != a.w {
      MinusCounts(adj, a);
    }
  }

  lemma MinusKeeps(n: nat, adj: Lists, a: Arete)
    requires WellFormed(n, adj) && Inside(n, a)
    ensures WellFormed(n, Minus(adj, a))
  {
    var m := Minus(adj, a);
    forall i, e | 0 <= i < n && e in m[i] ensures Inside(n, e) && (i == e.v || i == e.w) {
      MinusAt(adj, a, i, e);
      assert multiset(m[i])[e] > 0;
      assert e in adj[i];
    }
    forall e ensures BalancedAt(m, e) {
      assert BalancedAt(adj, e);
      if Inside(n, e) { MinusBalances(adj, a, e); }
    }
  }
}
