/** RO/APNEE2/Partition.java: union-find by parent array, without compression. */
module Partitions {
  import opened Connectivity
  import opened Outcomes

  // ---- the abstract partition: each element's representative ----

  function Singletons(n: nat): (rep: seq<nat>)
    ensures |rep| == n
  {
    seq(n, i => i)
  }

  /** The class of j takes the representative of i. */
  function Merge(rep: seq<nat>, i: nat, j: nat): (merged: seq<nat>)
    requires i < |rep| && j < |rep|
    ensures |merged| == |rep|
  {
    seq(|rep|, x requires 0 <= x < |rep| => if rep[x] == rep[j] then rep[i] else rep[x])
  }

  predicate InRange(n: nat, pairs: seq<Link>) {
    forall p :: p in pairs ==> p.0 < n && p.1 < n
  }

  /** The partition of n elements after uniting the pairs in order. */
  function Classes(n: nat, pairs: seq<Link>): (rep: seq<nat>)
    requires InRange(n, pairs)
    ensures |rep| == n
  {
    if pairs == [] then Singletons(n)
    else
      var last := pairs[|pairs| - 1];
      Merge(Classes(n, pairs[..|pairs| - 1]), last.0, last.1)
  }

  function LinkSet(pairs: seq<Link>): set<Link> {
    set p | p in pairs
  }

  lemma NoLinks(a: nat, b: nat)
    requires Connected({}, a, b)
    ensures a == b
  {
    var p :| WalkFrom({}, p, a, b);
    assert |p| > 1 ==> Adjacent({}, p[0], p[0 + 1]);
  }

  /** Two elements share a class exactly when the united pairs connect them. */
  lemma {:induction false} ClassesAreComponents(n: nat, pairs: seq<Link>, a: nat, b: nat)
    requires InRange(n, pairs) && a < n && b < n
    ensures Classes(n, pairs)[a] == Classes(n, pairs)[b] <==> Connected(LinkSet(pairs), a, b)
    decreases |pairs|
  {
    if pairs == [] {
      assert LinkSet(pairs) == {};
      if a == b { Reflexive({}, a); }
      if Connected({}, a, b) { NoLinks(a, b); }
    } else {
      var prefix, last := pairs[..|pairs| - 1], pairs[|pairs| - 1];
      assert pairs == prefix + [last];
      assert LinkSet(pairs) == LinkSet(prefix) + {(last.0, last.1)};
      OneMoreLink(LinkSet(prefix), last.0, last.1, a, b);
      ClassesAreComponents(n, prefix, a, b);
      ClassesAreComponents(n, prefix, a, last.0);
      ClassesAreComponents(n, prefix, last.1, b);
      ClassesAreComponents(n, prefix, a, last.1);
      ClassesAreComponents(n, prefix, last.0, b);
    }
  }

  lemma {:induction false} Representative(n: nat, pairs: seq<Link>, x: nat)
    requires InRange(n, pairs) && x < n
    ensures Classes(n, pairs)[x] < n && Classes(n, pairs)[Classes(n, pairs)[x]] == Classes(n, pairs)[x]
    decreases |pairs|
  {
    if pairs != [] {
      var init, last := pairs[..|pairs| - 1], pairs[|pairs| - 1];
      Representative(n, init, x);
      Representative(n, init, last.0);
      Representative(n, init, last.1);
    }
  }

  /** A union leaves every element its representative, but those connected to j take that of i. */
  lemma UnionKeepsFirst(n: nat, pairs: seq<Link>, i: nat, j: nat, x: nat)
    requires InRange(n, pairs) && i < n && j < n && x < n
    ensures InRange(n, pairs + [(i, j)])
    ensures Classes(n, pairs + [(i, j)])[x]
            == if Connected(LinkSet(pairs), x, j) then Classes(n, pairs)[i] else Classes(n, pairs)[x]
  {
    assert (pairs + [(i, j)])[..|pairs|] == pairs;
    ClassesAreComponents(n, pairs, x, j);
  }

  // ---- the parent array ----

  /** x is the root of its class, or its parent is a shallower member of it. */
  ghost predicate Sits(parent: seq<int>, rep: seq<nat>, depth: seq<nat>, x: nat)
    requires |parent| == |rep| == |depth| && x < |parent|
  {
    && 0 <= parent[x] < |parent|
    && rep[x] < |parent| && parent[rep[x]] == rep[x]
    && if parent[x] == x then rep[x] == x
       else depth[parent[x]] < depth[x] && rep[parent[x]] == rep[x]
  }

  /** The parents form trees, one for each class, with its representative as root. */
  ghost predicate Represents(parent: seq<int>, rep: seq<nat>, depth: seq<nat>) {
    && |parent| == |rep| == |depth|
    && forall x :: 0 <= x < |parent| ==> Sits(parent, rep, depth, x)
  }

  /** Depths once the tree rooted at k hangs below l. */
  function Deepened(rep: seq<nat>, depth: seq<nat>, k: nat, l: nat): (d: seq<nat>)
    requires |rep| == |depth| && l < |rep|
    ensures |d| == |depth|
  {
    seq(|depth|, x requires 0 <= x < |depth| => if rep[x] == k && k != l then depth[x] + depth[l] + 1 else depth[x])
  }

  lemma HangBelow(parent: seq<int>, rep: seq<nat>, depth: seq<nat>, i: nat, j: nat)
    requires Represents(parent, rep, depth) && i < |rep| && j < |rep|
    ensures rep[i] < |parent| && rep[j] < |parent|
    ensures Represents(parent[rep[j] := rep[i]], Merge(rep, i, j), Deepened(rep, depth, rep[j], rep[i]))
  {
    assert Sits(parent, rep, depth, i) && Sits(parent, rep, depth, j);
    var k, l := rep[j], rep[i];
    assert Sits(parent, rep, depth, k) && Sits(parent, rep, depth, l);
    var parent', rep', depth' := parent[k := l], Merge(rep, i, j), Deepened(rep, depth, k, l);
    forall x | 0 <= x < |parent'| ensures Sits(parent', rep', depth', x) {
      assert Sits(parent, rep, depth, x);
      assert Sits(parent, rep, depth, parent[x]);
    }
  }

  class Partition {
    var parent: array<int>
    ghost var unions: seq<Link>
    ghost var depth: seq<nat>

    ghost predicate Valid()
      reads this, parent
    {
      && InRange(parent.Length, unions)
      && Represents(parent[..], Classes(parent.Length, unions), depth)
    }

    constructor (n: nat)
      ensures Valid() && fresh(parent) && parent.Length == n && unions == []
      ensures forall i :: 0 <= i < n ==> parent[i] == i
    {
      parent := new int[n](i => i);
      unions := [];
      depth := seq(n, i => 0);
    }

    /** The constructor as its callers see it: a negative size throws. */
    static method Creer(n: int) returns (r: Outcome<Partition>)
      ensures r == IllegalArgument || r.Ok?
      ensures r.Ok? <==> 0 <= n
      ensures r.Ok? ==> fresh(r.value) && fresh(r.value.parent)
      ensures r.Ok? ==> r.value.Valid() && r.value.parent.Length == n && r.value.unions == []
    {
      if n < 0 { return IllegalArgument; }
      var p := new Partition(n);
      return Ok(p);
    }

    /** The root above i. */
    method Trouver(i: int) returns (r: Outcome<int>)
      requires Valid()
      ensures r == if i < 0 then IllegalArgument
                   else if i >= parent.Length then IndexOutOfBounds
                   else Ok(Classes(parent.Length, unions)[i])
    {
      if i < 0 { return IllegalArgument; }
      if i >= parent.Length { return IndexOutOfBounds; }
      ghost var rep := Classes(parent.Length, unions);
      assert Sits(parent[..], rep, depth, i);
      var it := i;
      while it != parent[it]
        invariant 0 <= it < parent.Length && rep[it] == rep[i]
        decreases depth[it]
      {
        assert Sits(parent[..], rep, depth, it);
        it := parent[it];
      }
      assert Sits(parent[..], rep, depth, it);
      return Ok(it);
    }

    /** Hangs the root of j below the root of i. */
    method Unir(i: int, j: int) returns (r: Outcome<()>)
      requires Valid()
      modifies this`unions, this`depth, parent
      ensures Valid() && parent == old(parent)
      ensures r == if i < 0 || j < 0 then IllegalArgument
                   else if i >= parent.Length || j >= parent.Length then IndexOutOfBounds
                   else Ok(())
      ensures unions == if r.Ok? then old(unions) + [(i, j)] else old(unions)
      ensures !r.Ok? ==> parent[..] == old(parent[..])
      ensures r.Ok? ==>
                var rep := Classes(parent.Length, old(unions));
                rep[j] < parent.Length && parent[..] == old(parent[..])[rep[j] := rep[i]]
    {
      if i < 0 || j < 0 { return IllegalArgument; }
      var k := Trouver(j);
      if !k.Ok? { return IndexOutOfBounds; }
      var l := Trouver(i);
      if !l.Ok? { return IndexOutOfBounds; }
      ghost var n := parent.Length;
      ghost var rep := Classes(n, unions);
      HangBelow(parent[..], rep, depth, i, j);
      parent[k.value] := l.value;
      depth := Deepened(rep, depth, k.value, l.value);
      unions := unions + [(i, j)];
      assert unions[..|unions| - 1] == old(unions);
      assert parent[..] == old(parent[..])[k.value := l.value];
      return Ok(());
    }

    /** Whether the pairs united so far connect i and j. */
    method SontConnectes(i: int, j: int) returns (r: Outcome<bool>)
      requires Valid()
      ensures r == if i < 0 || j < 0 then IllegalArgument
                   else if i >= parent.Length || j >= parent.Length then IndexOutOfBounds
                   else Ok(Connected(LinkSet(unions), i, j))
    {
      if i < 0 || j < 0 { return IllegalArgument; }
      var a := Trouver(i);
      if !a.Ok? { return IndexOutOfBounds; }
      var b := Trouver(j);
      if !b.Ok? { return IndexOutOfBounds; }
      ClassesAreComponents(parent.Length, unions, i, j);
      return Ok(a.value == b.value);
    }
  }
}
