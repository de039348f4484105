/** Undirected connectivity over a finite set of links, defined by walks. */
module Connectivity {

  type Link = (nat, nat)

  predicate Adjacent(links: set<Link>, a: nat, b: nat) {
    (a, b) in links || (b, a) in links
  }

  ghost predicate IsWalk(links: set<Link>, p: seq<nat>) {
    && |p| > 0
    && forall k :: 0 <= k < |p| - 1 ==> Adjacent(links, p[k], p[k + 1])
  }

  ghost predicate WalkFrom(links: set<Link>, p: seq<nat>, a: nat, b: nat) {
    IsWalk(links, p) && p[0] == a && p[|p| - 1] == b
  }

  /** a and b are related by the reflexive-symmetric-transitive closure of links. */
  ghost predicate Connected(links: set<Link>, a: nat, b: nat) {
    exists p :: WalkFrom(links, p, a, b)
  }

  lemma Reflexive(links: set<Link>, a: nat)
    ensures Connected(links, a, a)
  {
    assert WalkFrom(links, [a], a, a);
  }

  lemma Direct(links: set<Link>, a: nat, b: nat)
    requires Adjacent(links, a, b)
    ensures Connected(links, a, b)
  {
    assert WalkFrom(links, [a, b], a, b);
  }

  lemma Symmetric(links: set<Link>, a: nat, b: nat)
    requires Connected(links, a, b)
    ensures Connected(links, b, a)
  {
    var p :| WalkFrom(links, p, a, b);
    var q := seq(|p|, i requires 0 <= i < |p| => p[|p| - 1 - i]);
    forall k | 0 <= k < |q| - 1 ensures Adjacent(links, q[k], q[k + 1]) {
      assert Adjacent(links, p[|p| - 2 - k], p[|p| - 2 - k + 1]);
    }
    assert WalkFrom(links, q, b, a);
  }

  lemma Transitive(links: set<Link>, a: nat, b: nat, c: nat)
    requires Connected(links, a, b) && Connected(links, b, c)
    ensures Connected(links, a, c)
  {
    var p :| WalkFrom(links, p, a, b);
    var q :| WalkFrom(links, q, b, c);
    var r := p + q[1..];
    forall k | 0 <= k < |r| - 1 ensures Adjacent(links, r[k], r[k + 1]) {
      if k >= |p| - 1 {
        assert Adjacent(links, q[k - (|p| - 1)], q[k - (|p| - 1) + 1]);
      }
    }
    assert WalkFrom(links, r, a, c);
  }

  /** If every link of few is connected within many, so is everything few connects. */
  lemma {:induction false} Absorb(few: set<Link>, many: set<Link>, p: seq<nat>)
    requires IsWalk(few, p)
    requires forall l :: l in few ==> Connected(many, l.0, l.1)
    ensures Connected(many, p[0], p[|p| - 1])
  {
    if |p| == 1 {
      Reflexive(many, p[0]);
    } else {
      var q := p[..|p| - 1];
      assert IsWalk(few, q);
      Absorb(few, many, q);
      var a, b := p[|p| - 2], p[|p| - 1];
      assert Adjacent(few, p[|p| - 2], p[|p| - 2 + 1]);
      if (a, b) in few {
        assert Connected(many, (a, b).0, (a, b).1);
      } else {
        assert Connected(many, (b, a).0, (b, a).1);
        Symmetric(many, b, a);
      }
      Transitive(many, p[0], a, b);
    }
  }

  lemma AbsorbAll(few: set<Link>, many: set<Link>, a: nat, b: nat)
    requires Connected(few, a, b)
    requires forall l :: l in few ==> Connected(many, l.0, l.1)
    ensures Connected(many, a, b)
  {
    var p :| WalkFrom(few, p, a, b);
    Absorb(few, many, p);
  }

  lemma Monotone(few: set<Link>, many: set<Link>, a: nat, b: nat)
    requires few <= many && Connected(few, a, b)
    ensures Connected(many, a, b)
  {
    forall l | l in few ensures Connected(many, l.0, l.1) {
      Direct(many, l.0, l.1);
    }
    AbsorbAll(few, many, a, b);
  }

  /** a and b are connected once the link x-y is there: they already were, or they use it once. */
  ghost predicate Through(links: set<Link>, x: nat, y: nat, a: nat, b: nat) {
    || Connected(links, a, b)
    || (Connected(links, a, x) && Connected(links, y, b))
    || (Connected(links, a, y) && Connected(links, x, b))
  }

  lemma ThroughStep(links: set<Link>, x: nat, y: nat, a: nat, b: nat, c: nat)
    requires Through(links, x, y, a, b) && Adjacent(links + {(x, y)}, b, c)
    ensures Through(links, x, y, a, c)
  {
    if Adjacent(links, b, c) {
      Direct(links, b, c);
      if Connected(links, a, b) {
        Transitive(links, a, b, c);
      } else if Connected(links, a, x) && Connected(links, y, b) {
        Transitive(links, y, b, c);
      } else {
        Transitive(links, x, b, c);
      }
    } else {
      assert (b, c) == (x, y) || (c, b) == (x, y);
      Reflexive(links, c);
    }
  }

  lemma {:induction false} WalkThrough(links: set<Link>, x: nat, y: nat, p: seq<nat>)
    requires IsWalk(links + {(x, y)}, p)
    ensures Through(links, x, y, p[0], p[|p| - 1])
  {
    if |p| == 1 {
      Reflexive(links, p[0]);
    } else {
      var q := p[..|p| - 1];
      assert IsWalk(links + {(x, y)}, q);
      WalkThrough(links, x, y, q);
      assert Adjacent(links + {(x, y)}, p[|p| - 2], p[|p| - 2 + 1]);
      ThroughStep(links, x, y, p[0], p[|p| - 2], p[|p| - 1]);
    }
  }

  /** Adding one link connects exactly the pairs that go through it at most once. */
  lemma OneMoreLink(links: set<Link>, x: nat, y: nat, a: nat, b: nat)
    ensures Connected(links + {(x, y)}, a, b) <==> Through(links, x, y, a, b)
  {
    var more := links + {(x, y)};
    if Connected(more, a, b) {
      var p :| WalkFrom(more, p, a, b);
      WalkThrough(links, x, y, p);
    }
    if Through(links, x, y, a, b) && !Connected(links, a, b) {
      Direct(more, x, y);
      Direct(more, y, x);
      if Connected(links, a, x) && Connected(links, y, b) {
        Monotone(links, more, a, x); Monotone(links, more, y, b);
        Transitive(more, a, x, y); Transitive(more, a, y, b);
      } else {
        Monotone(links, more, a, y); Monotone(links, more, x, b);
        Transitive(more, a, y, x); Transitive(more, a, x, b);
      }
    } else if Connected(links, a, b) {
      Monotone(links, more, a, b);
    }
  }
}
