/** Texts joined and terminated by a character. */
module Decoupes {

  function Join(parts: seq<string>, sep: char): string {
    if parts == [] then []
    else if |parts| == 1 then parts[0]
    else parts[0] + [sep] + Join(parts[1..], sep)
  }

  lemma {:induction false} JoinConcat(a: seq<string>, b: seq<string>, sep: char)
    requires a != [] && b != []
    ensures Join(a + b, sep) == Join(a, sep) + [sep] + Join(b, sep)
    decreases |a|
  {
    if |a| == 1 {
      assert (a + b)[1..] == b;
    } else {
      assert (a + b)[1..] == a[1..] + b;
      JoinConcat(a[1..], b, sep);
      assert (a + b)[0] == a[0];
      Regroup(a[0] + [sep], Join(a[1..], sep), [sep], Join(b, sep));
    }
  }

  lemma JoinFirst(first: string, parts: seq<string>, sep: char)
    ensures Join([first] + parts + [""], sep) == first + [sep] + Join(parts + [""], sep)
  {
    assert [first] + parts + [""] == [first] + (parts + [""]);
    JoinConcat([first], parts + [""], sep);
  }

  lemma JoinPair(last: string, sep: char)
    ensures Join([last, ""], sep) == last + [sep] && Join([""], sep) == []
  {
    assert [last, ""][1..] == [""];
  }

  /** One more part in front of the empty last one. */
  lemma JoinEnd(init: seq<string>, last: string, sep: char)
    ensures Join(init + [last, ""], sep) == Join(init + [""], sep) + (last + [sep])
  {
    JoinPair(last, sep);
    if init == [] {
      assert init + [last, ""] == [last, ""] && init + [""] == [""];
      assert [] + (last + [sep]) == last + [sep];
    } else {
      JoinConcat(init, [last, ""], sep);
      JoinConcat(init, [""], sep);
      Ended(Join(init, sep), [sep]);
    }
  }

  lemma Ended(a: string, b: string)
    ensures a + b + [] == a + b
  {
  }

  lemma Regroup(a: string, b: string, c: string, d: string)
    ensures a + (b + c + d) == a + b + c + d
  {
  }

  predicate Sans(parts: seq<string>, sep: char) {
    forall k :: 0 <= k < |parts| ==> sep !in parts[k]
  }

  /** The first separator of a text ends its first part. */
  lemma FirstSep(a: string, b: string, c: string, d: string, sep: char)
    requires a + [sep] + b == c + [sep] + d && sep !in a && sep !in c
    ensures a == c && b == d
  {
    var s, t := a + [sep] + b, c + [sep] + d;
    assert s[|a|] == sep && t[|c|] == sep;
    assert forall i :: 0 <= i < |a| ==> s[i] in a;
    assert forall i :: 0 <= i < |c| ==> t[i] in c;
    assert |a| == |c|;
    assert a == s[..|a|] && c == t[..|a|] && b == s[|a| + 1..] && d == t[|a| + 1..];
  }

  lemma JoinHolds(parts: seq<string>, sep: char)
    requires |parts| >= 2
    ensures sep in Join(parts, sep)
  {
    assert Join(parts, sep)[|parts[0]|] == sep;
  }

  /** A text is joined from parts that do not hold the separator in one way only. */
  lemma {:induction false} JoinUnique(a: seq<string>, b: seq<string>, sep: char)
    requires a != [] && b != [] && Sans(a, sep) && Sans(b, sep) && Join(a, sep) == Join(b, sep)
    ensures a == b
    decreases |a|
  {
    if |a| >= 2 { JoinHolds(a, sep); }
    if |b| >= 2 { JoinHolds(b, sep); }
    if |a| >= 2 && |b| >= 2 {
      FirstSep(a[0], Join(a[1..], sep), b[0], Join(b[1..], sep), sep);
      JoinUnique(a[1..], b[1..], sep);
      assert a == [a[0]] + a[1..] && b == [b[0]] + b[1..];
    }
  }
}
