/**
 The order of strings and sorting map keys with it (sort.Strings).  Go compares bytes of
 UTF-8, which orders strings like their code points.
 */
module SortedStrings {

  /** Go's `<` on strings. */
  predicate StringLess(a: string, b: string) {
    b != "" && (a == "" || a[0] < b[0] || (a[0] == b[0] && StringLess(a[1..], b[1..])))
  }

  lemma {:induction false} LessIrreflexive(a: string)
    ensures !StringLess(a, a)
  {
    if a != "" {
      LessIrreflexive(a[1..]);
    }
  }

  lemma {:induction false} LessTransitive(a: string, b: string, c: string)
    requires StringLess(a, b) && StringLess(b, c)
    ensures StringLess(a, c)
  {
    if a != "" && a[0] == b[0] && b[0] == c[0] {
      LessTransitive(a[1..], b[1..], c[1..]);
    }
  }

  lemma {:induction false} LessTotal(a: string, b: string)
    ensures a == b || StringLess(a, b) || StringLess(b, a)
  {
    if a != "" && b != "" && a[0] == b[0] {
      LessTotal(a[1..], b[1..]);
      assert a == [a[0]] + a[1..] && b == [b[0]] + b[1..];
    }
  }

  /** The order of a dictionary: the first difference decides, and a string follows its beginnings. */
  lemma {:induction false} LessExactly(a: string, b: string)
    ensures StringLess(a, b) <==>
            (a < b) || (exists i :: 0 <= i < |a| && i < |b| && a[..i] == b[..i] && a[i] < b[i])
  {
    if a == "" || b == "" {
    } else if a[0] != b[0] {
      assert a[..0] == b[..0];
      assert forall i :: 0 < i <= |a| && i <= |b| ==> a[..i][0] != b[..i][0];
    } else {
      LessExactly(a[1..], b[1..]);
      assert a == [a[0]] + a[1..] && b == [b[0]] + b[1..];
      forall i | 0 <= i < |a[1..]| && i < |b[1..]|
        ensures a[1..][..i] == b[1..][..i] <==> a[..i + 1] == b[..i + 1]
      {
        assert a[..i + 1] == [a[0]] + a[1..][..i] && b[..i + 1] == [b[0]] + b[1..][..i];
        assert a[..i + 1][1..] == a[1..][..i] && b[..i + 1][1..] == b[1..][..i];
      }
      if i :| 0 <= i < |a| && i < |b| && a[..i] == b[..i] && a[i] < b[i] {
        assert i > 0;
        assert a[1..][..i - 1] == b[1..][..i - 1] && a[1..][i - 1] < b[1..][i - 1];
      }
      if i :| 0 <= i < |a[1..]| && i < |b[1..]| && a[1..][..i] == b[1..][..i] && a[1..][i] < b[1..][i] {
        assert a[..i + 1] == b[..i + 1] && a[i + 1] < b[i + 1];
      }
    }
  }

  ghost predicate Ascending(l: seq<string>) {
    forall i, j :: 0 <= i < j < |l| ==> StringLess(l[i], l[j])
  }

  ghost predicate Lists(l: seq<string>, s: set<string>) {
    forall x :: x in l <==> x in s
  }

  /** A set has only one ascending list. */
  lemma {:induction false} AscendingListIsUnique(a: seq<string>, b: seq<string>, s: set<string>)
    requires Ascending(a) && Ascending(b) && Lists(a, s) && Lists(b, s)
    ensures a == b
  {
    NothingListsNothing(a, s);
    NothingListsNothing(b, s);
    if s != {} {
      SameHead(a, b, s);
      TailLists(a, s);
      TailLists(b, s);
      AscendingListIsUnique(a[1..], b[1..], s - {a[0]});
      assert a == [a[0]] + a[1..] && b == [b[0]] + b[1..];
    }
  }

  lemma NothingListsNothing(l: seq<string>, s: set<string>)
    requires Lists(l, s)
    ensures l == [] <==> s == {}
  {
    if l != [] {
      assert l[0] in s;
    }
  }

  lemma SameHead(a: seq<string>, b: seq<string>, s: set<string>)
    requires Ascending(a) && Ascending(b) && Lists(a, s) && Lists(b, s) && a != [] && b != []
    ensures a[0] == b[0]
  {
    assert a[0] in b && b[0] in a;
    var i :| 0 <= i < |b| && b[i] == a[0];
    var j :| 0 <= j < |a| && a[j] == b[0];
    if 0 < i && 0 < j {
      LessTransitive(a[0], b[0], a[0]);
      LessIrreflexive(a[0]);
    }
  }

  lemma TailLists(a: seq<string>, s: set<string>)
    requires Ascending(a) && Lists(a, s) && a != []
    ensures Ascending(a[1..]) && Lists(a[1..], s - {a[0]})
  {
    LessIrreflexive(a[0]);
    forall x
      ensures x in a[1..] <==> x in s - {a[0]}
    {
      if x in a[1..] {
        var i :| 0 <= i < |a[1..]| && a[1..][i] == x;
        assert StringLess(a[0], a[i + 1]);
      }
      assert x in a <==> x == a[0] || x in a[1..];
    }
  }

  /** for k := range m, in whatever order the map iterates. */
  method MapKeys<V>(m: map<string, V>) returns (keys: seq<string>)
    ensures Lists(keys, m.Keys)
    ensures forall i, j :: 0 <= i < j < |keys| ==> keys[i] != keys[j]
  {
    keys := [];
    var rest := m.Keys;
    while rest != {}
      invariant rest <= m.Keys && Lists(keys, m.Keys - rest)
      invariant forall i, j :: 0 <= i < j < |keys| ==> keys[i] != keys[j]
      decreases |rest|
    {
      var k :| k in rest;
      keys := keys + [k];
      rest := rest - {k};
    }
  }

  /** sort.Strings, on strings without repetition. */
  method SortStrings(l: seq<string>, ghost s: set<string>) returns (sorted: seq<string>)
    requires Lists(l, s)
    requires forall i, j :: 0 <= i < j < |l| ==> l[i] != l[j]
    ensures Ascending(sorted) && Lists(sorted, s)
  {
    sorted := [];
    for i := 0 to |l|
      invariant Ascending(sorted)
      invariant forall x :: x in sorted <==> x in l[..i]
    {
      assert l[i] !in l[..i];
      assert l[..i + 1] == l[..i] + [l[i]];
      sorted := Insert(sorted, l[i]);
    }
    assert l[..|l|] == l;
  }

  method Insert(l: seq<string>, x: string) returns (r: seq<string>)
    requires Ascending(l) && x !in l
    ensures Ascending(r) && forall y :: y in r <==> y in l || y == x
  {
    var i := |l|;
    while i > 0 && StringLess(x, l[i - 1])
      invariant 0 <= i <= |l|
      invariant forall j :: i <= j < |l| ==> StringLess(x, l[j])
    {
      i := i - 1;
    }
    r := l[..i] + [x] + l[i..];
    forall j | 0 <= j < i
      ensures StringLess(l[j], x)
    {
      LessTotal(l[i - 1], x);
      if j < i - 1 {
        LessTransitive(l[j], l[i - 1], x);
      }
    }
    assert forall y :: y in l <==> y in l[..i] || y in l[i..] by {
      assert l == l[..i] + l[i..];
    }
  }
}
