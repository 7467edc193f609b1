/**
 MergeTopologySpreadConstraints of utils/utils.go: later lists override earlier ones,
 key by key.  The code remembers for each key the index of its first constraint within
 its own list, and uses that as an index into the merged list.
 */
module TopologySpread {
  import opened Options

  datatype Constraint = Constraint(topologyKey: string, settings: string)

  // ---------------------------------------------------------------------
  // What the merge should give
  // ---------------------------------------------------------------------

  function KeyIndex(l: seq<Constraint>, key: string): (i: nat)
    ensures i <= |l|
    ensures i < |l| ==> l[i].topologyKey == key
    ensures forall j :: 0 <= j < i ==> l[j].topologyKey != key
  {
    if l == [] || l[0].topologyKey == key then 0 else 1 + KeyIndex(l[1..], key)
  }

  predicate HasKey(l: seq<Constraint>, key: string) {
    KeyIndex(l, key) < |l|
  }

  /** Replace the constraint of the same key, or append. */
  function Override(dest: seq<Constraint>, c: Constraint): seq<Constraint> {
    var i := KeyIndex(dest, c.topologyKey);
    if i < |dest| then dest[i := c] else dest + [c]
  }

  /** Overriding `dest` by a list, front to back. */
  function OverrideAll(dest: seq<Constraint>, l: seq<Constraint>): seq<Constraint> {
    if l == [] then dest else Override(OverrideAll(dest, l[..|l| - 1]), l[|l| - 1])
  }

  ghost predicate DistinctKeys(l: seq<Constraint>) {
    forall i, j :: 0 <= i < j < |l| ==> l[i].topologyKey != l[j].topologyKey
  }

  lemma KeyIndexIs(l: seq<Constraint>, key: string, i: nat)
    requires i <= |l| && (i < |l| ==> l[i].topologyKey == key)
    requires forall j :: 0 <= j < i ==> l[j].topologyKey != key
    ensures KeyIndex(l, key) == i
  {
  }

  /** The constraint that a list gives for a key. */
  function Find(l: seq<Constraint>, key: string): Option<Constraint> {
    if HasKey(l, key) then Some(l[KeyIndex(l, key)]) else None
  }

  function Keys(l: seq<Constraint>): (keys: seq<string>)
    ensures |keys| == |l|
    ensures forall i :: 0 <= i < |l| ==> keys[i] == l[i].topologyKey
  {
    seq(|l|, i requires 0 <= i < |l| => l[i].topologyKey)
  }

  /** The constraints of `l` whose key is not in `taken`, in order. */
  function NewOnes(l: seq<Constraint>, taken: seq<Constraint>): seq<Constraint> {
    if l == [] then []
    else NewOnes(l[..|l| - 1], taken) + if HasKey(taken, l[|l| - 1].topologyKey) then [] else [l[|l| - 1]]
  }

  lemma OverrideFinds(dest: seq<Constraint>, c: Constraint, key: string)
    requires DistinctKeys(dest)
    ensures DistinctKeys(Override(dest, c))
    ensures Find(Override(dest, c), key) == if key == c.topologyKey then Some(c) else Find(dest, key)
    ensures Keys(Override(dest, c)) == Keys(dest) + if HasKey(dest, c.topologyKey) then [] else [c.topologyKey]
  {
    hide KeyIndex;
    var i := KeyIndex(dest, c.topologyKey);
    var r := Override(dest, c);
    var p := KeyIndex(dest, key);
    if key == c.topologyKey {
      KeyIndexIs(r, key, i);
    } else {
      KeyIndexIs(r, key, if p < |dest| then p else |r|);
    }
  }

  /**
   Overriding by a list with distinct keys gives each key its constraint from that list,
   or else the old one; old keys keep their places and new ones follow in order.
   */
  lemma {:induction false} OverrideAllFinds(dest: seq<Constraint>, l: seq<Constraint>, key: string)
    requires DistinctKeys(dest) && DistinctKeys(l)
    ensures var r := OverrideAll(dest, l);
            && DistinctKeys(r)
            && Find(r, key) == (if HasKey(l, key) then Find(l, key) else Find(dest, key))
            && Keys(r) == Keys(dest) + Keys(NewOnes(l, dest))
  {
    hide KeyIndex;
    if l != [] {
      var init, last := l[..|l| - 1], l[|l| - 1];
      OverrideAllFinds(dest, init, key);
      OverrideAllFinds(dest, init, last.topologyKey);
      OverrideFinds(OverrideAll(dest, init), last, key);
      var p := KeyIndex(init, key);
      KeyIndexIs(l, key, if p < |init| then p else if key == last.topologyKey then |init| else |l|);
      KeyIndexIs(init, last.topologyKey, |init|);
    }
  }

  /** Overriding nothing by a list with distinct keys gives that list. */
  lemma {:induction false} OverrideNothing(l: seq<Constraint>)
    requires DistinctKeys(l)
    ensures OverrideAll([], l) == l
  {
    if l != [] {
      var init, last := l[..|l| - 1], l[|l| - 1];
      OverrideNothing(init);
      KeyIndexIs(init, last.topologyKey, |init|);
      assert l == init + [last];
    }
  }

  lemma {:induction false} OverrideInTwoSteps(a: seq<Constraint>, b: seq<Constraint>)
    ensures OverrideAll([], a + b) == OverrideAll(OverrideAll([], a), b)
  {
    if b == [] {
      assert a + b == a;
    } else {
      assert (a + b)[..|a + b| - 1] == a + b[..|b| - 1];
      OverrideInTwoSteps(a, b[..|b| - 1]);
    }
  }

  // ---------------------------------------------------------------------
  // What the code computes
  // ---------------------------------------------------------------------

  /** A constraint together with its index in its own list. */
  datatype Entry = Entry(c: Constraint, j: nat)

  function ListEntries(l: seq<Constraint>): (es: seq<Entry>)
    ensures |es| == |l|
    ensures forall j :: 0 <= j < |l| ==> es[j] == Entry(l[j], j)
  {
    seq(|l|, j requires 0 <= j < |l| => Entry(l[j], j))
  }

  /** The constraints in the order in which the nested loops visit them. */
  function Entries(lists: seq<seq<Constraint>>): seq<Entry> {
    if lists == [] then []
    else Entries(lists[..|lists| - 1]) + ListEntries(lists[|lists| - 1])
  }

  function Constraints(es: seq<Entry>): (cs: seq<Constraint>)
    ensures |cs| == |es|
    ensures forall i :: 0 <= i < |es| ==> cs[i] == es[i].c
  {
    seq(|es|, i requires 0 <= i < |es| => es[i].c)
  }

  type Memo = map<string, nat>

  datatype Merge = Merge(dest: seq<Constraint>, memo: Memo)

  /** The body of the inner loop; None if the index is out of range. */
  function MergeOne(m: Merge, e: Entry): Option<Merge> {
    var key := e.c.topologyKey;
    if key !in m.memo then Some(Merge(m.dest + [e.c], m.memo[key := e.j]))
    else if m.memo[key] < |m.dest| then Some(m.(dest := m.dest[m.memo[key] := e.c]))
    else None
  }

  function MergeAll(es: seq<Entry>): Option<Merge> {
    if es == [] then Some(Merge([], map[]))
    else
      var before := MergeAll(es[..|es| - 1]);
      if before.None? then None else MergeOne(before.value, es[|es| - 1])
  }

  lemma {:induction false} PanicStays(es: seq<Entry>, i: nat)
    requires i <= |es| && MergeAll(es[..i]) == None
    ensures MergeAll(es) == None
  {
    if i == |es| {
      assert es[..i] == es;
    } else {
      var init := es[..|es| - 1];
      assert init[..i] == es[..i];
      PanicStays(init, i);
    }
  }

  lemma {:induction false} EntriesPrefix(lists: seq<seq<Constraint>>, i: nat)
    requires i <= |lists|
    ensures Entries(lists[..i]) <= Entries(lists)
  {
    if i < |lists| {
      var init := lists[..|lists| - 1];
      assert init[..i] == lists[..i];
      EntriesPrefix(init, i);
    } else {
      assert lists[..i] == lists;
    }
  }

  lemma MergeStep(done: seq<Entry>, l: seq<Constraint>, j: nat)
    requires j < |l|
    ensures var before := MergeAll(done + ListEntries(l)[..j]);
            MergeAll(done + ListEntries(l)[..j + 1]) ==
              if before.None? then None else MergeOne(before.value, Entry(l[j], j))
  {
    var es := done + ListEntries(l)[..j + 1];
    assert es[..|es| - 1] == done + ListEntries(l)[..j];
  }

  lemma EntriesStep(lists: seq<seq<Constraint>>, i: nat)
    requires i < |lists|
    ensures Entries(lists[..i + 1]) == Entries(lists[..i]) + ListEntries(lists[i])
    ensures ListEntries(lists[i])[..|lists[i]|] == ListEntries(lists[i])
    ensures Entries(lists[..i]) + ListEntries(lists[i])[..0] == Entries(lists[..i])
  {
    assert lists[..i + 1][..i] == lists[..i];
  }

  lemma PanicEnds(lists: seq<seq<Constraint>>, i: nat, j: nat)
    requires i < |lists| && j <= |lists[i]|
    requires MergeAll(Entries(lists[..i]) + ListEntries(lists[i])[..j]) == None
    ensures MergeAll(Entries(lists)) == None
  {
    hide MergeAll, Entries;
    var es := Entries(lists[..i]) + ListEntries(lists[i])[..j];
    EntriesStep(lists, i);
    EntriesPrefix(lists, i + 1);
    assert es == Entries(lists)[..|es|];
    PanicStays(Entries(lists), |es|);
  }

  /** MergeTopologySpreadConstraints; None stands for an index out of range. */
  method MergeTopologySpreadConstraints(constraints: seq<seq<Constraint>>) returns (dest: Option<seq<Constraint>>)
    ensures var m := MergeAll(Entries(constraints));
            dest == if m.Some? then Some(m.value.dest) else None
  {
    hide ListEntries, Intended;
    var d: seq<Constraint> := [];
    var memo: Memo := map[];
    for i := 0 to |constraints|
      invariant MergeAll(Entries(constraints[..i])) == Some(Merge(d, memo))
    {
      hide MergeAll, Entries;
      var l := constraints[i];
      EntriesStep(constraints, i);
      for j := 0 to |l|
        invariant MergeAll(Entries(constraints[..i]) + ListEntries(l)[..j]) == Some(Merge(d, memo))
      {
        var c := l[j];
        MergeStep(Entries(constraints[..i]), l, j);
        if c.topologyKey in memo {
          var t := memo[c.topologyKey];
          if t >= |d| {
            PanicEnds(constraints, i, j + 1);
            return None;
          }
          d := d[t := c];
        } else {
          d := d + [c];
          memo := memo[c.topologyKey := j];
        }
      }
    }
    assert constraints[..|constraints|] == constraints;
    return Some(d);
  }

  // ---------------------------------------------------------------------
  // Exactly when the merge is right
  // ---------------------------------------------------------------------

  /** The merge that should come out. */
  function Intended(es: seq<Entry>): seq<Constraint> {
    OverrideAll([], Constraints(es))
  }

  /** Entry `f` is the first one of its key. */
  ghost predicate IsFirst(es: seq<Entry>, f: nat)
    requires f < |es|
  {
    forall i :: 0 <= i < f ==> es[i].c.topologyKey != es[f].c.topologyKey
  }

  ghost predicate Repeats(es: seq<Entry>, f: nat)
    requires f < |es|
  {
    exists i :: f < i < |es| && es[i].c.topologyKey == es[f].c.topologyKey
  }

  /**
   Whenever a key comes back, the index of its first constraint in its own list is the
   number of different keys before it, which is its place in the merged list.
   */
  ghost predicate MemoIsRight(es: seq<Entry>) {
    forall f :: 0 <= f < |es| && IsFirst(es, f) && Repeats(es, f) ==> es[f].j == |Intended(es[..f])|
  }

  lemma IntendedStep(es: seq<Entry>)
    requires es != []
    ensures Intended(es) == Override(Intended(es[..|es| - 1]), es[|es| - 1].c)
  {
    assert Constraints(es)[..|es| - 1] == Constraints(es[..|es| - 1]);
  }

  lemma {:induction false} IntendedIsDistinct(es: seq<Entry>)
    ensures DistinctKeys(Intended(es))
  {
    hide Intended;
    if es == [] {
      assert Intended(es) == [] by { EmptyIntended(); }
    } else {
      IntendedStep(es);
      IntendedIsDistinct(es[..|es| - 1]);
      OverrideFinds(Intended(es[..|es| - 1]), es[|es| - 1].c, "");
    }
  }

  lemma EmptyIntended()
    ensures Intended([]) == []
  {
  }

  /** The merged list has the keys of the entries. */
  lemma {:induction false} IntendedKeys(es: seq<Entry>, key: string)
    ensures HasKey(Intended(es), key) <==> exists i :: 0 <= i < |es| && es[i].c.topologyKey == key
  {
    hide Intended, HasKey, KeyIndex;
    if es == [] {
      EmptyIntended();
      NoKeyInNothing(key);
    } else {
      var init, last := es[..|es| - 1], es[|es| - 1];
      IntendedStep(es);
      IntendedIsDistinct(init);
      IntendedKeys(init, key);
      KeyAfterOverride(Intended(init), last.c, key);
      assert es == init + [last];
      if key == last.c.topologyKey {
        assert es[|es| - 1].c.topologyKey == key;
      }
    }
  }

  lemma NoKeyInNothing(key: string)
    ensures !HasKey([], key)
  {
  }

  lemma KeyAfterOverride(dest: seq<Constraint>, c: Constraint, key: string)
    requires DistinctKeys(dest)
    ensures HasKey(Override(dest, c), key) <==> HasKey(dest, key) || key == c.topologyKey
  {
    OverrideFinds(dest, c, key);
  }

  /** The place of a key is fixed by its first entry. */
  lemma {:induction false} PlaceOfFirst(es: seq<Entry>, f: nat)
    requires f < |es| && IsFirst(es, f)
    ensures var p := |Intended(es[..f])|;
            p < |Intended(es)| && Intended(es)[p].topologyKey == es[f].c.topologyKey
    ensures KeyIndex(Intended(es), es[f].c.topologyKey) == |Intended(es[..f])|
  {
    hide Intended, HasKey, KeyIndex;
    var init, last := es[..|es| - 1], es[|es| - 1];
    IntendedStep(es);
    IntendedIsDistinct(es);
    var p, key := |Intended(es[..f])|, es[f].c.topologyKey;
    if f == |es| - 1 {
      assert es[..f] == init;
      IntendedKeys(init, key);
      assert !HasKey(Intended(init), key);
      OverrideNew(Intended(init), last.c);
    } else {
      assert init[..f] == es[..f];
      PlaceOfFirst(init, f);
      OverrideKeepsKeys(Intended(init), last.c, p);
    }
    PlaceIsKeyIndex(Intended(es), p);
  }

  lemma OverrideNew(dest: seq<Constraint>, c: Constraint)
    requires !HasKey(dest, c.topologyKey)
    ensures Override(dest, c) == dest + [c]
  {
  }

  lemma OverrideKeepsKeys(dest: seq<Constraint>, c: Constraint, p: nat)
    requires p < |dest|
    ensures p < |Override(dest, c)| && Override(dest, c)[p].topologyKey == dest[p].topologyKey
    ensures Override(dest, c)[p] ==
            if c.topologyKey == dest[p].topologyKey && KeyIndex(dest, c.topologyKey) == p then c else dest[p]
  {
  }

  lemma PlaceIsKeyIndex(l: seq<Constraint>, p: nat)
    requires DistinctKeys(l) && p < |l|
    ensures KeyIndex(l, l[p].topologyKey) == p
  {
    KeyIndexIs(l, l[p].topologyKey, p);
  }

  /** What the code remembers: the list index of the first entry of each key. */
  lemma {:induction false} MemoBooks(es: seq<Entry>)
    requires MergeAll(es).Some?
    ensures |MergeAll(es).value.dest| == |Intended(es)|
    ensures forall key :: key in MergeAll(es).value.memo <==> HasKey(Intended(es), key)
    ensures forall f :: 0 <= f < |es| && IsFirst(es, f) ==>
              && es[f].c.topologyKey in MergeAll(es).value.memo
              && MergeAll(es).value.memo[es[f].c.topologyKey] == es[f].j
  {
    hide Intended, HasKey, Override;
    if es == [] {
      EmptyIntended();
      forall key { NoKeyInNothing(key); }
    } else {
      var init, last := es[..|es| - 1], es[|es| - 1];
      MemoBooks(init);
      IntendedStep(es);
      IntendedIsDistinct(init);
      OverrideLength(Intended(init), last.c);
      forall key
        ensures key in MergeAll(es).value.memo <==> HasKey(Intended(es), key)
      {
        KeyAfterOverride(Intended(init), last.c, key);
      }
      forall f | 0 <= f < |es| && IsFirst(es, f)
        ensures es[f].c.topologyKey in MergeAll(es).value.memo
             && MergeAll(es).value.memo[es[f].c.topologyKey] == es[f].j
      {
        IntendedKeys(init, last.c.topologyKey);
        if f < |init| {
          assert IsFirst(init, f);
        }
      }
    }
  }

  lemma OverrideLength(dest: seq<Constraint>, c: Constraint)
    ensures |Override(dest, c)| == |dest| + if HasKey(dest, c.topologyKey) then 0 else 1
  {
  }

  /** The entry that first brings a key. */
  lemma FirstEntry(es: seq<Entry>, i: nat) returns (f: nat)
    requires i < |es|
    ensures f <= i && IsFirst(es, f) && es[f].c.topologyKey == es[i].c.topologyKey
  {
    if IsFirst(es, i) {
      f := i;
    } else {
      var k :| 0 <= k < i && es[k].c.topologyKey == es[i].c.topologyKey;
      f := FirstEntry(es, k);
    }
  }

  /** If the remembered indices are right, the merge is. */
  lemma {:induction false} RightMemoRightMerge(es: seq<Entry>)
    requires MemoIsRight(es)
    ensures MergeAll(es).Some? && MergeAll(es).value.dest == Intended(es)
  {
    hide Intended, HasKey, Override, KeyIndex, MemoIsRight, MergeOne;
    if es == [] {
      EmptyIntended();
    } else {
      var init, last := es[..|es| - 1], es[|es| - 1];
      PrefixMemoIsRight(es);
      RightMemoRightMerge(init);
      IntendedStep(es);
      if HasKey(Intended(init), last.c.topologyKey) {
        var f := RightFirstEntry(es);
        MergeFound(init, last, f);
      } else {
        MergeNew(init, last);
      }
    }
  }

  /** The last key was brought by an earlier entry, whose index is right. */
  lemma RightFirstEntry(es: seq<Entry>) returns (f: nat)
    requires es != [] && MemoIsRight(es)
    requires HasKey(Intended(es[..|es| - 1]), es[|es| - 1].c.topologyKey)
    ensures f < |es| - 1 && es[f].c.topologyKey == es[|es| - 1].c.topologyKey
    ensures var init := es[..|es| - 1]; IsFirst(init, f) && init[f].j == |Intended(init[..f])|
  {
    hide Intended, HasKey, MemoIsRight, IsFirst;
    var init, last := es[..|es| - 1], es[|es| - 1];
    IntendedKeys(init, last.c.topologyKey);
    var i :| 0 <= i < |init| && init[i].c.topologyKey == last.c.topologyKey;
    f := FirstEntry(init, i);
    RightAt(es, f);
  }

  lemma RightAt(es: seq<Entry>, f: nat)
    requires es != [] && MemoIsRight(es)
    requires f < |es| - 1 && IsFirst(es[..|es| - 1], f) && es[f].c.topologyKey == es[|es| - 1].c.topologyKey
    ensures es[f].j == |Intended(es[..|es| - 1][..f])|
  {
    hide Intended, IsFirst, Repeats;
    FirstInWhole(es, |es| - 1, f);
    RepeatsAt(es, f, |es| - 1);
    assert es[..|es| - 1][..f] == es[..f];
  }

  lemma FirstInWhole(es: seq<Entry>, n: nat, f: nat)
    requires f < n <= |es|
    ensures IsFirst(es[..n], f) <==> IsFirst(es, f)
  {
  }

  lemma RepeatsAt(es: seq<Entry>, f: nat, i: nat)
    requires f < i < |es| && es[i].c.topologyKey == es[f].c.topologyKey
    ensures Repeats(es, f)
  {
  }

  lemma MergeFound(init: seq<Entry>, last: Entry, f: nat)
    requires MergeAll(init).Some? && MergeAll(init).value.dest == Intended(init)
    requires f < |init| && IsFirst(init, f) && init[f].c.topologyKey == last.c.topologyKey
    requires init[f].j == |Intended(init[..f])|
    ensures var m := MergeOne(MergeAll(init).value, last);
            m.Some? && m.value.dest == Override(Intended(init), last.c)
  {
    hide Intended, MergeAll, KeyIndex;
    MemoBooks(init);
    PlaceOfFirst(init, f);
    OverrideOld(Intended(init), last.c);
  }

  lemma MergeNew(init: seq<Entry>, last: Entry)
    requires MergeAll(init).Some? && MergeAll(init).value.dest == Intended(init)
    requires !HasKey(Intended(init), last.c.topologyKey)
    ensures var m := MergeOne(MergeAll(init).value, last);
            m.Some? && m.value.dest == Override(Intended(init), last.c)
  {
    hide Intended, MergeAll, KeyIndex, HasKey;
    MemoBooks(init);
    OverrideNew(Intended(init), last.c);
  }

  lemma OverrideOld(dest: seq<Constraint>, c: Constraint)
    requires HasKey(dest, c.topologyKey)
    ensures Override(dest, c) == dest[KeyIndex(dest, c.topologyKey) := c]
  {
  }

  lemma PrefixMemoIsRight(es: seq<Entry>)
    requires es != [] && MemoIsRight(es)
    ensures MemoIsRight(es[..|es| - 1])
  {
    hide Intended, IsFirst;
    var init := es[..|es| - 1];
    forall f | 0 <= f < |init| && IsFirst(init, f) && Repeats(init, f)
      ensures init[f].j == |Intended(init[..f])|
    {
      var i :| f < i < |init| && init[i].c.topologyKey == init[f].c.topologyKey;
      RepeatsAt(es, f, i);
      FirstInWhole(es, |es| - 1, f);
      assert init[..f] == es[..f];
    }
  }

  ghost predicate NoEntryTwice(es: seq<Entry>) {
    forall i, j :: 0 <= i < j < |es| ==> es[i].c != es[j].c
  }

  /** The place of a badly remembered key never gets a later constraint of that key. */
  lemma {:induction false} BadPlaceIsStale(es: seq<Entry>, f: nat)
    requires f < |es| && IsFirst(es, f) && es[f].j != |Intended(es[..f])| && MergeAll(es).Some?
    ensures var dest, p := MergeAll(es).value.dest, |Intended(es[..f])|;
            p < |dest| && (dest[p].topologyKey != es[f].c.topologyKey || dest[p] == es[f].c)
  {
    hide Intended, HasKey, Override;
    var init, last := es[..|es| - 1], es[|es| - 1];
    MemoBooks(init);
    if f == |init| {
      IntendedKeys(init, last.c.topologyKey);
      assert es[..f] == init;
    } else {
      assert init[..f] == es[..f] && IsFirst(init, f);
      BadPlaceIsStale(init, f);
    }
  }

  /** The intended merge has the last constraint of the key there. */
  lemma {:induction false} IntendedTakesLast(es: seq<Entry>, f: nat) returns (i: nat)
    requires f < |es| && IsFirst(es, f)
    ensures f <= i < |es| && (Repeats(es, f) ==> f < i)
    ensures var p := |Intended(es[..f])|;
            p < |Intended(es)| && Intended(es)[p] == es[i].c && es[i].c.topologyKey == es[f].c.topologyKey
  {
    hide Intended, HasKey;
    var init, last := es[..|es| - 1], es[|es| - 1];
    IntendedStep(es);
    PlaceOfFirst(es, f);
    if f == |init| {
      i := f;
      IntendedKeys(init, last.c.topologyKey);
      assert es[..f] == init;
      OverrideNew(Intended(init), last.c);
    } else {
      assert init[..f] == es[..f] && IsFirst(init, f);
      PlaceOfFirst(init, f);
      i := IntendedTakesLast(init, f);
      var p := |Intended(es[..f])|;
      OverrideKeepsKeys(Intended(init), last.c, p);
      if last.c.topologyKey == es[f].c.topologyKey {
        i := |init|;
      } else if Repeats(es, f) {
        var k :| f < k < |es| && es[k].c.topologyKey == es[f].c.topologyKey;
        assert init[k].c.topologyKey == init[f].c.topologyKey;
        assert Repeats(init, f);
      }
    }
  }

  /**
   For lists in which no constraint occurs twice, the code returns the intended merge,
   without an index out of range, if and only if its remembered indices are right.
   */
  lemma MergeIsRightExactly(es: seq<Entry>)
    requires NoEntryTwice(es)
    ensures MergeAll(es).Some? && MergeAll(es).value.dest == Intended(es) <==> MemoIsRight(es)
  {
    hide Intended, MergeAll;
    if MemoIsRight(es) {
      RightMemoRightMerge(es);
    } else {
      var f :| 0 <= f < |es| && IsFirst(es, f) && Repeats(es, f) && es[f].j != |Intended(es[..f])|;
      WrongMemoWrongMerge(es, f);
    }
  }

  lemma WrongMemoWrongMerge(es: seq<Entry>, f: nat)
    requires NoEntryTwice(es)
    requires f < |es| && IsFirst(es, f) && Repeats(es, f) && es[f].j != |Intended(es[..f])|
    ensures MergeAll(es).None? || MergeAll(es).value.dest != Intended(es)
  {
    hide Intended, MergeAll;
    if MergeAll(es).Some? {
      BadPlaceIsStale(es, f);
      var i := IntendedTakesLast(es, f);
      assert es[i].c != es[f].c;
    }
  }

  // ---------------------------------------------------------------------
  // Exactly when an index is out of range
  // ---------------------------------------------------------------------

  /** Entry `i` brings back the key of `f`, whose index is beyond the list merged so far. */
  ghost predicate OutOfRange(es: seq<Entry>, f: nat, i: nat) {
    && f < i < |es| && IsFirst(es, f) && es[i].c.topologyKey == es[f].c.topologyKey
    && es[f].j >= |Intended(es[..i])|
  }

  /** The code panics if and only if some key comes back with an index that is too large. */
  lemma {:induction false} PanicsExactly(es: seq<Entry>)
    ensures MergeAll(es) == None <==> exists f: nat, i: nat :: OutOfRange(es, f, i)
  {
    hide Intended, HasKey, OutOfRange, IsFirst;
    if es == [] {
      NothingIsOutOfRange();
    } else {
      var init, last := es[..|es| - 1], es[|es| - 1];
      PanicsExactly(init);
      forall f: nat, i: nat | i < |init|
        ensures OutOfRange(es, f, i) <==> OutOfRange(init, f, i)
      {
        OutOfRangeInPrefix(es, f, i);
      }
      if MergeAll(init).Some? {
        if MergeAll(es) == None {
          PanicHasCause(es);
        } else {
          forall f: nat
            ensures !OutOfRange(es, f, |init|)
          {
            NoPanicNoCause(es, f);
          }
        }
        forall f: nat, i: nat | OutOfRange(es, f, i)
          ensures i == |init|
        {
          OutOfRangeIsInside(es, f, i);
        }
      } else {
        var f: nat, i: nat :| OutOfRange(init, f, i);
        OutOfRangeIsInside(init, f, i);
        assert OutOfRange(es, f, i);
      }
    }
  }

  lemma NothingIsOutOfRange()
    ensures forall f: nat, i: nat :: !OutOfRange([], f, i)
  {
  }

  lemma OutOfRangeIsInside(es: seq<Entry>, f: nat, i: nat)
    requires OutOfRange(es, f, i)
    ensures i < |es|
  {
  }

  lemma OutOfRangeInPrefix(es: seq<Entry>, f: nat, i: nat)
    requires i < |es| - 1
    ensures OutOfRange(es, f, i) <==> OutOfRange(es[..|es| - 1], f, i)
  {
    hide Intended;
    assert es[..|es| - 1][..i] == es[..i];
    if f < i {
      FirstInWhole(es, |es| - 1, f);
    }
  }

  /** A panic at the last entry has its cause in the first one of the same key. */
  lemma PanicHasCause(es: seq<Entry>)
    requires es != [] && MergeAll(es[..|es| - 1]).Some? && MergeAll(es) == None
    ensures exists f: nat, i: nat :: OutOfRange(es, f, i)
  {
    hide Intended, HasKey, IsFirst;
    var init, last := es[..|es| - 1], es[|es| - 1];
    MemoBooks(init);
    IntendedKeys(init, last.c.topologyKey);
    var i :| 0 <= i < |init| && init[i].c.topologyKey == last.c.topologyKey;
    var f := FirstEntry(init, i);
    FirstInWhole(es, |init|, f);
    assert OutOfRange(es, f, |init|);
  }

  lemma NoPanicNoCause(es: seq<Entry>, f: nat)
    requires es != [] && MergeAll(es).Some?
    ensures !OutOfRange(es, f, |es| - 1)
  {
    hide Intended, HasKey, IsFirst;
    var init := es[..|es| - 1];
    MemoBooks(init);
    if f < |init| {
      FirstInWhole(es, |init|, f);
    }
  }

  // ---------------------------------------------------------------------
  // The call site: operator defaults, then user constraints
  // ---------------------------------------------------------------------

  /** Two lists, each without a repeated key, always have right indices. */
  lemma TwoListsAreRight(defaults: seq<Constraint>, user: seq<Constraint>)
    requires DistinctKeys(defaults) && DistinctKeys(user)
    ensures MemoIsRight(ListEntries(defaults) + ListEntries(user))
  {
    hide Intended;
    var es := ListEntries(defaults) + ListEntries(user);
    forall f | 0 <= f < |es| && IsFirst(es, f) && Repeats(es, f)
      ensures es[f].j == |Intended(es[..f])|
    {
      var i :| f < i < |es| && es[i].c.topologyKey == es[f].c.topologyKey;
      RepeatStartsInFirst(defaults, user, f, i);
      FirstPart(es, defaults, f);
    }
  }

  lemma RepeatStartsInFirst(a: seq<Constraint>, b: seq<Constraint>, f: nat, i: nat)
    requires DistinctKeys(b) && f < i < |a| + |b|
    requires var es := ListEntries(a) + ListEntries(b); es[f].c.topologyKey == es[i].c.topologyKey
    ensures f < |a|
  {
    var es := ListEntries(a) + ListEntries(b);
    assert forall x :: |a| <= x < |es| ==> es[x].c == b[x - |a|];
  }

  lemma FirstPart(es: seq<Entry>, l: seq<Constraint>, f: nat)
    requires DistinctKeys(l) && f <= |l| && ListEntries(l) <= es
    ensures |Intended(es[..f])| == f
  {
    assert Constraints(es[..f]) == l[..f];
    OverrideNothing(l[..f]);
  }

  lemma EntriesOfTwo(a: seq<Constraint>, b: seq<Constraint>)
    ensures Entries([a, b]) == ListEntries(a) + ListEntries(b)
  {
    hide ListEntries;
    assert [a, b][..1] == [a] && [a][..0] == [];
    assert Entries([a]) == ListEntries(a);
  }

  /**
   So there the merge is the override: one constraint per key, in the order of first
   appearance, with the value of the later list.
   */
  lemma MergeIsOverride(defaults: seq<Constraint>, user: seq<Constraint>, key: string)
    requires DistinctKeys(defaults) && DistinctKeys(user)
    ensures var m := MergeAll(Entries([defaults, user]));
            && m.Some? && DistinctKeys(m.value.dest)
            && Find(m.value.dest, key) == (if HasKey(user, key) then Find(user, key) else Find(defaults, key))
            && Keys(m.value.dest) == Keys(defaults) + Keys(NewOnes(user, defaults))
  {
    hide MergeAll, OverrideAll, HasKey, NewOnes, Find, MemoIsRight, Entries;
    EntriesOfTwo(defaults, user);
    var es := ListEntries(defaults) + ListEntries(user);
    TwoListsAreRight(defaults, user);
    RightMemoRightMerge(es);
    assert Constraints(es) == defaults + user;
    OverrideInTwoSteps(defaults, user);
    OverrideNothing(defaults);
    OverrideAllFinds(defaults, user, key);
  }

  /** The constraints that the operator adds by itself; `settings` stands for the rest of them. */
  function OperatorDefaults(settings: string): (defaults: seq<Constraint>)
    ensures DistinctKeys(defaults)
  {
    [Constraint("topology.kubernetes.io/zone", settings), Constraint("kubernetes.io/hostname", settings)]
  }

  /** A key that the user repeats overwrites the operator's constraint for zones. */
  lemma RepeatedKeyOverwritesAnother(settings: string, c: Constraint, c': Constraint)
    requires c.topologyKey == c'.topologyKey && !HasKey(OperatorDefaults(settings), c.topologyKey)
    ensures var d := OperatorDefaults(settings);
            var m := MergeAll(Entries([d, [c, c']]));
            m.Some? && m.value.dest == [c', d[1], c]
  {
    var d := OperatorDefaults(settings);
    KeyIndexIs(d, d[0].topologyKey, 0);
    KeyIndexIs(d, d[1].topologyKey, 1);
    assert c.topologyKey != d[0].topologyKey && c.topologyKey != d[1].topologyKey;
    EntriesOfTwo(d, [c, c']);
    MergeOfFour(d[0], d[1], c, c');
    assert ListEntries(d) + ListEntries([c, c']) == [Entry(d[0], 0), Entry(d[1], 1), Entry(c, 0), Entry(c', 1)];
  }

  lemma MergeOfFour(a: Constraint, b: Constraint, c: Constraint, c': Constraint)
    requires a.topologyKey != b.topologyKey && c.topologyKey !in {a.topologyKey, b.topologyKey}
    requires c.topologyKey == c'.topologyKey
    ensures var m := MergeAll([Entry(a, 0), Entry(b, 1), Entry(c, 0), Entry(c', 1)]);
            m.Some? && m.value.dest == [c', b, c]
  {
    var e1, e2, e3 := [Entry(a, 0)], [Entry(a, 0), Entry(b, 1)], [Entry(a, 0), Entry(b, 1), Entry(c, 0)];
    var e4 := [Entry(a, 0), Entry(b, 1), Entry(c, 0), Entry(c', 1)];
    assert e1[..0] == [] && e2[..1] == e1 && e3[..2] == e2 && e4[..3] == e3;
    assert MergeAll(e1) == MergeOne(Merge([], map[]), Entry(a, 0));
    assert MergeAll(e2) == MergeOne(MergeAll(e1).value, Entry(b, 1));
    assert MergeAll(e3) == MergeOne(MergeAll(e2).value, Entry(c, 0));
    assert MergeAll(e4) == MergeOne(MergeAll(e3).value, Entry(c', 1));
  }

  /** Without the operator's defaults, two keys that the user gives twice each are enough to panic. */
  lemma RepeatedKeysPanic(c: Constraint, c': Constraint, d: Constraint, d': Constraint)
    requires c.topologyKey == c'.topologyKey != d.topologyKey == d'.topologyKey
    ensures MergeAll(Entries([[], [c, c', d, d']])) == None
  {
    EntriesOfTwo([], [c, c', d, d']);
    var e1, e2, e3 := [Entry(c, 0)], [Entry(c, 0), Entry(c', 1)], [Entry(c, 0), Entry(c', 1), Entry(d, 2)];
    var e4 := [Entry(c, 0), Entry(c', 1), Entry(d, 2), Entry(d', 3)];
    assert ListEntries([]) + ListEntries([c, c', d, d']) == e4;
    assert e1[..0] == [] && e2[..1] == e1 && e3[..2] == e2 && e4[..3] == e3;
    assert MergeAll(e1) == MergeOne(Merge([], map[]), Entry(c, 0));
    assert MergeAll(e2) == MergeOne(MergeAll(e1).value, Entry(c', 1));
    assert MergeAll(e3) == MergeOne(MergeAll(e2).value, Entry(d, 2));
    assert MergeAll(e3).value.dest == [c', d];
    assert MergeAll(e4) == MergeOne(MergeAll(e3).value, Entry(d', 3));
  }
}
