/**
 The status conditions of a component: api/v1/runtimecomponent_types.go.

 The Go field is a slice of structs, sorted in place after every change, and
 GetCondition hands out pointers into it.  So the model keeps the backing array,
 and a pointer is an array together with an index: what it points to may be
 overwritten or moved, and it keeps pointing into the old array after the slice
 has outgrown it.
 */
module StatusConditions {
  import opened Options
  import opened SortedStrings

  datatype ConditionType = Reconciled | ResourcesReady | Ready | Warning

  datatype ConditionStatus = Blank | IsFalse | IsTrue

  datatype StatusCondition = StatusCondition(
    typ: ConditionType,
    status: ConditionStatus,
    message: string,
    reason: string,
    lastTransitionTime: Option<int>)
  {
    predicate SameFields(c: StatusCondition) {
      status == c.status && message == c.message && reason == c.reason
    }
  }

  // ---------------------------------------------------------------------
  // Order
  // ---------------------------------------------------------------------

  function Name(t: ConditionType): string {
    match t
    case Reconciled => "Reconciled"
    case ResourcesReady => "ResourcesReady"
    case Ready => "Ready"
    case Warning => "Warning"
  }

  /** The function that SetCondition passes to sort.Slice. */
  predicate Before(a: ConditionType, b: ConditionType) {
    if a == Ready then true
    else if b == Ready then false
    else StringLess(Name(a), Name(b))
  }

  function Rank(t: ConditionType): nat {
    match t
    case Ready => 0
    case Reconciled => 1
    case ResourcesReady => 2
    case Warning => 3
  }

  /** The comparator is a strict order exactly as long as no type is repeated. */
  lemma BeforeIsStrictOrder(a: ConditionType, b: ConditionType)
    ensures a != b ==> (Before(a, b) <==> Rank(a) < Rank(b))
    ensures Before(a, a) <==> a == Ready
  {
    hide StringLess;
    LessIrreflexive(Name(a));
    NameOrder();
  }

  lemma NameOrder()
    ensures StringLess("Reconciled", "ResourcesReady") && !StringLess("ResourcesReady", "Reconciled")
    ensures StringLess("Reconciled", "Warning") && !StringLess("Warning", "Reconciled")
    ensures StringLess("ResourcesReady", "Warning") && !StringLess("Warning", "ResourcesReady")
  {
    StringLessByHead("Reconciled", "Warning");
    StringLessByHead("ResourcesReady", "Warning");
    StringLessByTail("Reconciled", "ResourcesReady");
    assert "Reconciled"[1..] == "econciled" && "ResourcesReady"[1..] == "esourcesReady";
    StringLessByTail("econciled", "esourcesReady");
    assert "econciled"[1..] == "conciled" && "esourcesReady"[1..] == "sourcesReady";
    StringLessByHead("conciled", "sourcesReady");
  }

  lemma StringLessByHead(a: string, b: string)
    requires a != "" && b != "" && a[0] < b[0]
    ensures StringLess(a, b) && !StringLess(b, a)
  {
  }

  lemma StringLessByTail(a: string, b: string)
    requires a != "" && b != "" && a[0] == b[0]
    ensures StringLess(a, b) <==> StringLess(a[1..], b[1..])
    ensures StringLess(b, a) <==> StringLess(b[1..], a[1..])
  {
  }

  ghost predicate Distinct(s: seq<StatusCondition>) {
    forall i, j :: 0 <= i < j < |s| ==> s[i].typ != s[j].typ
  }

  /** One entry per type, Ready first and the rest ascending. */
  ghost predicate Sorted(s: seq<StatusCondition>) {
    forall i, j :: 0 <= i < j < |s| ==> Rank(s[i].typ) < Rank(s[j].typ)
  }

  /** In terms of the names. */
  lemma SortedByName(s: seq<StatusCondition>)
    ensures Sorted(s) <==> forall i, j :: 0 <= i < j < |s| ==> Precedes(s[i].typ, s[j].typ)
  {
    hide Precedes, Rank;
    forall i, j | 0 <= i < j < |s|
      ensures Rank(s[i].typ) < Rank(s[j].typ) <==> Precedes(s[i].typ, s[j].typ)
    {
      RankIsByName(s[i].typ, s[j].typ);
    }
  }

  /** Ready comes first, and the others in the order of their names. */
  predicate Precedes(a: ConditionType, b: ConditionType) {
    b != Ready && (a == Ready || StringLess(Name(a), Name(b)))
  }

  lemma RankIsByName(a: ConditionType, b: ConditionType)
    ensures Rank(a) < Rank(b) <==> Precedes(a, b)
  {
    hide StringLess;
    BeforeIsStrictOrder(a, b);
    LessIrreflexive(Name(a));
  }

  // ---------------------------------------------------------------------
  // What a list means: at most one condition per type
  // ---------------------------------------------------------------------

  function IndexOf(s: seq<StatusCondition>, t: ConditionType): (i: nat)
    ensures i <= |s|
    ensures i < |s| ==> s[i].typ == t
    ensures forall j :: 0 <= j < i ==> s[j].typ != t
  {
    if s == [] || s[0].typ == t then 0
    else 1 + IndexOf(s[1..], t)
  }

  function Lookup(s: seq<StatusCondition>, t: ConditionType): Option<StatusCondition> {
    var i := IndexOf(s, t);
    if i < |s| then Some(s[i]) else None
  }

  datatype View = View(
    ready: Option<StatusCondition>,
    reconciled: Option<StatusCondition>,
    resourcesReady: Option<StatusCondition>,
    warning: Option<StatusCondition>)
  {
    function Get(t: ConditionType): Option<StatusCondition> {
      match t
      case Ready => ready
      case Reconciled => reconciled
      case ResourcesReady => resourcesReady
      case Warning => warning
    }

    function Put(t: ConditionType, c: Option<StatusCondition>): View {
      match t
      case Ready => this.(ready := c)
      case Reconciled => this.(reconciled := c)
      case ResourcesReady => this.(resourcesReady := c)
      case Warning => this.(warning := c)
    }

    /** Whether setting `c` adds a condition or changes its status, message or reason. */
    predicate ChangedBy(c: StatusCondition) {
      Get(c.typ).None? || !Get(c.typ).value.SameFields(c)
    }

    /** The condition of type `t`, or the blank one that SetCondition starts from. */
    function Fields(t: ConditionType): StatusCondition {
      if Get(t).Some? then Get(t).value else StatusCondition(t, Blank, "", "", None)
    }

    /** The meaning of SetCondition at time `now`. */
    function Set(c: StatusCondition, now: int): View {
      var was := Fields(c.typ);
      var stamp := if was.SameFields(c) then was.lastTransitionTime else Some(now);
      Put(c.typ, Some(c.(lastTransitionTime := stamp)))
    }
  }

  const NO_CONDITIONS := View(None, None, None, None)

  function ViewOf(s: seq<StatusCondition>): View {
    View(Lookup(s, Ready), Lookup(s, Reconciled), Lookup(s, ResourcesReady), Lookup(s, Warning))
  }

  lemma SameLookupSameView(s: seq<StatusCondition>, v: View)
    requires forall t :: Lookup(s, t) == v.Get(t)
    ensures ViewOf(s) == v
  {
    hide Lookup;
    assert v.ready == v.Get(Ready) && v.reconciled == v.Get(Reconciled);
    assert v.resourcesReady == v.Get(ResourcesReady) && v.warning == v.Get(Warning);
  }

  lemma ViewIsLookup(s: seq<StatusCondition>, t: ConditionType)
    ensures ViewOf(s).Get(t) == Lookup(s, t)
  {
  }

  lemma LookupFinds(s: seq<StatusCondition>, i: nat)
    requires Distinct(s) && i < |s|
    ensures Lookup(s, s[i].typ) == Some(s[i])
  {
    hide IndexOf;
  }

  lemma LookupMisses(s: seq<StatusCondition>, t: ConditionType)
    requires forall i :: 0 <= i < |s| ==> s[i].typ != t
    ensures Lookup(s, t) == None
  {
    hide IndexOf;
  }

  lemma LookupAfterWrite(s: seq<StatusCondition>, i: nat, c: StatusCondition, t: ConditionType)
    requires Distinct(s) && i < |s| && s[i].typ == c.typ
    ensures Lookup(s[i := c], t) == if t == c.typ then Some(c) else Lookup(s, t)
  {
    hide IndexOf;
    var r := s[i := c];
    var j := IndexOf(s, t);
    if t == c.typ {
      LookupFinds(r, i);
    } else if j < |s| {
      assert r[j] == s[j];
      LookupFinds(r, j);
    } else {
      LookupMisses(r, t);
    }
  }

  lemma LookupAfterAppend(s: seq<StatusCondition>, c: StatusCondition, t: ConditionType)
    requires Distinct(s) && Lookup(s, c.typ) == None
    ensures Distinct(s + [c])
    ensures Lookup(s + [c], t) == if t == c.typ then Some(c) else Lookup(s, t)
  {
    hide IndexOf;
    var r := s + [c];
    assert IndexOf(s, c.typ) == |s|;
    assert Distinct(r);
    var j := IndexOf(s, t);
    if t == c.typ {
      LookupFinds(r, |s|);
    } else if j < |s| {
      assert r[j] == s[j];
      LookupFinds(r, j);
    } else {
      LookupMisses(r, t);
    }
  }

  /** The view of a list has exactly its entries. */
  lemma ViewHasEntries(s: seq<StatusCondition>, t: ConditionType)
    requires Distinct(s)
    ensures forall c :: ViewOf(s).Get(t) == Some(c) <==> c in s && c.typ == t
    ensures ViewOf(s).Get(t) == None <==> forall i :: 0 <= i < |s| ==> s[i].typ != t
  {
    hide Lookup, ViewOf, IndexOf;
    ViewIsLookup(s, t);
    if i :| 0 <= i < |s| && s[i].typ == t {
      LookupFinds(s, i);
      assert forall j :: 0 <= j < |s| && s[j].typ == t ==> j == i;
    } else {
      LookupMisses(s, t);
    }
  }

  /**
   What setting a condition stores: its status, message and reason, and the time if any of
   them was different before or there was no such condition.
   */
  lemma SetStores(v: View, c: StatusCondition, now: int)
    requires c.status != Blank
    ensures var was, r := v.Get(c.typ), v.Set(c, now).Get(c.typ);
            && r.Some? && r.value.typ == c.typ
            && r.value.status == c.status && r.value.message == c.message && r.value.reason == c.reason
            && r.value.lastTransitionTime ==
               if was.Some? && was.value.status == c.status
                  && was.value.message == c.message && was.value.reason == c.reason
               then was.value.lastTransitionTime else Some(now)
    ensures forall t :: t != c.typ ==> v.Set(c, now).Get(t) == v.Get(t)
  {
  }

  /** Exchanging two neighbours does not change what a list means. */
  lemma SwapKeepsView(s: seq<StatusCondition>, r: seq<StatusCondition>, j: nat)
    requires Distinct(s) && 0 < j < |s|
    requires r == s[j := s[j - 1]][j - 1 := s[j]]
    ensures Distinct(r) && ViewOf(r) == ViewOf(s)
  {
    hide Lookup, IndexOf;
    forall t
      ensures Lookup(r, t) == ViewOf(s).Get(t)
    {
      LookupAfterSwap(s, r, j, t);
      ViewIsLookup(s, t);
    }
    SameLookupSameView(r, ViewOf(s));
  }

  lemma LookupAfterSwap(s: seq<StatusCondition>, r: seq<StatusCondition>, j: nat, t: ConditionType)
    requires Distinct(s) && 0 < j < |s|
    requires r == s[j := s[j - 1]][j - 1 := s[j]]
    ensures Distinct(r) && Lookup(r, t) == Lookup(s, t)
  {
    hide IndexOf;
    var i := IndexOf(s, t);
    if i < |s| {
      var k := if i == j then j - 1 else if i == j - 1 then j else i;
      assert r[k] == s[i];
      LookupFinds(r, k);
    } else {
      LookupMisses(r, t);
    }
  }

  // ---------------------------------------------------------------------
  // UnsetCondition
  // ---------------------------------------------------------------------

  /** The list that UnsetCondition leaves: only one entry after the match is kept. */
  function Unset(s: seq<StatusCondition>, t: ConditionType): seq<StatusCondition> {
    var i := IndexOf(s, t);
    if i == |s| then s
    else if i + 1 == |s| then s[..i]
    else s[..i] + [s[i + 1]]
  }

  /** The list that it should leave: every entry but the match. */
  function Without(s: seq<StatusCondition>, t: ConditionType): seq<StatusCondition> {
    var i := IndexOf(s, t);
    if i == |s| then s else s[..i] + s[i + 1..]
  }

  /**
   UnsetCondition removes exactly the condition it is asked to remove if and only
   if that condition is missing or has at most one entry after it.
   */
  lemma UnsetRemovesOnlyTheMatch(s: seq<StatusCondition>, t: ConditionType)
    ensures Unset(s, t) == Without(s, t) <==> IndexOf(s, t) == |s| || |s| <= IndexOf(s, t) + 2
  {
    hide IndexOf;
    var i := IndexOf(s, t);
    if i + 2 == |s| {
      assert s[i + 1..] == [s[i + 1]];
    } else if i + 1 == |s| {
      assert s[..i] + s[i + 1..] == s[..i];
    } else if i < |s| {
      assert |Unset(s, t)| == i + 1 && |Without(s, t)| == |s| - 1;
    }
  }

  /** Its only caller asks for Warning, which a sorted list has at the end. */
  lemma WarningIsLast(s: seq<StatusCondition>)
    requires Sorted(s)
    ensures IndexOf(s, Warning) + 1 >= |s|
    ensures Unset(s, Warning) == Without(s, Warning) == s[..IndexOf(s, Warning)]
    ensures Sorted(Unset(s, Warning))
  {
    hide IndexOf;
    var i := IndexOf(s, Warning);
    assert forall j :: i < j < |s| ==> Rank(s[i].typ) < Rank(s[j].typ) <= 3;
    assert Unset(s, Warning) == s[..i];
    UnsetRemovesOnlyTheMatch(s, Warning);
  }

  /** So there it removes exactly Warning and leaves every other condition alone. */
  lemma UnsetWarning(s: seq<StatusCondition>)
    requires Sorted(s)
    ensures ViewOf(Unset(s, Warning)) == ViewOf(s).Put(Warning, None)
  {
    hide IndexOf, Lookup, ViewOf, Sorted, Unset, Without;
    WarningIsLast(s);
    var r := s[..IndexOf(s, Warning)];
    var v := ViewOf(s).Put(Warning, None);
    forall t
      ensures Lookup(r, t) == v.Get(t)
    {
      ViewIsLookup(s, t);
      LookupWithoutWarning(s, t);
    }
    SameLookupSameView(r, v);
  }

  lemma LookupWithoutWarning(s: seq<StatusCondition>, t: ConditionType)
    requires Sorted(s) && IndexOf(s, Warning) + 1 >= |s|
    ensures Lookup(s[..IndexOf(s, Warning)], t) == if t == Warning then None else Lookup(s, t)
  {
    hide IndexOf;
    var i, j := IndexOf(s, Warning), IndexOf(s, t);
    var r := s[..i];
    if j < i {
      assert r[j] == s[j];
      LookupFinds(r, j);
    } else {
      LookupMisses(r, t);
    }
  }

  // ---------------------------------------------------------------------
  // GetLatestTransitionTime
  // ---------------------------------------------------------------------

  /** metav1.Time.Before, false when either time is nil. */
  predicate TimeBefore(a: Option<int>, b: Option<int>) {
    a.Some? && b.Some? && a.value < b.value
  }

  function Later(latest: Option<int>, t: Option<int>): Option<int> {
    if latest.None? || TimeBefore(latest, t) then t else latest
  }

  function Latest(s: seq<StatusCondition>): Option<int> {
    if s == [] then None
    else Later(Latest(s[..|s| - 1]), s[|s| - 1].lastTransitionTime)
  }

  /** It is the greatest of the transition times, and nil only if all are nil. */
  lemma {:induction false} LatestIsGreatest(s: seq<StatusCondition>)
    ensures Latest(s).None? <==> forall i :: 0 <= i < |s| ==> s[i].lastTransitionTime.None?
    ensures Latest(s).Some? ==>
              && (exists i :: 0 <= i < |s| && s[i].lastTransitionTime == Latest(s))
              && (forall i :: 0 <= i < |s| && s[i].lastTransitionTime.Some?
                    ==> s[i].lastTransitionTime.value <= Latest(s).value)
  {
    if s != [] {
      var init, last := s[..|s| - 1], s[|s| - 1].lastTransitionTime;
      LatestIsGreatest(init);
      assert forall i :: 0 <= i < |init| ==> init[i] == s[i];
      if Latest(init).Some? && Latest(s) == Latest(init) {
        var i :| 0 <= i < |init| && init[i].lastTransitionTime == Latest(init);
        assert s[i].lastTransitionTime == Latest(s);
      } else {
        assert s[|s| - 1].lastTransitionTime == Latest(s);
      }
    }
  }

  // ---------------------------------------------------------------------
  // The code
  // ---------------------------------------------------------------------

  /** A pointer into the slice of conditions. */
  datatype Slot = Slot(backing: array<StatusCondition>, index: nat)
  {
    ghost predicate InRange() {
      index < backing.Length
    }

    function Read(): StatusCondition
      requires InRange()
      reads backing
    {
      backing[index]
    }
  }

  /** sort.Slice on at most twelve elements is this insertion sort. */
  method SortSlice(a: array<StatusCondition>, n: nat)
    requires n <= a.Length && Distinct(a[..n])
    modifies a
    ensures Sorted(a[..n])
    ensures ViewOf(a[..n]) == old(ViewOf(a[..n]))
    ensures a[n..] == old(a[n..])
    ensures old(Sorted(a[..n])) ==> a[..] == old(a[..])
  {
    hide ViewOf, Before;
    var i := 1;
    while i < n
      invariant 1 <= i && (i <= n || n == 0)
      invariant forall p, q :: 0 <= p < q < i && q < n ==> Rank(a[p].typ) < Rank(a[q].typ)
      invariant Distinct(a[..n])
      invariant ViewOf(a[..n]) == old(ViewOf(a[..n]))
      invariant a[n..] == old(a[n..])
      invariant old(Sorted(a[..n])) ==> a[..] == old(a[..])
    {
      Insert(a, n, i);
      i := i + 1;
    }
  }

  /** The inner loop of the insertion sort. */
  method Insert(a: array<StatusCondition>, n: nat, i: nat)
    requires 1 <= i < n <= a.Length && Distinct(a[..n])
    requires forall p, q :: 0 <= p < q < i ==> Rank(a[p].typ) < Rank(a[q].typ)
    modifies a
    ensures forall p, q :: 0 <= p < q <= i ==> Rank(a[p].typ) < Rank(a[q].typ)
    ensures Distinct(a[..n])
    ensures ViewOf(a[..n]) == old(ViewOf(a[..n]))
    ensures a[n..] == old(a[n..])
    ensures old(Sorted(a[..n])) ==> a[..] == old(a[..])
  {
    hide ViewOf, Before;
    var j := i;
    while j > 0 && Before(a[j].typ, a[j - 1].typ)
      invariant 0 <= j <= i
      invariant forall p, q :: 0 <= p < q <= i && q != j ==> Rank(a[p].typ) < Rank(a[q].typ)
      invariant Distinct(a[..n])
      invariant ViewOf(a[..n]) == old(ViewOf(a[..n]))
      invariant a[n..] == old(a[n..])
      invariant old(Sorted(a[..n])) ==> a[..] == old(a[..]) && j == i
    {
      NeighbourOrder(a[..n], j);
      ghost var s := a[..n];
      a[j], a[j - 1] := a[j - 1], a[j];
      assert a[..n] == s[j := s[j - 1]][j - 1 := s[j]];
      SwapKeepsView(s, a[..n], j);
      j := j - 1;
    }
    if j > 0 {
      NeighbourOrder(a[..n], j);
    }
  }

  lemma NeighbourOrder(s: seq<StatusCondition>, j: nat)
    requires Distinct(s) && 0 < j < |s|
    ensures Before(s[j].typ, s[j - 1].typ) <==> Rank(s[j].typ) < Rank(s[j - 1].typ)
    ensures s[j].typ != s[j - 1].typ
    ensures Sorted(s) ==> Rank(s[j - 1].typ) < Rank(s[j].typ)
  {
    BeforeIsStrictOrder(s[j].typ, s[j - 1].typ);
  }

  class RuntimeComponentStatus {
    var conditions: array<StatusCondition>  // the backing array of the slice
    var count: nat                          // and its length
    var reconcileInterval: Option<int>

    ghost predicate Valid()
      reads this, conditions
    {
      count <= conditions.Length && Sorted(conditions[..count])
    }

    function GetView(): View
      reads this, conditions
      requires count <= conditions.Length
    {
      ViewOf(conditions[..count])
    }

    /** The status of a component that was never reconciled. */
    constructor ()
      ensures Valid() && fresh(conditions)
      ensures GetView() == NO_CONDITIONS && reconcileInterval == None
    {
      conditions := new StatusCondition[0];
      count, reconcileInterval := 0, None;
    }

    method GetCondition(t: ConditionType) returns (slot: Option<Slot>)
      requires Valid()
      ensures slot.Some? <==> GetView().Get(t).Some?
      ensures slot.Some? ==>
                && slot.value.backing == conditions && slot.value.index < count
                && slot.value.Read().typ == t && GetView().Get(t) == Some(slot.value.Read())
    {
      hide Lookup, IndexOf;
      ViewIsLookup(conditions[..count], t);
      for i := 0 to count
        invariant forall j :: 0 <= j < i ==> conditions[j].typ != t
      {
        if conditions[i].typ == t {
          LookupFinds(conditions[..count], i);
          return Some(Slot(conditions, i));
        }
      }
      LookupMisses(conditions[..count], t);
      return None;
    }

    method GetLatestTransitionTime() returns (latest: Option<int>)
      requires Valid()
      ensures latest == Latest(conditions[..count])
    {
      latest := None;
      for i := 0 to count
        invariant latest == Latest(conditions[..i])
      {
        var t := conditions[i].lastTransitionTime;
        assert conditions[..i + 1][..i] == conditions[..i];
        if latest == None || TimeBefore(latest, t) {
          latest := t;
        }
      }
    }

    /** Go's append; any growth policy is allowed when the array is full. */
    method Append(c: StatusCondition)
      requires count <= conditions.Length
      modifies this`conditions, this`count, conditions
      ensures count == old(count) + 1 <= conditions.Length
      ensures conditions[..count] == old(conditions[..count]) + [c]
      ensures conditions == old(conditions) || fresh(conditions)
    {
      if count == conditions.Length {
        var capacity :| capacity > count;
        var grown := new StatusCondition[capacity];
        forall i | 0 <= i < count {
          grown[i] := conditions[i];
        }
        conditions := grown;
      }
      conditions[count] := c;
      count := count + 1;
    }

    method SetCondition(c: StatusCondition, now: int)
      requires Valid()
      modifies this`conditions, this`count, conditions
      ensures Valid() && GetView() == old(GetView()).Set(c, now)
      ensures conditions == old(conditions) || fresh(conditions)
      ensures !old(GetView()).ChangedBy(c) ==>
                && conditions == old(conditions) && count == old(count)
                && conditions[..] == old(conditions[..])
    {
      hide ViewOf;
      ghost var s, v := conditions[..count], GetView();
      var slot := GetCondition(c.typ);
      var condition := if slot.Some? then slot.value.Read() else StatusCondition(c.typ, Blank, "", "", None);
      if !condition.SameFields(c) {
        condition := condition.(lastTransitionTime := Some(now));
      }
      condition := c.(lastTransitionTime := condition.lastTransitionTime);
      assert v.Set(c, now) == v.Put(c.typ, Some(condition));
      if slot.Some? {
        conditions[slot.value.index] := condition;
        assert conditions[..count] == s[slot.value.index := condition];
        ViewAfterWrite(s, slot.value.index, condition);
      } else {
        Append(condition);
        ViewAfterAppend(s, condition);
      }
      SortSlice(conditions, count);
    }

    method UnsetCondition(t: ConditionType)
      requires count <= conditions.Length
      modifies this`count, conditions
      ensures count <= conditions.Length
      ensures conditions[..count] == Unset(old(conditions[..count]), t)
      ensures old(IndexOf(conditions[..count], t) + 1 >= count) ==> conditions[..] == old(conditions[..])
    {
      hide IndexOf;
      for i := 0 to count
        invariant forall j :: 0 <= j < i ==> conditions[j].typ != t
      {
        if conditions[i].typ == t {
          IndexIs(conditions[..count], t, i);
          if i + 1 == count {
            count := i;
          } else {
            conditions[i] := conditions[i + 1];
            count := i + 1;
          }
          return;
        }
      }
      IndexIs(conditions[..count], t, count);
    }
  }

  lemma IndexIs(s: seq<StatusCondition>, t: ConditionType, i: nat)
    requires i <= |s| && (i < |s| ==> s[i].typ == t)
    requires forall j :: 0 <= j < i ==> s[j].typ != t
    ensures IndexOf(s, t) == i
  {
  }

  lemma ViewAfterWrite(s: seq<StatusCondition>, i: nat, c: StatusCondition)
    requires Sorted(s) && i < |s| && s[i].typ == c.typ
    ensures Sorted(s[i := c]) && ViewOf(s[i := c]) == ViewOf(s).Put(c.typ, Some(c))
  {
    hide Lookup, IndexOf;
    forall t
      ensures Lookup(s[i := c], t) == ViewOf(s).Put(c.typ, Some(c)).Get(t)
    {
      LookupAfterWrite(s, i, c, t);
      ViewIsLookup(s, t);
    }
    SameLookupSameView(s[i := c], ViewOf(s).Put(c.typ, Some(c)));
  }

  lemma ViewAfterAppend(s: seq<StatusCondition>, c: StatusCondition)
    requires Sorted(s) && ViewOf(s).Get(c.typ) == None
    ensures Distinct(s + [c]) && ViewOf(s + [c]) == ViewOf(s).Put(c.typ, Some(c))
  {
    hide Lookup, IndexOf;
    ViewIsLookup(s, c.typ);
    LookupAfterAppend(s, c, c.typ);
    forall t
      ensures Lookup(s + [c], t) == ViewOf(s).Put(c.typ, Some(c)).Get(t)
    {
      LookupAfterAppend(s, c, t);
      ViewIsLookup(s, t);
    }
    SameLookupSameView(s + [c], ViewOf(s).Put(c.typ, Some(c)));
  }
}
