/**
 Pull-secret bookkeeping: CustomizeServiceAccount of utils/utils.go keeps the image pull
 secrets of the service account in step with the comma-separated list in the custom
 resource, and records in the status which names came from there.
 */
module PullSecrets {
  import opened Options
  import opened CommaLists

  // ---------------------------------------------------------------------
  // Lists without repetition
  // ---------------------------------------------------------------------

  ghost predicate NoRepeats(l: seq<string>) {
    forall i, j :: 0 <= i < j < |l| ==> l[i] != l[j]
  }

  function Elements(l: seq<string>): set<string> {
    set x | x in l
  }

  /** What Set leaves of a list. */
  function Unique(l: seq<string>): seq<string> {
    if l == [] then []
    else
      var r := Unique(l[..|l| - 1]);
      if l[|l| - 1] in r then r else r + [l[|l| - 1]]
  }

  /** What SetDiff leaves of a list, given the other one. */
  function Difference(a: seq<string>, b: seq<string>): seq<string> {
    if a == [] then []
    else Difference(a[..|a| - 1], b) + if a[|a| - 1] in b then [] else [a[|a| - 1]]
  }

  /** `l` with the names that it lacks appended. */
  function AddMissing(l: seq<string>, names: seq<string>): seq<string> {
    if names == [] then l
    else
      var r := AddMissing(l, names[..|names| - 1]);
      if names[|names| - 1] in r then r else r + [names[|names| - 1]]
  }

  /** What removePullSecret leaves: the first occurrence is gone. */
  function RemoveFirst(l: seq<string>, name: string): seq<string> {
    if l == [] then []
    else if l[0] == name then l[1..]
    else [l[0]] + RemoveFirst(l[1..], name)
  }

  function RemoveEach(l: seq<string>, names: seq<string>): seq<string> {
    if names == [] then l
    else RemoveFirst(RemoveEach(l, names[..|names| - 1]), names[|names| - 1])
  }

  /** The elements of `l` outside `s`, in order. */
  function Without(l: seq<string>, s: set<string>): seq<string> {
    if l == [] then []
    else (if l[0] in s then [] else [l[0]]) + Without(l[1..], s)
  }

  lemma {:induction false} WithoutElements(l: seq<string>, s: set<string>, x: string)
    ensures x in Without(l, s) <==> x in l && x !in s
  {
    if l != [] {
      WithoutElements(l[1..], s, x);
    }
  }

  lemma {:induction false} WithoutNoRepeats(l: seq<string>, s: set<string>)
    requires NoRepeats(l)
    ensures NoRepeats(Without(l, s))
  {
    if l != [] {
      WithoutNoRepeats(l[1..], s);
      WithoutElements(l[1..], s, l[0]);
    }
  }

  lemma {:induction false} WithoutTwice(l: seq<string>, s: set<string>, t: set<string>)
    ensures Without(Without(l, s), t) == Without(l, s + t)
  {
    if l != [] {
      WithoutTwice(l[1..], s, t);
      if l[0] in s {
        assert Without(l, s) == Without(l[1..], s) && Without(l, s + t) == Without(l[1..], s + t);
      } else {
        assert ([l[0]] + Without(l[1..], s))[1..] == Without(l[1..], s);
      }
    }
  }

  lemma {:induction false} WithoutAppend(l: seq<string>, x: string, s: set<string>)
    ensures Without(l + [x], s) == Without(l, s) + if x in s then [] else [x]
  {
    if l == [] {
      assert [] + [x] == [x];
    } else {
      assert (l + [x])[1..] == l[1..] + [x];
      WithoutAppend(l[1..], x, s);
    }
  }

  lemma {:induction false} WithoutNothing(l: seq<string>, s: set<string>)
    requires forall x :: x in l ==> x !in s
    ensures Without(l, s) == l
  {
    if l != [] {
      assert l[0] in l;
      WithoutNothing(l[1..], s);
    }
  }

  lemma {:induction false} RemoveFirstIsWithout(l: seq<string>, name: string)
    requires NoRepeats(l)
    ensures RemoveFirst(l, name) == Without(l, {name})
  {
    if l != [] {
      if l[0] == name {
        forall x | x in l[1..]
          ensures x !in {name}
        {
        }
        WithoutNothing(l[1..], {name});
      } else {
        RemoveFirstIsWithout(l[1..], name);
      }
    }
  }

  /** On a list without repetition, removing names one by one removes them all. */
  lemma {:induction false} RemoveEachIsWithout(l: seq<string>, names: seq<string>)
    requires NoRepeats(l)
    ensures RemoveEach(l, names) == Without(l, Elements(names))
  {
    if names == [] {
      assert Elements(names) == {};
      WithoutNothing(l, {});
    } else {
      var init, last := names[..|names| - 1], names[|names| - 1];
      RemoveEachIsWithout(l, init);
      WithoutNoRepeats(l, Elements(init));
      RemoveFirstIsWithout(Without(l, Elements(init)), last);
      WithoutTwice(l, Elements(init), {last});
      assert names == init + [last];
      assert Elements(names) == Elements(init) + {last};
    }
  }

  lemma {:induction false} AddMissingElements(l: seq<string>, names: seq<string>)
    ensures Elements(AddMissing(l, names)) == Elements(l) + Elements(names)
    ensures NoRepeats(l) ==> NoRepeats(AddMissing(l, names))
  {
    if names != [] {
      AddMissingElements(l, names[..|names| - 1]);
      var r := AddMissing(l, names[..|names| - 1]);
      assert names == names[..|names| - 1] + [names[|names| - 1]];
      if names[|names| - 1] !in r {
        assert Elements(r + [names[|names| - 1]]) == Elements(r) + {names[|names| - 1]};
      } else {
        assert names[|names| - 1] in Elements(r);
      }
    }
  }

  /** Names outside `s` are neither added, dropped nor moved by adding names of `s`. */
  lemma {:induction false} AddMissingKeepsOthers(l: seq<string>, names: seq<string>, s: set<string>)
    requires Elements(names) <= s
    ensures Without(AddMissing(l, names), s) == Without(l, s)
  {
    if names != [] {
      var init, last := names[..|names| - 1], names[|names| - 1];
      forall x | x in Elements(init)
        ensures x in s
      {
        assert x in names;
      }
      AddMissingKeepsOthers(l, init, s);
      assert last in names && last in Elements(names);
      WithoutAppend(AddMissing(l, init), last, s);
    }
  }

  lemma {:induction false} UniqueElements(l: seq<string>)
    ensures Elements(Unique(l)) == Elements(l) && NoRepeats(Unique(l))
  {
    if l != [] {
      var init, last := l[..|l| - 1], l[|l| - 1];
      UniqueElements(init);
      assert l == init + [last];
      assert Elements(l) == Elements(init) + {last};
      assert last in Unique(init) <==> last in Elements(Unique(init));
      assert Elements(Unique(init) + [last]) == Elements(Unique(init)) + {last};
    }
  }

  lemma UniqueStep(l: seq<string>, x: string)
    ensures Unique(l + [x]) == if x in Unique(l) then Unique(l) else Unique(l) + [x]
  {
    assert (l + [x])[..|l|] == l;
  }

  /** The names stay in the order of their first appearance: more names only add to the end. */
  lemma {:induction false} UniqueKeepsOrder(l: seq<string>, more: seq<string>)
    ensures Unique(l) <= Unique(l + more)
    ensures NoRepeats(l) ==> Unique(l) == l
  {
    if more != [] {
      UniqueKeepsOrder(l, more[..|more| - 1]);
      assert l + more == (l + more[..|more| - 1]) + [more[|more| - 1]];
      UniqueStep(l + more[..|more| - 1], more[|more| - 1]);
    } else {
      assert l + more == l;
      if NoRepeats(l) {
        UniqueOfDistinct(l);
      }
    }
  }

  lemma {:induction false} UniqueOfDistinct(l: seq<string>)
    requires NoRepeats(l)
    ensures Unique(l) == l
  {
    if l != [] {
      UniqueOfDistinct(l[..|l| - 1]);
      assert l == l[..|l| - 1] + [l[|l| - 1]];
    }
  }

  /** What is missing is added at the end, in order, and all else stays as it is. */
  lemma {:induction false} AddMissingAppends(l: seq<string>, names: seq<string>)
    requires NoRepeats(names)
    ensures AddMissing(l, names) == l + Without(names, Elements(l))
  {
    if names != [] {
      var init, last := names[..|names| - 1], names[|names| - 1];
      AddMissingAppends(l, init);
      assert names == init + [last];
      WithoutAppend(init, last, Elements(l));
      WithoutElements(init, Elements(l), last);
      assert last !in init;
    } else {
      assert Without([], Elements(l)) == [];
    }
  }

  lemma {:induction false} DifferenceElements(a: seq<string>, b: seq<string>)
    ensures Elements(Difference(a, b)) == Elements(a) - Elements(b)
  {
    if a != [] {
      var init, last := a[..|a| - 1], a[|a| - 1];
      DifferenceElements(init, b);
      assert a == init + [last];
      assert Elements(a) == Elements(init) + {last};
      assert last in b <==> last in Elements(b);
      assert Elements(Difference(init, b) + [last]) == Elements(Difference(init, b)) + {last};
      if last in b {
        assert Difference(a, b) == Difference(init, b);
        assert Elements(a) - Elements(b) == Elements(init) - Elements(b);
      } else {
        assert Difference(a, b) == Difference(init, b) + [last];
        assert Elements(a) - Elements(b) == Elements(init) - Elements(b) + {last};
      }
    }
  }

  // ---------------------------------------------------------------------
  // One call
  // ---------------------------------------------------------------------

  /** The pull secrets of the service account and the reference in the status ("" if missing). */
  datatype Books = Books(account: seq<string>, reference: string)

  /** The set of names in a comma-separated list. */
  function Names(s: string): set<string> {
    Elements(Decoded(s))
  }

  /** The names that the custom resource asks for. */
  function Asked(cr: Option<string>): seq<string> {
    if cr.Some? then Unique(Decoded(TrimSpace(cr.value))) else []
  }

  /** The account after the names that are no longer asked for have been removed. */
  function Dropped(b: Books, cr: Option<string>): seq<string> {
    var psr := TrimSpace(b.reference);
    if psr != "" && (cr.None? || TrimSpace(cr.value) != psr) then
      RemoveEach(b.account, Difference(Unique(Decoded(psr)), Asked(cr)))
    else b.account
  }

  /** The books after a call that finds every secret. */
  function Kept(b: Books, cr: Option<string>): Books {
    if Asked(cr) == [] then Books(Dropped(b, cr), "")
    else Books(AddMissing(Dropped(b, cr), Asked(cr)), EncodeListToString(Asked(cr)))
  }

  lemma TrimTwice(s: string)
    ensures TrimSpace(TrimSpace(s)) == TrimSpace(s)
    ensures Decoded(TrimSpace(s)) == Decoded(s)
  {
    TrimSpaceTrims(s);
    TrimmedStays(TrimSpace(s));
  }

  /** The shortcut for an unchanged list makes no difference. */
  lemma DroppedIsWithout(b: Books, cr: Option<string>)
    requires NoRepeats(b.account)
    ensures Dropped(b, cr) == Without(b.account, Names(b.reference) - Elements(Asked(cr)))
  {
    var psr := TrimSpace(b.reference);
    var recorded := Unique(Decoded(psr));
    TrimTwice(b.reference);
    UniqueElements(Decoded(psr));
    var gone := Names(b.reference) - Elements(Asked(cr));
    if psr != "" && (cr.None? || TrimSpace(cr.value) != psr) {
      DifferenceElements(recorded, Asked(cr));
      RemoveEachIsWithout(b.account, Difference(recorded, Asked(cr)));
    } else {
      assert gone == {};
      WithoutNothing(b.account, gone);
    }
  }

  /** The names that a custom resource asks for can be read back from the reference. */
  lemma ReferenceRoundTrip(cr: Option<string>)
    ensures AllTrimmed(Asked(cr)) && CommaFree(Asked(cr)) && NoRepeats(Asked(cr))
    ensures Decoded(EncodeListToString(Asked(cr))) == Asked(cr) <==> Asked(cr) != [""]
    ensures Elements(Asked(cr)) == if cr.Some? then Names(cr.value) else {}
  {
    if cr.Some? {
      var l := Decoded(TrimSpace(cr.value));
      DecodedParts(TrimSpace(cr.value));
      UniqueElements(l);
      TrimTwice(cr.value);
      forall i | 0 <= i < |Unique(l)|
        ensures Trimmed(Unique(l)[i]) && ',' !in Unique(l)[i]
      {
        assert Unique(l)[i] in Elements(Unique(l));
        var j :| 0 <= j < |l| && l[j] == Unique(l)[i];
      }
    }
    DecodeOfEncode(Asked(cr));
  }

  /** A secret that is asked for is missing; then the call changes nothing that lasts. */
  ghost predicate Refused(cr: Option<string>, found: string -> bool) {
    exists x :: x in Asked(cr) && !found(x)
  }

  /** The API server never has a Secret without a name. */
  predicate NamesOnly(found: string -> bool) {
    !found("")
  }

  /** So a list with a blank part, such as one that ends in a comma, is always refused. */
  lemma BlankPartIsRefused(cr: string, found: string -> bool)
    requires NamesOnly(found)
    ensures "" in Asked(Some(cr)) <==> TrimSpace(cr) != "" && HasBlank(Split(TrimSpace(cr)))
    ensures "" in Asked(Some(cr)) ==> Refused(Some(cr), found)
  {
    hide TrimSpace, Split, TrimAll, Unique;
    TrimTwice(cr);
    BlankIsDecoded(Split(TrimSpace(cr)));
    UniqueElements(Decoded(TrimSpace(cr)));
    assert "" in Asked(Some(cr)) <==> "" in Elements(Asked(Some(cr)));
    assert "" in Decoded(cr) <==> "" in Elements(Decoded(cr));
  }

  predicate HasBlank(parts: seq<string>) {
    exists i :: 0 <= i < |parts| && TrimSpace(parts[i]) == ""
  }

  lemma BlankIsDecoded(parts: seq<string>)
    ensures "" in TrimAll(parts) <==> HasBlank(parts)
  {
    hide TrimSpace;
    assert forall i :: 0 <= i < |parts| ==> TrimAll(parts)[i] == TrimSpace(parts[i]);
  }

  lemma AskedIsRecordable(cr: Option<string>, found: string -> bool)
    requires !Refused(cr, found) && NamesOnly(found)
    ensures Asked(cr) != [""] && Names(EncodeListToString(Asked(cr))) == Elements(Asked(cr))
  {
    hide Asked, TrimSpace, Split;
    ReferenceRoundTrip(cr);
    assert Asked(cr) == [""] ==> "" in Asked(cr);
  }

  /** A name that the account has and the reference does not: the operator never drops it. */
  predicate Loose(b: Books, x: string) {
    x in b.account && x !in Names(b.reference)
  }

  /**
   After a call that finds every secret: the account has exactly the names asked for and
   those that were loose, names that were neither recorded nor asked for are where they
   were, and the reference names exactly what was asked for.
   */
  lemma KeptBooks(b: Books, cr: Option<string>, found: string -> bool)
    requires NoRepeats(b.account) && !Refused(cr, found) && NamesOnly(found)
    ensures var r := Kept(b, cr);
            && NoRepeats(r.account)
            && Names(r.reference) == Elements(Asked(cr))
            && (forall x :: x in r.account <==> x in Elements(Asked(cr)) || Loose(b, x))
    ensures var stays := Without(b.account, Names(b.reference) - Elements(Asked(cr)));
            Kept(b, cr).account == stays + Without(Asked(cr), Elements(stays))
    ensures forall s :: Names(b.reference) + Elements(Asked(cr)) <= s ==>
              Without(Kept(b, cr).account, s) == Without(b.account, s)
  {
    hide Refused, Dropped, Asked, TrimSpace, Split;
    var asked, names := Asked(cr), Elements(Asked(cr));
    var gone := Names(b.reference) - names;
    DroppedIsWithout(b, cr);
    WithoutNoRepeats(b.account, gone);
    AddMissingElements(Dropped(b, cr), asked);
    AskedIsRecordable(cr, found);
    NothingIsNamed();
    AskedHasNoRepeats(cr);
    AddMissingAppends(Dropped(b, cr), asked);
    assert asked == [] ==> names == {};
    forall x
      ensures x in Kept(b, cr).account <==> x in names || Loose(b, x)
    {
      WithoutElements(b.account, gone, x);
      assert x in Kept(b, cr).account <==> x in Elements(Kept(b, cr).account);
      assert x in Dropped(b, cr) <==> x in Elements(Dropped(b, cr));
    }
    forall s | Names(b.reference) + names <= s
      ensures Without(Kept(b, cr).account, s) == Without(b.account, s)
    {
      AddMissingKeepsOthers(Dropped(b, cr), asked, s);
      WithoutTwice(b.account, gone, s);
      assert gone + s == s;
    }
  }

  lemma AskedHasNoRepeats(cr: Option<string>)
    ensures NoRepeats(Asked(cr))
  {
    ReferenceRoundTrip(cr);
  }

  /** What the custom resource lists is what is asked for, whatever blanks surround it. */
  lemma ListedIsAsked(padded: seq<string>, l: seq<string>)
    requires padded != [] && CommaFree(padded) && AreCores(padded, l) && NoRepeats(l) && l != [""]
    ensures Asked(Some(Join(padded))) == l
    ensures Decoded(EncodeListToString(l)) == l
  {
    hide TrimSpace, Split, Join, IsCore;
    TrimTwice(Join(padded));
    DecodeOfPadded(padded, l);
    UniqueOfDistinct(l);
    ReferenceRoundTrip(Some(Join(padded)));
  }

  lemma NothingIsNamed()
    ensures Names("") == {}
  {
  }

  // ---------------------------------------------------------------------
  // Whole runs
  // ---------------------------------------------------------------------

  /**
   One pass: what the custom resource asks for, which secrets there are, and whether the
   two writes take effect.  The service account is written first; the reference is part
   of the status, which is written at the end of the pass even if the first write failed.
   */
  datatype Pass = Pass(cr: Option<string>, found: string -> bool, accountWritten: bool, statusWritten: bool)

  ghost function AfterPass(b: Books, p: Pass): Books {
    if Refused(p.cr, p.found) then b
    else
      Books(if p.accountWritten then Kept(b, p.cr).account else b.account,
            if p.statusWritten then Kept(b, p.cr).reference else b.reference)
  }

  ghost function AfterPasses(b: Books, ps: seq<Pass>): Books {
    if ps == [] then b else AfterPass(AfterPasses(b, ps[..|ps| - 1]), ps[|ps| - 1])
  }

  ghost predicate Plausible(ps: seq<Pass>) {
    forall i :: 0 <= i < |ps| ==> NamesOnly(ps[i].found)
  }

  /** The pass finds every secret, and what it does lasts at least in part. */
  ghost predicate Effective(p: Pass) {
    !Refused(p.cr, p.found) && (p.accountWritten || p.statusWritten)
  }

  /** Every name that was recorded at the start or has been asked for since, to some effect. */
  ghost function EverAsked(b: Books, ps: seq<Pass>): set<string> {
    if ps == [] then Names(b.reference)
    else EverAsked(b, ps[..|ps| - 1]) + if Effective(ps[|ps| - 1]) then Elements(Asked(ps[|ps| - 1].cr)) else {}
  }

  /** The names asked for by the last pass whose reference was written. */
  ghost function Recorded(b: Books, ps: seq<Pass>): set<string> {
    if ps == [] then Names(b.reference)
    else
      var p := ps[|ps| - 1];
      if !Refused(p.cr, p.found) && p.statusWritten then Elements(Asked(p.cr)) else Recorded(b, ps[..|ps| - 1])
  }

  /**
   Nothing is repeated, the reference names exactly what was recorded last, and the names
   that were never asked for are all there, in order.
   */
  ghost predicate Balanced(b: Books, ps: seq<Pass>) {
    var r := AfterPasses(b, ps);
    && NoRepeats(r.account)
    && Names(r.reference) == Recorded(b, ps) <= EverAsked(b, ps)
    && Without(r.account, EverAsked(b, ps)) == Without(b.account, EverAsked(b, ps))
  }

  /** Every run keeps the books balanced, whichever secrets are missing and writes are lost. */
  lemma {:induction false} BooksBalance(b: Books, ps: seq<Pass>)
    requires NoRepeats(b.account) && Plausible(ps)
    ensures Balanced(b, ps)
  {
    hide Asked, Names, Without, Refused;
    if ps != [] {
      hide Balanced;
      var init, p := ps[..|ps| - 1], ps[|ps| - 1];
      BooksBalance(b, init);
      BooksBalanceStep(b, init, p);
      assert init + [p] == ps;
    }
  }

  lemma BooksBalanceStep(b: Books, init: seq<Pass>, p: Pass)
    requires Balanced(b, init) && NamesOnly(p.found)
    ensures Balanced(b, init + [p])
  {
    hide Kept, Asked, Names, Refused;
    var ps, mid := init + [p], AfterPasses(b, init);
    assert ps[..|ps| - 1] == init;
    if Effective(p) {
      var ever, names := EverAsked(b, init), Elements(Asked(p.cr));
      assert EverAsked(b, ps) == ever + names;
      KeptBooks(mid, p.cr, p.found);
      assert Without(Kept(mid, p.cr).account, ever + names) == Without(mid.account, ever + names);
      WithoutTwice(mid.account, ever, names);
      WithoutTwice(b.account, ever, names);
    } else {
      assert EverAsked(b, ps) == EverAsked(b, init);
    }
  }

  // ---------------------------------------------------------------------
  // Which names come loose
  // ---------------------------------------------------------------------

  /**
   A name comes loose when only one of the two writes takes effect: it is added to the
   account but not to the reference, or dropped from the reference but not from the account.
   */
  ghost predicate ComesLoose(b: Books, p: Pass, x: string) {
    && !Refused(p.cr, p.found)
    && if x in Asked(p.cr) then p.accountWritten && !p.statusWritten && x !in Names(b.reference)
       else p.statusWritten && !p.accountWritten && x in b.account && x in Names(b.reference)
  }

  /** The pass writes a reference that names it. */
  ghost predicate Records(p: Pass, x: string) {
    !Refused(p.cr, p.found) && p.statusWritten && x in Asked(p.cr)
  }

  /** After one pass a name is loose exactly if it has come loose or was, and is not recorded. */
  lemma LooseAfterPass(b: Books, p: Pass, x: string)
    requires NoRepeats(b.account) && NamesOnly(p.found)
    ensures Loose(AfterPass(b, p), x) <==> ComesLoose(b, p, x) || (Loose(b, x) && !Records(p, x))
  {
    hide Kept, Asked, Names, Refused;
    if !Refused(p.cr, p.found) {
      KeptBooks(b, p.cr, p.found);
      assert x in Elements(Asked(p.cr)) <==> x in Asked(p.cr);
    }
  }

  /** A name is loose, or comes loose, at pass `i`; 0 stands for the start of the run. */
  ghost predicate LooseAt(b: Books, ps: seq<Pass>, x: string, i: nat)
    requires i <= |ps|
  {
    if i == 0 then Loose(b, x) else ComesLoose(AfterPasses(b, ps[..i - 1]), ps[i - 1], x)
  }

  /** No pass from number `i` on records the name. */
  ghost predicate NeverRecorded(ps: seq<Pass>, x: string, i: nat) {
    forall j :: i <= j < |ps| ==> !Records(ps[j], x)
  }

  /** The name was loose at the start or came loose in some pass, and no later pass records it. */
  ghost predicate LooseSince(b: Books, ps: seq<Pass>, x: string) {
    exists i :: 0 <= i <= |ps| && LooseAt(b, ps, x, i) && NeverRecorded(ps, x, i)
  }

  /**
   Over any run the names that stay in the account for good are exactly those that were or
   came loose and have not been recorded since.
   */
  lemma {:induction false} LooseExactly(b: Books, ps: seq<Pass>, x: string)
    requires NoRepeats(b.account) && Plausible(ps)
    ensures Loose(AfterPasses(b, ps), x) <==> LooseSince(b, ps, x)
  {
    hide Loose, LooseSince, ComesLoose, Records;
    if ps == [] {
      LooseAtStart(b, x);
    } else {
      var init, p := ps[..|ps| - 1], ps[|ps| - 1];
      LooseExactly(b, init, x);
      BooksBalance(b, init);
      LooseAfterPass(AfterPasses(b, init), p, x);
      assert init + [p] == ps;
      LooseSinceStep(b, init, p, x);
    }
  }

  lemma LooseSinceStep(b: Books, init: seq<Pass>, p: Pass, x: string)
    ensures LooseSince(b, init + [p], x) <==>
            ComesLoose(AfterPasses(b, init), p, x) || (LooseSince(b, init, x) && !Records(p, x))
  {
    hide Loose, LooseAt, NeverRecorded, ComesLoose, Records, AfterPasses;
    var ps := init + [p];
    LooseAtEnd(b, init, p, x);
    forall i | 0 <= i <= |init|
      ensures LooseAt(b, ps, x, i) <==> LooseAt(b, init, x, i)
      ensures NeverRecorded(ps, x, i) <==> NeverRecorded(init, x, i) && !Records(p, x)
    {
      LooseInPrefix(b, init, p, x, i);
    }
  }

  lemma LooseAtStart(b: Books, x: string)
    ensures LooseSince(b, [], x) <==> Loose(b, x)
  {
    hide Loose;
    assert NeverRecorded([], x, 0);
    assert LooseAt(b, [], x, 0) <==> Loose(b, x);
  }

  lemma LooseAtEnd(b: Books, init: seq<Pass>, p: Pass, x: string)
    ensures LooseAt(b, init + [p], x, |init| + 1) <==> ComesLoose(AfterPasses(b, init), p, x)
    ensures NeverRecorded(init + [p], x, |init| + 1)
  {
    hide ComesLoose, AfterPasses, Loose;
    assert (init + [p])[..|init|] == init;
  }

  lemma LooseInPrefix(b: Books, init: seq<Pass>, p: Pass, x: string, i: nat)
    requires i <= |init|
    ensures LooseAt(b, init + [p], x, i) <==> LooseAt(b, init, x, i)
    ensures NeverRecorded(init + [p], x, i) <==> NeverRecorded(init, x, i) && !Records(p, x)
  {
    hide Loose, ComesLoose, Records, AfterPasses;
    var ps := init + [p];
    assert i > 0 ==> ps[..i - 1] == init[..i - 1];
    assert forall j :: i <= j < |init| ==> ps[j] == init[j];
    assert ps[|init|] == p;
  }

  /** Each pass writes both or neither. */
  ghost predicate Atomic(ps: seq<Pass>) {
    forall i :: 0 <= i < |ps| ==> ps[i].accountWritten == ps[i].statusWritten
  }

  /**
   If no pass writes only one of the two, nothing comes loose, and the account holds
   exactly what was recorded last and what was there without ever having been asked for.
   */
  lemma {:induction false} AtomicPassesLeaveNothing(b: Books, ps: seq<Pass>, x: string)
    requires NoRepeats(b.account) && Plausible(ps) && Atomic(ps)
    ensures Loose(AfterPasses(b, ps), x) <==> x in b.account && x !in EverAsked(b, ps)
    ensures (exists i :: 0 <= i < |ps| && Effective(ps[i])) ==>
              (x in AfterPasses(b, ps).account <==> x in Recorded(b, ps) || (x in b.account && x !in EverAsked(b, ps)))
  {
    hide Asked, Names, Kept, Refused, Without;
    if ps != [] {
      var init, p := ps[..|ps| - 1], ps[|ps| - 1];
      var mid := AfterPasses(b, init);
      BooksBalance(b, init);
      AtomicPassesLeaveNothing(b, init, x);
      LooseAfterPass(mid, p, x);
      assert x in Elements(Asked(p.cr)) <==> x in Asked(p.cr);
      if Effective(p) {
        KeptBooks(mid, p.cr, p.found);
      } else {
        assert forall i :: 0 <= i < |init| ==> init[i] == ps[i];
      }
    }
  }

  /** A single name is a list of itself. */
  lemma OneNameIsAsked(x: string)
    requires x != "" && Trimmed(x) && ',' !in x
    ensures Asked(Some(x)) == [x]
  {
    hide TrimSpace, Split;
    TrimmedStays(x);
    SplitCommaFree(x);
    assert Decoded(x) == [x];
    assert Unique([x][..0]) == [];
    assert Unique([x]) == [x];
  }

  /** Losing one status write is enough: the name stays when it is no longer asked for. */
  lemma LostReferenceLeavesName(x: string, found: string -> bool)
    requires x != "" && Trimmed(x) && ',' !in x && found(x) && NamesOnly(found)
    ensures Loose(AfterPasses(Books([], ""), [Pass(Some(x), found, true, false), Pass(None, found, true, true)]), x)
  {
    hide Kept, Names, Asked, Loose, Trimmed;
    var b := Books([], "");
    var p1, p2 := Pass(Some(x), found, true, false), Pass(None, found, true, true);
    OneNameIsAsked(x);
    assert !Refused(p1.cr, found);
    NothingIsNamed();
    LooseAfterPass(b, p1, x);
    assert Loose(AfterPass(b, p1), x);
    NoRepeatsAfterPass(b, p1);
    NothingIsAsked();
    LooseAfterPass(AfterPass(b, p1), p2, x);
    TwoPasses(b, p1, p2);
  }

  lemma NothingIsAsked()
    ensures Asked(None) == []
  {
  }

  lemma NoRepeatsAfterPass(b: Books, p: Pass)
    requires NoRepeats(b.account) && NamesOnly(p.found)
    ensures NoRepeats(AfterPass(b, p).account)
  {
    hide Kept, Names, Refused, Asked;
    if !Refused(p.cr, p.found) {
      KeptBooks(b, p.cr, p.found);
    }
  }

  lemma TwoPasses(b: Books, p1: Pass, p2: Pass)
    ensures AfterPasses(b, [p1, p2]) == AfterPass(AfterPass(b, p1), p2)
  {
    hide AfterPass;
    assert [p1][..0] == [] && [p1, p2][..1] == [p1];
    assert AfterPasses(b, [p1]) == AfterPass(b, p1);
  }

  // ---------------------------------------------------------------------
  // The code
  // ---------------------------------------------------------------------

  class Account {
    var imagePullSecrets: seq<string>

    method RemovePullSecret(name: string)
      modifies this
      ensures imagePullSecrets == RemoveFirst(old(imagePullSecrets), name)
    {
      var index := -1;
      for i := 0 to |imagePullSecrets|
        invariant index == -1
        invariant forall j :: 0 <= j < i ==> imagePullSecrets[j] != name
      {
        if imagePullSecrets[i] == name {
          index := i;
          break;
        }
      }
      if index != -1 {
        RemoveAt(imagePullSecrets, name, index);
        imagePullSecrets := imagePullSecrets[..index] + imagePullSecrets[index + 1..];
      } else {
        RemoveNone(imagePullSecrets, name);
      }
    }

    method RemovePullSecrets(names: seq<string>)
      modifies this
      ensures imagePullSecrets == RemoveEach(old(imagePullSecrets), names)
    {
      for i := 0 to |names|
        invariant imagePullSecrets == RemoveEach(old(imagePullSecrets), names[..i])
      {
        RemovePullSecret(names[i]);
        assert names[..i + 1][..i] == names[..i];
      }
      assert names[..|names|] == names;
    }
  }

  lemma {:induction false} RemoveAt(l: seq<string>, name: string, index: nat)
    requires index < |l| && l[index] == name && forall j :: 0 <= j < index ==> l[j] != name
    ensures RemoveFirst(l, name) == l[..index] + l[index + 1..]
  {
    if index > 0 {
      RemoveAt(l[1..], name, index - 1);
      assert l[..index] == [l[0]] + l[1..][..index - 1];
      assert l[1..][index..] == l[index + 1..];
    }
  }

  lemma {:induction false} RemoveNone(l: seq<string>, name: string)
    requires forall j :: 0 <= j < |l| ==> l[j] != name
    ensures RemoveFirst(l, name) == l
  {
    if l != [] {
      RemoveNone(l[1..], name);
    }
  }

  /** Set */
  method Set(a: seq<string>) returns (out: seq<string>)
    ensures out == Unique(a)
  {
    out := [];
    for i := 0 to |a|
      invariant out == Unique(a[..i])
    {
      assert a[..i + 1][..i] == a[..i];
      if a[i] !in out {
        out := out + [a[i]];
      }
    }
    assert a[..|a|] == a;
  }

  /** SetDiff */
  method SetDiff(a: seq<string>, b: seq<string>) returns (out: seq<string>)
    ensures out == Difference(a, b)
  {
    out := [];
    for i := 0 to |a|
      invariant out == Difference(a[..i], b)
    {
      assert a[..i + 1][..i] == a[..i];
      if a[i] !in b {
        out := out + [a[i]];
      }
    }
    assert a[..|a|] == a;
  }

  /** The status references, of which only the one to the pull secrets matters here. */
  class Status {
    var pullSecretName: string
  }

  /** The loop that appends the names which the account lacks. */
  method AddPullSecrets(sa: Account, names: seq<string>)
    modifies sa
    ensures sa.imagePullSecrets == AddMissing(old(sa.imagePullSecrets), names)
  {
    for i := 0 to |names|
      invariant sa.imagePullSecrets == AddMissing(old(sa.imagePullSecrets), names[..i])
    {
      assert names[..i + 1][..i] == names[..i];
      if names[i] !in sa.imagePullSecrets {
        sa.imagePullSecrets := sa.imagePullSecrets + [names[i]];
      }
    }
    assert names[..|names|] == names;
  }

  /** An empty account gets the names as they are, which is what adding them would do. */
  lemma {:induction false} AddMissingToNothing(names: seq<string>)
    requires NoRepeats(names)
    ensures AddMissing([], names) == names
  {
    if names != [] {
      AddMissingToNothing(names[..|names| - 1]);
      assert names == names[..|names| - 1] + [names[|names| - 1]];
    }
  }

  /** CustomizeServiceAccount; `found` tells which secrets the API server has. */
  method CustomizeServiceAccount(sa: Account, status: Status, pullSecret: Option<string>, found: string -> bool)
    returns (err: bool)
    modifies sa, status
    ensures err <==> Refused(pullSecret, found)
    ensures
      var b := old(Books(sa.imagePullSecrets, status.pullSecretName));
      Books(sa.imagePullSecrets, status.pullSecretName) ==
        if err then Books(Dropped(b, pullSecret), b.reference) else Kept(b, pullSecret)
  {
    hide Decoded, Unique, Difference, RemoveEach, TrimSpace, AllTrimmed, CommaFree, Elements, AddMissing;
    var psr := TrimSpace(status.pullSecretName);
    var decoded := DecodeStringToList(psr);
    var pullSecrets := Set(decoded);
    var crPullSecrets: seq<string> := [];
    var crPullSecretString := "";
    if pullSecret.Some? {
      crPullSecretString := TrimSpace(pullSecret.value);
      decoded := DecodeStringToList(crPullSecretString);
      crPullSecrets := Set(decoded);
    }
    ReferenceRoundTrip(pullSecret);
    if psr != "" && (pullSecret.None? || crPullSecretString != psr) {
      var missingPullSecrets := SetDiff(pullSecrets, crPullSecrets);
      sa.RemovePullSecrets(missingPullSecrets);
    }
    if |crPullSecrets| == 0 {
      status.pullSecretName := "";
      return false;
    }
    for i := 0 to |crPullSecrets|
      invariant forall j :: 0 <= j < i ==> found(crPullSecrets[j])
    {
      if !found(crPullSecrets[i]) {
        return true;
      }
    }
    status.pullSecretName := EncodeListToString(crPullSecrets);
    if |sa.imagePullSecrets| == 0 {
      AddMissingToNothing(crPullSecrets);
      sa.imagePullSecrets := sa.imagePullSecrets + crPullSecrets;
    } else {
      AddPullSecrets(sa, crPullSecrets);
    }
    return false;
  }

  /** What the API server keeps. */
  class Cluster {
    var account: seq<string>
    var reference: string

    /**
     The part of a pass that concerns the service account: CreateOrUpdate writes the account
     if customizing it succeeds, and the status is written at the end in any case.
     */
    method ReconcileServiceAccount(p: Pass)
      modifies this
      ensures Books(account, reference) == AfterPass(old(Books(account, reference)), p)
    {
      hide Refused, Kept, Dropped;
      var sa, status := new Account, new Status;
      sa.imagePullSecrets, status.pullSecretName := account, reference;
      var err := CustomizeServiceAccount(sa, status, p.cr, p.found);
      if !err && p.accountWritten {
        account := sa.imagePullSecrets;
      }
      if p.statusWritten {
        reference := status.pullSecretName;
      }
    }
  }
}
