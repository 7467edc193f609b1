/**
 What the status says after a call of ManageError or ManageSuccess, condition by condition
 and word by word, and which delay the call asks for, in terms of what the call was given
 and of the status that it found.
 */
module StatusMeaning {
  import opened Options
  import opened Requeue
  import opened RequeueInterval
  import opened StatusConditions
  import opened StatusEffects

  // ---------------------------------------------------------------------
  // The conditions
  // ---------------------------------------------------------------------

  /** The condition of type `t` is there and says this. */
  predicate Says(v: View, t: ConditionType, status: ConditionStatus, message: string, reason: string) {
    v.Get(t).Some? && v.Get(t).value.status == status
    && v.Get(t).value.message == message && v.Get(t).value.reason == reason
  }

  /** Warning carries the message of the first warning that applies, and is missing if none does. */
  predicate WarningSays(v: View, warnings: seq<StatusWarning>) {
    if exists i :: 0 <= i < |warnings| && warnings[i].applies then
      exists i :: 0 <= i < |warnings| && warnings[i].applies
                  && (forall j :: 0 <= j < i ==> !warnings[j].applies)
                  && Says(v, Warning, IsTrue, warnings[i].message, "")
    else v.Get(Warning) == None
  }

  /** After an error that concerns the reconciliation. */
  predicate ReconcileErrorShown(v: View, issue: Issue, obs: Observation) {
    && Says(v, Reconciled, IsFalse, issue.message, issue.reason)
    && Says(v, Ready, IsFalse, "Application is not reconciled.", "ApplicationNotReconciled")
    && WarningSays(v, obs.warnings)
  }

  /** After an error that concerns the resources. */
  predicate ResourcesErrorShown(v: View, issue: Issue, obs: Observation) {
    && Says(v, ResourcesReady, IsFalse, issue.message, issue.reason)
    && Says(v, Ready, IsFalse, "Resources are not ready.", "")
    && Says(v, Reconciled, IsFalse, "Resources are not ready.", "")
    && WarningSays(v, obs.warnings)
  }

  /** After a success, unless GetIngressInfo failed. */
  predicate SuccessShown(v: View, obs: Observation) {
    && (match obs.discoveryError
        case None => Says(v, Reconciled, IsTrue, "", "")
        case Some(issue) => Says(v, Reconciled, IsFalse, issue.message, issue.reason))
    && Says(v, ResourcesReady, if obs.resources.ready then IsTrue else IsFalse,
            obs.resources.message, obs.resources.reason)
    && (if obs.resources.ready then Says(v, Ready, IsTrue, "Application is reconciled and resources are ready.", "")
        else Says(v, Ready, IsFalse, "Resources are not ready.", "ResourcesNotReady"))
    && WarningSays(v, obs.warnings)
  }

  /** A condition that was just set says what it was set to, and no other condition changed. */
  lemma SetSays(t: Tracked, c: StatusCondition, now: int)
    requires c.status != Blank
    ensures Says(t.Set(c, now).view, c.typ, c.status, c.message, c.reason)
    ensures forall u :: u != c.typ ==> t.Set(c, now).view.Get(u) == t.view.Get(u)
  {
    SetStores(t.view, c, now);
  }

  lemma {:induction false} FirstWarningExactly(warnings: seq<StatusWarning>)
    ensures match FirstWarning(warnings)
            case None => forall i :: 0 <= i < |warnings| ==> !warnings[i].applies
            case Some(m) =>
              exists i :: 0 <= i < |warnings| && warnings[i].applies && warnings[i].message == m
                          && forall j :: 0 <= j < i ==> !warnings[j].applies
  {
    if warnings != [] && !warnings[0].applies {
      FirstWarningExactly(warnings[1..]);
      match FirstWarning(warnings) {
        case None =>
          forall i | 0 <= i < |warnings|
            ensures !warnings[i].applies
          {
            assert i > 0 ==> warnings[i] == warnings[1..][i - 1];
          }
        case Some(m) =>
          var i :| 0 <= i < |warnings[1..]| && warnings[1..][i].applies && warnings[1..][i].message == m
                   && forall j :: 0 <= j < i ==> !warnings[1..][j].applies;
          assert warnings[i + 1].applies && warnings[i + 1].message == m;
          forall j | 0 <= j < i + 1
            ensures !warnings[j].applies
          {
            assert j > 0 ==> warnings[j] == warnings[1..][j - 1];
          }
      }
    }
  }

  lemma WarningsSay(t: Tracked, warnings: seq<StatusWarning>, now: int)
    ensures WarningSays(AfterWarnings(t, warnings, now).view, warnings)
    ensures forall u :: u != Warning ==> AfterWarnings(t, warnings, now).view.Get(u) == t.view.Get(u)
  {
    hide Says, FirstWarning;
    FirstWarningExactly(warnings);
    match FirstWarning(warnings) {
      case Some(m) => SetSays(t, Condition(Warning, true, m, ""), now);
      case None =>
    }
  }

  lemma SameConditionSaysTheSame(v: View, w: View, t: ConditionType)
    requires v.Get(t) == w.Get(t)
    ensures forall status, message, reason ::
              Says(v, t, status, message, reason) <==> Says(w, t, status, message, reason)
    ensures t == Warning ==> forall warnings :: WarningSays(v, warnings) <==> WarningSays(w, warnings)
  {
  }

  /** ManageError for Reconciled. */
  lemma ReconcileErrorSays(t: Tracked, issue: Issue, obs: Observation, now: int)
    ensures var r := AfterError(t, Reconciled, issue, obs, now).view;
            ReconcileErrorShown(r, issue, obs) && r.Get(ResourcesReady) == t.view.Get(ResourcesReady)
    ensures AfterError(t, Reconciled, issue, obs, now) == AfterReconcileError(t, issue, obs, now)
  {
    hide Says, WarningSays, AfterWarnings;
    var t1 := t.Set(IssueCondition(Reconciled, issue), now);
    SetSays(t, IssueCondition(Reconciled, issue), now);
    var t2 := AfterWarnings(t1, obs.warnings, now);
    WarningsSay(t1, obs.warnings, now);
    SameConditionSaysTheSame(t1.view, t2.view, Reconciled);
    SaysFalse(t2.view, Reconciled, issue.message, issue.reason);
    var t3 := t2.Set(NotReconciled(), now);
    SetSays(t2, NotReconciled(), now);
    SameConditionSaysTheSame(t2.view, t3.view, Reconciled);
    SameConditionSaysTheSame(t2.view, t3.view, Warning);
  }

  lemma SaysFalse(v: View, t: ConditionType, message: string, reason: string)
    ensures Says(v, t, IsFalse, message, reason) ==> !Holds(v, t)
    ensures Says(v, t, IsTrue, message, reason) ==> Holds(v, t)
  {
  }

  /** ManageError for ResourcesReady. */
  lemma ResourcesErrorSays(t: Tracked, issue: Issue, obs: Observation, now: int)
    ensures ResourcesErrorShown(AfterError(t, ResourcesReady, issue, obs, now).view, issue, obs)
  {
    hide Says, WarningSays, AfterWarnings;
    var c := IssueCondition(ResourcesReady, issue);
    var ready := Condition(Ready, false, "Resources are not ready.", "");
    var reconciled := Condition(Reconciled, false, "Resources are not ready.", "");
    var t1 := t.Set(c, now);
    SetSays(t, c, now);
    var t2 := AfterWarnings(t1, obs.warnings, now);
    WarningsSay(t1, obs.warnings, now);
    var t3 := t2.Set(ready, now);
    SetSays(t2, ready, now);
    var t4 := t3.Set(reconciled, now);
    SetSays(t3, reconciled, now);
    SameConditionSaysTheSame(t1.view, t4.view, ResourcesReady);
    SameConditionSaysTheSame(t2.view, t4.view, Warning);
    SameConditionSaysTheSame(t3.view, t4.view, Ready);
  }

  /** ManageSuccess for Reconciled. */
  lemma SuccessSays(t: Tracked, obs: Observation, now: int)
    ensures SuccessShown(AfterSuccess(t, Reconciled, obs, now).view, obs)
  {
    hide Says, WarningSays, AfterWarnings, AfterReconcileError;
    var t1 := t.Set(Condition(Reconciled, true, "", ""), now);
    SetSays(t, Condition(Reconciled, true, "", ""), now);
    var t2 := AfterWarnings(t1, obs.warnings, now);
    WarningsSay(t1, obs.warnings, now);
    SameConditionSaysTheSame(t1.view, t2.view, Reconciled);
    SaysFalse(t2.view, Reconciled, "", "");
    var t3 := t2.Set(ResourcesCondition(obs), now);
    SetSays(t2, ResourcesCondition(obs), now);
    SameConditionSaysTheSame(t2.view, t3.view, Reconciled);
    SameConditionSaysTheSame(t2.view, t3.view, Warning);
    var t4 := AfterEndpointReport(t3, obs, now);
    if obs.discoveryError.Some? {
      ReconcileErrorSays(t3, obs.discoveryError.value, obs, now);
    }
    SameConditionSaysTheSame(t3.view, t4.view, ResourcesReady);
    SaysReport(t4.view, obs);
    var app := ReadyCondition(obs.resources.ready);
    SetSays(t4, app, now);
    var t5 := t4.Set(app, now);
    SameConditionSaysTheSame(t4.view, t5.view, Reconciled);
    SameConditionSaysTheSame(t4.view, t5.view, ResourcesReady);
    SameConditionSaysTheSame(t4.view, t5.view, Warning);
  }

  lemma SaysReport(v: View, obs: Observation)
    requires var c := ResourcesCondition(obs); Says(v, ResourcesReady, c.status, c.message, c.reason)
    ensures Holds(v, ResourcesReady) <==> obs.resources.ready
  {
  }

  // ---------------------------------------------------------------------
  // When a call changes nothing
  // ---------------------------------------------------------------------

  /** Setting what is already said is no change. */
  lemma SetSaidIsNoChange(t: Tracked, c: StatusCondition, now: int)
    ensures Says(t.view, c.typ, c.status, c.message, c.reason) ==> t.Set(c, now) == t
  {
  }

  lemma SameWarningIsNoChange(t: Tracked, warnings: seq<StatusWarning>, now: int)
    requires WarningSays(t.view, warnings)
    ensures var untouched := if FirstWarning(warnings).None? then {Warning} else {};
            AfterWarnings(t, warnings, now) == Tracked(t.view, t.touched - untouched, t.calm)
  {
    hide FirstWarning;
    FirstWarningExactly(warnings);
    match FirstWarning(warnings) {
      case Some(m) =>
        var i :| 0 <= i < |warnings| && warnings[i].applies
                 && (forall j :: 0 <= j < i ==> !warnings[j].applies)
                 && Says(t.view, Warning, IsTrue, warnings[i].message, "");
        assert warnings[i].message == m;
        SetSaidIsNoChange(t, Condition(Warning, true, m, ""), now);
      case None =>
    }
  }

  /** An error changes nothing if and only if all that it would say is said already. */
  lemma ErrorIsQuietExactly(v: View, issue: Issue, obs: Observation, now: int)
    ensures AfterError(Start(v), Reconciled, issue, obs, now) == Start(v) <==> ReconcileErrorShown(v, issue, obs)
  {
    hide Says, WarningSays, AfterWarnings, FirstWarning;
    var t := Start(v);
    ReconcileErrorSays(t, issue, obs, now);
    if ReconcileErrorShown(v, issue, obs) {
      SetSaidIsNoChange(t, IssueCondition(Reconciled, issue), now);
      SameWarningIsNoChange(t, obs.warnings, now);
      SetSaidIsNoChange(t, NotReconciled(), now);
      SaysFalse(v, Reconciled, issue.message, issue.reason);
    }
  }

  /** So does a success, which moreover takes that GetIngressInfo does not fail. */
  lemma SuccessIsQuietExactly(v: View, obs: Observation, now: int)
    ensures AfterSuccess(Start(v), Reconciled, obs, now) == Start(v) <==>
            obs.discoveryError.None? && SuccessShown(v, obs)
  {
    hide Says, WarningSays, AfterWarnings, FirstWarning, AfterReconcileError;
    var t := Start(v);
    SuccessSays(t, obs, now);
    if obs.discoveryError.Some? {
      DiscoveryFailureIsNoisy(t, obs, now);
    } else if SuccessShown(v, obs) {
      SetSaidIsNoChange(t, Condition(Reconciled, true, "", ""), now);
      SameWarningIsNoChange(t, obs.warnings, now);
      SaysFalse(v, Reconciled, "", "");
      SetSaidIsNoChange(t, ResourcesCondition(obs), now);
      SaysReport(v, obs);
      SetSaidIsNoChange(t, ReadyCondition(obs.resources.ready), now);
    }
  }

  lemma DiscoveryFailureIsNoisy(t: Tracked, obs: Observation, now: int)
    requires obs.discoveryError.Some?
    ensures !AfterSuccess(t, Reconciled, obs, now).calm
  {
    var t1 := t.Set(Condition(Reconciled, true, "", ""), now);
    SetSays(t, Condition(Reconciled, true, "", ""), now);
    var t2 := AfterWarnings(t1, obs.warnings, now);
    WarningsSay(t1, obs.warnings, now);
    hide AfterWarnings;
    var t3 := t2.Set(ResourcesCondition(obs), now);
    SetSays(t2, ResourcesCondition(obs), now);
    assert Holds(t2.view, Reconciled) && Holds(t3.view, Reconciled);
    var issue := obs.discoveryError.value;
    var t4 := t3.Set(IssueCondition(Reconciled, issue), now);
    assert !t4.calm;
    NoiseStays(t4, obs.warnings, now);
  }

  lemma NoiseStays(t: Tracked, warnings: seq<StatusWarning>, now: int)
    ensures !t.calm ==> !AfterWarnings(t, warnings, now).calm
  {
  }

  /** No condition was added or changed; Warning may have been removed. */
  ghost predicate NothingNew(before: View, after: View) {
    forall t :: after.Get(t).Some? ==> before.Get(t) == after.Get(t)
  }

  /** Every condition is older than `now`. */
  ghost predicate StampedBefore(v: View, now: int) {
    forall t :: v.Get(t).Some? && v.Get(t).value.lastTransitionTime.Some? ==>
      v.Get(t).value.lastTransitionTime.value < now
  }

  ghost predicate CalmSince(v: View, t: Tracked) {
    t.calm ==> NothingNew(v, t.view)
  }

  lemma SetKeepsCalm(v: View, t: Tracked, c: StatusCondition, now: int)
    requires CalmSince(v, t)
    ensures CalmSince(v, t.Set(c, now))
  {
  }

  lemma WarningsKeepCalm(v: View, t: Tracked, warnings: seq<StatusWarning>, now: int)
    requires CalmSince(v, t)
    ensures CalmSince(v, AfterWarnings(t, warnings, now))
  {
    match FirstWarning(warnings) {
      case Some(m) => SetKeepsCalm(v, t, Condition(Warning, true, m, ""), now);
      case None => UnsetKeepsCalm(v, t);
    }
  }

  lemma UnsetKeepsCalm(v: View, t: Tracked)
    requires CalmSince(v, t)
    ensures CalmSince(v, t.UnsetWarning())
  {
    forall u {
      GetAfterPut(t.view, Warning, None, u);
    }
  }

  lemma CheckKeepsCalm(v: View, t: Tracked, obs: Observation, now: int)
    requires CalmSince(v, t)
    ensures CalmSince(v, AfterApplicationCheck(t, obs, now))
  {
    hide CalmSince, AfterWarnings;
    if !Holds(t.view, Reconciled) {
      SetKeepsCalm(v, t, NotReconciled(), now);
    } else {
      var t1 := t.Set(ResourcesCondition(obs), now);
      SetKeepsCalm(v, t, ResourcesCondition(obs), now);
      var t2 := AfterEndpointReport(t1, obs, now);
      if obs.discoveryError.Some? {
        var r := IssueCondition(Reconciled, obs.discoveryError.value);
        SetKeepsCalm(v, t1, r, now);
        WarningsKeepCalm(v, t1.Set(r, now), obs.warnings, now);
        SetKeepsCalm(v, AfterWarnings(t1.Set(r, now), obs.warnings, now), NotReconciled(), now);
      }
      SetKeepsCalm(v, t2, ReadyCondition(Holds(t2.view, ResourcesReady)), now);
    }
  }

  lemma ErrorKeepsCalm(v: View, ct: ConditionType, issue: Issue, obs: Observation, now: int)
    ensures CalmSince(v, AfterError(Start(v), ct, issue, obs, now))
  {
    hide AfterWarnings, AfterApplicationCheck;
    assert CalmSince(v, Start(v));
    hide CalmSince;
    var c := IssueCondition(ct, issue);
    SetKeepsCalm(v, Start(v), c, now);
    WarningsKeepCalm(v, Start(v).Set(c, now), obs.warnings, now);
    var t := AfterWarnings(Start(v).Set(c, now), obs.warnings, now);
    if ct != ResourcesReady {
      CheckKeepsCalm(v, t, obs, now);
    } else {
      var ready := Condition(Ready, false, "Resources are not ready.", "");
      SetKeepsCalm(v, t, ready, now);
      SetKeepsCalm(v, t.Set(ready, now), Condition(Reconciled, false, "Resources are not ready.", ""), now);
    }
  }

  lemma SuccessKeepsCalm(v: View, ct: ConditionType, obs: Observation, now: int)
    ensures CalmSince(v, AfterSuccess(Start(v), ct, obs, now))
  {
    hide AfterWarnings, AfterApplicationCheck;
    assert CalmSince(v, Start(v));
    hide CalmSince;
    var c := Condition(ct, true, "", "");
    SetKeepsCalm(v, Start(v), c, now);
    WarningsKeepCalm(v, Start(v).Set(c, now), obs.warnings, now);
    CheckKeepsCalm(v, AfterWarnings(Start(v).Set(c, now), obs.warnings, now), obs, now);
  }

  /** A call for another type than Warning is calm exactly if it adds and changes nothing. */
  lemma CalmExactly(v: View, r: Tracked, now: int)
    requires StampedBefore(v, now) && Stamped(r, now) && CalmSince(v, r) && (r.calm || r.touched != {})
    ensures r.calm <==> NothingNew(v, r.view)
  {
    if r.touched != {} {
      var ct :| ct in r.touched;
      assert Stamp(r.view.Get(ct)) == Some(now);
      assert v.Get(ct) != r.view.Get(ct);
    }
  }

  lemma ErrorIsCalmExactly(v: View, ct: ConditionType, issue: Issue, obs: Observation, now: int)
    requires ct != Warning && StampedBefore(v, now) && Stamped(Start(v), now)
    ensures var r := AfterError(Start(v), ct, issue, obs, now); r.calm <==> NothingNew(v, r.view)
  {
    hide AfterError, Stamped, StampedBefore, CalmSince;
    ErrorKeepsCalm(v, ct, issue, obs, now);
    ErrorKeepsStamps(Start(v), ct, issue, obs, now);
    ErrorChangeIsTouched(v, ct, issue, obs, now);
    CalmExactly(v, AfterError(Start(v), ct, issue, obs, now), now);
  }

  lemma SuccessIsCalmExactly(v: View, ct: ConditionType, obs: Observation, now: int)
    requires ct != Warning && StampedBefore(v, now) && Stamped(Start(v), now)
    ensures var r := AfterSuccess(Start(v), ct, obs, now); r.calm <==> NothingNew(v, r.view)
  {
    hide AfterSuccess, Stamped, StampedBefore, CalmSince;
    SuccessKeepsCalm(v, ct, obs, now);
    SuccessKeepsStamps(Start(v), ct, obs, now);
    SuccessChangeIsTouched(v, ct, obs, now);
    CalmExactly(v, AfterSuccess(Start(v), ct, obs, now), now);
  }

  // ---------------------------------------------------------------------
  // The delay
  // ---------------------------------------------------------------------

  /** The latest of the transition times. */
  ghost predicate IsLatest(v: View, latest: int) {
    && (exists t :: v.Get(t).Some? && v.Get(t).value.lastTransitionTime == Some(latest))
    && (forall t :: v.Get(t).Some? && v.Get(t).value.lastTransitionTime.Some? ==>
          v.Get(t).value.lastTransitionTime.value <= latest)
  }

  /** The delay that the whole seconds since the latest transition call for. */
  ghost predicate BacksOff(v: View, later: int, maximum: int, cfg: Config, delay: int)
    requires cfg.Valid()
  {
    if exists latest :: IsLatest(v, latest) then
      exists latest :: IsLatest(v, latest) && Chosen((later - latest) / 1_000_000_000, maximum, cfg, delay)
    else delay == cfg.minimum
  }

  lemma BacksOffExactly(v: View, later: int, maximum: int, cfg: Config, delay: int)
    requires cfg.Valid()
    ensures BacksOff(v, later, maximum, cfg, delay) <==> delay == UpdatedInterval(v, later, maximum, cfg)
  {
    hide Chosen, IntervalFor, LatestIn;
    LatestInIsGreatest(v);
    if LatestIn(v).Some? {
      var latest := LatestIn(v).value;
      var t :| Stamp(v.Get(t)) == LatestIn(v);
      assert IsLatest(v, latest);
      forall other | IsLatest(v, other)
        ensures other == latest
      {
        var u :| v.Get(u).Some? && v.Get(u).value.lastTransitionTime == Some(other);
        assert Stamp(v.Get(u)).value <= latest;
      }
      ChosenExactly((later - latest) / 1_000_000_000, maximum, cfg, delay);
    } else {
      assert forall t :: Stamp(v.Get(t)).None?;
      assert forall latest :: !IsLatest(v, latest);
    }
  }

  /** The delay after an error that added and changed nothing. */
  ghost predicate QuietErrorDelay(v: View, shown: Option<int>, later: int, cfg: Config, delay: int)
    requires cfg.Valid()
  {
    if shown.None? then delay == cfg.minimum else BacksOff(v, later, cfg.failureMaximum, cfg, delay)
  }

  /** The delay after a success that added and changed nothing. */
  ghost predicate QuietSuccessDelay(v: View, later: int, cfg: Config, delay: int)
    requires cfg.Valid()
  {
    if v.ready.Some? && v.ready.value.status == IsTrue then BacksOff(v, later, cfg.successMaximum, cfg, delay)
    else BacksOff(v, later, cfg.failureMaximum, cfg, delay)
  }
}
