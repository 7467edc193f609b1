/**
 The code of ManageError, ManageSuccess (utils/reconciler.go) and of the status
 checks they run (utils/status.go), over the in-place condition list.

 The conditions called "old" are pointers into that list, read again after the list
 has been written, sorted and regrown.  The contracts say what comes out of it.
 */
module ReconcilerStatus {
  import opened Options
  import opened Requeue
  import opened RequeueInterval
  import opened StatusConditions
  import opened StatusEffects
  import opened StatusMeaning

  /** A condition that code holds: a pointer into the list, or a new one. */
  datatype ConditionRef = InList(slot: Slot) | New(condition: StatusCondition)
  {
    ghost predicate InRange() {
      InList? ==> slot.InRange()
    }

    function Read(): StatusCondition
      requires InRange()
      reads if InList? then {slot.backing} else {}
    {
      match this
      case InList(slot) => slot.Read()
      case New(c) => c
    }
  }

  /** resetReconcileInterval */
  method ResetReconcileInterval(s: RuntimeComponentStatus, cfg: Config) returns (retry: int)
    modifies s`reconcileInterval
    ensures retry == cfg.minimum
    ensures s.reconcileInterval == if cfg.showReconcileInterval then Some(retry) else None
  {
    if cfg.showReconcileInterval {
      s.reconcileInterval := Some(cfg.minimum);
    } else {
      s.reconcileInterval := None;
    }
    return cfg.minimum;
  }

  /** updateReconcileInterval */
  method UpdateReconcileInterval(maxSeconds: int, s: RuntimeComponentStatus, later: int, cfg: Config)
    returns (retry: int)
    requires s.Valid() && cfg.Valid() && cfg.ValidMaximum(maxSeconds)
    modifies s`reconcileInterval
    ensures retry == UpdatedInterval(s.GetView(), later, maxSeconds, cfg)
    ensures BacksOff(s.GetView(), later, maxSeconds, cfg, retry)
    ensures s.reconcileInterval == if cfg.showReconcileInterval then Some(retry) else None
  {
    LatestOfList(s.conditions[..s.count]);
    BacksOffExactly(s.GetView(), later, maxSeconds, cfg, UpdatedInterval(s.GetView(), later, maxSeconds, cfg));
    hide BacksOff;
    var latestTransitionTime := s.GetLatestTransitionTime();
    if latestTransitionTime == None {
      retry := ResetReconcileInterval(s, cfg);
      return;
    }
    retry := ComputeInterval((later - latestTransitionTime.value) / SECOND, maxSeconds, cfg);
    if cfg.showReconcileInterval {
      s.reconcileInterval := Some(retry);
    } else {
      s.reconcileInterval := None;
    }
  }

  /** addStatusWarnings */
  method AddStatusWarnings(s: RuntimeComponentStatus, warnings: seq<StatusWarning>, now: int, ghost t: Tracked)
    requires s.Valid() && WellTyped(s.GetView()) && t.view == s.GetView()
    modifies s`conditions, s`count, s.conditions
    ensures s.Valid() && s.GetView() == AfterWarnings(t, warnings, now).view
    ensures s.conditions == old(s.conditions) || fresh(s.conditions)
    ensures AfterWarnings(t, warnings, now).calm ==>
              s.conditions == old(s.conditions) && s.conditions[..] == old(s.conditions[..])
  {
    var firstWarning: Option<string> := None;
    var i := 0;
    while i < |warnings|
      invariant i <= |warnings| && firstWarning == None
      invariant FirstWarning(warnings) == FirstWarning(warnings[i..])
      decreases |warnings| - i
    {
      if warnings[i].applies {
        firstWarning := Some(warnings[i].message);
        break;
      }
      i := i + 1;
    }
    if firstWarning.Some? {
      var c := Condition(Warning, true, firstWarning.value, "");
      s.SetCondition(c, now);
      SetMeansTrackedSet(t, c, now);
    } else {
      WarningIsLast(s.conditions[..s.count]);
      UnsetWarning(s.conditions[..s.count]);
      s.UnsetCondition(Warning);
    }
  }

  /** SetCondition has the effect that the specification records. */
  lemma SetMeansTrackedSet(t: Tracked, c: StatusCondition, now: int)
    requires WellTyped(t.view)
    ensures t.view.Set(c, now) == t.Set(c, now).view
  {
    if !t.view.ChangedBy(c) {
      SetSameIsIdentity(t.view, c, now);
    }
  }

  /** setCondition: write the condition unless the old one says the same. */
  method SetIfChanged(s: RuntimeComponentStatus, old_: Option<Slot>, c: StatusCondition, now: int, ghost t: Tracked)
    requires s.Valid() && WellTyped(s.GetView()) && t.view == s.GetView()
    requires old_.Some? <==> s.GetView().Get(c.typ).Some?
    requires old_.Some? ==> old_.value.InRange() && s.GetView().Get(c.typ) == Some(old_.value.Read())
    modifies s`conditions, s`count, s.conditions
    ensures s.Valid() && s.GetView() == t.Set(c, now).view
    ensures s.conditions == old(s.conditions) || fresh(s.conditions)
    ensures t.Set(c, now).calm ==>
              && s.conditions == old(s.conditions) && s.count == old(s.count)
              && s.conditions[..] == old(s.conditions[..])
    ensures !old(s.GetView()).ChangedBy(c) ==>
              && s.conditions == old(s.conditions) && s.count == old(s.count)
              && s.conditions[..] == old(s.conditions[..])
  {
    if old_.None? || !old_.value.Read().SameFields(c) {
      s.SetCondition(c, now);
      SetMeansTrackedSet(t, c, now);
    }
  }

  /** CheckResourcesStatus */
  method CheckResourcesStatus(s: RuntimeComponentStatus, obs: Observation, now: int, ghost t: Tracked)
    requires s.Valid() && WellTyped(s.GetView()) && t.view == s.GetView()
    modifies s`conditions, s`count, s.conditions
    ensures s.Valid() && s.GetView() == t.Set(ResourcesCondition(obs), now).view
    ensures s.conditions == old(s.conditions) || fresh(s.conditions)
    ensures t.Set(ResourcesCondition(obs), now).calm ==>
              && s.conditions == old(s.conditions) && s.count == old(s.count)
              && s.conditions[..] == old(s.conditions[..])
  {
    var oldCondition := s.GetCondition(ResourcesReady);
    SetIfChanged(s, oldCondition, ResourcesCondition(obs), now, t);
  }

  /** What a call that changes nothing leaves alone. */
  twostate predicate Undisturbed(s: RuntimeComponentStatus)
    reads s, s.conditions
  {
    && s.conditions == old(s.conditions)
    && s.conditions[..] == old(s.conditions[..])
    && s.reconcileInterval == old(s.reconcileInterval)
  }

  /** ReportExternalEndpointStatus: GetIngressInfo reports its failure through ManageError. */
  method ReportExternalEndpointStatus(s: RuntimeComponentStatus, obs: Observation, now: int, later: int, cfg: Config,
                                      ghost t: Tracked)
    requires s.Valid() && cfg.Valid() && t.view == s.GetView() && Stamped(t, now)
    requires Holds(t.view, Reconciled)
    modifies s, s.conditions
    ensures s.Valid() && s.GetView() == AfterEndpointReport(t, obs, now).view
    ensures s.conditions == old(s.conditions) || fresh(s.conditions)
    ensures AfterEndpointReport(t, obs, now).calm ==> Undisturbed(s) && s.count == old(s.count)
    decreases 2, 0
  {
    hide Stamped, ViewOf, AfterWarnings;
    if obs.discoveryError.Some? {
      var _ := ManageError(s, obs.discoveryError.value, Reconciled, obs, now, later, cfg, true, t);
      ReconcileErrorIsManageError(t, obs.discoveryError.value, obs, now);
      ReconcileErrorDisturbs(t, obs.discoveryError.value, obs, now);
    }
  }

  lemma ReconcileErrorIsManageError(t: Tracked, issue: Issue, obs: Observation, now: int)
    ensures AfterError(t, Reconciled, issue, obs, now) == AfterReconcileError(t, issue, obs, now)
  {
  }

  lemma ReconcileErrorDisturbs(t: Tracked, issue: Issue, obs: Observation, now: int)
    requires Holds(t.view, Reconciled)
    ensures !AfterReconcileError(t, issue, obs, now).calm
  {
  }

  lemma CalmReportIsIdentity(t: Tracked, obs: Observation, now: int)
    requires Holds(t.view, Reconciled)
    ensures AfterEndpointReport(t, obs, now).calm ==> AfterEndpointReport(t, obs, now) == t
  {
    hide AfterReconcileError;
    if obs.discoveryError.Some? {
      ReconcileErrorDisturbs(t, obs.discoveryError.value, obs, now);
    }
  }

  /** The part of CheckApplicationStatus that runs when the component is reconciled. */
  method CheckReconciled(s: RuntimeComponentStatus, obs: Observation, now: int, later: int, cfg: Config,
                         ghost t: Tracked)
    returns (newResourcesCondition: Option<Slot>, ghost checked: Tracked)
    requires s.Valid() && cfg.Valid() && t.view == s.GetView() && Stamped(t, now)
    requires Holds(t.view, Reconciled)
    modifies s, s.conditions
    ensures checked == AfterEndpointReport(t.Set(ResourcesCondition(obs), now), obs, now)
    ensures s.Valid() && s.GetView() == checked.view && WellTyped(checked.view)
    ensures s.conditions == old(s.conditions) || fresh(s.conditions)
    ensures checked.calm ==> Undisturbed(s) && s.count == old(s.count) && checked == t
    ensures newResourcesCondition.Some? <==> checked.view.resourcesReady.Some?
    ensures newResourcesCondition.Some? ==>
              && newResourcesCondition.value.backing == s.conditions && newResourcesCondition.value.InRange()
              && checked.view.resourcesReady == Some(newResourcesCondition.value.Read())
    decreases 2, 1
  {
    hide Stamped, ViewOf, AfterEndpointReport;
    StampedIsWellTyped(t, now);
    CheckResourcesStatus(s, obs, now, t);
    checked := t.Set(ResourcesCondition(obs), now);
    SetKeepsStamps(t, ResourcesCondition(obs), now);
    SetKeepsOthers(t, ResourcesCondition(obs), now);
    EndpointReportKeepsStamps(checked, obs, now);
    CalmReportIsIdentity(checked, obs, now);
    ReportExternalEndpointStatus(s, obs, now, later, cfg, checked);
    checked := AfterEndpointReport(checked, obs, now);
    StampedIsWellTyped(checked, now);
    newResourcesCondition := s.GetCondition(ResourcesReady);
  }

  /** CheckApplicationStatus; returns the old and the new condition that it judged by. */
  method CheckApplicationStatus(s: RuntimeComponentStatus, obs: Observation, now: int, later: int, cfg: Config,
                                ghost t: Tracked)
    returns (oldCondition: Option<Slot>, newCondition: ConditionRef)
    requires s.Valid() && cfg.Valid() && t.view == s.GetView() && Stamped(t, now)
    modifies s, s.conditions
    ensures s.Valid() && s.GetView() == AfterApplicationCheck(t, obs, now).view
    ensures s.conditions == old(s.conditions) || fresh(s.conditions)
    ensures oldCondition.Some? ==> oldCondition.value.InRange()
    ensures newCondition.InRange()
    ensures AfterApplicationCheck(t, obs, now).calm ==>
              && Undisturbed(s)
              && oldCondition.Some?
              && oldCondition.value.Read().SameFields(newCondition.Read())
              && (newCondition.Read().status == IsTrue <==> Holds(s.GetView(), Ready))
    decreases if Holds(t.view, Reconciled) then 3 else 0, 1
  {
    hide Stamped, ViewOf, AfterApplicationCheck;
    var oldResourcesCondition := s.GetCondition(ResourcesReady);
    ghost var checked: Tracked;
    var newResourcesCondition, ok, app;
    newResourcesCondition, ok, app, checked := CheckIfReconciled(s, obs, now, later, cfg, t);
    var oldAppCondition := s.GetCondition(Ready);
    SetIfChanged(s, oldAppCondition, app, now, checked);
    SetKeepsOthers(checked, app, now);
    if newResourcesCondition.Some? && !ok {
      return oldResourcesCondition, InList(newResourcesCondition.value);
    } else {
      return oldAppCondition, New(app);
    }
  }

  /** Its first part: the checks, and the Ready condition that they lead to. */
  method CheckIfReconciled(s: RuntimeComponentStatus, obs: Observation, now: int, later: int, cfg: Config,
                           ghost t: Tracked)
    returns (newResourcesCondition: Option<Slot>, ok: bool, app: StatusCondition, ghost checked: Tracked)
    requires s.Valid() && cfg.Valid() && t.view == s.GetView() && Stamped(t, now)
    modifies s, s.conditions
    ensures AfterApplicationCheck(t, obs, now) == checked.Set(app, now)
    ensures app.typ == Ready && (app.status == IsTrue <==> ok)
    ensures s.Valid() && s.GetView() == checked.view && WellTyped(checked.view)
    ensures s.conditions == old(s.conditions) || fresh(s.conditions)
    ensures checked.calm ==> Undisturbed(s) && s.count == old(s.count) && checked == t
    ensures newResourcesCondition.Some? ==>
              && newResourcesCondition.value.backing == s.conditions && newResourcesCondition.value.InRange()
              && checked.view.resourcesReady == Some(newResourcesCondition.value.Read())
              && (ok <==> newResourcesCondition.value.Read().status == IsTrue)
    ensures ok ==> newResourcesCondition.Some?
    decreases if Holds(t.view, Reconciled) then 3 else 0, 0
  {
    hide Stamped, ViewOf, AfterEndpointReport;
    StampedIsWellTyped(t, now);
    ok, app, checked, newResourcesCondition := false, NotReconciled(), t, None;
    var scReconciled := s.GetCondition(Reconciled);
    if scReconciled.Some? && scReconciled.value.Read().status == IsTrue {
      newResourcesCondition, checked := CheckReconciled(s, obs, now, later, cfg, t);
      ok := newResourcesCondition.Some? && newResourcesCondition.value.Read().status == IsTrue;
      app := ReadyCondition(ok);
    }
  }

  lemma StampedIsWellTyped(t: Tracked, now: int)
    requires Stamped(t, now)
    ensures WellTyped(t.view)
  {
  }

  lemma SetKeepsOthers(t: Tracked, c: StatusCondition, now: int)
    requires WellTyped(t.view)
    ensures forall u :: u != c.typ ==> t.Set(c, now).view.Get(u) == t.view.Get(u)
    ensures t.Set(c, now).calm ==> t.Set(c, now) == t
  {
  }

  /** The conditions part of ManageError. */
  method RecordError(s: RuntimeComponentStatus, oldCondition: Option<Slot>, issue: Issue, ct: ConditionType,
                     obs: Observation, now: int, later: int, cfg: Config, ghost t: Tracked)
    requires s.Valid() && cfg.Valid() && t.view == s.GetView() && Stamped(t, now)
    requires oldCondition.Some? <==> t.view.Get(ct).Some?
    requires oldCondition.Some? ==> oldCondition.value.InRange() && t.view.Get(ct) == Some(oldCondition.value.Read())
    modifies s, s.conditions
    ensures s.Valid() && s.GetView() == AfterError(t, ct, issue, obs, now).view
    ensures s.conditions == old(s.conditions) || fresh(s.conditions)
    ensures AfterError(t, ct, issue, obs, now).calm ==>
              Undisturbed(s) && !t.view.ChangedBy(IssueCondition(ct, issue))
    decreases if ct == Reconciled then 1 else 4, 0
  {
    hide Stamped, ViewOf, AfterWarnings, AfterApplicationCheck, AfterResourcesError;
    var newCondition := IssueCondition(ct, issue);
    StampedIsWellTyped(t, now);
    SetIfChanged(s, oldCondition, newCondition, now, t);
    ghost var t1 := t.Set(newCondition, now);
    SetKeepsStamps(t, newCondition, now);
    StampedIsWellTyped(t1, now);
    AddStatusWarnings(s, obs.warnings, now, t1);
    ghost var t2 := AfterWarnings(t1, obs.warnings, now);
    WarningsKeepStamps(t1, obs.warnings, now);
    WarningsKeepReconciled(t1, obs.warnings, now);
    CalmnessIsLost(t1, obs, now);
    if ct != ResourcesReady {
      var _, _ := CheckApplicationStatus(s, obs, now, later, cfg, t2);
    } else {
      ResourcesErrorIsCalm(t2, now);
      RecordResourcesError(s, now, t2);
    }
  }

  /** What ManageError adds when it is the resources that are not ready. */
  method RecordResourcesError(s: RuntimeComponentStatus, now: int, ghost t: Tracked)
    requires s.Valid() && t.view == s.GetView() && Stamped(t, now)
    modifies s`conditions, s`count, s.conditions
    ensures s.Valid() && s.GetView() == AfterResourcesError(t, now).view
    ensures s.conditions == old(s.conditions) || fresh(s.conditions)
    ensures AfterResourcesError(t, now).calm ==>
              s.conditions == old(s.conditions) && s.conditions[..] == old(s.conditions[..])
  {
    hide Stamped, ViewOf;
    StampedIsWellTyped(t, now);
    var readyNewCondition := Condition(Ready, false, "Resources are not ready.", "");
    SetMeansTrackedSet(t, readyNewCondition, now);
    SetKeepsStamps(t, readyNewCondition, now);
    s.SetCondition(readyNewCondition, now);
    StampedIsWellTyped(t.Set(readyNewCondition, now), now);
    var reconciledNewCondition := Condition(Reconciled, false, "Resources are not ready.", "");
    SetMeansTrackedSet(t.Set(readyNewCondition, now), reconciledNewCondition, now);
    s.SetCondition(reconciledNewCondition, now);
  }

  lemma ResourcesErrorIsCalm(t: Tracked, now: int)
    ensures AfterResourcesError(t, now).calm ==> t.calm
  {
  }

  /** Warnings do not decide whether the component is reconciled. */
  lemma WarningsKeepReconciled(t: Tracked, warnings: seq<StatusWarning>, now: int)
    ensures AfterWarnings(t, warnings, now).view.reconciled == t.view.reconciled
  {
  }

  /** What was lost by the first write is not regained by the later ones. */
  lemma CalmnessIsLost(t: Tracked, obs: Observation, now: int)
    ensures AfterWarnings(t, obs.warnings, now).calm ==> t.calm
    ensures forall u: Tracked :: AfterApplicationCheck(u, obs, now).calm ==> u.calm
  {
  }

  /**
   A call for a condition of type `ct` changed something: a condition that is still there,
   or, when nothing was changed before it, any condition at all unless `ct` is Warning.
   */
  ghost predicate Changed(t: Tracked, ct: ConditionType, after: Tracked) {
    after.touched != {} || (t == Start(t.view) && ct != Warning && !after.calm)
  }

  lemma ErrorGivesMinimum(t: Tracked, ct: ConditionType, issue: Issue, obs: Observation, now: int, later: int,
                          cfg: Config)
    requires cfg.Valid() && Stamped(t, now)
    ensures var r := AfterError(t, ct, issue, obs, now);
            Changed(t, ct, r) && later < now + cfg.minimum * SECOND ==>
              UpdatedInterval(r.view, later, cfg.Maximum(false), cfg) == cfg.minimum
  {
    hide Stamped, AfterError, UpdatedInterval;
    if ct != Warning {
      ErrorChangeIsTouched(t.view, ct, issue, obs, now);
    }
    ErrorKeepsStamps(t, ct, issue, obs, now);
    TouchedGivesMinimum(AfterError(t, ct, issue, obs, now), now, later, false, cfg);
  }

  lemma SuccessGivesMinimum(t: Tracked, ct: ConditionType, obs: Observation, now: int, later: int, cfg: Config)
    requires cfg.Valid() && Stamped(t, now)
    ensures var r := AfterSuccess(t, ct, obs, now);
            Changed(t, ct, r) && later < now + cfg.minimum * SECOND ==>
              && UpdatedInterval(r.view, later, cfg.Maximum(false), cfg) == cfg.minimum
              && UpdatedInterval(r.view, later, cfg.Maximum(true), cfg) == cfg.minimum
  {
    hide Stamped, AfterSuccess, UpdatedInterval;
    if ct != Warning {
      SuccessChangeIsTouched(t.view, ct, obs, now);
    }
    SuccessKeepsStamps(t, ct, obs, now);
    TouchedGivesMinimum(AfterSuccess(t, ct, obs, now), now, later, false, cfg);
    TouchedGivesMinimum(AfterSuccess(t, ct, obs, now), now, later, true, cfg);
  }

  /** What ManageError leaves and when it was calm, in terms of the two views. */
  lemma ErrorMeans(t: Tracked, ct: ConditionType, issue: Issue, obs: Observation, now: int)
    requires Stamped(t, now)
    ensures var r := AfterError(t, ct, issue, obs, now);
            && (ct == Reconciled ==> ReconcileErrorShown(r.view, issue, obs))
            && (ct == ResourcesReady ==> ResourcesErrorShown(r.view, issue, obs))
            && (ct != Warning && !Says(t.view, ct, IsFalse, issue.message, issue.reason) ==> Changed(t, ct, r))
            && (ct != Warning && t == Start(t.view) && !NothingNew(t.view, r.view) ==> Changed(t, ct, r))
            && (ct != Warning && t == Start(t.view) && StampedBefore(t.view, now) && NothingNew(t.view, r.view) ==>
                  r.calm)
  {
    hide AfterError, StampedBefore, ReconcileErrorShown, ResourcesErrorShown;
    if ct == Reconciled {
      ReconcileErrorSays(t, issue, obs, now);
    }
    if ct == ResourcesReady {
      ResourcesErrorSays(t, issue, obs, now);
    }
    if ct != Warning {
      ErrorTouches(t, ct, issue, obs, now);
    }
    if t == Start(t.view) && ct != Warning {
      ErrorKeepsCalm(t.view, ct, issue, obs, now);
      if StampedBefore(t.view, now) {
        ErrorIsCalmExactly(t.view, ct, issue, obs, now);
      }
    }
  }

  /** An error that is not said already touches its condition. */
  lemma ErrorTouches(t: Tracked, ct: ConditionType, issue: Issue, obs: Observation, now: int)
    requires ct != Warning
    ensures !Says(t.view, ct, IsFalse, issue.message, issue.reason) ==> AfterError(t, ct, issue, obs, now).touched != {}
  {
    if !Says(t.view, ct, IsFalse, issue.message, issue.reason) {
      assert ct in t.Set(IssueCondition(ct, issue), now).touched;
      WarningsKeepTouched(t.Set(IssueCondition(ct, issue), now), ct, obs.warnings, now);
      var warned := AfterWarnings(t.Set(IssueCondition(ct, issue), now), obs.warnings, now);
      hide AfterWarnings;
      if ct != ResourcesReady {
        CheckKeepsTouched(warned, ct, obs, now);
      } else {
        assert ct in AfterResourcesError(warned, now).touched;
      }
    }
  }

  lemma WarningsKeepTouched(t: Tracked, ct: ConditionType, warnings: seq<StatusWarning>, now: int)
    requires ct != Warning && ct in t.touched
    ensures ct in AfterWarnings(t, warnings, now).touched
  {
  }

  lemma CheckKeepsTouched(t: Tracked, ct: ConditionType, obs: Observation, now: int)
    requires ct != Warning && ct in t.touched
    ensures ct in AfterApplicationCheck(t, obs, now).touched
  {
    hide AfterWarnings;
    if Holds(t.view, Reconciled) && obs.discoveryError.Some? {
      var t1 := t.Set(ResourcesCondition(obs), now).Set(IssueCondition(Reconciled, obs.discoveryError.value), now);
      WarningsKeepTouched(t1, ct, obs.warnings, now);
    }
  }

  /** What ManageSuccess leaves and when it was calm. */
  lemma SuccessMeans(t: Tracked, ct: ConditionType, obs: Observation, now: int)
    requires Stamped(t, now)
    ensures var r := AfterSuccess(t, ct, obs, now);
            && (ct == Reconciled ==> SuccessShown(r.view, obs))
            && (ct != Warning && t == Start(t.view) && !NothingNew(t.view, r.view) ==> Changed(t, ct, r))
            && (ct != Warning && t == Start(t.view) && StampedBefore(t.view, now) && NothingNew(t.view, r.view) ==>
                  r.calm)
  {
    hide AfterSuccess, StampedBefore, SuccessShown;
    if ct == Reconciled {
      SuccessSays(t, obs, now);
    }
    if t == Start(t.view) && ct != Warning {
      SuccessKeepsCalm(t.view, ct, obs, now);
      if StampedBefore(t.view, now) {
        SuccessIsCalmExactly(t.view, ct, obs, now);
      }
    }
  }

  /**
   ManageError; `written` says whether the status update at its end succeeds.  Callers
   pass Start of the view as `t`; only the call from inside a status check passes more.
   A call that changes a condition asks for the minimum, even though the old condition it
   compares with may already have been overwritten; a call that changes nothing backs off.
   */
  method ManageError(s: RuntimeComponentStatus, issue: Issue, ct: ConditionType, obs: Observation,
                     now: int, later: int, cfg: Config, written: bool, ghost t: Tracked)
    returns (result: Result)
    requires s.Valid() && cfg.Valid() && t.view == s.GetView() && Stamped(t, now)
    modifies s, s.conditions
    ensures s.Valid() && s.GetView() == AfterError(t, ct, issue, obs, now).view
    ensures s.conditions == old(s.conditions) || fresh(s.conditions)
    ensures result.requeue
    ensures !written ==> result.requeueAfter == if issue.conflict then 0 else 1
    ensures written ==>
              s.reconcileInterval == if cfg.showReconcileInterval then Some(result.requeueAfter) else None
    ensures ct == Reconciled ==> ReconcileErrorShown(s.GetView(), issue, obs)
    ensures ct == ResourcesReady ==> ResourcesErrorShown(s.GetView(), issue, obs)
    ensures written && later < now + cfg.minimum * SECOND && ct != Warning
            && !Says(old(s.GetView()), ct, IsFalse, issue.message, issue.reason) ==>
              result.requeueAfter == cfg.minimum
    ensures written && later < now + cfg.minimum * SECOND && ct != Warning && t == Start(old(s.GetView()))
            && !NothingNew(old(s.GetView()), s.GetView()) ==>
              result.requeueAfter == cfg.minimum
    ensures written && StampedBefore(old(s.GetView()), now) && ct != Warning && t == Start(old(s.GetView()))
            && NothingNew(old(s.GetView()), s.GetView()) ==>
              QuietErrorDelay(s.GetView(), old(s.reconcileInterval), later, cfg, result.requeueAfter)
    decreases if ct == Reconciled then 1 else 4, 1
  {
    hide Stamped, ViewOf, AfterError, UpdatedInterval, Changed, BacksOff, StampedBefore, NothingNew;
    hide ReconcileErrorShown, ResourcesErrorShown;
    var oldCondition := s.GetCondition(ct);
    var newCondition := IssueCondition(ct, issue);
    RecordError(s, oldCondition, issue, ct, obs, now, later, cfg, t);
    var retryInterval: int;
    if oldCondition.None? || s.reconcileInterval.None? || !oldCondition.value.Read().SameFields(newCondition) {
      retryInterval := ResetReconcileInterval(s, cfg);
    } else {
      retryInterval := UpdateReconcileInterval(cfg.Maximum(false), s, later, cfg);
    }
    ErrorGivesMinimum(t, ct, issue, obs, now, later, cfg);
    ErrorMeans(t, ct, issue, obs, now);
    if !written {
      return Result(if issue.conflict then 0 else 1, true);
    }
    return Result(retryInterval, true);
  }

  /** A transition that was just stamped brings the interval back to the minimum. */
  lemma TouchedGivesMinimum(t: Tracked, now: int, later: int, success: bool, cfg: Config)
    requires cfg.Valid() && Stamped(t, now)
    ensures t.touched != {} && later < now + cfg.minimum * SECOND ==>
              UpdatedInterval(t.view, later, cfg.Maximum(success), cfg) == cfg.minimum
  {
    if t.touched != {} && later < now + cfg.minimum * SECOND {
      TouchedMeansNow(t, now);
      assert (later - now) / SECOND < cfg.minimum;
    }
  }

  /** The conditions part of ManageSuccess. */
  method RecordSuccess(s: RuntimeComponentStatus, ct: ConditionType, obs: Observation,
                       now: int, later: int, cfg: Config, ghost t: Tracked)
    returns (oldCondition: Option<Slot>, newCondition: ConditionRef)
    requires s.Valid() && cfg.Valid() && t.view == s.GetView() && Stamped(t, now)
    modifies s, s.conditions
    ensures s.Valid() && s.GetView() == AfterSuccess(t, ct, obs, now).view
    ensures s.conditions == old(s.conditions) || fresh(s.conditions)
    ensures oldCondition.Some? ==> oldCondition.value.InRange()
    ensures newCondition.InRange()
    ensures AfterSuccess(t, ct, obs, now).calm ==>
              && Undisturbed(s) && !t.view.ChangedBy(Condition(ct, true, "", ""))
              && oldCondition.Some? && oldCondition.value.Read().SameFields(newCondition.Read())
              && (newCondition.Read().status == IsTrue <==> Holds(s.GetView(), Ready))
  {
    hide Stamped, ViewOf, AfterWarnings, AfterApplicationCheck;
    var c := Condition(ct, true, "", "");
    StampedIsWellTyped(t, now);
    SetMeansTrackedSet(t, c, now);
    SetKeepsStamps(t, c, now);
    s.SetCondition(c, now);
    ghost var t1 := t.Set(c, now);
    StampedIsWellTyped(t1, now);
    AddStatusWarnings(s, obs.warnings, now, t1);
    ghost var t2 := AfterWarnings(t1, obs.warnings, now);
    WarningsKeepStamps(t1, obs.warnings, now);
    CalmnessIsLost(t1, obs, now);
    oldCondition, newCondition := CheckApplicationStatus(s, obs, now, later, cfg, t2);
  }

  /** ManageSuccess; `written` says whether the status update at its end succeeds. */
  method ManageSuccess(s: RuntimeComponentStatus, ct: ConditionType, obs: Observation,
                       now: int, later: int, cfg: Config, written: bool, ghost t: Tracked)
    returns (result: Result)
    requires s.Valid() && cfg.Valid() && t.view == s.GetView() && Stamped(t, now)
    modifies s, s.conditions
    ensures s.Valid() && s.GetView() == AfterSuccess(t, ct, obs, now).view
    ensures s.conditions == old(s.conditions) || fresh(s.conditions)
    ensures !written ==> result == Result(1, true)
    ensures written ==>
              !result.requeue
              && s.reconcileInterval == if cfg.showReconcileInterval then Some(result.requeueAfter) else None
    ensures ct == Reconciled ==> SuccessShown(s.GetView(), obs)
    ensures written && later < now + cfg.minimum * SECOND && ct != Warning && t == Start(old(s.GetView()))
            && !NothingNew(old(s.GetView()), s.GetView()) ==>
              result.requeueAfter == cfg.minimum
    ensures written && StampedBefore(old(s.GetView()), now) && ct != Warning && t == Start(old(s.GetView()))
            && NothingNew(old(s.GetView()), s.GetView()) ==>
              QuietSuccessDelay(s.GetView(), later, cfg, result.requeueAfter)
  {
    hide Stamped, ViewOf, AfterSuccess, UpdatedInterval, Changed, BacksOff, StampedBefore, NothingNew, SuccessShown;
    var oldRecCondition := s.GetCondition(ct);
    var newRecCondition := Condition(ct, true, "", "");
    var oldCondition, newCondition := RecordSuccess(s, ct, obs, now, later, cfg, t);
    SuccessGivesMinimum(t, ct, obs, now, later, cfg);
    SuccessMeans(t, ct, obs, now);
    var retryInterval: int;
    if oldCondition.None? || !oldCondition.value.Read().SameFields(newCondition.Read())
       || oldRecCondition.None? || oldRecCondition.value.Read().status != newRecCondition.status
       || oldRecCondition.value.Read().message != newRecCondition.message
    {
      retryInterval := ResetReconcileInterval(s, cfg);
    } else if newCondition.Read().status != IsTrue {
      retryInterval := UpdateReconcileInterval(cfg.Maximum(false), s, later, cfg);
    } else {
      retryInterval := UpdateReconcileInterval(cfg.Maximum(true), s, later, cfg);
    }
    if !written {
      return Result(1, true);
    }
    return Result(retryInterval, false);
  }
}
