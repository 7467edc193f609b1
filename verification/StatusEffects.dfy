/**
 What ManageError and ManageSuccess of utils/reconciler.go, with the status checks
 of utils/status.go that they run, do to the status conditions, and the delay they
 ask for.  ReconcilerStatus proves the code against this.

 Times are nanoseconds.  One call reads the clock twice: every condition it changes
 is stamped `now`, and the requeue interval is computed at `later`.
 */
module StatusEffects {
  import opened Options
  import opened StatusConditions
  import opened Requeue
  import opened RequeueInterval

  datatype Issue = Issue(message: string, reason: string, conflict: bool)

  datatype StatusWarning = StatusWarning(applies: bool, message: string)

  /** What areReplicasReady or isKnativeReady reports. */
  datatype Report = Report(ready: bool, message: string, reason: string)

  /** Everything one call observes of the cluster. */
  datatype Observation = Observation(
    resources: Report,
    warnings: seq<StatusWarning>,
    discoveryError: Option<Issue>)  // Some if the component is exposed and GetIngressInfo cannot discover the API

  // ---------------------------------------------------------------------
  // Specification: the conditions after a call
  // ---------------------------------------------------------------------

  function Condition(t: ConditionType, ok: bool, message: string, reason: string): StatusCondition {
    StatusCondition(t, if ok then IsTrue else IsFalse, message, reason, None)
  }

  predicate Holds(v: View, t: ConditionType) {
    v.Get(t).Some? && v.Get(t).value.status == IsTrue
  }

  /**
   A view together with what happened to it during a call: `touched` are the types
   whose condition was added or changed and is still there, `calm` is false once any
   condition was added or changed.
   */
  datatype Tracked = Tracked(view: View, touched: set<ConditionType>, calm: bool)
  {
    function Set(c: StatusCondition, now: int): Tracked {
      if view.ChangedBy(c) then Tracked(view.Set(c, now), touched + {c.typ}, false)
      else this
    }

    function UnsetWarning(): Tracked {
      Tracked(view.Put(Warning, None), touched - {Warning}, calm)
    }
  }

  function Start(v: View): Tracked {
    Tracked(v, {}, true)
  }

  function FirstWarning(warnings: seq<StatusWarning>): Option<string> {
    if warnings == [] then None
    else if warnings[0].applies then Some(warnings[0].message)
    else FirstWarning(warnings[1..])
  }

  function AfterWarnings(t: Tracked, warnings: seq<StatusWarning>, now: int): Tracked {
    match FirstWarning(warnings)
    case Some(message) => t.Set(Condition(Warning, true, message, ""), now)
    case None => t.UnsetWarning()
  }

  const READY_MESSAGE := "Application is reconciled and resources are ready."

  function NotReconciled(): StatusCondition {
    Condition(Ready, false, "Application is not reconciled.", "ApplicationNotReconciled")
  }

  function ReadyCondition(resourcesReady: bool): StatusCondition {
    if resourcesReady then Condition(Ready, true, READY_MESSAGE, "")
    else Condition(Ready, false, "Resources are not ready.", "ResourcesNotReady")
  }

  function IssueCondition(t: ConditionType, issue: Issue): StatusCondition {
    Condition(t, false, issue.message, issue.reason)
  }

  function ResourcesCondition(obs: Observation): StatusCondition {
    Condition(ResourcesReady, obs.resources.ready, obs.resources.message, obs.resources.reason)
  }

  /** ManageError for Reconciled, which is what GetIngressInfo calls when it fails. */
  function AfterReconcileError(t: Tracked, issue: Issue, obs: Observation, now: int): Tracked {
    AfterWarnings(t.Set(IssueCondition(Reconciled, issue), now), obs.warnings, now).Set(NotReconciled(), now)
  }

  function AfterEndpointReport(t: Tracked, obs: Observation, now: int): Tracked {
    match obs.discoveryError
    case Some(issue) => AfterReconcileError(t, issue, obs, now)
    case None => t
  }

  function AfterApplicationCheck(t: Tracked, obs: Observation, now: int): Tracked {
    if !Holds(t.view, Reconciled) then t.Set(NotReconciled(), now)
    else
      var checked := AfterEndpointReport(t.Set(ResourcesCondition(obs), now), obs, now);
      checked.Set(ReadyCondition(Holds(checked.view, ResourcesReady)), now)
  }

  function AfterResourcesError(t: Tracked, now: int): Tracked {
    t.Set(Condition(Ready, false, "Resources are not ready.", ""), now)
     .Set(Condition(Reconciled, false, "Resources are not ready.", ""), now)
  }

  function AfterError(t: Tracked, ct: ConditionType, issue: Issue, obs: Observation, now: int): Tracked {
    var warned := AfterWarnings(t.Set(IssueCondition(ct, issue), now), obs.warnings, now);
    if ct != ResourcesReady then AfterApplicationCheck(warned, obs, now)
    else AfterResourcesError(warned, now)
  }

  function AfterSuccess(t: Tracked, ct: ConditionType, obs: Observation, now: int): Tracked {
    AfterApplicationCheck(AfterWarnings(t.Set(Condition(ct, true, "", ""), now), obs.warnings, now), obs, now)
  }

  // ---------------------------------------------------------------------
  // Specification: the delay after a call
  // ---------------------------------------------------------------------

  function Stamp(c: Option<StatusCondition>): Option<int> {
    if c.Some? then c.value.lastTransitionTime else None
  }

  /** The latest transition time of a view. */
  function LatestIn(v: View): Option<int> {
    Later(Later(Later(Stamp(v.ready), Stamp(v.reconciled)), Stamp(v.resourcesReady)), Stamp(v.warning))
  }

  function UpdatedInterval(v: View, later: int, maximum: int, cfg: Config): int
    requires cfg.Valid()
  {
    match LatestIn(v)
    case None => cfg.minimum
    case Some(latest) => IntervalFor((later - latest) / SECOND, maximum, cfg)
  }

  // ---------------------------------------------------------------------
  // Stamps
  // ---------------------------------------------------------------------

  ghost predicate WellTyped(v: View) {
    forall t :: v.Get(t).Some? ==> v.Get(t).value.typ == t
  }

  /** No condition carries a time after `now`. */
  ghost predicate StampedBy(v: View, now: int) {
    forall t :: Stamp(v.Get(t)).Some? ==> Stamp(v.Get(t)).value <= now
  }

  /** Every condition carries a time. */
  ghost predicate AllStamped(v: View) {
    forall t :: v.Get(t).Some? ==> Stamp(v.Get(t)).Some?
  }

  /** What every operation keeps about the stamps of the conditions it touched. */
  ghost predicate Stamped(t: Tracked, now: int) {
    && WellTyped(t.view)
    && StampedBy(t.view, now)
    && (forall ct :: ct in t.touched ==> Stamp(t.view.Get(ct)) == Some(now))
    && (t.calm ==> t.touched == {})
  }

  lemma GetAfterPut(v: View, t: ConditionType, c: Option<StatusCondition>, u: ConditionType)
    ensures v.Put(t, c).Get(u) == if u == t then c else v.Get(u)
  {
  }

  lemma SetKeepsStamps(t: Tracked, c: StatusCondition, now: int)
    requires Stamped(t, now) && c.status != Blank
    ensures Stamped(t.Set(c, now), now)
    ensures AllStamped(t.view) ==> AllStamped(t.Set(c, now).view)
    ensures t.view.ChangedBy(c) ==> c.typ in t.Set(c, now).touched
  {
    forall u {
      GetAfterPut(t.view, c.typ, t.view.Set(c, now).Get(c.typ), u);
    }
  }

  lemma UnsetKeepsStamps(t: Tracked, now: int)
    requires Stamped(t, now)
    ensures Stamped(t.UnsetWarning(), now)
    ensures AllStamped(t.view) ==> AllStamped(t.UnsetWarning().view)
  {
    forall u {
      GetAfterPut(t.view, Warning, None, u);
    }
  }

  /** On a well-typed view, setting what is already there is no change. */
  lemma SetSameIsIdentity(v: View, c: StatusCondition, now: int)
    requires WellTyped(v) && !v.ChangedBy(c)
    ensures v.Set(c, now) == v
  {
    assert v.Get(c.typ).Some?;
  }

  lemma WarningsKeepStamps(t: Tracked, warnings: seq<StatusWarning>, now: int)
    requires Stamped(t, now)
    ensures var r := AfterWarnings(t, warnings, now);
            Stamped(r, now) && (AllStamped(t.view) ==> AllStamped(r.view))
  {
    hide Stamped, AllStamped;
    match FirstWarning(warnings) {
      case Some(message) => SetKeepsStamps(t, Condition(Warning, true, message, ""), now);
      case None => UnsetKeepsStamps(t, now);
    }
  }

  lemma EndpointReportKeepsStamps(t: Tracked, obs: Observation, now: int)
    requires Stamped(t, now)
    ensures var r := AfterEndpointReport(t, obs, now);
            Stamped(r, now) && (AllStamped(t.view) ==> AllStamped(r.view))
  {
    hide Stamped, AllStamped, AfterWarnings;
    match obs.discoveryError {
      case Some(issue) =>
        var reconciled := t.Set(IssueCondition(Reconciled, issue), now);
        SetKeepsStamps(t, IssueCondition(Reconciled, issue), now);
        WarningsKeepStamps(reconciled, obs.warnings, now);
        SetKeepsStamps(AfterWarnings(reconciled, obs.warnings, now), NotReconciled(), now);
      case None =>
    }
  }

  lemma ApplicationCheckKeepsStamps(t: Tracked, obs: Observation, now: int)
    requires Stamped(t, now)
    ensures var r := AfterApplicationCheck(t, obs, now);
            Stamped(r, now) && (AllStamped(t.view) ==> AllStamped(r.view))
  {
    hide Stamped, AllStamped, AfterEndpointReport;
    if !Holds(t.view, Reconciled) {
      SetKeepsStamps(t, NotReconciled(), now);
    } else {
      var t1 := t.Set(ResourcesCondition(obs), now);
      SetKeepsStamps(t, ResourcesCondition(obs), now);
      EndpointReportKeepsStamps(t1, obs, now);
      var t2 := AfterEndpointReport(t1, obs, now);
      SetKeepsStamps(t2, ReadyCondition(Holds(t2.view, ResourcesReady)), now);
    }
  }

  lemma ErrorKeepsStamps(t: Tracked, ct: ConditionType, issue: Issue, obs: Observation, now: int)
    requires Stamped(t, now)
    ensures var r := AfterError(t, ct, issue, obs, now);
            Stamped(r, now) && (AllStamped(t.view) ==> AllStamped(r.view))
  {
    hide AllStamped, Stamped, AfterWarnings, AfterApplicationCheck;
    var t1 := t.Set(IssueCondition(ct, issue), now);
    SetKeepsStamps(t, IssueCondition(ct, issue), now);
    var t2 := AfterWarnings(t1, obs.warnings, now);
    WarningsKeepStamps(t1, obs.warnings, now);
    if ct != ResourcesReady {
      ApplicationCheckKeepsStamps(t2, obs, now);
    } else {
      var ready := Condition(Ready, false, "Resources are not ready.", "");
      SetKeepsStamps(t2, ready, now);
      SetKeepsStamps(t2.Set(ready, now), Condition(Reconciled, false, "Resources are not ready.", ""), now);
    }
  }

  lemma SuccessKeepsStamps(t: Tracked, ct: ConditionType, obs: Observation, now: int)
    requires Stamped(t, now)
    ensures var r := AfterSuccess(t, ct, obs, now);
            Stamped(r, now) && (AllStamped(t.view) ==> AllStamped(r.view))
  {
    hide AllStamped, Stamped, AfterWarnings, AfterApplicationCheck;
    var t1 := t.Set(Condition(ct, true, "", ""), now);
    SetKeepsStamps(t, Condition(ct, true, "", ""), now);
    WarningsKeepStamps(t1, obs.warnings, now);
    ApplicationCheckKeepsStamps(AfterWarnings(t1, obs.warnings, now), obs, now);
  }

  /** If any condition was touched, the latest transition is the present. */
  lemma TouchedMeansNow(t: Tracked, now: int)
    requires Stamped(t, now) && t.touched != {}
    ensures LatestIn(t.view) == Some(now)
  {
    var ct :| ct in t.touched;
    assert Stamp(t.view.Get(ct)) == Some(now);
    assert forall u :: Stamp(t.view.Get(u)).Some? ==> Stamp(t.view.Get(u)).value <= now;
    assert t.view.Get(Ready) == t.view.ready && t.view.Get(Reconciled) == t.view.reconciled;
    assert t.view.Get(ResourcesReady) == t.view.resourcesReady && t.view.Get(Warning) == t.view.warning;
  }

  /** The loop over the list and the maximum over the view agree. */
  lemma LatestOfList(s: seq<StatusCondition>)
    requires Distinct(s)
    ensures Latest(s) == LatestIn(ViewOf(s))
  {
    hide ViewOf, Latest, LatestIn, IndexOf, Lookup;
    var v := ViewOf(s);
    LatestInIsGreatest(v);
    LatestIsGreatest(s);
    if Latest(s).Some? {
      var i :| 0 <= i < |s| && s[i].lastTransitionTime == Latest(s);
      StampOfEntry(s, i);
    }
    if LatestIn(v).Some? {
      var t :| Stamp(v.Get(t)) == LatestIn(v);
      var i := EntryOfStamp(s, t);
    }
  }

  lemma EntryOfStamp(s: seq<StatusCondition>, t: ConditionType) returns (i: nat)
    requires Stamp(ViewOf(s).Get(t)).Some?
    ensures i < |s| && s[i].lastTransitionTime == Stamp(ViewOf(s).Get(t))
  {
    ViewIsLookup(s, t);
    i := IndexOf(s, t);
  }

  lemma StampOfEntry(s: seq<StatusCondition>, i: nat)
    requires Distinct(s) && i < |s|
    ensures Stamp(ViewOf(s).Get(s[i].typ)) == s[i].lastTransitionTime
  {
    LookupFinds(s, i);
    ViewIsLookup(s, s[i].typ);
  }

  lemma LatestInIsGreatest(v: View)
    ensures LatestIn(v).None? <==> forall t :: Stamp(v.Get(t)).None?
    ensures LatestIn(v).Some? ==>
              && (exists t :: Stamp(v.Get(t)) == LatestIn(v))
              && (forall t :: Stamp(v.Get(t)).Some? ==> Stamp(v.Get(t)).value <= LatestIn(v).value)
  {
    assert v.Get(Ready) == v.ready && v.Get(Reconciled) == v.reconciled;
    assert v.Get(ResourcesReady) == v.resourcesReady && v.Get(Warning) == v.warning;
    assert Stamp(v.Get(Ready)) == LatestIn(v) || Stamp(v.Get(Reconciled)) == LatestIn(v)
        || Stamp(v.Get(ResourcesReady)) == LatestIn(v) || Stamp(v.Get(Warning)) == LatestIn(v);
  }

  // ---------------------------------------------------------------------
  // Every change of a condition is still visible at the end of the call
  // ---------------------------------------------------------------------

  /** Some condition other than Warning was changed. */
  predicate Marked(t: Tracked) {
    exists ct :: ct in t.touched && ct != Warning
  }

  lemma SetKeepsMark(t: Tracked, c: StatusCondition, now: int)
    ensures Marked(t) ==> Marked(t.Set(c, now))
    ensures !t.Set(c, now).calm && t.calm ==> c.typ in t.Set(c, now).touched
    ensures t.touched <= t.Set(c, now).touched
  {
    if Marked(t) {
      var ct :| ct in t.touched && ct != Warning;
      assert ct in t.Set(c, now).touched;
    }
  }

  lemma WarningsKeepMark(t: Tracked, warnings: seq<StatusWarning>, now: int)
    requires !t.calm ==> Marked(t)
    ensures var r := AfterWarnings(t, warnings, now);
            && (Marked(t) ==> Marked(r))
            && (!r.calm ==> Marked(r) || Warning in r.touched)
  {
    if Marked(t) {
      var ct :| ct in t.touched && ct != Warning;
      assert ct in AfterWarnings(t, warnings, now).touched;
    }
  }

  /** From here on, what was changed stays marked, or the Warning stays touched. */
  lemma ApplicationCheckKeepsMark(t: Tracked, obs: Observation, now: int)
    requires !t.calm ==> t.touched != {}
    ensures var r := AfterApplicationCheck(t, obs, now); !r.calm ==> r.touched != {}
  {
    hide AfterWarnings;
    if !Holds(t.view, Reconciled) {
      SetKeepsMark(t, NotReconciled(), now);
    } else {
      var t1 := t.Set(ResourcesCondition(obs), now);
      SetKeepsMark(t, ResourcesCondition(obs), now);
      var t2 := AfterEndpointReport(t1, obs, now);
      if obs.discoveryError.Some? {
        var issue := obs.discoveryError.value;
        var r1 := t1.Set(IssueCondition(Reconciled, issue), now);
        assert Reconciled in r1.touched && Marked(r1);
        WarningsKeepMark(r1, obs.warnings, now);
        SetKeepsMark(AfterWarnings(r1, obs.warnings, now), NotReconciled(), now);
      }
      SetKeepsMark(t2, ReadyCondition(Holds(t2.view, ResourcesReady)), now);
    }
  }

  /** So a call for any type but Warning that changes something touches something. */
  lemma ErrorChangeIsTouched(v: View, ct: ConditionType, issue: Issue, obs: Observation, now: int)
    requires ct != Warning
    ensures var r := AfterError(Start(v), ct, issue, obs, now); r.calm || r.touched != {}
  {
    hide AfterWarnings, AfterApplicationCheck;
    var t1 := Start(v).Set(IssueCondition(ct, issue), now);
    SetKeepsMark(Start(v), IssueCondition(ct, issue), now);
    WarningsKeepMark(t1, obs.warnings, now);
    var t2 := AfterWarnings(t1, obs.warnings, now);
    if ct != ResourcesReady {
      ApplicationCheckKeepsMark(t2, obs, now);
    } else {
      var ready := Condition(Ready, false, "Resources are not ready.", "");
      SetKeepsMark(t2, ready, now);
      SetKeepsMark(t2.Set(ready, now), Condition(Reconciled, false, "Resources are not ready.", ""), now);
    }
  }

  lemma SuccessChangeIsTouched(v: View, ct: ConditionType, obs: Observation, now: int)
    requires ct != Warning
    ensures var r := AfterSuccess(Start(v), ct, obs, now); r.calm || r.touched != {}
  {
    hide AfterWarnings, AfterApplicationCheck;
    var t1 := Start(v).Set(Condition(ct, true, "", ""), now);
    SetKeepsMark(Start(v), Condition(ct, true, "", ""), now);
    WarningsKeepMark(t1, obs.warnings, now);
    ApplicationCheckKeepsMark(AfterWarnings(t1, obs.warnings, now), obs, now);
  }
}
