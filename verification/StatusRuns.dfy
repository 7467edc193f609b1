/**
 What ManageError and ManageSuccess keep over whole runs: the Ready condition agrees
 with the other two, and an unchanged component is visited less and less often.
 */
module StatusRuns {
  import opened Options
  import opened Requeue
  import opened RequeueInterval
  import opened StatusConditions
  import opened StatusEffects
  import opened StatusMeaning

  // ---------------------------------------------------------------------
  // Ready coherence
  // ---------------------------------------------------------------------

  datatype Call =
    | ErrorCall(issue: Issue, ct: ConditionType, obs: Observation)
    | SuccessCall(ct: ConditionType, obs: Observation)

  function Apply(v: View, call: Call, now: int): View {
    match call
    case ErrorCall(issue, ct, obs) => AfterError(Start(v), ct, issue, obs, now).view
    case SuccessCall(ct, obs) => AfterSuccess(Start(v), ct, obs, now).view
  }

  /** Ready is True exactly when Reconciled and ResourcesReady both are. */
  predicate Coherent(v: View) {
    Holds(v, Ready) <==> Holds(v, Reconciled) && Holds(v, ResourcesReady)
  }

  /** Whether the call gets as far as reporting the external endpoint. */
  predicate ReportsEndpoint(v: View, call: Call) {
    match call
    case ErrorCall(_, ct, _) => ct != Reconciled && ct != ResourcesReady && Holds(v, Reconciled)
    case SuccessCall(ct, _) => ct == Reconciled || Holds(v, Reconciled)
  }

  /**
   Whether GetIngressInfo fails in the middle of the status check of an application
   whose resources are ready.  It then reports "not reconciled" behind the back of
   the check, which goes on to set Ready.
   */
  predicate DiscoveryFailsWhileReady(v: View, call: Call) {
    ReportsEndpoint(v, call) && call.obs.discoveryError.Some? && call.obs.resources.ready
  }

  /** One call makes any status coherent, unless discovery fails while ready. */
  lemma CallCoherence(v: View, call: Call, now: int)
    ensures Coherent(Apply(v, call, now)) <==> !DiscoveryFailsWhileReady(v, call)
  {
    match call {
      case ErrorCall(issue, ct, obs) =>
        var t1 := Start(v).Set(IssueCondition(ct, issue), now);
        SetHolds(Start(v), IssueCondition(ct, issue), now);
        WarningsHold(t1, obs.warnings, now);
        var t2 := AfterWarnings(t1, obs.warnings, now);
        if ct == ResourcesReady {
          var ready := Condition(Ready, false, "Resources are not ready.", "");
          SetHolds(t2, ready, now);
          SetHolds(t2.Set(ready, now), Condition(Reconciled, false, "Resources are not ready.", ""), now);
        } else {
          CheckCoherence(t2, obs, now);
        }
      case SuccessCall(ct, obs) =>
        var t1 := Start(v).Set(Condition(ct, true, "", ""), now);
        SetHolds(Start(v), Condition(ct, true, "", ""), now);
        WarningsHold(t1, obs.warnings, now);
        CheckCoherence(AfterWarnings(t1, obs.warnings, now), obs, now);
    }
  }

  lemma SetHolds(t: Tracked, c: StatusCondition, now: int)
    ensures forall u :: Holds(t.Set(c, now).view, u) <==>
                        if u == c.typ then c.status == IsTrue else Holds(t.view, u)
  {
  }

  lemma WarningsHold(t: Tracked, warnings: seq<StatusWarning>, now: int)
    ensures forall u :: u != Warning ==> (Holds(AfterWarnings(t, warnings, now).view, u) <==> Holds(t.view, u))
  {
  }

  lemma CheckCoherence(t: Tracked, obs: Observation, now: int)
    ensures Coherent(AfterApplicationCheck(t, obs, now).view) <==>
            !(Holds(t.view, Reconciled) && obs.discoveryError.Some? && obs.resources.ready)
  {
    hide AfterWarnings, Holds, AfterReconcileError;
    if !Holds(t.view, Reconciled) {
      SetHolds(t, NotReconciled(), now);
    } else {
      var t1 := t.Set(ResourcesCondition(obs), now);
      SetHolds(t, ResourcesCondition(obs), now);
      var t2 := AfterEndpointReport(t1, obs, now);
      if obs.discoveryError.Some? {
        ReconcileErrorHolds(t1, obs.discoveryError.value, obs, now);
      }
      SetHolds(t2, ReadyCondition(Holds(t2.view, ResourcesReady)), now);
    }
  }

  lemma ReconcileErrorHolds(t: Tracked, issue: Issue, obs: Observation, now: int)
    ensures var r := AfterReconcileError(t, issue, obs, now).view;
            !Holds(r, Reconciled) && (Holds(r, ResourcesReady) <==> Holds(t.view, ResourcesReady))
  {
    hide AfterWarnings, Holds;
    var t1 := t.Set(IssueCondition(Reconciled, issue), now);
    SetHolds(t, IssueCondition(Reconciled, issue), now);
    WarningsHold(t1, obs.warnings, now);
    SetHolds(AfterWarnings(t1, obs.warnings, now), NotReconciled(), now);
  }

  /** The conditions that the status check of a call finds, if it makes that check. */
  function BeforeCheck(v: View, call: Call, now: int): Option<Tracked> {
    match call
    case ErrorCall(issue, ct, obs) =>
      if ct == ResourcesReady then None
      else Some(AfterWarnings(Start(v).Set(IssueCondition(ct, issue), now), obs.warnings, now))
    case SuccessCall(ct, obs) =>
      Some(AfterWarnings(Start(v).Set(Condition(ct, true, "", ""), now), obs.warnings, now))
  }

  /** The status that ManageError writes when GetIngressInfo calls it in the middle of the check. */
  function Nested(v: View, call: Call, now: int): Option<View> {
    match (BeforeCheck(v, call, now), call.obs.discoveryError)
    case (Some(t), Some(issue)) =>
      if Holds(t.view, Reconciled) then
        Some(AfterReconcileError(t.Set(ResourcesCondition(call.obs), now), issue, call.obs, now).view)
      else None
    case _ => None
  }

  /** It is always coherent; the call around it makes it incoherent, if anything does. */
  lemma NestedIsCoherent(v: View, call: Call, now: int)
    ensures Nested(v, call, now).Some? ==> Coherent(Nested(v, call, now).value)
  {
    hide AfterReconcileError, BeforeCheck, Holds;
    if Nested(v, call, now).Some? {
      var t := BeforeCheck(v, call, now).value.Set(ResourcesCondition(call.obs), now);
      ReconcileErrorIsCoherent(t, call.obs.discoveryError.value, call.obs, now);
    }
  }

  /** When there is a nested call, and what it shows. */
  lemma NestedExactly(v: View, call: Call, now: int)
    ensures Nested(v, call, now).Some? <==> ReportsEndpoint(v, call) && call.obs.discoveryError.Some?
    ensures Nested(v, call, now).Some? ==>
              var r, report := Nested(v, call, now).value, call.obs.resources;
              && ReconcileErrorShown(r, call.obs.discoveryError.value, call.obs)
              && Says(r, ResourcesReady, if report.ready then IsTrue else IsFalse, report.message, report.reason)
  {
    hide AfterWarnings, AfterReconcileError, ReconcileErrorShown, Says;
    var obs := call.obs;
    match call {
      case ErrorCall(issue, ct, _) =>
        SetHolds(Start(v), IssueCondition(ct, issue), now);
        WarningsHold(Start(v).Set(IssueCondition(ct, issue), now), obs.warnings, now);
      case SuccessCall(ct, _) =>
        SetHolds(Start(v), Condition(ct, true, "", ""), now);
        WarningsHold(Start(v).Set(Condition(ct, true, "", ""), now), obs.warnings, now);
    }
    if Nested(v, call, now).Some? {
      var t := BeforeCheck(v, call, now).value;
      SetSays(t, ResourcesCondition(obs), now);
      var t1 := t.Set(ResourcesCondition(obs), now);
      ReconcileErrorSays(t1, obs.discoveryError.value, obs, now);
      SameConditionSaysTheSame(t1.view, Nested(v, call, now).value, ResourcesReady);
    }
  }

  lemma ReconcileErrorIsCoherent(t: Tracked, issue: Issue, obs: Observation, now: int)
    ensures Coherent(AfterReconcileError(t, issue, obs, now).view)
  {
    hide Holds, AfterWarnings;
    var t1 := AfterWarnings(t.Set(IssueCondition(Reconciled, issue), now), obs.warnings, now);
    SetHolds(t1, NotReconciled(), now);
    ReconcileErrorHolds(t, issue, obs, now);
  }

  /**
   One step of a run: a call on the status in memory, whose write to the cluster, and
   that of a call nested in it, may or may not succeed, or a new pass that reads a stored
   status: the latest one, or an earlier one from the cache.
   */
  datatype Step =
    | Do(call: Call, now: int, nestedWritten: bool, written: bool)
    | Reload(version: nat)

  /** The status in memory, and every version that the cluster has stored. */
  datatype Run = Run(memory: View, stored: seq<View>)

  function Next(r: Run, step: Step): Run {
    match step
    case Do(call, now, nestedWritten, written) =>
      var v, nested := Apply(r.memory, call, now), Nested(r.memory, call, now);
      Run(v, r.stored + (if nestedWritten && nested.Some? then [nested.value] else []) + (if written then [v] else []))
    case Reload(version) =>
      if version < |r.stored| then r.(memory := r.stored[version]) else r
  }

  function After(r: Run, steps: seq<Step>): Run {
    if steps == [] then r else Next(After(r, steps[..|steps| - 1]), steps[|steps| - 1])
  }

  /** Starting from a component that was never reconciled. */
  function Reached(steps: seq<Step>): Run {
    After(Run(NO_CONDITIONS, [NO_CONDITIONS]), steps)
  }

  /** The discovery calls of a run succeed whenever they matter. */
  ghost predicate DiscoverySucceeds(steps: seq<Step>) {
    forall i :: 0 <= i < |steps| && steps[i].Do? ==>
      !DiscoveryFailsWhileReady(Reached(steps[..i]).memory, steps[i].call)
  }

  ghost predicate AllCoherent(r: Run) {
    Coherent(r.memory) && forall i :: 0 <= i < |r.stored| ==> Coherent(r.stored[i])
  }

  /** Ready is coherent in memory and in every stored version after any such run. */
  lemma {:induction false} ReadyIsCoherent(steps: seq<Step>)
    requires DiscoverySucceeds(steps)
    ensures AllCoherent(Reached(steps))
  {
    hide Next, AllCoherent, DiscoverySucceeds, DiscoveryFailsWhileReady;
    if steps == [] {
      StartIsCoherent();
    } else {
      var init, last := steps[..|steps| - 1], steps[|steps| - 1];
      DiscoverySucceedsInPrefix(steps, |init|);
      ReadyIsCoherent(init);
      DiscoverySucceedsLast(steps);
      NextIsCoherent(Reached(init), last);
    }
  }

  lemma StartIsCoherent()
    ensures AllCoherent(Run(NO_CONDITIONS, [NO_CONDITIONS]))
  {
  }

  lemma DiscoverySucceedsLast(steps: seq<Step>)
    requires DiscoverySucceeds(steps) && steps != []
    ensures var last := steps[|steps| - 1];
            last.Do? ==> !DiscoveryFailsWhileReady(Reached(steps[..|steps| - 1]).memory, last.call)
  {
    hide Reached, DiscoveryFailsWhileReady;
  }

  lemma NextIsCoherent(r: Run, step: Step)
    requires AllCoherent(r) && (step.Do? ==> !DiscoveryFailsWhileReady(r.memory, step.call))
    ensures AllCoherent(Next(r, step))
  {
    hide Apply, Nested, Coherent, DiscoveryFailsWhileReady;
    if step.Do? {
      CallCoherence(r.memory, step.call, step.now);
      NestedIsCoherent(r.memory, step.call, step.now);
    }
  }

  lemma DiscoverySucceedsInPrefix(steps: seq<Step>, n: nat)
    requires DiscoverySucceeds(steps) && n <= |steps|
    ensures DiscoverySucceeds(steps[..n])
  {
    hide Reached, DiscoveryFailsWhileReady;
    var init := steps[..n];
    forall i | 0 <= i < |init| && init[i].Do?
      ensures !DiscoveryFailsWhileReady(Reached(init[..i]).memory, init[i].call)
    {
      assert init[i] == steps[i] && init[..i] == steps[..i];
    }
  }

  /** And only after such runs: at every moment of a run Ready is coherent exactly if discovery succeeds. */
  lemma ReadyIsCoherentExactly(steps: seq<Step>)
    ensures DiscoverySucceeds(steps) <==> forall n :: 0 <= n <= |steps| ==> AllCoherent(Reached(steps[..n]))
  {
    hide Apply, Nested, Coherent, DiscoveryFailsWhileReady, AllCoherent;
    if DiscoverySucceeds(steps) {
      forall n | 0 <= n <= |steps|
        ensures AllCoherent(Reached(steps[..n]))
      {
        DiscoverySucceedsInPrefix(steps, n);
        ReadyIsCoherent(steps[..n]);
      }
    } else {
      var i :| 0 <= i < |steps| && steps[i].Do? && DiscoveryFailsWhileReady(Reached(steps[..i]).memory, steps[i].call);
      assert steps[..i + 1][..i] == steps[..i] && steps[..i + 1][i] == steps[i];
      CallCoherence(Reached(steps[..i]).memory, steps[i].call, steps[i].now);
      MemoryIsCoherent(Reached(steps[..i + 1]));
    }
  }

  lemma MemoryIsCoherent(r: Run)
    ensures AllCoherent(r) ==> Coherent(r.memory)
  {
  }

  /** Without that condition it is not: an exposed, ready application is enough. */
  lemma DiscoveryFailureBreaksCoherence(issue: Issue, report: Report, now: int)
    requires report.ready
    ensures var obs := Observation(report, [], Some(issue));
            var v := Reached([Do(SuccessCall(Reconciled, obs), now, false, true)]).stored;
            |v| == 2 && Holds(v[1], Ready) && !Holds(v[1], Reconciled)
  {
    var obs := Observation(report, [], Some(issue));
    var steps := [Do(SuccessCall(Reconciled, obs), now, false, true)];
    var start := Run(NO_CONDITIONS, [NO_CONDITIONS]);
    assert steps[..|steps| - 1] == [] && After(start, []) == start;
    assert Reached(steps) == Next(start, steps[0]);
  }

  // ---------------------------------------------------------------------
  // Backoff
  // ---------------------------------------------------------------------

  /** A pass that changes no condition: it reads the clock twice and asks for a delay. */
  datatype Pass = Pass(call: Call, now: int, later: int, delay: int)

  ghost predicate ChangesNothing(v: View, p: Pass) {
    && p.now <= p.later
    && StampedBy(v, p.now)
    && match p.call
       case ErrorCall(issue, ct, obs) => AfterError(Start(v), ct, issue, obs, p.now) == Start(v)
       case SuccessCall(ct, obs) => AfterSuccess(Start(v), ct, obs, p.now) == Start(v)
  }

  /** Each pass starts no earlier than the previous one asked for. */
  ghost predicate OnTime(passes: seq<Pass>) {
    forall i, j :: 0 <= i && j == i + 1 && j < |passes| ==>
      passes[i].later + passes[i].delay * SECOND <= passes[j].now
  }

  /** A run of ManageSuccess calls on a status that stays as it is. */
  ghost predicate QuietSuccesses(v: View, passes: seq<Pass>, cfg: Config)
    requires cfg.Valid()
  {
    forall i :: 0 <= i < |passes| ==>
      && ChangesNothing(v, passes[i]) && passes[i].call.SuccessCall?
      && QuietSuccessDelay(v, passes[i].later, cfg, passes[i].delay)
  }

  /** The interval in the status when pass `i` starts. */
  function ShownBefore(shown: Option<int>, passes: seq<Pass>, i: nat, cfg: Config): Option<int>
    requires i < |passes|
  {
    if i == 0 then shown else if cfg.showReconcileInterval then Some(passes[i - 1].delay) else None
  }

  /** A run of ManageError calls on a status that stays as it is. */
  ghost predicate QuietErrors(v: View, shown: Option<int>, passes: seq<Pass>, cfg: Config)
    requires cfg.Valid()
  {
    forall i :: 0 <= i < |passes| ==>
      && ChangesNothing(v, passes[i]) && passes[i].call.ErrorCall?
      && QuietErrorDelay(v, ShownBefore(shown, passes, i, cfg), passes[i].later, cfg, passes[i].delay)
  }

  /** A call that changes nothing found the Ready condition, so there is a transition time. */
  lemma QuietStatusHasReady(v: View, p: Pass)
    requires ChangesNothing(v, p) && AllStamped(v)
    ensures LatestIn(v).Some? && LatestIn(v).value <= p.now
  {
    ReadyIsSet(v, p.call, p.now);
    LatestInIsGreatest(v);
    assert v.Get(Ready) == v.ready;
    assert Stamp(v.Get(Ready)).Some?;
  }

  lemma ReadyIsSet(v: View, call: Call, now: int)
    ensures Apply(v, call, now).ready.Some?
  {
    hide AfterWarnings, AfterEndpointReport;
    match call {
      case ErrorCall(issue, ct, obs) =>
        SetPuts(AfterWarnings(Start(v).Set(IssueCondition(ct, issue), now), obs.warnings, now),
                Condition(Ready, false, "Resources are not ready.", ""), now);
        CheckSetsReady(AfterWarnings(Start(v).Set(IssueCondition(ct, issue), now), obs.warnings, now), obs, now);
      case SuccessCall(ct, obs) =>
        CheckSetsReady(AfterWarnings(Start(v).Set(Condition(ct, true, "", ""), now), obs.warnings, now), obs, now);
    }
  }

  lemma SetPuts(t: Tracked, c: StatusCondition, now: int)
    ensures t.Set(c, now).view.Get(c.typ).Some?
  {
  }

  lemma CheckSetsReady(t: Tracked, obs: Observation, now: int)
    ensures AfterApplicationCheck(t, obs, now).view.ready.Some?
  {
    hide AfterEndpointReport;
    if Holds(t.view, Reconciled) {
      var t2 := AfterEndpointReport(t.Set(ResourcesCondition(obs), now), obs, now);
      SetPuts(t2, ReadyCondition(Holds(t2.view, ResourcesReady)), now);
    } else {
      SetPuts(t, NotReconciled(), now);
    }
  }

  /** Whole-second arithmetic: a delay in nanoseconds counts in full. */
  lemma DelayCounts(a: int, b: int, latest: int, delay: int)
    requires a + delay * SECOND <= b
    ensures (a - latest) / SECOND + delay <= (b - latest) / SECOND
  {
    var x, y := a - latest, b - latest;
    assert (x + delay * SECOND) / SECOND == x / SECOND + delay;
  }

  /** The time since the latest transition and the delays of a run. */
  function Elapsed(passes: seq<Pass>, latest: int): (elapsed: seq<int>)
    ensures |elapsed| == |passes|
    ensures forall i :: 0 <= i < |passes| ==> elapsed[i] == (passes[i].later - latest) / SECOND
  {
    seq(|passes|, i requires 0 <= i < |passes| => (passes[i].later - latest) / SECOND)
  }

  function Delays(passes: seq<Pass>): (delays: seq<int>)
    ensures |delays| == |passes|
    ensures forall i :: 0 <= i < |passes| ==> delays[i] == passes[i].delay
  {
    seq(|passes|, i requires 0 <= i < |passes| => passes[i].delay)
  }

  lemma QuietRunIsBackoffRun(v: View, passes: seq<Pass>, success: bool, cfg: Config, latest: int)
    requires cfg.Valid() && AllStamped(v) && OnTime(passes) && LatestIn(v) == Some(latest)
    requires forall i :: 0 <= i < |passes| ==>
               && ChangesNothing(v, passes[i])
               && (passes[i].delay == UpdatedInterval(v, passes[i].later, cfg.Maximum(success), cfg)
                   || (i == 0 && passes[i].delay == cfg.minimum))
    ensures BackoffRun(Elapsed(passes, latest), Delays(passes), cfg.Maximum(success), cfg)
  {
    hide ChangesNothing, IntervalFor, LatestIn, Elapsed, Delays, AllStamped;
    var elapsed, delays := Elapsed(passes, latest), Delays(passes);
    forall i | 0 <= i < |passes|
      ensures 0 <= elapsed[i]
      ensures delays[i] == IntervalFor(elapsed[i], cfg.Maximum(success), cfg) || (i == 0 && delays[i] == cfg.minimum)
    {
      QuietStatusHasReady(v, passes[i]);
      QuietPassIsOrdered(v, passes[i]);
    }
    forall i, j | 0 <= i && j == i + 1 && j < |passes|
      ensures elapsed[i] + delays[i] <= elapsed[j]
    {
      QuietPassIsOrdered(v, passes[j]);
      DelayCounts(passes[i].later, passes[j].later, latest, passes[i].delay);
    }
  }

  /**
   The delays never decrease, reach the maximum within ceil(maximum / minimum) passes
   after the first, and stay there.
   */
  ghost predicate Converges(passes: seq<Pass>, maximum: int, minimum: int)
    requires 0 < minimum
  {
    && (forall i, j :: 0 <= i <= j < |passes| ==> passes[i].delay <= passes[j].delay)
    && (forall i :: 0 <= i < |passes| && (maximum + minimum - 1) / minimum <= i ==> passes[i].delay == maximum)
  }

  /** The passes of a quiet run back off as RequeueInterval describes. */
  lemma QuietRunBacksOff(v: View, passes: seq<Pass>, success: bool, cfg: Config)
    requires cfg.Valid() && AllStamped(v) && OnTime(passes)
    requires forall i :: 0 <= i < |passes| ==>
               && ChangesNothing(v, passes[i])
               && (passes[i].delay == UpdatedInterval(v, passes[i].later, cfg.Maximum(success), cfg)
                   || (i == 0 && passes[i].delay == cfg.minimum))
    ensures Converges(passes, cfg.Maximum(success), cfg.minimum)
  {
    hide ChangesNothing, UpdatedInterval, LatestIn, Elapsed, Delays, AllStamped, BackoffRun;
    if passes != [] {
      QuietStatusHasReady(v, passes[0]);
      var latest := LatestIn(v).value;
      QuietRunIsBackoffRun(v, passes, success, cfg, latest);
      BackoffConverges(Elapsed(passes, latest), Delays(passes), success, cfg);
      forall i, j | 0 <= i <= j < |passes|
        ensures passes[i].delay <= passes[j].delay
      {
        assert Delays(passes)[i] <= Delays(passes)[j];
      }
    }
  }

  lemma QuietPassIsOrdered(v: View, p: Pass)
    requires ChangesNothing(v, p)
    ensures p.now <= p.later
  {
  }

  /**
   While nothing changes and no pass is early, the delays after a success converge to
   the maximum: the one for successes exactly when the component is ready.
   */
  lemma SuccessBackoffConverges(v: View, passes: seq<Pass>, cfg: Config)
    requires cfg.Valid() && AllStamped(v) && OnTime(passes) && QuietSuccesses(v, passes, cfg)
    ensures Converges(passes, if Holds(v, Ready) then cfg.successMaximum else cfg.failureMaximum, cfg.minimum)
  {
    hide ChangesNothing, UpdatedInterval, BacksOff;
    forall i | 0 <= i < |passes|
      ensures passes[i].delay == UpdatedInterval(v, passes[i].later, cfg.Maximum(Holds(v, Ready)), cfg)
    {
      BacksOffExactly(v, passes[i].later, cfg.Maximum(Holds(v, Ready)), cfg, passes[i].delay);
    }
    QuietRunBacksOff(v, passes, Holds(v, Ready), cfg);
  }

  /**
   The same after errors, if the interval is shown in the status; if it is hidden,
   every error after the first asks for the minimum again.
   */
  lemma ErrorBackoffConverges(v: View, shown: Option<int>, passes: seq<Pass>, cfg: Config)
    requires cfg.Valid() && AllStamped(v) && OnTime(passes) && QuietErrors(v, shown, passes, cfg)
    ensures cfg.showReconcileInterval ==> Converges(passes, cfg.failureMaximum, cfg.minimum)
    ensures !cfg.showReconcileInterval ==>
              forall i :: 0 <= i < |passes| && (0 < i || shown.None?) ==> passes[i].delay == cfg.minimum
  {
    hide QuietErrors, OnTime, AllStamped, ChangesNothing, UpdatedInterval, Converges;
    forall i | 0 <= i < |passes|
      ensures ChangesNothing(v, passes[i])
      ensures cfg.showReconcileInterval ==>
                passes[i].delay == UpdatedInterval(v, passes[i].later, cfg.Maximum(false), cfg)
                || (i == 0 && passes[i].delay == cfg.minimum)
      ensures !cfg.showReconcileInterval && (0 < i || shown.None?) ==> passes[i].delay == cfg.minimum
    {
      QuietErrorPass(v, shown, passes, cfg, i);
    }
    if cfg.showReconcileInterval {
      QuietRunBacksOff(v, passes, false, cfg);
    }
  }

  lemma QuietErrorPass(v: View, shown: Option<int>, passes: seq<Pass>, cfg: Config, i: nat)
    requires cfg.Valid() && QuietErrors(v, shown, passes, cfg) && i < |passes|
    ensures ChangesNothing(v, passes[i])
    ensures cfg.showReconcileInterval ==>
              passes[i].delay == UpdatedInterval(v, passes[i].later, cfg.Maximum(false), cfg)
              || (i == 0 && passes[i].delay == cfg.minimum)
    ensures !cfg.showReconcileInterval && (0 < i || shown.None?) ==> passes[i].delay == cfg.minimum
  {
    hide ChangesNothing, UpdatedInterval, BacksOff;
    BacksOffExactly(v, passes[i].later, cfg.Maximum(false), cfg, passes[i].delay);
    assert QuietErrorDelay(v, ShownBefore(shown, passes, i, cfg), passes[i].later, cfg, passes[i].delay);
  }

  /** Every condition carries a transition time that is not in the future. */
  ghost predicate WellStamped(v: View, now: int) {
    AllStamped(v) && WellTyped(v) && StampedBy(v, now)
  }

  /** That holds of every status that the operator ever writes. */
  lemma {:induction false} ReachedStatusesAreStamped(steps: seq<Step>, now: int)
    requires forall i :: 0 <= i < |steps| && steps[i].Do? ==> steps[i].now <= now
    requires forall i, j :: 0 <= i < j < |steps| && steps[i].Do? && steps[j].Do? ==> steps[i].now <= steps[j].now
    ensures var r := Reached(steps);
            WellStamped(r.memory, now) && forall i :: 0 <= i < |r.stored| ==> WellStamped(r.stored[i], now)
  {
    assert WellStamped(NO_CONDITIONS, now);
    hide WellStamped, Apply, Nested;
    if steps != [] {
      var init, last := steps[..|steps| - 1], steps[|steps| - 1];
      assert forall i :: 0 <= i < |init| ==> init[i] == steps[i];
      if last.Do? {
        ReachedStatusesAreStamped(init, last.now);
        ApplyKeepsStamps(Reached(init).memory, last.call, last.now);
        NestedKeepsStamps(Reached(init).memory, last.call, last.now);
        forall v | WellStamped(v, last.now)
          ensures WellStamped(v, now)
        {
          StampedLater(v, last.now, now);
        }
      } else {
        ReachedStatusesAreStamped(init, now);
      }
    }
  }

  lemma StampedLater(v: View, now: int, later: int)
    requires WellStamped(v, now) && now <= later
    ensures WellStamped(v, later)
  {
  }

  lemma ApplyKeepsStamps(v: View, call: Call, now: int)
    requires WellStamped(v, now)
    ensures WellStamped(Apply(v, call, now), now)
  {
    hide AfterError, AfterSuccess;
    match call {
      case ErrorCall(issue, ct, obs) => ErrorKeepsStamps(Start(v), ct, issue, obs, now);
      case SuccessCall(ct, obs) => SuccessKeepsStamps(Start(v), ct, obs, now);
    }
  }

  lemma NestedKeepsStamps(v: View, call: Call, now: int)
    requires WellStamped(v, now)
    ensures Nested(v, call, now).Some? ==> WellStamped(Nested(v, call, now).value, now)
  {
    hide AfterWarnings, AfterReconcileError, AllStamped;
    if Nested(v, call, now).Some? {
      var obs := call.obs;
      var c := match call
        case ErrorCall(issue, ct, _) => IssueCondition(ct, issue)
        case SuccessCall(ct, _) => Condition(ct, true, "", "");
      SetKeepsStamps(Start(v), c, now);
      WarningsKeepStamps(Start(v).Set(c, now), obs.warnings, now);
      var t := AfterWarnings(Start(v).Set(c, now), obs.warnings, now);
      SetKeepsStamps(t, ResourcesCondition(obs), now);
      EndpointReportKeepsStamps(t.Set(ResourcesCondition(obs), now), obs, now);
    }
  }
}
