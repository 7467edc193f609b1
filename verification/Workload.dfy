/**
 Reconcile of internal/controller/runtimecomponent_controller.go: the order in which
 it creates and deletes the resources that a component owns, with its early returns.

 Any API call may fail, with or without having taken effect, and the process may stop
 between any two calls.  A Plan is the list of calls one pass would make if none of
 them failed; Reconcile is proved to make exactly the calls of its plan up to the first
 failure that it does not tolerate.
 */
module Workload {
  import opened Options

  datatype Kind =
    | ServiceAccount | Service | HeadlessService | Deployment | StatefulSet | KnativeService
    | HorizontalPodAutoscaler | NetworkPolicy | Route | Ingress | ServiceMonitor

  type World = set<Kind>

  /** A discovery answer; Unknown if the discovery call itself failed. */
  datatype Api = Supported | Unsupported | Unknown

  /** Which service account the spec names. */
  datatype Account = OwnAccount | OtherAccount | AccountOfSameName

  datatype Spec = Spec(
    createKnativeService: bool,
    statefulSet: bool,
    account: Account,
    networkPolicy: bool,
    autoscaling: bool,
    expose: bool,
    monitoring: bool)

  /** What the pass observes besides the outcome of its calls. */
  datatype Observed = Observed(knative: Api, route: Api, ingress: Api, monitor: Api, routeHostRemoved: bool)

  /** Rejected calls have no effect; Lost ones take effect but report an error. */
  datatype Outcome = Ok | Rejected | Lost

  /** The steps that only look, or that create what is left out here, but can end the pass. */
  datatype Check = Settings | PullSecret | Certificate | Bindings | Monitoring

  datatype Action =
    | Create(kind: Kind)                    // CreateOrUpdate; an error ends the pass
    | Delete(kind: Kind)                    // DeleteResource; an error ends the pass
    | TryDelete(kind: Kind)                 // the same, but the pass goes on after an error
    | Verify(what: Check)                   // anything else that can end the pass

  datatype Plan = Done | Fail | Then(action: Action, rest: Plan)

  function Effect(a: Action, w: World): World {
    match a
    case Create(k) => w + {k}
    case Delete(k) => w - {k}
    case TryDelete(k) => w - {k}
    case Verify(_) => w
  }

  /** The world after a call with the given outcome. */
  function Call(a: Action, w: World, o: Outcome): World {
    if o == Rejected then w else Effect(a, w)
  }

  predicate Ends(a: Action, o: Outcome) {
    o != Ok && !a.TryDelete?
  }

  /** The worlds that a pass goes through; call number n of the pass has outcome outcomes(n). */
  function Trace(p: Plan, w: World, outcomes: nat -> Outcome, n: nat): seq<World> {
    match p
    case Then(a, rest) =>
      var w' := Call(a, w, outcomes(n));
      [w] + if Ends(a, outcomes(n)) then [w'] else Trace(rest, w', outcomes, n + 1)
    case _ => [w]
  }

  predicate Completes(p: Plan, outcomes: nat -> Outcome, n: nat) {
    match p
    case Then(a, rest) => !Ends(a, outcomes(n)) && Completes(rest, outcomes, n + 1)
    case Done => true
    case Fail => false
  }

  // ---------------------------------------------------------------------
  // The plan of one pass
  // ---------------------------------------------------------------------

  function CreateIf(condition: bool, k: Kind, rest: Plan): Plan {
    Then(if condition then Create(k) else Delete(k), rest)
  }

  function AccountPlan(spec: Spec, rest: Plan): Plan {
    match spec.account
    case OwnAccount => Then(Create(ServiceAccount), rest)
    case OtherAccount => Then(Delete(ServiceAccount), rest)
    case AccountOfSameName => rest
  }

  /** DeleteResources: one after the other. */
  function DeletePlan(kinds: seq<Kind>, rest: Plan): Plan {
    if kinds == [] then rest else Then(Delete(kinds[0]), DeletePlan(kinds[1..], rest))
  }

  /** What a Knative service does without. */
  function NonKnative(): seq<Kind> {
    [Service, HeadlessService, Deployment, StatefulSet, HorizontalPodAutoscaler, NetworkPolicy]
  }

  function KnativePlan(o: Observed): Plan {
    DeletePlan(NonKnative(), KnativeExposePlan(o))
  }

  function KnativeExposePlan(o: Observed): Plan {
    var create := if o.knative == Supported then Then(Create(KnativeService), Done) else Fail;
    var route := if o.route == Supported then Then(Delete(Route), create) else create;
    if o.ingress == Supported then Then(TryDelete(Ingress), route) else route
  }

  function WorkloadPlan(spec: Spec, rest: Plan): Plan {
    if spec.statefulSet then
      Then(Delete(Deployment), Then(Create(HeadlessService), Then(Create(StatefulSet), rest)))
    else
      Then(Delete(StatefulSet), Then(Delete(HeadlessService), Then(Create(Deployment), rest)))
  }

  function ExposePlan(spec: Spec, o: Observed, rest: Plan): Plan {
    match o.route
    case Unknown => rest
    case Supported =>
      if spec.expose && o.routeHostRemoved then Then(Delete(Route), Then(Create(Route), rest))
      else CreateIf(spec.expose, Route, rest)
    case Unsupported =>
      if o.ingress == Supported then CreateIf(spec.expose, Ingress, rest) else rest
  }

  function MonitorPlan(spec: Spec, o: Observed): Plan {
    if o.monitor != Supported then Done
    else if spec.monitoring then Then(Verify(Monitoring), Then(Create(ServiceMonitor), Done))
    else Then(Delete(ServiceMonitor), Done)
  }

  function ServicePlan(spec: Spec, o: Observed): Plan {
    Then(Verify(Certificate), Then(Create(Service), CreateIf(spec.networkPolicy, NetworkPolicy, Then(Verify(Bindings),
    WorkloadPlan(spec, CreateIf(spec.autoscaling, HorizontalPodAutoscaler,
    ExposePlan(spec, o, MonitorPlan(spec, o))))))))
  }

  /** What a pass does once it has chosen between Knative and other workloads. */
  function ModePlan(spec: Spec, o: Observed): Plan {
    if spec.createKnativeService then KnativePlan(o)
    else if o.knative == Supported then Then(TryDelete(KnativeService), ServicePlan(spec, o))
    else ServicePlan(spec, o)
  }

  function PassPlan(spec: Spec, o: Observed): Plan {
    Then(Verify(Settings), AccountPlan(spec, Then(Verify(PullSecret), ModePlan(spec, o))))
  }

  // ---------------------------------------------------------------------
  // Workload exclusivity
  // ---------------------------------------------------------------------

  predicate Exclusive(w: World) {
    !(Deployment in w && StatefulSet in w)
  }

  /** A step does not create a Knative service next to another workload. */
  predicate KnativeAlone(before: World, after: World) {
    KnativeService in after && KnativeService !in before ==> Deployment !in before && StatefulSet !in before
  }

  /** The workloads that must be gone before a kind is created. */
  function Rivals(k: Kind): set<Kind> {
    match k
    case Deployment => {StatefulSet}
    case StatefulSet => {Deployment}
    case KnativeService => {Deployment, StatefulSet}
    case _ => {}
  }

  /**
   Follows a plan with the set of kinds that its earlier deletes have made absent: a
   workload is only created when its rivals are known to be absent.
   */
  predicate Guarded(p: Plan, absent: set<Kind>) {
    match p
    case Then(Create(k), rest) => Rivals(k) <= absent && Guarded(rest, absent - {k})
    case Then(Delete(k), rest) => Guarded(rest, absent + {k})
    case Then(_, rest) => Guarded(rest, absent)
    case _ => true
  }

  lemma {:induction false} GuardedMeansExclusive(p: Plan, absent: set<Kind>, w: World, outcomes: nat -> Outcome, n: nat)
    requires Guarded(p, absent) && absent !! w && Exclusive(w)
    ensures forall i :: 0 <= i < |Trace(p, w, outcomes, n)| ==> Exclusive(Trace(p, w, outcomes, n)[i])
    ensures forall i, j :: 0 <= i && j == i + 1 && j < |Trace(p, w, outcomes, n)| ==>
              KnativeAlone(Trace(p, w, outcomes, n)[i], Trace(p, w, outcomes, n)[j])
  {
    if p.Then? {
      var w' := Call(p.action, w, outcomes(n));
      if !Ends(p.action, outcomes(n)) {
        var absent' := match p.action
          case Create(k) => absent - {k}
          case Delete(k) => absent + {k}
          case _ => absent;
        GuardedMeansExclusive(p.rest, absent', w', outcomes, n + 1);
        var tail := Trace(p.rest, w', outcomes, n + 1);
        TraceStarts(p.rest, w', outcomes, n + 1);
        assert Trace(p, w, outcomes, n) == [w] + tail;
      } else {
        assert Trace(p, w, outcomes, n) == [w, w'];
      }
    }
  }

  lemma TraceStarts(p: Plan, w: World, outcomes: nat -> Outcome, n: nat)
    ensures |Trace(p, w, outcomes, n)| > 0 && Trace(p, w, outcomes, n)[0] == w
  {
  }

  /** The plan is guarded as long as the kinds in `need` are known to be absent. */
  ghost predicate Needs(p: Plan, need: set<Kind>) {
    forall a :: need <= a ==> Guarded(p, a)
  }

  lemma NeedsOfDelete(k: Kind, rest: Plan, need: set<Kind>, before: set<Kind>)
    requires Needs(rest, need) && need <= before + {k}
    ensures Needs(Then(Delete(k), rest), before)
  {
    forall a | before <= a
      ensures Guarded(Then(Delete(k), rest), a)
    {
      assert need <= a + {k};
    }
  }

  lemma NeedsOfCreate(k: Kind, rest: Plan, need: set<Kind>, before: set<Kind>)
    requires Needs(rest, need) && need <= before - {k} && Rivals(k) <= before
    ensures Needs(Then(Create(k), rest), before)
  {
    forall a | before <= a
      ensures Guarded(Then(Create(k), rest), a)
    {
      assert need <= a - {k};
    }
  }

  lemma NeedsOfOther(a: Action, rest: Plan, need: set<Kind>)
    requires Needs(rest, need) && (a.TryDelete? || a.Verify?)
    ensures Needs(Then(a, rest), need)
  {
  }

  lemma NeedsOfCreateIf(condition: bool, k: Kind, rest: Plan)
    requires Needs(rest, {}) && Rivals(k) == {}
    ensures Needs(CreateIf(condition, k, rest), {})
  {
    NeedsOfCreate(k, rest, {}, {});
    NeedsOfDelete(k, rest, {}, {});
  }

  lemma NeedsOfExpose(spec: Spec, o: Observed, rest: Plan)
    requires Needs(rest, {})
    ensures Needs(ExposePlan(spec, o, rest), {})
  {
    hide Needs;
    NeedsOfCreate(Route, rest, {}, {});
    NeedsOfDelete(Route, Then(Create(Route), rest), {}, {});
    NeedsOfCreateIf(spec.expose, Route, rest);
    NeedsOfCreateIf(spec.expose, Ingress, rest);
  }

  lemma NeedsOfMonitor(spec: Spec, o: Observed)
    ensures Needs(MonitorPlan(spec, o), {})
  {
    assert Needs(Done, {});
    hide Needs;
    NeedsOfDelete(ServiceMonitor, Done, {}, {});
    NeedsOfCreate(ServiceMonitor, Done, {}, {});
    NeedsOfOther(Verify(Monitoring), Then(Create(ServiceMonitor), Done), {});
  }

  lemma NeedsOfWorkload(spec: Spec, rest: Plan)
    requires Needs(rest, {})
    ensures Needs(WorkloadPlan(spec, rest), {})
  {
    hide Needs;
    NeedsOfCreate(StatefulSet, rest, {}, {Deployment});
    NeedsOfCreate(HeadlessService, Then(Create(StatefulSet), rest), {Deployment}, {Deployment});
    NeedsOfDelete(Deployment, Then(Create(HeadlessService), Then(Create(StatefulSet), rest)), {Deployment}, {});
    NeedsOfCreate(Deployment, rest, {}, {StatefulSet});
    NeedsOfDelete(HeadlessService, Then(Create(Deployment), rest), {StatefulSet}, {StatefulSet});
    NeedsOfDelete(StatefulSet, Then(Delete(HeadlessService), Then(Create(Deployment), rest)), {StatefulSet}, {});
  }

  lemma NeedsOfService(spec: Spec, o: Observed)
    ensures Needs(ServicePlan(spec, o), {})
  {
    hide Needs, ExposePlan, MonitorPlan, WorkloadPlan, CreateIf;
    NeedsOfMonitor(spec, o);
    var expose := ExposePlan(spec, o, MonitorPlan(spec, o));
    NeedsOfExpose(spec, o, MonitorPlan(spec, o));
    var scale := CreateIf(spec.autoscaling, HorizontalPodAutoscaler, expose);
    NeedsOfCreateIf(spec.autoscaling, HorizontalPodAutoscaler, expose);
    NeedsOfWorkload(spec, scale);
    NeedsOfOther(Verify(Bindings), WorkloadPlan(spec, scale), {});
    NeedsOfCreateIf(spec.networkPolicy, NetworkPolicy, Then(Verify(Bindings), WorkloadPlan(spec, scale)));
    var policy := CreateIf(spec.networkPolicy, NetworkPolicy, Then(Verify(Bindings), WorkloadPlan(spec, scale)));
    NeedsOfCreate(Service, policy, {}, {});
    NeedsOfOther(Verify(Certificate), Then(Create(Service), policy), {});
  }

  lemma {:induction false} NeedsOfDeletePlan(kinds: seq<Kind>, rest: Plan, need: set<Kind>, before: set<Kind>)
    requires Needs(rest, need) && forall k :: k in need ==> k in before || k in kinds
    ensures Needs(DeletePlan(kinds, rest), before)
  {
    hide Needs;
    if kinds == [] {
      NeedsMore(rest, need, before);
    } else {
      NeedsOfDeletePlan(kinds[1..], rest, need, before + {kinds[0]});
      NeedsOfDelete(kinds[0], DeletePlan(kinds[1..], rest), before + {kinds[0]}, before);
    }
  }

  lemma NeedsMore(p: Plan, need: set<Kind>, before: set<Kind>)
    requires Needs(p, need) && need <= before
    ensures Needs(p, before)
  {
  }

  lemma NeedsOfKnative(o: Observed)
    ensures Needs(KnativePlan(o), {})
  {
    hide Needs, KnativeExposePlan, DeletePlan;
    NeedsOfKnativeExpose(o);
    assert NonKnative()[2] == Deployment && NonKnative()[3] == StatefulSet;
    NeedsOfDeletePlan(NonKnative(), KnativeExposePlan(o), {Deployment, StatefulSet}, {});
  }

  lemma NeedsOfKnativeExpose(o: Observed)
    ensures Needs(KnativeExposePlan(o), {Deployment, StatefulSet})
  {
    var both := {Deployment, StatefulSet};
    assert Needs(Done, {}) && Needs(Fail, both);
    hide Needs;
    NeedsOfCreate(KnativeService, Done, {}, both);
    var create := if o.knative == Supported then Then(Create(KnativeService), Done) else Fail;
    NeedsOfDelete(Route, create, both, both);
    var route := if o.route == Supported then Then(Delete(Route), create) else create;
    NeedsOfOther(TryDelete(Ingress), route, both);
  }

  lemma PassPlanIsGuarded(spec: Spec, o: Observed)
    ensures Guarded(PassPlan(spec, o), {})
  {
    hide ServicePlan, KnativePlan, Needs;
    NeedsOfService(spec, o);
    NeedsOfOther(TryDelete(KnativeService), ServicePlan(spec, o), {});
    NeedsOfKnative(o);
    var rest := ModePlan(spec, o);
    NeedsOfOther(Verify(PullSecret), rest, {});
    NeedsOfCreate(ServiceAccount, Then(Verify(PullSecret), rest), {}, {});
    NeedsOfDelete(ServiceAccount, Then(Verify(PullSecret), rest), {}, {});
    NeedsOfOther(Verify(Settings), AccountPlan(spec, Then(Verify(PullSecret), rest)), {});
    NeedsMeansGuarded(PassPlan(spec, o));
  }

  lemma NeedsMeansGuarded(p: Plan)
    requires Needs(p, {})
    ensures Guarded(p, {})
  {
  }

  /** One pass, over whatever world it finds, with whatever failures; it stops after `steps` calls. */
  datatype Pass = Pass(spec: Spec, observed: Observed, outcomes: nat -> Outcome, steps: nat)

  function Visited(w: World, p: Pass): seq<World> {
    var t := Trace(PassPlan(p.spec, p.observed), w, p.outcomes, 0);
    if p.steps + 1 < |t| then t[..p.steps + 1] else t
  }

  function AfterPass(w: World, p: Pass): World {
    TraceStarts(PassPlan(p.spec, p.observed), w, p.outcomes, 0);
    Visited(w, p)[|Visited(w, p)| - 1]
  }

  function AfterPasses(w: World, passes: seq<Pass>): World {
    if passes == [] then w
    else AfterPass(AfterPasses(w, passes[..|passes| - 1]), passes[|passes| - 1])
  }

  lemma PassIsExclusive(w: World, p: Pass)
    requires Exclusive(w)
    ensures forall i :: 0 <= i < |Visited(w, p)| ==> Exclusive(Visited(w, p)[i])
    ensures forall i, j :: 0 <= i && j == i + 1 && j < |Visited(w, p)| ==>
              KnativeAlone(Visited(w, p)[i], Visited(w, p)[j])
    ensures Exclusive(AfterPass(w, p))
  {
    hide PassPlan, Exclusive, KnativeAlone, Guarded;
    PassPlanIsGuarded(p.spec, p.observed);
    GuardedMeansExclusive(PassPlan(p.spec, p.observed), {}, w, p.outcomes, 0);
    TraceStarts(PassPlan(p.spec, p.observed), w, p.outcomes, 0);
  }

  /**
   Whatever fails and wherever the process stops, in no world of any run do a
   Deployment and a StatefulSet coexist, and a Knative service is only created when
   both are absent.
   */
  lemma {:induction false} WorkloadsAreExclusive(w: World, passes: seq<Pass>, next: Pass)
    requires Exclusive(w)
    ensures var v := Visited(AfterPasses(w, passes), next);
            && (forall i :: 0 <= i < |v| ==> Exclusive(v[i]))
            && (forall i, j :: 0 <= i && j == i + 1 && j < |v| ==> KnativeAlone(v[i], v[j]))
  {
    hide Visited, Exclusive, KnativeAlone, AfterPass;
    RunStaysExclusive(w, passes);
    PassIsExclusive(AfterPasses(w, passes), next);
  }

  lemma {:induction false} RunStaysExclusive(w: World, passes: seq<Pass>)
    requires Exclusive(w)
    ensures Exclusive(AfterPasses(w, passes))
  {
    hide Visited, Exclusive, KnativeAlone, AfterPass;
    if passes != [] {
      RunStaysExclusive(w, passes[..|passes| - 1]);
      PassIsExclusive(AfterPasses(w, passes[..|passes| - 1]), passes[|passes| - 1]);
    }
  }

  // ---------------------------------------------------------------------
  // One-pass convergence
  // ---------------------------------------------------------------------

  datatype Fate = Kept | Present | Absent

  function Touch(a: Action, k: Kind): Fate {
    match a
    case Create(j) => if j == k then Present else Kept
    case Delete(j) => if j == k then Absent else Kept
    case TryDelete(j) => if j == k then Absent else Kept
    case Verify(_) => Kept
  }

  /** What an error-free plan does to a kind: the last action on it decides. */
  function FateOf(p: Plan, k: Kind): Fate {
    match p
    case Then(a, rest) => if FateOf(rest, k) != Kept then FateOf(rest, k) else Touch(a, k)
    case _ => Kept
  }

  predicate InAfter(f: Fate, w: World, k: Kind) {
    f == Present || (f == Kept && k in w)
  }

  /** The world in which an error-free plan ends. */
  function Final(p: Plan, w: World): World {
    match p
    case Then(a, rest) => Final(rest, Effect(a, w))
    case _ => w
  }

  lemma {:induction false} FinalByFate(p: Plan, w: World, k: Kind)
    ensures k in Final(p, w) <==> InAfter(FateOf(p, k), w, k)
  {
    if p.Then? {
      FinalByFate(p.rest, Effect(p.action, w), k);
    }
  }

  /** No call from number n on fails. */
  ghost predicate ErrorFree(outcomes: nat -> Outcome, n: nat) {
    forall m: nat :: n <= m ==> outcomes(m) == Ok
  }

  lemma {:induction false} ErrorFreeTrace(p: Plan, w: World, outcomes: nat -> Outcome, n: nat)
    requires ErrorFree(outcomes, n)
    ensures var t := Trace(p, w, outcomes, n); |t| > 0 && t[|t| - 1] == Final(p, w)
    decreases p
  {
    if p.Then? {
      ErrorFreeTrace(p.rest, Effect(p.action, w), outcomes, n + 1);
    }
  }

  /** What the spec asks for, per kind, on a cluster with the given API support. */
  function Wanted(spec: Spec, o: Observed, k: Kind): Fate {
    match k
    case ServiceAccount =>
      (match spec.account case OwnAccount => Present case OtherAccount => Absent case AccountOfSameName => Kept)
    case KnativeService =>
      if spec.createKnativeService then Present else if o.knative == Supported then Absent else Kept
    case Deployment => if spec.createKnativeService || spec.statefulSet then Absent else Present
    case StatefulSet => if !spec.createKnativeService && spec.statefulSet then Present else Absent
    case HeadlessService => if !spec.createKnativeService && spec.statefulSet then Present else Absent
    case Service => if spec.createKnativeService then Absent else Present
    case HorizontalPodAutoscaler => if !spec.createKnativeService && spec.autoscaling then Present else Absent
    case NetworkPolicy => if !spec.createKnativeService && spec.networkPolicy then Present else Absent
    case Route =>
      if o.route != Supported then Kept else if !spec.createKnativeService && spec.expose then Present else Absent
    case Ingress =>
      if spec.createKnativeService then (if o.ingress == Supported then Absent else Kept)
      else if o.route != Unsupported || o.ingress != Supported then Kept
      else if spec.expose then Present else Absent
    case ServiceMonitor =>
      if spec.createKnativeService || o.monitor != Supported then Kept
      else if spec.monitoring then Present else Absent
  }

  function Settled(spec: Spec, o: Observed, w: World): World {
    set k | k in AllKinds() && InAfter(Wanted(spec, o, k), w, k)
  }

  function AllKinds(): set<Kind> {
    {ServiceAccount, Service, HeadlessService, Deployment, StatefulSet, KnativeService,
     HorizontalPodAutoscaler, NetworkPolicy, Route, Ingress, ServiceMonitor}
  }

  // ---------------------------------------------------------------------
  // The fate of each kind under the plan of a pass
  // ---------------------------------------------------------------------

  lemma FateOfExpose(spec: Spec, o: Observed, k: Kind)
    ensures var fate := FateOf(ExposePlan(spec, o, MonitorPlan(spec, o)), k);
            if k in {Route, Ingress, ServiceMonitor} && !spec.createKnativeService then fate == Wanted(spec, o, k)
            else k !in {Route, Ingress, ServiceMonitor} ==> fate == Kept
  {
    hide MonitorPlan;
    FateOfMonitor(spec, o, k);
  }

  lemma FateOfMonitor(spec: Spec, o: Observed, k: Kind)
    ensures FateOf(MonitorPlan(spec, o), k) ==
            if k != ServiceMonitor || o.monitor != Supported then Kept
            else if spec.monitoring then Present else Absent
  {
  }

  lemma FateOfWorkload(spec: Spec, rest: Plan, k: Kind)
    ensures FateOf(WorkloadPlan(spec, rest), k) ==
            if FateOf(rest, k) != Kept then FateOf(rest, k)
            else if k == Deployment then (if spec.statefulSet then Absent else Present)
            else if k == StatefulSet || k == HeadlessService then (if spec.statefulSet then Present else Absent)
            else Kept
  {
    var r2 := if spec.statefulSet then Then(Create(StatefulSet), rest) else Then(Create(Deployment), rest);
    var r1 := Then(if spec.statefulSet then Create(HeadlessService) else Delete(HeadlessService), r2);
    assert FateOf(r1, k) == if FateOf(r2, k) != Kept then FateOf(r2, k) else Touch(r1.action, k);
  }

  lemma FateOfService(spec: Spec, o: Observed, k: Kind)
    requires !spec.createKnativeService && k != KnativeService && k != ServiceAccount
    ensures FateOf(ServicePlan(spec, o), k) == Wanted(spec, o, k)
  {
    hide ExposePlan, MonitorPlan, WorkloadPlan;
    var expose := ExposePlan(spec, o, MonitorPlan(spec, o));
    FateOfExpose(spec, o, k);
    var scale := CreateIf(spec.autoscaling, HorizontalPodAutoscaler, expose);
    assert FateOf(scale, k) == if FateOf(expose, k) != Kept then FateOf(expose, k) else Touch(scale.action, k);
    FateOfWorkload(spec, scale, k);
    var workload := Then(Verify(Bindings), WorkloadPlan(spec, scale));
    assert FateOf(workload, k) == FateOf(WorkloadPlan(spec, scale), k);
    var policy := CreateIf(spec.networkPolicy, NetworkPolicy, workload);
    assert FateOf(policy, k) == if FateOf(workload, k) != Kept then FateOf(workload, k) else Touch(policy.action, k);
    assert FateOf(Then(Create(Service), policy), k) ==
      if FateOf(policy, k) != Kept then FateOf(policy, k) else Touch(Create(Service), k);
  }

  lemma ServicePlanKeeps(spec: Spec, o: Observed, k: Kind)
    requires k == KnativeService || k == ServiceAccount
    ensures FateOf(ServicePlan(spec, o), k) == Kept
  {
    hide ExposePlan, MonitorPlan, WorkloadPlan;
    var expose := ExposePlan(spec, o, MonitorPlan(spec, o));
    FateOfExpose(spec, o, k);
    var scale := CreateIf(spec.autoscaling, HorizontalPodAutoscaler, expose);
    assert FateOf(scale, k) == Kept;
    FateOfWorkload(spec, scale, k);
    var workload := Then(Verify(Bindings), WorkloadPlan(spec, scale));
    assert FateOf(workload, k) == Kept;
    var policy := CreateIf(spec.networkPolicy, NetworkPolicy, workload);
    assert FateOf(policy, k) == Kept;
    assert FateOf(Then(Create(Service), policy), k) == Kept;
  }

  lemma FateOfKnativeExpose(o: Observed, k: Kind)
    requires o.knative == Supported
    ensures FateOf(KnativeExposePlan(o), k) ==
            if k == KnativeService then Present
            else if (k == Route && o.route == Supported) || (k == Ingress && o.ingress == Supported) then Absent
            else Kept
  {
    var create := Then(Create(KnativeService), Done);
    assert FateOf(create, k) == Touch(Create(KnativeService), k);
    var route := if o.route == Supported then Then(Delete(Route), create) else create;
    assert FateOf(route, k) ==
      if FateOf(create, k) != Kept then FateOf(create, k)
      else if o.route == Supported then Touch(Delete(Route), k) else Kept;
  }

  lemma {:induction false} FateOfDeletePlan(kinds: seq<Kind>, rest: Plan, k: Kind)
    ensures FateOf(DeletePlan(kinds, rest), k) ==
            if FateOf(rest, k) != Kept then FateOf(rest, k) else if k in kinds then Absent else Kept
  {
    if kinds != [] {
      FateOfDeletePlan(kinds[1..], rest, k);
    }
  }

  lemma NonKnativeKinds(k: Kind)
    ensures k in NonKnative() <==>
            k in {Service, HeadlessService, Deployment, StatefulSet, HorizontalPodAutoscaler, NetworkPolicy}
  {
    var s := NonKnative();
    assert s[0] == Service && s[1] == HeadlessService && s[2] == Deployment && s[3] == StatefulSet
        && s[4] == HorizontalPodAutoscaler && s[5] == NetworkPolicy;
  }

  lemma FateOfKnative(spec: Spec, o: Observed, k: Kind)
    requires spec.createKnativeService && o.knative == Supported
    ensures FateOf(KnativePlan(o), k) == if k == ServiceAccount then Kept else Wanted(spec, o, k)
  {
    hide KnativeExposePlan, DeletePlan, NonKnative;
    FateOfKnativeExpose(o, k);
    FateOfDeletePlan(NonKnative(), KnativeExposePlan(o), k);
    NonKnativeKinds(k);
  }

  /** Knative mode on a cluster without Knative is the one plan that always fails. */
  predicate Feasible(spec: Spec, o: Observed) {
    spec.createKnativeService ==> o.knative == Supported
  }

  lemma FateOfPass(spec: Spec, o: Observed, k: Kind)
    requires Feasible(spec, o)
    ensures FateOf(PassPlan(spec, o), k) == Wanted(spec, o, k)
  {
    hide ServicePlan, KnativePlan;
    var rest := ModePlan(spec, o);
    if spec.createKnativeService {
      FateOfKnative(spec, o, k);
    } else {
      if k == KnativeService || k == ServiceAccount {
        ServicePlanKeeps(spec, o, k);
      } else {
        FateOfService(spec, o, k);
      }
    }
    assert FateOf(rest, k) == if k == ServiceAccount then Kept else Wanted(spec, o, k);
    assert FateOf(Then(Verify(PullSecret), rest), k) == FateOf(rest, k);
    assert FateOf(AccountPlan(spec, Then(Verify(PullSecret), rest)), k) == Wanted(spec, o, k);
  }

  /** From any world, one error-free pass ends with what the spec asks for. */
  lemma OnePassConverges(spec: Spec, o: Observed, w: World, outcomes: nat -> Outcome)
    requires Feasible(spec, o) && ErrorFree(outcomes, 0)
    ensures var t := Trace(PassPlan(spec, o), w, outcomes, 0);
            |t| > 0 && t[|t| - 1] == Settled(spec, o, w)
  {
    hide PassPlan, FateOf, Final, ErrorFree, Wanted, Trace;
    ErrorFreeTrace(PassPlan(spec, o), w, outcomes, 0);
    var final, settled := Final(PassPlan(spec, o), w), Settled(spec, o, w);
    forall k
      ensures k in final <==> k in settled
    {
      FinalByFate(PassPlan(spec, o), w, k);
      FateOfPass(spec, o, k);
      EveryKindIsListed(k);
    }
  }

  lemma EveryKindIsListed(k: Kind)
    ensures k in AllKinds()
  {
  }

  lemma SettledExactly(spec: Spec, o: Observed, w: World, k: Kind)
    ensures k in Settled(spec, o, w) <==> InAfter(Wanted(spec, o, k), w, k)
  {
    hide Wanted;
    EveryKindIsListed(k);
  }

  function Workloads(): set<Kind> {
    {Deployment, StatefulSet, KnativeService}
  }

  function SelectedWorkload(spec: Spec): Kind {
    if spec.createKnativeService then KnativeService else if spec.statefulSet then StatefulSet else Deployment
  }

  /**
   Exactly the workload that the spec selects is left, provided that no Knative service
   is around on a cluster that does not support them.
   */
  lemma ExactlyTheSelectedWorkload(spec: Spec, o: Observed, w: World)
    requires Feasible(spec, o) && (KnativeService in w ==> o.knative == Supported)
    ensures Settled(spec, o, w) * Workloads() == {SelectedWorkload(spec)}
  {
    hide AllKinds, Settled;
    SettledExactly(spec, o, w, Deployment);
    SettledExactly(spec, o, w, StatefulSet);
    SettledExactly(spec, o, w, KnativeService);
  }

  // ---------------------------------------------------------------------
  // Tolerated errors: where a completed pass ends
  // ---------------------------------------------------------------------

  function LastOf(ws: seq<World>): World
    requires ws != []
  {
    ws[|ws| - 1]
  }

  /** The world in which a pass ends, whatever fails in it. */
  function EndOf(p: Plan, w: World, outcomes: nat -> Outcome, n: nat): World {
    TraceStarts(p, w, outcomes, n);
    LastOf(Trace(p, w, outcomes, n))
  }

  /** What the calls of a completed plan do to a kind: a rejected call does nothing. */
  function ActualFate(p: Plan, k: Kind, outcomes: nat -> Outcome, n: nat): Fate {
    match p
    case Then(a, rest) =>
      var later := ActualFate(rest, k, outcomes, n + 1);
      if later != Kept then later else if outcomes(n) == Rejected then Kept else Touch(a, k)
    case _ => Kept
  }

  lemma {:induction false} EndByActualFate(p: Plan, w: World, outcomes: nat -> Outcome, n: nat, k: Kind)
    requires Completes(p, outcomes, n)
    ensures k in EndOf(p, w, outcomes, n) <==> InAfter(ActualFate(p, k, outcomes, n), w, k)
  {
    if p.Then? {
      var w' := Call(p.action, w, outcomes(n));
      EndByActualFate(p.rest, w', outcomes, n + 1, k);
      TraceStarts(p.rest, w', outcomes, n + 1);
      assert Trace(p, w, outcomes, n) == [w] + Trace(p.rest, w', outcomes, n + 1);
    }
  }

  /** A plan that succeeds exactly if none of its calls fails. */
  predicate Plain(p: Plan) {
    p != Fail && (p.Then? ==> !p.action.TryDelete? && Plain(p.rest))
  }

  lemma {:induction false} PlainActualFate(p: Plan, k: Kind, outcomes: nat -> Outcome, n: nat)
    requires Plain(p) && Completes(p, outcomes, n)
    ensures ActualFate(p, k, outcomes, n) == FateOf(p, k)
  {
    if p.Then? {
      PlainActualFate(p.rest, k, outcomes, n + 1);
    }
  }

  lemma ServicePlanIsPlain(spec: Spec, o: Observed)
    ensures Plain(ServicePlan(spec, o))
  {
    hide ExposePlan, WorkloadPlan;
    var expose := ExposePlan(spec, o, MonitorPlan(spec, o));
    ExposePlanIsPlain(spec, o);
    var scale := CreateIf(spec.autoscaling, HorizontalPodAutoscaler, expose);
    WorkloadPlanIsPlain(spec, scale);
    var workload := Then(Verify(Bindings), WorkloadPlan(spec, scale));
    assert Plain(workload);
    assert Plain(CreateIf(spec.networkPolicy, NetworkPolicy, workload));
    assert Plain(Then(Create(Service), CreateIf(spec.networkPolicy, NetworkPolicy, workload)));
  }

  lemma ExposePlanIsPlain(spec: Spec, o: Observed)
    ensures Plain(ExposePlan(spec, o, MonitorPlan(spec, o)))
  {
    assert Plain(Then(Create(ServiceMonitor), Done));
    assert Plain(MonitorPlan(spec, o));
    hide MonitorPlan;
    assert Plain(Then(Create(Route), MonitorPlan(spec, o)));
  }

  lemma WorkloadPlanIsPlain(spec: Spec, rest: Plan)
    requires Plain(rest)
    ensures Plain(WorkloadPlan(spec, rest))
  {
    assert Plain(Then(Create(StatefulSet), rest)) && Plain(Then(Create(Deployment), rest));
  }

  lemma {:induction false} CompletesDeletePlan(kinds: seq<Kind>, rest: Plan, outcomes: nat -> Outcome, n: nat, k: Kind)
    requires Completes(DeletePlan(kinds, rest), outcomes, n)
    ensures Completes(rest, outcomes, n + |kinds|)
    ensures var later := ActualFate(rest, k, outcomes, n + |kinds|);
            ActualFate(DeletePlan(kinds, rest), k, outcomes, n) ==
              if later != Kept then later else if k in kinds then Absent else Kept
  {
    if kinds != [] {
      CompletesDeletePlan(kinds[1..], rest, outcomes, n + 1, k);
    }
  }

  /** The number of the call that follows the pull-secret check. */
  function FirstModeCall(spec: Spec): nat {
    if spec.account == AccountOfSameName then 2 else 3
  }

  /** The deletion whose error a pass tolerates, and the number of that call. */
  function Tolerated(spec: Spec, o: Observed): Option<(Kind, nat)> {
    if spec.createKnativeService then
      if o.ingress == Supported then Some((Ingress, FirstModeCall(spec) + 6)) else None
    else
      if o.knative == Supported then Some((KnativeService, FirstModeCall(spec))) else None
  }

  /** The kinds that a completed pass should have deleted and did not. */
  function Survivors(spec: Spec, o: Observed, w: World, outcomes: nat -> Outcome): World {
    match Tolerated(spec, o)
    case Some((k, n)) => if k in w && outcomes(n) == Rejected then {k} else {}
    case None => {}
  }

  /** What the calls do to a kind: what is wanted, except for a rejected tolerated deletion. */
  function WantedBut(spec: Spec, o: Observed, outcomes: nat -> Outcome, k: Kind): Fate {
    match Tolerated(spec, o)
    case Some((j, n)) => if j == k && outcomes(n) == Rejected then Kept else Wanted(spec, o, k)
    case None => Wanted(spec, o, k)
  }

  lemma ActualFateOfKnativeExpose(spec: Spec, o: Observed, k: Kind, outcomes: nat -> Outcome, n: nat)
    requires spec.createKnativeService && n == FirstModeCall(spec) + 6
    requires Completes(KnativeExposePlan(o), outcomes, n)
    ensures o.knative == Supported
    ensures ActualFate(KnativeExposePlan(o), k, outcomes, n) ==
            if k in {KnativeService, Route, Ingress} then WantedBut(spec, o, outcomes, k) else Kept
  {
    var create := if o.knative == Supported then Then(Create(KnativeService), Done) else Fail;
    var route := if o.route == Supported then Then(Delete(Route), create) else create;
    var m := if o.ingress == Supported then n + 1 else n;
    var l := if o.route == Supported then m + 1 else m;
    assert Completes(route, outcomes, m) && Completes(create, outcomes, l);
    assert ActualFate(create, k, outcomes, l) == Touch(Create(KnativeService), k);
    assert ActualFate(route, k, outcomes, m) ==
      if k == KnativeService then Present else if k == Route && o.route == Supported then Absent else Kept;
  }

  lemma ActualFateOfKnative(spec: Spec, o: Observed, k: Kind, outcomes: nat -> Outcome, n: nat)
    requires spec.createKnativeService && n == FirstModeCall(spec)
    requires Completes(KnativePlan(o), outcomes, n)
    ensures Feasible(spec, o)
    ensures ActualFate(KnativePlan(o), k, outcomes, n) ==
            if k == ServiceAccount then Kept else WantedBut(spec, o, outcomes, k)
  {
    hide KnativeExposePlan, DeletePlan, ActualFate, Completes;
    assert |NonKnative()| == 6;
    NonKnativeKinds(k);
    CompletesDeletePlan(NonKnative(), KnativeExposePlan(o), outcomes, n, k);
    ActualFateOfKnativeExpose(spec, o, k, outcomes, n + 6);
  }

  lemma ActualFateOfService(spec: Spec, o: Observed, k: Kind, outcomes: nat -> Outcome, n: nat)
    requires !spec.createKnativeService && Completes(ServicePlan(spec, o), outcomes, n)
    ensures ActualFate(ServicePlan(spec, o), k, outcomes, n) ==
            if k == KnativeService || k == ServiceAccount then Kept else Wanted(spec, o, k)
  {
    hide ServicePlan, ActualFate, Completes;
    ServicePlanIsPlain(spec, o);
    PlainActualFate(ServicePlan(spec, o), k, outcomes, n);
    if k == KnativeService || k == ServiceAccount {
      ServicePlanKeeps(spec, o, k);
    } else {
      FateOfService(spec, o, k);
    }
  }

  lemma ActualFateOfMode(spec: Spec, o: Observed, k: Kind, outcomes: nat -> Outcome)
    requires Completes(ModePlan(spec, o), outcomes, FirstModeCall(spec))
    ensures Feasible(spec, o)
    ensures ActualFate(ModePlan(spec, o), k, outcomes, FirstModeCall(spec)) ==
            if k == ServiceAccount then Kept else WantedBut(spec, o, outcomes, k)
  {
    hide ServicePlan, KnativePlan;
    var n := FirstModeCall(spec);
    if spec.createKnativeService {
      ActualFateOfKnative(spec, o, k, outcomes, n);
    } else if o.knative == Supported {
      ActualFateOfService(spec, o, k, outcomes, n + 1);
    } else {
      ActualFateOfService(spec, o, k, outcomes, n);
    }
  }

  lemma ActualFateOfPass(spec: Spec, o: Observed, k: Kind, outcomes: nat -> Outcome)
    requires Completes(PassPlan(spec, o), outcomes, 0)
    ensures Feasible(spec, o)
    ensures ActualFate(PassPlan(spec, o), k, outcomes, 0) == WantedBut(spec, o, outcomes, k)
  {
    hide ServicePlan, KnativePlan, Wanted, WantedBut;
    var n := FirstModeCall(spec);
    var mode := ModePlan(spec, o);
    var account := AccountPlan(spec, Then(Verify(PullSecret), mode));
    assert PassPlan(spec, o) == Then(Verify(Settings), account);
    hide ModePlan;
    assert Completes(account, outcomes, 1);
    assert Completes(Then(Verify(PullSecret), mode), outcomes, n - 1);
    assert Completes(mode, outcomes, n);
    ActualFateOfMode(spec, o, k, outcomes);
    assert ActualFate(Then(Verify(PullSecret), mode), k, outcomes, n - 1) == ActualFate(mode, k, outcomes, n);
    AccountIsWanted(spec, o, k, outcomes);
    assert ActualFate(account, k, outcomes, 1) == WantedBut(spec, o, outcomes, k);
  }

  lemma AccountIsWanted(spec: Spec, o: Observed, k: Kind, outcomes: nat -> Outcome)
    ensures WantedBut(spec, o, outcomes, ServiceAccount) ==
            match spec.account case OwnAccount => Present case OtherAccount => Absent case AccountOfSameName => Kept
  {
  }

  /**
   A completed pass ends with exactly what the spec asks for and what survived a tolerated
   deletion; so it ends with what the spec asks for if and only if the tolerated deletion
   took effect or had nothing to delete.
   */
  lemma CompletedPassEnds(spec: Spec, o: Observed, w: World, outcomes: nat -> Outcome)
    requires Completes(PassPlan(spec, o), outcomes, 0)
    ensures var end := EndOf(PassPlan(spec, o), w, outcomes, 0);
            && end == Settled(spec, o, w) + Survivors(spec, o, w, outcomes)
            && (end == Settled(spec, o, w) <==> Survivors(spec, o, w, outcomes) == {})
  {
    hide PassPlan, ActualFate, EndOf, Completes, Settled, AllKinds;
    var end, settled := EndOf(PassPlan(spec, o), w, outcomes, 0), Settled(spec, o, w);
    forall k
      ensures k in end <==> k in settled || k in Survivors(spec, o, w, outcomes)
      ensures k in Survivors(spec, o, w, outcomes) ==> k !in settled
    {
      EndByActualFate(PassPlan(spec, o), w, outcomes, 0, k);
      ActualFateOfPass(spec, o, k, outcomes);
      SettledExactly(spec, o, w, k);
    }
  }

  /**
   So a completed pass leaves exactly the workload that the spec selects, unless a Knative
   service was there that could not be deleted or that the cluster no longer supports.
   */
  lemma SelectedWorkloadExactly(spec: Spec, o: Observed, w: World, outcomes: nat -> Outcome)
    requires Completes(PassPlan(spec, o), outcomes, 0)
    ensures var end := EndOf(PassPlan(spec, o), w, outcomes, 0);
            var survives := !spec.createKnativeService && KnativeService in w
                            && (o.knative != Supported || outcomes(FirstModeCall(spec)) == Rejected);
            && (end * Workloads() == {SelectedWorkload(spec)} <==> !survives)
            && (KnativeService in end <==> spec.createKnativeService || survives)
  {
    hide PassPlan, EndOf, Completes, Settled, AllKinds, KnativePlan;
    CompletedPassEnds(spec, o, w, outcomes);
    ActualFateOfPass(spec, o, KnativeService, outcomes);
    SettledExactly(spec, o, w, Deployment);
    SettledExactly(spec, o, w, StatefulSet);
    SettledExactly(spec, o, w, KnativeService);
    var end := EndOf(PassPlan(spec, o), w, outcomes, 0);
    assert Deployment in end <==> SelectedWorkload(spec) == Deployment;
    assert StatefulSet in end <==> SelectedWorkload(spec) == StatefulSet;
    var left := end * Workloads();
    assert KnativeService in left <==> KnativeService in end;
    assert KnativeService !in end ==> left == {SelectedWorkload(spec)};
    assert spec.createKnativeService ==> left == {KnativeService};
  }

  // ---------------------------------------------------------------------
  // What is created only after which checks
  // ---------------------------------------------------------------------

  /** The checks that a pass must get through before it creates a kind. */
  function Prerequisites(k: Kind): set<Check> {
    match k
    case ServiceAccount => {Settings}
    case KnativeService => {Settings, PullSecret}
    case Service => {Settings, PullSecret, Certificate}
    case NetworkPolicy => {Settings, PullSecret, Certificate}
    case ServiceMonitor => {Settings, PullSecret, Certificate, Bindings, Monitoring}
    case _ => {Settings, PullSecret, Certificate, Bindings}
  }

  /** Follows a plan with the set of checks passed: each kind is created after its checks. */
  predicate Vetted(p: Plan, passed: set<Check>) {
    match p
    case Then(Create(k), rest) => Prerequisites(k) <= passed && Vetted(rest, passed)
    case Then(Verify(c), rest) => Vetted(rest, passed + {c})
    case Then(_, rest) => Vetted(rest, passed)
    case _ => true
  }

  /** The pass gets to this check and through it. */
  predicate Passes(p: Plan, outcomes: nat -> Outcome, n: nat, c: Check) {
    match p
    case Then(a, rest) => !Ends(a, outcomes(n)) && (a == Verify(c) || Passes(rest, outcomes, n + 1, c))
    case _ => false
  }

  ghost predicate Appears(k: Kind, ws: seq<World>) {
    exists i :: 0 <= i < |ws| && k in ws[i]
  }

  lemma {:induction false} VettedNeedsChecks(p: Plan, passed: set<Check>, w: World, outcomes: nat -> Outcome, n: nat,
                                            k: Kind)
    requires Vetted(p, passed) && k !in w && Appears(k, Trace(p, w, outcomes, n))
    ensures forall c :: c in Prerequisites(k) ==> c in passed || Passes(p, outcomes, n, c)
  {
    hide Prerequisites;
    if p.Then? && p.action != Create(k) {
      var w', passed' := Call(p.action, w, outcomes(n)), if p.action.Verify? then passed + {p.action.what} else passed;
      var i :| 0 <= i < |Trace(p, w, outcomes, n)| && k in Trace(p, w, outcomes, n)[i];
      if !Ends(p.action, outcomes(n)) {
        assert Trace(p, w, outcomes, n) == [w] + Trace(p.rest, w', outcomes, n + 1);
        assert k in Trace(p.rest, w', outcomes, n + 1)[i - 1];
        VettedNeedsChecks(p.rest, passed', w', outcomes, n + 1, k);
      }
    }
  }

  lemma VettedExpose(spec: Spec, o: Observed, passed: set<Check>)
    requires passed == {Settings, PullSecret, Certificate, Bindings}
    ensures Vetted(ExposePlan(spec, o, MonitorPlan(spec, o)), passed)
  {
    assert Vetted(Then(Create(ServiceMonitor), Done), passed + {Monitoring});
    assert Vetted(MonitorPlan(spec, o), passed);
    hide MonitorPlan;
    assert Vetted(Then(Create(Route), MonitorPlan(spec, o)), passed);
  }

  lemma VettedWorkload(spec: Spec, rest: Plan, passed: set<Check>)
    requires passed == {Settings, PullSecret, Certificate, Bindings} && Vetted(rest, passed)
    ensures Vetted(WorkloadPlan(spec, rest), passed)
  {
    assert Vetted(Then(Create(StatefulSet), rest), passed) && Vetted(Then(Create(Deployment), rest), passed);
    assert Vetted(Then(Create(HeadlessService), Then(Create(StatefulSet), rest)), passed);
    assert Vetted(Then(Delete(HeadlessService), Then(Create(Deployment), rest)), passed);
  }

  lemma VettedService(spec: Spec, o: Observed)
    ensures Vetted(ServicePlan(spec, o), {Settings, PullSecret})
  {
    hide ExposePlan, MonitorPlan, WorkloadPlan;
    var certified := {Settings, PullSecret} + {Certificate};
    var bound := certified + {Bindings};
    assert bound == {Settings, PullSecret, Certificate, Bindings};
    var expose := ExposePlan(spec, o, MonitorPlan(spec, o));
    VettedExpose(spec, o, bound);
    var scale := CreateIf(spec.autoscaling, HorizontalPodAutoscaler, expose);
    assert Vetted(scale, bound);
    VettedWorkload(spec, scale, bound);
    var workload := Then(Verify(Bindings), WorkloadPlan(spec, scale));
    assert Vetted(workload, certified);
    var policy := CreateIf(spec.networkPolicy, NetworkPolicy, workload);
    assert Vetted(policy, certified);
    assert Vetted(Then(Create(Service), policy), certified);
  }

  lemma {:induction false} VettedDeletePlan(kinds: seq<Kind>, rest: Plan, passed: set<Check>)
    requires Vetted(rest, passed)
    ensures Vetted(DeletePlan(kinds, rest), passed)
  {
    if kinds != [] {
      VettedDeletePlan(kinds[1..], rest, passed);
    }
  }

  lemma VettedKnative(o: Observed)
    ensures Vetted(KnativePlan(o), {Settings, PullSecret})
  {
    hide DeletePlan, NonKnative;
    var passed := {Settings, PullSecret};
    var create := if o.knative == Supported then Then(Create(KnativeService), Done) else Fail;
    assert Vetted(create, passed);
    assert Vetted(Then(Delete(Route), create), passed);
    assert Vetted(KnativeExposePlan(o), passed);
    VettedDeletePlan(NonKnative(), KnativeExposePlan(o), passed);
  }

  lemma PassPlanIsVetted(spec: Spec, o: Observed)
    ensures Vetted(PassPlan(spec, o), {})
  {
    hide ServicePlan, KnativePlan;
    VettedService(spec, o);
    VettedKnative(o);
    var both := {} + {Settings} + {PullSecret};
    assert both == {Settings, PullSecret};
    assert Vetted(ModePlan(spec, o), both);
    assert Vetted(Then(Verify(PullSecret), ModePlan(spec, o)), {} + {Settings});
    assert Vetted(AccountPlan(spec, Then(Verify(PullSecret), ModePlan(spec, o))), {} + {Settings});
  }

  /**
   Nothing is created before its checks: if a kind that was not there appears during a pass,
   the pass has got through each of them; so a failed check keeps it from being created.
   */
  lemma ChecksComeFirst(spec: Spec, o: Observed, w: World, outcomes: nat -> Outcome, k: Kind)
    requires k !in w && Appears(k, Trace(PassPlan(spec, o), w, outcomes, 0))
    ensures forall c :: c in Prerequisites(k) ==> Passes(PassPlan(spec, o), outcomes, 0, c)
  {
    hide PassPlan, Prerequisites, Appears, Passes;
    PassPlanIsVetted(spec, o);
    VettedNeedsChecks(PassPlan(spec, o), {}, w, outcomes, 0, k);
  }

  // ---------------------------------------------------------------------
  // A second pass changes nothing
  // ---------------------------------------------------------------------

  /** No action of the plan has any effect on this world. */
  predicate Idle(p: Plan, w: World) {
    p.Then? ==> Effect(p.action, w) == w && Idle(p.rest, w)
  }

  lemma {:induction false} IdleTrace(p: Plan, w: World, outcomes: nat -> Outcome, n: nat)
    requires Idle(p, w)
    ensures forall i :: 0 <= i < |Trace(p, w, outcomes, n)| ==> Trace(p, w, outcomes, n)[i] == w
  {
    if p.Then? {
      IdleTrace(p.rest, w, outcomes, n + 1);
    }
  }

  /** The world has what the spec wants and lacks what it does not want. */
  ghost predicate Agrees(spec: Spec, o: Observed, w: World) {
    forall k :: (Wanted(spec, o, k) == Present ==> k in w) && (Wanted(spec, o, k) == Absent ==> k !in w)
  }

  lemma IdleCreateIf(spec: Spec, o: Observed, w: World, condition: bool, k: Kind, rest: Plan)
    requires Agrees(spec, o, w) && Idle(rest, w)
    requires Wanted(spec, o, k) == if condition then Present else Absent
    ensures Idle(CreateIf(condition, k, rest), w)
  {
    hide Wanted;
    assert (Wanted(spec, o, k) == Present ==> k in w) && (Wanted(spec, o, k) == Absent ==> k !in w);
  }

  lemma IdleMonitor(spec: Spec, o: Observed, w: World)
    requires Agrees(spec, o, w) && !spec.createKnativeService
    ensures Idle(MonitorPlan(spec, o), w)
  {
    if o.monitor == Supported {
      AgreesAt(spec, o, w, ServiceMonitor);
      if spec.monitoring {
        assert Idle(Then(Create(ServiceMonitor), Done), w);
      }
    }
  }

  /** The pass deletes the Route and creates it anew. */
  predicate ReplacesRoute(spec: Spec, o: Observed) {
    !spec.createKnativeService && o.route == Supported && spec.expose && o.routeHostRemoved
  }

  lemma IdleExpose(spec: Spec, o: Observed, w: World)
    requires Agrees(spec, o, w) && !spec.createKnativeService && !ReplacesRoute(spec, o)
    ensures Idle(ExposePlan(spec, o, MonitorPlan(spec, o)), w)
  {
    hide Agrees;
    IdleMonitor(spec, o, w);
    if o.route == Supported {
      IdleCreateIf(spec, o, w, spec.expose, Route, MonitorPlan(spec, o));
    } else if o.route == Unsupported && o.ingress == Supported {
      IdleCreateIf(spec, o, w, spec.expose, Ingress, MonitorPlan(spec, o));
    }
  }

  lemma AgreesAt(spec: Spec, o: Observed, w: World, k: Kind)
    requires Agrees(spec, o, w)
    ensures (Wanted(spec, o, k) == Present ==> k in w) && (Wanted(spec, o, k) == Absent ==> k !in w)
  {
  }

  lemma IdleWorkload(spec: Spec, o: Observed, w: World, rest: Plan)
    requires Agrees(spec, o, w) && !spec.createKnativeService && Idle(rest, w)
    ensures Idle(WorkloadPlan(spec, rest), w)
  {
    hide Agrees;
    AgreesAt(spec, o, w, Deployment);
    AgreesAt(spec, o, w, StatefulSet);
    AgreesAt(spec, o, w, HeadlessService);
    var r2 := if spec.statefulSet then Then(Create(StatefulSet), rest) else Then(Create(Deployment), rest);
    assert Idle(r2, w);
  }

  lemma IdleService(spec: Spec, o: Observed, w: World)
    requires Agrees(spec, o, w) && !spec.createKnativeService && !ReplacesRoute(spec, o)
    ensures Idle(ServicePlan(spec, o), w)
  {
    hide Agrees, ExposePlan, MonitorPlan, WorkloadPlan, CreateIf;
    var expose := ExposePlan(spec, o, MonitorPlan(spec, o));
    IdleExpose(spec, o, w);
    IdleCreateIf(spec, o, w, spec.autoscaling, HorizontalPodAutoscaler, expose);
    var scale := CreateIf(spec.autoscaling, HorizontalPodAutoscaler, expose);
    IdleWorkload(spec, o, w, scale);
    var workload := Then(Verify(Bindings), WorkloadPlan(spec, scale));
    assert Idle(workload, w);
    IdleCreateIf(spec, o, w, spec.networkPolicy, NetworkPolicy, workload);
    AgreesAt(spec, o, w, Service);
    assert Idle(Then(Create(Service), CreateIf(spec.networkPolicy, NetworkPolicy, workload)), w);
  }

  lemma {:induction false} IdleDeletePlan(kinds: seq<Kind>, rest: Plan, w: World)
    requires Idle(rest, w) && forall k :: k in kinds ==> k !in w
    ensures Idle(DeletePlan(kinds, rest), w)
  {
    if kinds != [] {
      IdleDeletePlan(kinds[1..], rest, w);
      assert kinds[0] !in w;
    }
  }

  lemma IdleKnative(spec: Spec, o: Observed, w: World)
    requires Agrees(spec, o, w) && spec.createKnativeService && o.knative == Supported
    ensures Idle(KnativePlan(o), w)
  {
    hide Agrees, KnativeExposePlan, Idle, DeletePlan, NonKnative;
    IdleKnativeExpose(spec, o, w);
    forall k | k in NonKnative()
      ensures k !in w
    {
      NonKnativeKinds(k);
      AgreesAt(spec, o, w, k);
    }
    IdleDeletePlan(NonKnative(), KnativeExposePlan(o), w);
  }

  lemma IdleKnativeExpose(spec: Spec, o: Observed, w: World)
    requires Agrees(spec, o, w) && spec.createKnativeService && o.knative == Supported
    ensures Idle(KnativeExposePlan(o), w)
  {
    hide Agrees;
    AgreesAt(spec, o, w, KnativeService);
    AgreesAt(spec, o, w, Route);
    AgreesAt(spec, o, w, Ingress);
    var create := Then(Create(KnativeService), Done);
    assert Idle(create, w);
  }

  /** The world stays as it is throughout a pass. */
  ghost predicate StaysAt(p: Plan, w: World, outcomes: nat -> Outcome, n: nat) {
    forall i :: 0 <= i < |Trace(p, w, outcomes, n)| ==> Trace(p, w, outcomes, n)[i] == w
  }

  /** If no call fails, only an idle plan leaves the world as it is. */
  lemma {:induction false} StayingIsIdle(p: Plan, w: World, outcomes: nat -> Outcome, n: nat)
    requires StaysAt(p, w, outcomes, n) && ErrorFree(outcomes, n)
    ensures Idle(p, w)
  {
    if p.Then? {
      var w' := Effect(p.action, w);
      var tail := Trace(p.rest, w', outcomes, n + 1);
      TraceStarts(p.rest, w', outcomes, n + 1);
      assert Trace(p, w, outcomes, n) == [w] + tail;
      assert Trace(p, w, outcomes, n)[1] == w';
      forall i | 0 <= i < |tail|
        ensures tail[i] == w
      {
        assert Trace(p, w, outcomes, n)[i + 1] == tail[i];
      }
      StayingIsIdle(p.rest, w', outcomes, n + 1);
    }
  }

  lemma SettledAgrees(spec: Spec, o: Observed, w: World)
    ensures Agrees(spec, o, Settled(spec, o, w))
  {
    hide Settled, Wanted;
    forall k {
      SettledExactly(spec, o, w, k);
    }
  }

  lemma PassIsIdle(spec: Spec, o: Observed, s: World)
    requires Feasible(spec, o) && Agrees(spec, o, s) && !ReplacesRoute(spec, o)
    ensures Idle(PassPlan(spec, o), s)
  {
    hide ServicePlan, KnativePlan, Agrees;
    AgreesAt(spec, o, s, ServiceAccount);
    AgreesAt(spec, o, s, KnativeService);
    var rest := ModePlan(spec, o);
    if spec.createKnativeService { IdleKnative(spec, o, s); } else { IdleService(spec, o, s); }
    assert Idle(rest, s);
    assert Idle(Then(Verify(PullSecret), rest), s);
    assert Idle(AccountPlan(spec, Then(Verify(PullSecret), rest)), s);
  }

  /** A plan that deletes a kind and creates it anew is idle in no world. */
  lemma ReplacingIsNotIdle(spec: Spec, o: Observed, s: World)
    requires ReplacesRoute(spec, o)
    ensures !Idle(PassPlan(spec, o), s)
  {
    hide MonitorPlan, ServicePlan;
    if Idle(PassPlan(spec, o), s) {
      assert Idle(AccountPlan(spec, Then(Verify(PullSecret), ModePlan(spec, o))), s);
      assert Idle(Then(Verify(PullSecret), ModePlan(spec, o)), s);
      assert Idle(ModePlan(spec, o), s);
      assert Idle(ServicePlan(spec, o), s);
      ReplacingServiceIsNotIdle(spec, o, s);
    }
  }

  lemma ReplacingServiceIsNotIdle(spec: Spec, o: Observed, s: World)
    requires ReplacesRoute(spec, o)
    ensures !Idle(ServicePlan(spec, o), s)
  {
    hide MonitorPlan, WorkloadPlan, ExposePlan;
    var expose := ExposePlan(spec, o, MonitorPlan(spec, o));
    ReplacingExposeIsNotIdle(spec, o, s, MonitorPlan(spec, o));
    var scale := CreateIf(spec.autoscaling, HorizontalPodAutoscaler, expose);
    assert !Idle(scale, s);
    IdleAfterWorkload(spec, scale, s);
    var workload := Then(Verify(Bindings), WorkloadPlan(spec, scale));
    assert !Idle(workload, s);
    var policy := CreateIf(spec.networkPolicy, NetworkPolicy, workload);
    assert !Idle(policy, s);
    assert !Idle(Then(Create(Service), policy), s);
  }

  lemma IdleAfterWorkload(spec: Spec, rest: Plan, s: World)
    ensures Idle(WorkloadPlan(spec, rest), s) ==> Idle(rest, s)
  {
    if Idle(WorkloadPlan(spec, rest), s) {
      var create := if spec.statefulSet then Then(Create(StatefulSet), rest) else Then(Create(Deployment), rest);
      var headless := if spec.statefulSet then Create(HeadlessService) else Delete(HeadlessService);
      assert Idle(Then(headless, create), s);
      assert Idle(create, s);
    }
  }

  lemma ReplacingExposeIsNotIdle(spec: Spec, o: Observed, s: World, rest: Plan)
    requires ReplacesRoute(spec, o)
    ensures !Idle(ExposePlan(spec, o, rest), s)
  {
    assert Route !in Effect(Delete(Route), s);
    assert Route in Effect(Create(Route), s);
    assert Idle(Then(Create(Route), rest), s) ==> Effect(Create(Route), s) == s;
  }

  /**
   Once the world is settled, another pass leaves it alone at every moment, whichever of
   its calls fail, if and only if it does not replace the Route, as it does where Routes
   are supported and a custom route host was removed.
   */
  lemma SecondPassChangesNothing(spec: Spec, o: Observed, w: World)
    requires Feasible(spec, o)
    ensures (forall outcomes: nat -> Outcome :: StaysAt(PassPlan(spec, o), Settled(spec, o, w), outcomes, 0))
            <==> !ReplacesRoute(spec, o)
  {
    hide PassPlan, Trace, Settled, Wanted, StaysAt, Idle;
    var p, s := PassPlan(spec, o), Settled(spec, o, w);
    SettledAgrees(spec, o, w);
    if ReplacesRoute(spec, o) {
      var outcomes := (n: nat) => Ok;
      if StaysAt(p, s, outcomes, 0) {
        StayingIsIdle(p, s, outcomes, 0);
        ReplacingIsNotIdle(spec, o, s);
      }
    } else {
      PassIsIdle(spec, o, s);
      forall outcomes: nat -> Outcome
        ensures StaysAt(p, s, outcomes, 0)
      {
        IdleStays(p, s, outcomes, 0);
      }
    }
  }

  lemma IdleStays(p: Plan, w: World, outcomes: nat -> Outcome, n: nat)
    requires Idle(p, w)
    ensures StaysAt(p, w, outcomes, n)
  {
    hide Idle, Trace;
    IdleTrace(p, w, outcomes, n);
  }

  // ---------------------------------------------------------------------
  // What does not hold
  // ---------------------------------------------------------------------

  /** A failed deletion of the Knative service is only logged: the pass goes on. */
  lemma FailedKnativeDeleteIsTolerated(spec: Spec, o: Observed, w: World, outcomes: nat -> Outcome)
    requires !spec.createKnativeService && o.knative == Supported && KnativeService in w
    requires forall m :: outcomes(m) == if m == FirstModeCall(spec) then Rejected else Ok
    ensures Completes(PassPlan(spec, o), outcomes, 0)
    ensures EndOf(PassPlan(spec, o), w, outcomes, 0) * Workloads() == {SelectedWorkload(spec), KnativeService}
  {
    hide ServicePlan, EndOf, Settled, AllKinds;
    var n, p := FirstModeCall(spec), ServicePlan(spec, o);
    ServicePlanIsPlain(spec, o);
    ErrorFreeCompletes(p, outcomes, n + 1);
    var p1 := Then(TryDelete(KnativeService), p);
    assert Completes(p1, outcomes, n);
    assert Completes(Then(Verify(PullSecret), p1), outcomes, n - 1);
    assert Completes(AccountPlan(spec, Then(Verify(PullSecret), p1)), outcomes, 1);
    CompletedPassEnds(spec, o, w, outcomes);
    SettledExactly(spec, o, w, Deployment);
    SettledExactly(spec, o, w, StatefulSet);
    SettledExactly(spec, o, w, KnativeService);
  }

  /** So is a failed deletion of the Ingress, which then stays beside the Knative service. */
  lemma FailedIngressDeleteIsTolerated(spec: Spec, o: Observed, w: World, outcomes: nat -> Outcome)
    requires spec.createKnativeService && o.knative == Supported && o.ingress == Supported && Ingress in w
    requires forall m :: outcomes(m) == if m == FirstModeCall(spec) + 6 then Rejected else Ok
    ensures Completes(PassPlan(spec, o), outcomes, 0)
    ensures var end := EndOf(PassPlan(spec, o), w, outcomes, 0); Ingress in end && KnativeService in end
  {
    hide EndOf, Settled, AllKinds, KnativeExposePlan, DeletePlan;
    var n := FirstModeCall(spec);
    KnativeExposeCompletes(o, outcomes, n + 6);
    assert |NonKnative()| == 6;
    DeletePlanCompletes(NonKnative(), KnativeExposePlan(o), outcomes, n);
    assert Completes(ModePlan(spec, o), outcomes, n);
    assert Completes(Then(Verify(PullSecret), ModePlan(spec, o)), outcomes, n - 1);
    assert Completes(AccountPlan(spec, Then(Verify(PullSecret), ModePlan(spec, o))), outcomes, 1);
    CompletedPassEnds(spec, o, w, outcomes);
    SettledExactly(spec, o, w, KnativeService);
  }

  lemma KnativeExposeCompletes(o: Observed, outcomes: nat -> Outcome, n: nat)
    requires o.knative == Supported && o.ingress == Supported && ErrorFree(outcomes, n + 1)
    ensures Completes(KnativeExposePlan(o), outcomes, n)
  {
    var create := Then(Create(KnativeService), Done);
    var route := if o.route == Supported then Then(Delete(Route), create) else create;
    assert Plain(create) && Plain(route);
    ErrorFreeCompletes(route, outcomes, n + 1);
  }

  lemma {:induction false} DeletePlanCompletes(kinds: seq<Kind>, rest: Plan, outcomes: nat -> Outcome, n: nat)
    requires forall m :: n <= m < n + |kinds| ==> outcomes(m) == Ok
    requires Completes(rest, outcomes, n + |kinds|)
    ensures Completes(DeletePlan(kinds, rest), outcomes, n)
  {
    if kinds != [] {
      DeletePlanCompletes(kinds[1..], rest, outcomes, n + 1);
    }
  }

  lemma {:induction false} ErrorFreeCompletes(p: Plan, outcomes: nat -> Outcome, n: nat)
    requires Plain(p) && ErrorFree(outcomes, n)
    ensures Completes(p, outcomes, n)
  {
    if p.Then? {
      ErrorFreeCompletes(p.rest, outcomes, n + 1);
    }
  }

  // ---------------------------------------------------------------------
  // The code
  // ---------------------------------------------------------------------

  /** The API server, and the pass that is talking to it. */
  class Cluster {
    var resources: World
    var calls: nat                       // made by the current pass
    const outcomes: nat -> Outcome       // of those calls

    ghost var visited: seq<World>        // by the current pass
    ghost var plan: Plan                 // what remains of it
    ghost var promised: seq<World>       // the trace of the whole plan
    ghost var completes: bool            // whether that plan completes

    constructor (resources: World, outcomes: nat -> Outcome)
      ensures this.resources == resources && this.outcomes == outcomes
    {
      this.resources, this.outcomes := resources, outcomes;
      calls, visited, plan, promised, completes := 0, [], Done, [], false;
    }

    /** The visited worlds and the trace of the remaining plan make up what was promised. */
    ghost predicate OnTrack()
      reads this
    {
      && |visited| > 0 && visited[|visited| - 1] == resources
      && promised == visited[..|visited| - 1] + Trace(plan, resources, outcomes, calls)
      && (completes <==> Completes(plan, outcomes, calls))
    }

    /** The pass is over and has visited what was promised. */
    ghost predicate Ended(ok: bool)
      reads this
    {
      && |visited| > 0 && visited[|visited| - 1] == resources
      && promised == visited && (ok <==> completes)
    }

    method Begin(ghost p: Plan)
      modifies this
      ensures OnTrack() && plan == p
      ensures promised == Trace(p, old(resources), outcomes, 0)
      ensures completes == Completes(p, outcomes, 0)
    {
      calls, visited, plan := 0, [resources], p;
      promised, completes := Trace(p, resources, outcomes, 0), Completes(p, outcomes, 0);
    }

    /** One API call: the next action of the plan, with the next outcome. */
    method Perform(a: Action) returns (err: bool)
      requires OnTrack() && plan.Then? && plan.action == a
      modifies this
      ensures promised == old(promised) && completes == old(completes)
      ensures if err && !a.TryDelete? then Ended(false) else OnTrack() && plan == old(plan).rest
    {
      var o := outcomes(calls);
      err := o != Ok;
      resources := Call(a, resources, o);
      ghost var before := visited;
      visited := visited + [resources];
      calls := calls + 1;
      plan := plan.rest;
      TraceStarts(plan, resources, outcomes, calls);
      assert before == before[..|before| - 1] + [before[|before| - 1]];
      assert visited[..|visited| - 1] == before;
    }

    method CreateOrUpdate(k: Kind) returns (err: bool)
      requires OnTrack() && plan.Then? && plan.action == Create(k)
      modifies this
      ensures promised == old(promised) && completes == old(completes)
      ensures if err then Ended(false) else OnTrack() && plan == old(plan).rest
    {
      err := Perform(Create(k));
    }

    method DeleteResource(k: Kind) returns (err: bool)
      requires OnTrack() && plan.Then? && plan.action == Delete(k)
      modifies this
      ensures promised == old(promised) && completes == old(completes)
      ensures if err then Ended(false) else OnTrack() && plan == old(plan).rest
    {
      err := Perform(Delete(k));
    }

    /** DeleteResource where the caller goes on whatever it returns. */
    method TryDeleteResource(k: Kind)
      requires OnTrack() && plan.Then? && plan.action == TryDelete(k)
      modifies this
      ensures promised == old(promised) && completes == old(completes)
      ensures OnTrack() && plan == old(plan).rest
    {
      var _ := Perform(TryDelete(k));
    }

    /** Reads, validation, certificates and bindings: anything else that may end the pass. */
    method CheckStep(what: Check) returns (err: bool)
      requires OnTrack() && plan.Then? && plan.action == Verify(what)
      modifies this
      ensures promised == old(promised) && completes == old(completes)
      ensures if err then Ended(false) else OnTrack() && plan == old(plan).rest
    {
      err := Perform(Verify(what));
    }

    lemma Finished()
      requires OnTrack() && !plan.Then?
      ensures Ended(plan == Done)
    {
      assert visited == visited[..|visited| - 1] + [resources];
    }
  }

  /**
   Reconcile: makes the calls of its plan up to the first error it does not tolerate,
   and reports success exactly if it completes the plan.
   */
  method Reconcile(c: Cluster, spec: Spec, o: Observed) returns (ok: bool)
    modifies c
    ensures c.visited == Trace(PassPlan(spec, o), old(c.resources), c.outcomes, 0)
    ensures |c.visited| > 0 && c.resources == c.visited[|c.visited| - 1]
    ensures ok <==> Completes(PassPlan(spec, o), c.outcomes, 0)
  {
    c.Begin(PassPlan(spec, o));
    ok := RunPass(c, spec, o);
  }

  method RunPass(c: Cluster, spec: Spec, o: Observed) returns (ok: bool)
    requires c.OnTrack() && c.plan == PassPlan(spec, o)
    modifies c
    ensures c.Ended(ok) && c.promised == old(c.promised) && c.completes == old(c.completes)
  {
    hide ServicePlan, KnativePlan, Trace, Completes;
    var err := c.CheckStep(Settings);
    if err {
      return false;
    }
    if spec.account == OwnAccount {
      err := c.CreateOrUpdate(ServiceAccount);
      if err {
        return false;
      }
    } else if spec.account == OtherAccount {
      err := c.DeleteResource(ServiceAccount);
      if err {
        return false;
      }
    }
    err := c.CheckStep(PullSecret);
    if err {
      return false;
    }
    if spec.createKnativeService {
      ok := ReconcileKnative(c, o);
      return;
    }
    if o.knative == Supported {
      // an error here is recorded in the status, but does not end the pass
      c.TryDeleteResource(KnativeService);
    }
    ok := ReconcileService(c, spec, o);
  }

  /** The branch for Knative services. */
  method ReconcileKnative(c: Cluster, o: Observed) returns (ok: bool)
    requires c.OnTrack() && c.plan == KnativePlan(o)
    modifies c
    ensures c.Ended(ok) && c.promised == old(c.promised) && c.completes == old(c.completes)
  {
    hide Trace, Completes;
    var err := DeleteResources(c, NonKnative(), KnativeExposePlan(o));
    if err {
      return false;
    }
    if o.ingress == Supported {
      c.TryDeleteResource(Ingress);
    }
    if o.route == Supported {
      err := c.DeleteResource(Route);
      if err {
        return false;
      }
    }
    if o.knative == Supported {
      err := c.CreateOrUpdate(KnativeService);
      if err {
        return false;
      }
      c.Finished();
      return true;
    }
    c.Finished();
    return false;
  }

  method DeleteResources(c: Cluster, resources: seq<Kind>, ghost rest: Plan) returns (err: bool)
    requires c.OnTrack() && c.plan == DeletePlan(resources, rest)
    modifies c
    ensures c.promised == old(c.promised) && c.completes == old(c.completes)
    ensures if err then c.Ended(false) else c.OnTrack() && c.plan == rest
  {
    hide Trace, Completes;
    assert resources[0..] == resources;
    for i := 0 to |resources|
      invariant c.OnTrack() && c.plan == DeletePlan(resources[i..], rest)
      invariant c.promised == old(c.promised) && c.completes == old(c.completes)
    {
      err := c.DeleteResource(resources[i]);
      if err {
        return;
      }
      assert resources[i..][1..] == resources[i + 1..];
    }
    err := false;
  }

  /** The branch for Deployments and StatefulSets. */
  method ReconcileService(c: Cluster, spec: Spec, o: Observed) returns (ok: bool)
    requires c.OnTrack() && c.plan == ServicePlan(spec, o)
    modifies c
    ensures c.Ended(ok) && c.promised == old(c.promised) && c.completes == old(c.completes)
  {
    hide Trace, Completes, ExposePlan, MonitorPlan, WorkloadPlan;
    var err := c.CheckStep(Certificate);
    if err {
      return false;
    }
    err := c.CreateOrUpdate(Service);
    if err {
      return false;
    }
    if spec.networkPolicy {
      err := c.CreateOrUpdate(NetworkPolicy);
    } else {
      err := c.DeleteResource(NetworkPolicy);
    }
    if err {
      return false;
    }
    err := c.CheckStep(Bindings);
    if err {
      return false;
    }
    ghost var expose := ExposePlan(spec, o, MonitorPlan(spec, o));
    err := ReconcileWorkload(c, spec, CreateIf(spec.autoscaling, HorizontalPodAutoscaler, expose));
    if err {
      return false;
    }
    if spec.autoscaling {
      err := c.CreateOrUpdate(HorizontalPodAutoscaler);
    } else {
      err := c.DeleteResource(HorizontalPodAutoscaler);
    }
    if err {
      return false;
    }
    ok := ReconcileExpose(c, spec, o);
  }

  /** Removes the rival of the selected workload, then creates it. */
  method ReconcileWorkload(c: Cluster, spec: Spec, ghost rest: Plan) returns (err: bool)
    requires c.OnTrack() && c.plan == WorkloadPlan(spec, rest)
    modifies c
    ensures c.promised == old(c.promised) && c.completes == old(c.completes)
    ensures if err then c.Ended(false) else c.OnTrack() && c.plan == rest
  {
    hide Trace, Completes;
    if spec.statefulSet {
      err := c.DeleteResource(Deployment);
      if err {
        return;
      }
      err := c.CreateOrUpdate(HeadlessService);
      if err {
        return;
      }
      err := c.CreateOrUpdate(StatefulSet);
    } else {
      err := c.DeleteResource(StatefulSet);
      if err {
        return;
      }
      err := c.DeleteResource(HeadlessService);
      if err {
        return;
      }
      err := c.CreateOrUpdate(Deployment);
    }
  }

  /** Route or Ingress, then the ServiceMonitor. */
  method ReconcileExpose(c: Cluster, spec: Spec, o: Observed) returns (ok: bool)
    requires c.OnTrack() && c.plan == ExposePlan(spec, o, MonitorPlan(spec, o))
    modifies c
    ensures c.Ended(ok) && c.promised == old(c.promised) && c.completes == old(c.completes)
  {
    hide Trace, Completes;
    var err := false;
    if o.route == Unknown {
      // a discovery error is recorded in the status, but does not end the pass
    } else if o.route == Supported {
      if spec.expose {
        if o.routeHostRemoved {
          err := c.DeleteResource(Route);
          if err {
            return false;
          }
        }
        err := c.CreateOrUpdate(Route);
      } else {
        err := c.DeleteResource(Route);
      }
      if err {
        return false;
      }
    } else if o.ingress == Supported {
      if spec.expose {
        err := c.CreateOrUpdate(Ingress);
      } else {
        err := c.DeleteResource(Ingress);
      }
      if err {
        return false;
      }
    }
    if o.monitor == Supported {
      if spec.monitoring {
        err := c.CheckStep(Monitoring);
        if err {
          return false;
        }
        err := c.CreateOrUpdate(ServiceMonitor);
      } else {
        err := c.DeleteResource(ServiceMonitor);
      }
      if err {
        return false;
      }
    }
    c.Finished();
    return true;
  }
}
