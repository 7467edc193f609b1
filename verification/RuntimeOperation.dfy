/**
 A RuntimeOperation runs one command in a container: api/v1/operations.go and
 internal/controller/runtimeoperation_controller.go.

 The cluster keeps every version of the operation's status.  A pass reads one of
 them, the latest unless its cache is stale, and a status write takes effect only if
 it reaches the API server and is based on the latest version (the resourceVersion
 check of a Kubernetes update).  The process may stop after any of its actions.
 */
module RuntimeOperation {
  import opened Options
  import opened Requeue

  const MAX_RETRY := 6 * 60 * 60 * SECOND

  datatype OperationConditionType = Started | Completed

  datatype OperationCondition = OperationCondition(
    typ: OperationConditionType,
    status: bool,
    reason: string,
    message: string,
    lastUpdateTime: Option<int>,
    lastTransitionTime: Option<int>)

  type Conditions = seq<OperationCondition>

  // ---------------------------------------------------------------------
  // Condition list
  // ---------------------------------------------------------------------

  function Position(c: Conditions, t: OperationConditionType): (i: nat)
    ensures i <= |c|
    ensures i < |c| ==> c[i].typ == t
    ensures forall j :: 0 <= j < i ==> c[j].typ != t
  {
    if c == [] || c[0].typ == t then 0 else 1 + Position(c[1..], t)
  }

  function Find(c: Conditions, t: OperationConditionType): Option<OperationCondition> {
    var i := Position(c, t);
    if i < |c| then Some(c[i]) else None
  }

  predicate Holds(c: Conditions, t: OperationConditionType) {
    Find(c, t).Some? && Find(c, t).value.status
  }

  /** What SetOperationCondition leaves in the list at time `now`. */
  function Updated(c: Conditions, oc: OperationCondition, now: int): Conditions {
    var i := Position(c, oc.typ);
    if i < |c| then
      c[i := oc.(lastUpdateTime := Some(now),
                 lastTransitionTime := if c[i].status != oc.status then Some(now) else c[i].lastTransitionTime)]
    else
      c + [oc.(lastUpdateTime := Some(now))]
  }

  /** It replaces the condition of that type and leaves every other one alone. */
  lemma UpdatedFinds(c: Conditions, oc: OperationCondition, now: int, t: OperationConditionType)
    ensures t != oc.typ ==> Find(Updated(c, oc, now), t) == Find(c, t)
    ensures var was, r := Find(c, oc.typ), Find(Updated(c, oc, now), oc.typ);
            && r.Some? && r.value.status == oc.status && r.value.lastUpdateTime == Some(now)
            && r.value.message == oc.message && r.value.reason == oc.reason
            && r.value.lastTransitionTime ==
               if was.None? then oc.lastTransitionTime
               else if was.value.status != oc.status then Some(now) else was.value.lastTransitionTime
    ensures |Updated(c, oc, now)| == |c| + if Find(c, oc.typ).None? then 1 else 0
    ensures forall i :: 0 <= i < |c| && c[i].typ != oc.typ ==> Updated(c, oc, now)[i] == c[i]
  {
    var u := Updated(c, oc, now);
    assert PositionIs(u, oc.typ, Position(c, oc.typ));
    if t != oc.typ {
      var p := Position(c, t);
      assert PositionIs(u, t, if p < |c| then p else |u|);
    }
  }

  predicate PositionIs(c: Conditions, t: OperationConditionType, i: nat)
    ensures PositionIs(c, t, i) ==> Position(c, t) == i
  {
    i <= |c| && (i < |c| ==> c[i].typ == t) && forall j :: 0 <= j < i ==> c[j].typ != t
  }

  // ---------------------------------------------------------------------
  // The cluster as the passes change it
  // ---------------------------------------------------------------------

  /** Executions are counted by whether their Started write had taken effect. */
  datatype World = World(history: seq<Conditions>, guarded: nat, unguarded: nat)
  {
    ghost predicate Valid() {
      |history| > 0
    }

    function Latest(): Conditions
      requires |history| > 0
    {
      history[|history| - 1]
    }

    function Executions(): nat {
      guarded + unguarded
    }

    /** A write based on version `base`. */
    function Write(base: nat, c: Conditions, reaches: bool): World {
      if Lands(base, reaches) then this.(history := history + [c]) else this
    }

    predicate Lands(base: nat, reaches: bool) {
      reaches && base + 1 == |history|
    }

    function Execute(guard: bool): World {
      if guard then this.(guarded := guarded + 1) else this.(unguarded := unguarded + 1)
    }
  }

  datatype PodState = PodMissing | PodNotRunning | ContainerMissing | PodReady

  /** What one pass meets: the version it reads, the pod, the fate of its writes. */
  datatype Env = Env(
    version: nat,
    pod: PodState,
    message: string,             // of the start failure, which names pod and container
    now: int,
    firstWriteReaches: bool,
    commandError: Option<string>,
    lastWriteReaches: bool)

  function StartedTrue(): OperationCondition {
    OperationCondition(Started, true, "", "", None, None)
  }

  function StartFailure(message: string): OperationCondition {
    OperationCondition(Started, false, "Error", message, None, None)
  }

  function CompletedBy(error: Option<string>): OperationCondition {
    if error.Some? then OperationCondition(Completed, false, "Error", error.value, None, None)
    else OperationCondition(Completed, true, "", "", None, None)
  }

  /** The worlds a pass goes through after its read, one per action. */
  function Visited(w: World, env: Env): (ws: seq<World>)
    requires env.version < |w.history|
    ensures |ws| > 0 && ws[0] == w
  {
    var c := w.history[env.version];
    if Holds(c, Completed) || Holds(c, Started) then [w]
    else if env.pod != PodReady then
      [w, w.Write(env.version, Updated(c, StartFailure(env.message), env.now), env.firstWriteReaches)]
    else
      var lands := w.Lands(env.version, env.firstWriteReaches);
      var c1 := Updated(c, StartedTrue(), env.now);
      var w1 := w.Write(env.version, c1, env.firstWriteReaches);
      var w2 := w1.Execute(lands);
      var base := if lands then env.version + 1 else env.version;
      var w3 := w2.Write(base, Updated(c1, CompletedBy(env.commandError), env.now), env.lastWriteReaches);
      [w, w1, w2, w3]
  }

  // ---------------------------------------------------------------------
  // Runs
  // ---------------------------------------------------------------------

  /** A pass that performs at most `actions` of its actions and then stops. */
  datatype Step = Step(env: Env, actions: nat)

  function Next(w: World, s: Step): World
    requires s.env.version < |w.history|
  {
    var ws := Visited(w, s.env);
    ws[if s.actions < |ws| then s.actions else |ws| - 1]
  }

  ghost predicate IsRun(worlds: seq<World>, steps: seq<Step>) {
    && |worlds| == |steps| + 1
    && worlds[0] == World([[]], 0, 0)
    && (forall i :: 0 <= i < |steps| ==> steps[i].env.version < |worlds[i].history|)
    && (forall i, j :: 0 <= i < |steps| && j == i + 1 ==> worlds[j] == Next(worlds[i], steps[i]))
  }

  /** What the Completed condition says about the command that ended. */
  predicate Reports(oc: OperationCondition, error: Option<string>) {
    && oc.typ == Completed && oc.status == error.None?
    && oc.reason == (if error.Some? then "Error" else "") && oc.message == if error.Some? then error.value else ""
  }

  /** What a pass leaves in the version that it wrote last. */
  lemma PassWrites(w: World, s: Step)
    requires s.env.version < |w.history| && |w.history| < |Next(w, s).history|
    ensures var env, latest := s.env, Next(w, s).Latest();
            var started, completed := Find(latest, Started), Find(latest, Completed);
            if env.pod != PodReady then
              && started.Some? && !started.value.status
              && started.value.reason == "Error" && started.value.message == env.message
              && completed == Find(w.history[env.version], Completed)
            else
              && started.Some? && started.value.status && started.value.reason == "" && started.value.message == ""
              && (if s.actions >= 3 && env.lastWriteReaches
                  then completed.Some? && Reports(completed.value, env.commandError)
                  else completed == Find(w.history[env.version], Completed))
  {
    hide Find, Updated;
    var env, c := s.env, w.history[s.env.version];
    var c1 := Updated(c, StartedTrue(), env.now);
    UpdatedFinds(c, StartedTrue(), env.now, Completed);
    UpdatedFinds(c, StartFailure(env.message), env.now, Completed);
    UpdatedFinds(c1, CompletedBy(env.commandError), env.now, Started);
    FoundType(Updated(c1, CompletedBy(env.commandError), env.now), Completed);
  }

  lemma FoundType(c: Conditions, t: OperationConditionType)
    ensures Find(c, t).Some? ==> Find(c, t).value.typ == t
  {
  }

  /** What holds of every reachable world. */
  ghost predicate Invariant(w: World) {
    && w.Valid()
    && w.guarded <= 1
    && (w.guarded == 1 ==> Holds(w.Latest(), Started))
    && StartedStays(w.history)
    && (forall i :: 0 <= i < |w.history| && Find(w.history[i], Completed).Some? ==> Holds(w.history[i], Started))
  }

  /** Once a version has Started=True, so do all later ones. */
  ghost predicate StartedStays(history: seq<Conditions>) {
    forall i, j :: 0 <= i <= j < |history| && Holds(history[i], Started) ==> Holds(history[j], Started)
  }

  lemma NextKeepsInvariant(w: World, s: Step)
    requires Invariant(w) && s.env.version < |w.history|
    ensures Invariant(Next(w, s))
  {
    hide Position, Find, Updated;
    var env, c := s.env, w.history[s.env.version];
    var c1 := Updated(c, StartedTrue(), env.now);
    UpdatedFinds(c, StartedTrue(), env.now, Completed);
    UpdatedFinds(c, StartFailure(env.message), env.now, Completed);
    UpdatedFinds(c1, CompletedBy(env.commandError), env.now, Started);
    UpdatedFinds(c1, CompletedBy(env.commandError), env.now, Completed);
  }

  lemma {:induction false} RunKeepsInvariant(worlds: seq<World>, steps: seq<Step>, i: nat)
    requires IsRun(worlds, steps) && i < |worlds|
    ensures Invariant(worlds[i])
  {
    if i == 0 {
      assert Find([], Started) == None && Find([], Completed) == None;
    } else {
      RunKeepsInvariant(worlds, steps, i - 1);
      assert worlds[i] == Next(worlds[i - 1], steps[i - 1]);
      NextKeepsInvariant(worlds[i - 1], steps[i - 1]);
    }
  }

  /**
   At most once, over all runs with crashes, pod changes, stale reads and lost writes:
   at most one execution ever follows a Started write that took effect.
   */
  lemma AtMostOnce(worlds: seq<World>, steps: seq<Step>, i: nat)
    requires IsRun(worlds, steps) && i < |worlds|
    ensures worlds[i].guarded <= 1
    ensures worlds[i].Executions() <= 1 + worlds[i].unguarded
  {
    RunKeepsInvariant(worlds, steps, i);
  }

  /** The pass gets past the guard and as far as executing the command. */
  predicate Executes(w: World, s: Step)
    requires s.env.version < |w.history|
  {
    var c := w.history[s.env.version];
    !Holds(c, Completed) && !Holds(c, Started) && Attempts(s)
  }

  /** The pass executes the command unless the guard stops it. */
  predicate Attempts(s: Step) {
    s.env.pod == PodReady && s.actions >= 2
  }

  /** The pass reads the latest version and its Started write reaches the API server. */
  predicate WriteTakesEffect(w: World, env: Env) {
    env.version + 1 == |w.history| && env.firstWriteReaches
  }

  /** A step executes the command at most once; unguarded exactly if its Started write is lost. */
  lemma UnguardedExactly(w: World, s: Step)
    requires s.env.version < |w.history|
    ensures Next(w, s).Executions() == w.Executions() + if Executes(w, s) then 1 else 0
    ensures Next(w, s).unguarded > w.unguarded <==> Executes(w, s) && !WriteTakesEffect(w, s.env)
    ensures Next(w, s).unguarded >= w.unguarded
  {
  }

  /**
   No execution is unguarded if and only if the Started write of every pass that executes
   the command takes effect; then the command runs at most once.
   */
  lemma {:induction false} AtMostOnceIfWritesTakeEffect(worlds: seq<World>, steps: seq<Step>, i: nat)
    requires IsRun(worlds, steps) && i < |worlds|
    ensures worlds[i].unguarded == 0 <==>
            forall j :: 0 <= j < i && Executes(worlds[j], steps[j]) ==> WriteTakesEffect(worlds[j], steps[j].env)
    ensures worlds[i].unguarded == 0 ==> worlds[i].Executions() <= 1
  {
    hide Executes, Next;
    AtMostOnce(worlds, steps, i);
    if i > 0 {
      AtMostOnceIfWritesTakeEffect(worlds, steps, i - 1);
      assert worlds[i] == Next(worlds[i - 1], steps[i - 1]);
      UnguardedExactly(worlds[i - 1], steps[i - 1]);
    }
  }

  // ---------------------------------------------------------------------
  // Exactly when the command runs once
  // ---------------------------------------------------------------------

  /**
   The pass makes Started=True durable: with its first write, or, if that does not reach
   the API server, with the one that records the end of the command.
   */
  predicate StartedLands(w: World, s: Step)
    requires s.env.version < |w.history|
  {
    && s.env.version + 1 == |w.history| && !Holds(w.Latest(), Started) && s.env.pod == PodReady
    && if s.env.firstWriteReaches then s.actions >= 1 else s.env.lastWriteReaches && s.actions >= 3
  }

  /** Versions only accumulate, and the new ones are Started exactly if it landed. */
  lemma NewVersions(w: World, s: Step)
    requires Invariant(w) && s.env.version < |w.history|
    ensures var w' := Next(w, s);
            && w.history <= w'.history
            && (forall v :: |w.history| <= v < |w'.history| ==> (Holds(w'.history[v], Started) <==> StartedLands(w, s)))
            && (StartedLands(w, s) ==> |w.history| < |w'.history|)
            && (|w.history| < |w'.history| ==> !Holds(w.Latest(), Started))
  {
    hide Position, Find, Updated;
    var env, c := s.env, w.history[s.env.version];
    var c1 := Updated(c, StartedTrue(), env.now);
    UpdatedFinds(c, StartedTrue(), env.now, Completed);
    UpdatedFinds(c, StartFailure(env.message), env.now, Completed);
    UpdatedFinds(c1, CompletedBy(env.commandError), env.now, Started);
  }

  /** A version is Started exactly if some earlier pass made it so, at that version or before. */
  lemma {:induction false} StartedExactly(worlds: seq<World>, steps: seq<Step>, i: nat, v: nat)
    requires IsRun(worlds, steps) && i < |worlds| && v < |worlds[i].history|
    ensures Holds(worlds[i].history[v], Started) <==>
            exists k :: 0 <= k < i && StartedLands(worlds[k], steps[k]) && |worlds[k].history| <= v
  {
    hide Holds, Next, StartedLands, Invariant;
    if i == 0 {
      NothingHolds(Started);
    } else {
      var w, s := worlds[i - 1], steps[i - 1];
      assert worlds[i] == Next(w, s);
      RunKeepsInvariant(worlds, steps, i - 1);
      NewVersions(w, s);
      if v < |w.history| {
        StartedExactly(worlds, steps, i - 1, v);
      } else {
        var last := |w.history| - 1;
        StartedExactly(worlds, steps, i - 1, last);
        forall k | 0 <= k < i - 1 && StartedLands(worlds[k], steps[k])
          ensures |worlds[k].history| <= last
        {
          HistoryGrows(worlds, steps, k, i - 1);
        }
      }
    }
  }

  lemma NothingHolds(t: OperationConditionType)
    ensures !Holds([], t)
  {
    assert Position([], t) == 0;
  }

  lemma {:induction false} HistoryGrows(worlds: seq<World>, steps: seq<Step>, k: nat, i: nat)
    requires IsRun(worlds, steps) && k < i < |worlds|
    ensures |worlds[k].history| <= |worlds[i].history|
    ensures StartedLands(worlds[k], steps[k]) ==> |worlds[k].history| < |worlds[i].history|
  {
    hide Next, StartedLands, Invariant;
    assert worlds[i] == Next(worlds[i - 1], steps[i - 1]);
    RunKeepsInvariant(worlds, steps, i - 1);
    NewVersions(worlds[i - 1], steps[i - 1]);
    if k < i - 1 {
      HistoryGrows(worlds, steps, k, i - 1);
    }
  }

  /** No Started=True that was written before pass `j` is in the version that it reads. */
  ghost predicate Blind(worlds: seq<World>, steps: seq<Step>, j: nat)
    requires IsRun(worlds, steps) && j < |steps|
  {
    forall k :: 0 <= k < j && StartedLands(worlds[k], steps[k]) ==> steps[j].env.version < |worlds[k].history|
  }

  /** A pass executes the command exactly if it attempts to and is blind. */
  lemma BlindExactly(worlds: seq<World>, steps: seq<Step>, j: nat)
    requires IsRun(worlds, steps) && j < |steps|
    ensures Executes(worlds[j], steps[j]) <==> Attempts(steps[j]) && Blind(worlds, steps, j)
  {
    hide Find, StartedLands, Next;
    RunKeepsInvariant(worlds, steps, j);
    StartedExactly(worlds, steps, j, steps[j].env.version);
  }

  /**
   The command runs at most once if and only if no two passes that attempt to execute it
   are blind: over all runs with crashes, pod changes, stale reads and lost writes.
   */
  lemma {:induction false} AtMostOnceExactly(worlds: seq<World>, steps: seq<Step>, n: nat)
    requires IsRun(worlds, steps) && n < |worlds|
    ensures worlds[n].Executions() <= 1 <==>
            !exists i, j :: 0 <= i < j < n && Attempts(steps[i]) && Blind(worlds, steps, i)
                            && Attempts(steps[j]) && Blind(worlds, steps, j)
    ensures worlds[n].Executions() == 0 <==>
            !exists i :: 0 <= i < n && Attempts(steps[i]) && Blind(worlds, steps, i)
  {
    hide Executes, Next, Blind, Attempts;
    if n > 0 {
      AtMostOnceExactly(worlds, steps, n - 1);
      assert worlds[n] == Next(worlds[n - 1], steps[n - 1]);
      UnguardedExactly(worlds[n - 1], steps[n - 1]);
      BlindExactly(worlds, steps, n - 1);
    }
  }

  /**
   If the passes that attempt to execute the command read the latest version, it runs at
   most once if and only if Started=True landed before the second of them.
   */
  lemma AtMostOnceWithFreshReads(worlds: seq<World>, steps: seq<Step>, n: nat)
    requires IsRun(worlds, steps) && n < |worlds|
    requires forall j :: 0 <= j < n && Attempts(steps[j]) ==> steps[j].env.version + 1 == |worlds[j].history|
    ensures worlds[n].Executions() <= 1 <==>
            forall i, j :: 0 <= i < j < n && Attempts(steps[i]) && Attempts(steps[j]) ==>
              exists k :: 0 <= k < j && StartedLands(worlds[k], steps[k])
  {
    hide StartedLands, Next, Attempts, Blind;
    AtMostOnceExactly(worlds, steps, n);
    forall j | 0 <= j < n && Attempts(steps[j])
      ensures Blind(worlds, steps, j) <==> !exists k :: 0 <= k < j && StartedLands(worlds[k], steps[k])
    {
      FreshIsBlindExactly(worlds, steps, j);
    }
  }

  lemma FreshIsBlindExactly(worlds: seq<World>, steps: seq<Step>, j: nat)
    requires IsRun(worlds, steps) && j < |steps| && steps[j].env.version + 1 == |worlds[j].history|
    ensures Blind(worlds, steps, j) <==> !exists k :: 0 <= k < j && StartedLands(worlds[k], steps[k])
  {
    hide StartedLands, Next;
    forall k | 0 <= k < j && StartedLands(worlds[k], steps[k])
      ensures |worlds[k].history| <= steps[j].env.version
    {
      HistoryGrows(worlds, steps, k, j);
    }
  }

  /**
   After a pass that executed the command, the next attempt executes it again exactly if it
   reads a version that the first pass has not written and that is not Started; when both
   read the latest version, exactly if neither write of the first pass took effect.
   */
  lemma ExecutesAgainExactly(w: World, s: Step, t: Step)
    requires Invariant(w) && s.env.version < |w.history| && Executes(w, s)
    requires t.env.version < |Next(w, s).history| && Attempts(t)
    ensures Executes(Next(w, s), t) <==> t.env.version < |w.history| && !Holds(w.history[t.env.version], Started)
    ensures s.env.version + 1 == |w.history| && t.env.version + 1 == |Next(w, s).history| ==>
              (Executes(Next(w, s), t) <==>
               !s.env.firstWriteReaches && (s.actions == 2 || !s.env.lastWriteReaches))
  {
    hide Find, Next, StartedLands;
    NewVersions(w, s);
    NextKeepsInvariant(w, s);
    WritesGrow(w, s);
  }

  /** The number of versions shows whether a write took effect, and then Started=True landed. */
  lemma WritesGrow(w: World, s: Step)
    requires s.env.version < |w.history| && Executes(w, s)
    ensures |Next(w, s).history| == |w.history| <==>
              s.env.version + 1 < |w.history|
              || (!s.env.firstWriteReaches && (s.actions == 2 || !s.env.lastWriteReaches))
    ensures |w.history| < |Next(w, s).history| ==> StartedLands(w, s)
  {
    hide Holds, Updated;
  }

  /** Losing the Started write and then stopping is enough to run the command twice. */
  lemma LostWriteRunsTwice()
    ensures exists worlds: seq<World>, steps: seq<Step> ::
              IsRun(worlds, steps) && |steps| == 2 && worlds[2].Executions() == 2
  {
    var w0 := World([[]], 0, 0);
    var s := Step(Env(0, PodReady, "", 0, false, None, true), 2);
    var w1 := World([[]], 0, 1);
    var w2 := World([[]], 0, 2);
    assert !Holds([], Started) && !Holds([], Completed);
    hide Holds, Updated;
    assert Next(w0, s) == w1 && Next(w1, s) == w2;
    assert IsRun([w0, w1, w2], [s, s]);
    assert [w0, w1, w2][2].Executions() == 2;
  }

  /** Started=True is never undone, and Completed appears only together with it. */
  lemma StartedIsDurable(worlds: seq<World>, steps: seq<Step>, i: nat, v: nat)
    requires IsRun(worlds, steps) && i < |worlds| && v < |worlds[i].history|
    ensures Find(worlds[i].history[v], Completed).Some? ==> Holds(worlds[i].history[v], Started)
    ensures Holds(worlds[i].history[v], Started) ==>
              forall k :: v <= k < |worlds[i].history| ==> Holds(worlds[i].history[k], Started)
  {
    RunKeepsInvariant(worlds, steps, i);
  }

  /** Pass `k` executed the command and Completed tells how it ended. */
  ghost predicate Ended(worlds: seq<World>, steps: seq<Step>, k: nat, oc: OperationCondition)
    requires IsRun(worlds, steps) && k < |steps|
  {
    Executes(worlds[k], steps[k]) && Reports(oc, steps[k].env.commandError)
  }

  /**
   Whenever a version has a Completed condition, some pass executed the command before, and
   the condition tells how that execution ended: so Completed=True means without an error.
   */
  lemma {:induction false} CompletedTellsTheOutcome(worlds: seq<World>, steps: seq<Step>, i: nat, v: nat)
    requires IsRun(worlds, steps) && i < |worlds| && v < |worlds[i].history|
    requires Find(worlds[i].history[v], Completed).Some?
    ensures exists k :: 0 <= k < i && Ended(worlds, steps, k, Find(worlds[i].history[v], Completed).value)
  {
    hide Find, Next, Reports, Executes, Invariant;
    if i == 0 {
      NothingFound(Completed);
    } else {
      var w, s := worlds[i - 1], steps[i - 1];
      assert worlds[i] == Next(w, s);
      RunKeepsInvariant(worlds, steps, i - 1);
      NewVersions(w, s);
      if v < |w.history| {
        CompletedTellsTheOutcome(worlds, steps, i - 1, v);
      } else {
        NewCompleted(w, s, v);
        if Find(Next(w, s).history[v], Completed) == Find(w.history[s.env.version], Completed) {
          CompletedTellsTheOutcome(worlds, steps, i - 1, s.env.version);
        } else {
          assert Ended(worlds, steps, i - 1, Find(worlds[i].history[v], Completed).value);
        }
      }
    }
  }

  lemma NothingFound(t: OperationConditionType)
    ensures Find([], t) == None
  {
    assert Position([], t) == 0;
  }

  /** In a new version Completed is either the one that was read or that of the pass. */
  lemma NewCompleted(w: World, s: Step, v: nat)
    requires s.env.version < |w.history| <= v < |Next(w, s).history|
    ensures var oc := Find(Next(w, s).history[v], Completed);
            oc == Find(w.history[s.env.version], Completed)
            || (Executes(w, s) && oc.Some? && Reports(oc.value, s.env.commandError))
  {
    hide Find, Updated;
    var env, c := s.env, w.history[s.env.version];
    var c1 := Updated(c, StartedTrue(), env.now);
    UpdatedFinds(c, StartedTrue(), env.now, Completed);
    UpdatedFinds(c, StartFailure(env.message), env.now, Completed);
    UpdatedFinds(c1, CompletedBy(env.commandError), env.now, Completed);
    FoundType(Updated(c1, CompletedBy(env.commandError), env.now), Completed);
  }

  // ---------------------------------------------------------------------
  // Doubling retry
  // ---------------------------------------------------------------------

  /** time.Duration.Round(time.Second): to the nearest second, halves away from zero. */
  function Round(d: int): int
    decreases d < 0
  {
    if d < 0 then -Round(-d)
    else
      var r := d % SECOND;
      if r + r < SECOND then d - r else d + SECOND - r
  }

  function Min(a: int, b: int): int {
    if a <= b then a else b
  }

  /** The delay after a start failure that finds the conditions `c` at time `now`. */
  function RetryAfter(c: Conditions, message: string, now: int): int {
    var old_ := Find(c, Started);
    var interval :=
      if old_.None? || old_.value.lastUpdateTime.None? || old_.value.message != message then SECOND
      else Round(now - old_.value.lastUpdateTime.value);
    Min(interval * 2, MAX_RETRY)
  }

  function Pow2(n: nat): int {
    if n == 0 then 1 else 2 * Pow2(n - 1)
  }

  /** A start failure: the delay is computed at `now`, the condition is stamped at `stamp`. */
  datatype Failure = Failure(found: Conditions, now: int, stamp: int, delay: int)

  /** Consecutive failures with the same message, the first of them new. */
  ghost predicate SameFailures(fs: seq<Failure>, message: string) {
    && (forall i :: 0 <= i < |fs| ==> fs[i].delay == RetryAfter(fs[i].found, message, fs[i].now))
    && (|fs| > 0 ==> Find(fs[0].found, Started).None? || Find(fs[0].found, Started).value.message != message)
    && (forall i, j :: 0 <= i && j == i + 1 && j < |fs| ==>
          fs[j].found == Updated(fs[i].found, StartFailure(message), fs[i].stamp))
  }

  /** Every retry fires less than half a second away from its due time. */
  ghost predicate Punctual(fs: seq<Failure>) {
    forall i, j :: 0 <= i && j == i + 1 && j < |fs| ==>
      && fs[j].now - fs[i].stamp - fs[i].delay < SECOND / 2
      && fs[i].delay + fs[i].stamp - fs[j].now <= SECOND / 2
  }

  /** No retry fires early. */
  ghost predicate NotEarly(fs: seq<Failure>) {
    forall i, j :: 0 <= i && j == i + 1 && j < |fs| ==> fs[i].stamp + fs[i].delay <= fs[j].now
  }

  /** 2^n seconds, but never more than six hours. */
  function Due(n: nat): int {
    if Pow2(n) <= 21_600 then Pow2(n) * 1_000_000_000 else 21_600_000_000_000
  }

  lemma RoundUpExactly(d: int, r: int)
    requires 0 <= d
    ensures r == Round(d) <==> r % SECOND == 0 && -SECOND < r + r - (d + d) <= SECOND
  {
    var q, rest := d / SECOND, d % SECOND;
    assert d == q * SECOND + rest;
    assert Round(d) == (if rest + rest < SECOND then q else q + 1) * SECOND;
    if r % SECOND == 0 {
      var p := r / SECOND;
      assert r == p * SECOND;
    }
  }

  lemma NegativeMultiple(r: int)
    ensures r % SECOND == 0 <==> (-r) % SECOND == 0
  {
    if r % SECOND == 0 {
      assert -r == -(r / SECOND) * SECOND;
    }
    if (-r) % SECOND == 0 {
      assert r == -((-r) / SECOND) * SECOND;
    }
  }

  lemma RoundNegative(d: int)
    requires d < 0
    ensures Round(d) == -Round(-d)
  {
  }

  /** Rounding gives the nearest whole second, and of two equally near ones the one farther from zero. */
  lemma RoundExactly(d: int, r: int)
    ensures r == Round(d) <==>
            r % 1_000_000_000 == 0 && -500_000_000 <= r - d <= 500_000_000
            && (d >= 0 ==> r - d != -500_000_000) && (d < 0 ==> r - d != 500_000_000)
  {
    hide Round;
    if d < 0 {
      RoundNegative(d);
      RoundUpExactly(-d, -r);
      NegativeMultiple(r);
    } else {
      RoundUpExactly(d, r);
    }
  }

  lemma RoundNearest(d: int, seconds: int)
    requires 0 <= seconds && 0 <= d
    ensures d - seconds * SECOND < SECOND / 2 && seconds * SECOND - d <= SECOND / 2 ==> Round(d) == seconds * SECOND
    ensures seconds * SECOND <= d ==> seconds * SECOND <= Round(d)
  {
  }

  lemma Pow2Positive(n: nat)
    ensures 1 <= Pow2(n)
  {
  }

  /** Doubling what is due gives what is due next. */
  lemma DueDoubles(n: nat)
    ensures Due(n + 1) == Min(Due(n) * 2, MAX_RETRY)
    ensures exists seconds :: 1 <= seconds && Due(n) == seconds * SECOND
  {
    Pow2Positive(n);
    if Pow2(n) * SECOND <= MAX_RETRY {
      assert Due(n) == Pow2(n) * SECOND;
    } else {
      assert Due(n) == 21600 * SECOND;
    }
  }

  /** The delay after the failure that follows a failure with the same message. */
  lemma NextDelay(fs: seq<Failure>, message: string, i: nat)
    requires SameFailures(fs, message) && i + 1 < |fs|
    ensures fs[i + 1].delay == Min(Round(fs[i + 1].now - fs[i].stamp) * 2, MAX_RETRY)
  {
    hide Round;
    var j := i + 1;
    assert fs[j].found == Updated(fs[i].found, StartFailure(message), fs[i].stamp);
    UpdatedFinds(fs[i].found, StartFailure(message), fs[i].stamp, Started);
  }

  /** The n-th failure in a row is retried after min(2^n seconds, 6 hours). */
  lemma {:induction false} RetryDoubles(fs: seq<Failure>, message: string, i: nat)
    requires SameFailures(fs, message) && Punctual(fs) && i < |fs|
    ensures fs[i].delay == Due(i + 1)
  {
    hide Find, Round;
    if i == 0 {
      assert fs[0].delay == RetryAfter(fs[0].found, message, fs[0].now);
      assert Pow2(1) == 2 * Pow2(0);
    } else {
      RetryDoubles(fs, message, i - 1);
      NextDelay(fs, message, i - 1);
      DueDoubles(i);
      var j := i - 1;
      assert fs[i].now - fs[j].stamp - fs[j].delay < SECOND / 2
          && fs[j].delay + fs[j].stamp - fs[i].now <= SECOND / 2;
      var seconds :| 1 <= seconds && Due(i) == seconds * SECOND;
      RoundNearest(fs[i].now - fs[j].stamp, seconds);
    }
  }

  /** Late retries wait at least that long. */
  lemma {:induction false} RetryAtLeastDoubles(fs: seq<Failure>, message: string, i: nat)
    requires SameFailures(fs, message) && NotEarly(fs) && i < |fs|
    ensures Due(i + 1) <= fs[i].delay <= 21_600_000_000_000
  {
    hide Find, Round;
    if i == 0 {
      assert fs[0].delay == RetryAfter(fs[0].found, message, fs[0].now);
      assert Pow2(1) == 2 * Pow2(0);
    } else {
      RetryAtLeastDoubles(fs, message, i - 1);
      NextDelay(fs, message, i - 1);
      DueDoubles(i);
      var j := i - 1;
      assert fs[j].stamp + fs[j].delay <= fs[i].now;
      var seconds :| 1 <= seconds && Due(i) == seconds * SECOND;
      RoundNearest(fs[i].now - fs[j].stamp, seconds);
    }
  }

  // ---------------------------------------------------------------------
  // The code
  // ---------------------------------------------------------------------

  /** The operation as the pass holds it in memory. */
  class Instance {
    var conditions: Conditions
    var version: nat

    constructor (c: Conditions, v: nat)
      ensures conditions == c && version == v
    {
      conditions, version := c, v;
    }

    /** GetOperationCondition: an index stands for the pointer into the slice. */
    method GetOperationCondition(t: OperationConditionType) returns (i: Option<nat>)
      ensures i.None? <==> Find(conditions, t).None?
      ensures i.Some? ==> i.value == Position(conditions, t) < |conditions|
    {
      for k := 0 to |conditions|
        invariant forall j :: 0 <= j < k ==> conditions[j].typ != t
      {
        if conditions[k].typ == t {
          assert PositionIs(conditions, t, k);
          return Some(k);
        }
      }
      assert PositionIs(conditions, t, |conditions|);
      return None;
    }

    method SetOperationCondition(oc: OperationCondition, now: int)
      modifies this`conditions
      ensures conditions == Updated(old(conditions), oc, now)
    {
      var i := GetOperationCondition(oc.typ);
      if i.Some? {
        var condition := conditions[i.value];
        if condition.status != oc.status {
          condition := condition.(lastTransitionTime := Some(now));
        }
        condition := condition.(status := oc.status, lastUpdateTime := Some(now),
                                reason := oc.reason, message := oc.message);
        conditions := conditions[i.value := condition];
      } else {
        conditions := conditions + [oc.(lastUpdateTime := Some(now))];
      }
    }
  }

  class Cluster {
    var world: World

    /** Status().Update; on success the instance carries the new version. */
    method UpdateStatus(instance: Instance, reaches: bool) returns (ok: bool)
      modifies this, instance`version
      ensures world == old(world).Write(old(instance.version), instance.conditions, reaches)
      ensures ok == old(world).Lands(old(instance.version), reaches)
      ensures instance.version == if ok then old(instance.version) + 1 else old(instance.version)
    {
      ok := world.Lands(instance.version, reaches);
      world := world.Write(instance.version, instance.conditions, reaches);
      if ok {
        instance.version := instance.version + 1;
      }
    }

    /** ExecuteCommandInContainer; `guarded` only says how the execution is counted. */
    method ExecuteCommandInContainer(error: Option<string>, guarded: bool) returns (err: Option<string>)
      modifies this
      ensures world == old(world).Execute(guarded) && err == error
    {
      world := world.Execute(guarded);
      err := error;
    }
  }

  /** handleStartErrorAndRequeue */
  method HandleStartErrorAndRequeue(cluster: Cluster, instance: Instance, env: Env) returns (result: Result)
    modifies cluster, instance
    ensures result == Result(RetryAfter(old(instance.conditions), env.message, env.now), true)
    ensures var was := Find(old(instance.conditions), Started);
            result.requeueAfter ==
              if was.None? || was.value.lastUpdateTime.None? || was.value.message != env.message then 2_000_000_000
              else
                var doubled := 2 * Round(env.now - was.value.lastUpdateTime.value);
                if doubled <= 21_600_000_000_000 then doubled else 21_600_000_000_000
    ensures instance.conditions == Updated(old(instance.conditions), StartFailure(env.message), env.now)
    ensures cluster.world == old(cluster.world).Write(old(instance.version), instance.conditions, env.firstWriteReaches)
  {
    var c := StartFailure(env.message);
    var retryInterval := SECOND;
    var oldCondition := instance.GetOperationCondition(c.typ);
    if oldCondition.Some?
       && instance.conditions[oldCondition.value].lastUpdateTime.Some?
       && instance.conditions[oldCondition.value].message == c.message
    {
      retryInterval := Round(env.now - instance.conditions[oldCondition.value].lastUpdateTime.value);
    }
    instance.SetOperationCondition(c, env.now);
    var _ := cluster.UpdateStatus(instance, env.firstWriteReaches);
    return Result(Min(retryInterval * 2, MAX_RETRY), true);
  }

  /** Reconcile, with the worlds it goes through. */
  method Reconcile(cluster: Cluster, env: Env) returns (result: Result, ghost visited: seq<World>)
    requires env.version < |cluster.world.history|
    modifies cluster
    ensures visited == Visited(old(cluster.world), env)
    ensures cluster.world == visited[|visited| - 1]
    ensures var c := old(cluster.world).history[env.version];
            result ==
              if !Holds(c, Completed) && !Holds(c, Started) && env.pod != PodReady
              then Result(RetryAfter(c, env.message, env.now), true)
              else Result(0, false)
  {
    hide Position, Updated, RetryAfter, Round;
    visited := [cluster.world];
    var instance := new Instance(cluster.world.history[env.version], env.version);

    var oc := instance.GetOperationCondition(Completed);
    if oc.Some? && instance.conditions[oc.value].status {
      return Result(0, false), visited;
    }
    oc := instance.GetOperationCondition(Started);
    if oc.Some? && instance.conditions[oc.value].status {
      return Result(0, false), visited;
    }

    if env.pod != PodReady {
      result := HandleStartErrorAndRequeue(cluster, instance, env);
      visited := visited + [cluster.world];
      return;
    }

    instance.SetOperationCondition(StartedTrue(), env.now);
    // the code ignores whether this write succeeds
    var landed := cluster.UpdateStatus(instance, env.firstWriteReaches);
    visited := visited + [cluster.world];

    var err := cluster.ExecuteCommandInContainer(env.commandError, landed);
    visited := visited + [cluster.world];

    instance.SetOperationCondition(CompletedBy(err), env.now);
    var _ := cluster.UpdateStatus(instance, env.lastWriteReaches);
    visited := visited + [cluster.world];
    return Result(0, false), visited;
  }
}
