/**
 The whole gate run: the leading exclusive gates one after another, each alone,
 then the rest under the shared capacities.
 */
module ReleaseGates {
  import opened Wrappers
  import opened ReleaseSlots
  import opened ReleaseTrace
  import opened ReleaseSchedule

  /** The number of exclusive gates the list starts with. */
  function LeadingExclusive(gates: seq<Gate>): (n: nat)
    ensures n <= |gates|
    ensures forall i | 0 <= i < n :: gates[i].exclusive
    ensures n < |gates| ==> !gates[n].exclusive
  {
    if gates == [] || !gates[0].exclusive then 0 else 1 + LeadingExclusive(gates[1..])
  }

  /** What the gates require before any of them runs: the exclusive ones no slots, the others no more than there are. */
  ghost predicate AllAdmissible(gates: seq<Gate>, capacities: map<Resource, int>) {
    forall i | 0 <= i < |gates| :: FitsAlone(gates[i], if i < LeadingExclusive(gates) then map[] else capacities)
  }

  /** While one of the first n gates runs, nothing else does. */
  ghost predicate RunAlone(log: seq<Event>, n: nat) {
    forall k, i | 0 <= k <= |log| && i in Reached(log[..k]).InFlight() && i < n :: Reached(log[..k]).InFlight() == {i}
  }

  /** Everything that started before gate `upTo` has been awaited and passed, and it is all of them. */
  ghost predicate PassedUpTo(outcome: seq<Option<string>>, log: seq<Event>, upTo: nat) {
    && Reached(log).launched == Reached(log).received
    && (forall i: nat :: i in Reached(log).launched <==> i < upTo)
    && (forall i | 0 <= i < upTo :: i < |outcome| && outcome[i].None?)
  }

  lemma {:induction false} ReachedConcat(a: seq<Event>, b: seq<Event>)
    ensures Reached(a + b).launched == Reached(a).launched + Reached(b).launched
    ensures Reached(a + b).received == Reached(a).received + Reached(b).received
    decreases |b|
  {
    if b == [] {
      assert a + b == a;
    } else {
      ReachedConcat(a, b[..|b| - 1]);
      assert (a + b)[..|a + b| - 1] == a + b[..|b| - 1];
    }
  }

  lemma StageFlight(p: Plan, log: seq<Event>, stage: seq<Event>)
    requires p.Valid() && Legal(p, stage) && PassedUpTo(p.outcome, log, p.first)
    ensures forall j | j in Reached(log + stage).InFlight() :: p.Scheduled(j)
  {
    hide Allowed, After, Legal;
    ReachedConcat(log, stage);
    LegalIsSound(p, stage);
  }

  /** Appending a stage that touches only gates from `first` on to a log of passed gates below `first`. */
  lemma StageRunsAlone(p: Plan, log: seq<Event>, stage: seq<Event>, n: nat)
    requires p.Valid() && Legal(p, stage) && PassedUpTo(p.outcome, log, p.first) && RunAlone(log, n)
    requires p.last == p.first + 1 || n <= p.first
    ensures RunAlone(log + stage, n)
  {
    hide Legal, Reached, PassedUpTo;
    var all := log + stage;
    forall k, i | 0 <= k <= |all| && i in Reached(all[..k]).InFlight() && i < n
        ensures Reached(all[..k]).InFlight() == {i} {
      if k <= |log| {
        assert all[..k] == log[..k];
      } else {
        assert all[..k] == log + stage[..k - |log|];
        PrefixIsLegal(p, stage, k - |log|);
        StageFlight(p, log, stage[..k - |log|]);
        assert p.Scheduled(i);
      }
    }
  }

  /** Appending a stage whose gates have all passed. */
  lemma StagePasses(p: Plan, log: seq<Event>, stage: seq<Event>)
    requires p.Valid() && Legal(p, stage) && PassedUpTo(p.outcome, log, p.first)
    requires Reached(stage).launched == Reached(stage).received
    requires forall i | p.Scheduled(i) :: Passed(p, Reached(stage), i)
    ensures PassedUpTo(p.outcome, log + stage, p.last)
  {
    ReachedConcat(log, stage);
    LegalIsSound(p, stage);
    forall i: nat ensures i in Reached(log + stage).launched <==> i < p.last {
      if p.Scheduled(i) {
        assert Passed(p, Reached(stage), i);
      }
    }
    forall i | 0 <= i < p.last ensures p.outcome[i].None? {
      assert i < p.first || Passed(p, Reached(stage), i);
    }
  }

  /** What the caller learns from an error, in terms of the log of the whole run. */
  ghost predicate Explains(gates: seq<Gate>, capacities: map<Resource, int>, outcome: seq<Option<string>>,
                           log: seq<Event>, err: ReleaseError)
    requires |outcome| == |gates|
  {
    && err.index < |gates|
    && Reached(log).launched == Reached(log).received
    && match err {
         case GateFailed(i, message) =>
           && i in Reached(log).launched
           && outcome[i] == Some(message)
           && (forall j | j in Reached(log).launched && j < |gates| && outcome[j].Some? :: i <= j)
           && (i < LeadingExclusive(gates) ==> forall j | j in Reached(log).launched :: j <= i)
         case TooManySlots(i) =>
           && !FitsAlone(gates[i], if i < LeadingExclusive(gates) then map[] else capacities)
           && (forall j | j in Reached(log).launched :: j < i && j < LeadingExclusive(gates))
           && (forall j | j in Reached(log).launched && j < |gates| :: outcome[j].None?)
       }
  }

  lemma StageExplains(p: Plan, gates: seq<Gate>, capacities: map<Resource, int>, log: seq<Event>, stage: seq<Event>,
                      err: ReleaseError)
    requires p.Valid() && gates == p.gates && Legal(p, stage) && PassedUpTo(p.outcome, log, p.first)
    requires p.first <= LeadingExclusive(gates)
    requires if p.first < LeadingExclusive(gates) then p.last == p.first + 1 && p.capacities == map[]
             else p.capacities == capacities
    requires p.Scheduled(err.index) && Reached(stage).launched == Reached(stage).received
    requires match err
             case GateFailed(i, message) =>
               i in Reached(stage).received && p.outcome[i] == Some(message)
               && forall j | j in Reached(stage).launched && p.Scheduled(j) && p.Fails(j) :: i <= j
             case TooManySlots(i) => stage == [] && !FitsAlone(p.gates[i], p.capacities)
    ensures Explains(gates, capacities, p.outcome, log + stage, err)
  {
    ReachedConcat(log, stage);
    LegalIsSound(p, stage);
  }

  // ---------------------------------------------------------------- the stages of a run

  /** Stage k of the run: a leading exclusive gate without slots, or all the remaining gates. */
  function StagePlan(gates: seq<Gate>, capacities: map<Resource, int>, outcome: seq<Option<string>>, k: nat): Plan {
    if k < LeadingExclusive(gates) then Plan(gates, k, k + 1, map[], outcome)
    else Plan(gates, LeadingExclusive(gates), |gates|, capacities, outcome)
  }

  /** The log is the stages' traces, each a legal one, and each begun when all gates before it had passed. */
  ghost predicate Staged(gates: seq<Gate>, capacities: map<Resource, int>, outcome: seq<Option<string>>,
                         log: seq<Event>, stages: seq<seq<Event>>)
    requires |outcome| == |gates|
    decreases |stages|
  {
    if stages == [] then log == []
    else
      var k := |stages| - 1;
      var p, start := StagePlan(gates, capacities, outcome, k), |log| - |stages[k]|;
      && k <= LeadingExclusive(gates) && start >= 0 && log[start..] == stages[k]
      && Legal(p, stages[k]) && PassedUpTo(outcome, log[..start], p.first)
      && Staged(gates, capacities, outcome, log[..start], stages[..k])
  }

  lemma StagedOnce(gates: seq<Gate>, capacities: map<Resource, int>, outcome: seq<Option<string>>,
                   log: seq<Event>, stages: seq<seq<Event>>, stage: seq<Event>)
    requires |outcome| == |gates| && Staged(gates, capacities, outcome, log, stages)
             && |stages| <= LeadingExclusive(gates)
    requires var p := StagePlan(gates, capacities, outcome, |stages|);
             PassedUpTo(outcome, log, p.first) && Legal(p, stage)
    ensures Staged(gates, capacities, outcome, log + stage, stages + [stage])
  {
    hide Legal, PassedUpTo;
    assert (stages + [stage])[..|stages|] == stages;
    assert (log + stage)[..|log|] == log && (log + stage)[|log|..] == stage;
  }

  lemma {:induction false} DemandOfGates(p: Plan, q: Plan, active: set<nat>, c: Resource, hi: nat)
    requires p.gates == q.gates && hi <= |p.gates|
    ensures DemandBelow(p, active, c, hi) == DemandBelow(q, active, c, hi)
  {
    if hi > 0 {
      DemandOfGates(p, q, active, c, hi - 1);
    }
  }

  /** The gates in flight fit into the capacities together, and no two of them share a lane. */
  ghost predicate FlightFits(gates: seq<Gate>, capacities: map<Resource, int>, outcome: seq<Option<string>>,
                             active: set<nat>) {
    var all := Plan(gates, 0, |gates|, capacities, outcome);
    && (forall c :: Demand(all, active, c) > 0 ==> Demand(all, active, c) <= Slots(capacities, c))
    && (forall i, j | i in active && j in active ::
          i < |gates| && j < |gates| && (OneLane(gates[i].lane, gates[j].lane) ==> i == j))
  }

  /**
   What was started comes after all leading exclusive gates before it and all earlier gates
   of its lane, and these have passed.
   */
  ghost predicate InTurn(gates: seq<Gate>, outcome: seq<Option<string>>, o: Progress)
    requires |outcome| == |gates|
  {
    forall i, j: nat | i in o.launched && j < i ::
      && i < |gates|
      && (j < LeadingExclusive(gates) || OneLane(gates[j].lane, gates[i].lane) ==>
          j in o.received && outcome[j].None?)
  }

  lemma MomentOfStage(gates: seq<Gate>, capacities: map<Resource, int>, outcome: seq<Option<string>>, k: nat,
                      before: seq<Event>, stage: seq<Event>)
    requires |outcome| == |gates| && k <= LeadingExclusive(gates)
    requires var p := StagePlan(gates, capacities, outcome, k);
             PassedUpTo(outcome, before, p.first) && Legal(p, stage)
    ensures FlightFits(gates, capacities, outcome, Reached(before + stage).InFlight())
    ensures InTurn(gates, outcome, Reached(before + stage))
  {
    hide Legal, LeadingExclusive, FlightFits, InTurn;
    ReachedConcat(before, stage);
    LegalIsSound(StagePlan(gates, capacities, outcome, k), stage);
    assert Reached(before + stage).InFlight() == Reached(stage).InFlight();
    StageFits(gates, capacities, outcome, k, stage);
    StageInTurn(gates, capacities, outcome, k, before, stage);
  }

  lemma StageFits(gates: seq<Gate>, capacities: map<Resource, int>, outcome: seq<Option<string>>, k: nat,
                  stage: seq<Event>)
    requires |outcome| == |gates| && k <= LeadingExclusive(gates)
             && Legal(StagePlan(gates, capacities, outcome, k), stage)
    ensures FlightFits(gates, capacities, outcome, Reached(stage).InFlight())
  {
    hide Legal, LeadingExclusive, Reached;
    var p, all := StagePlan(gates, capacities, outcome, k), Plan(gates, 0, |gates|, capacities, outcome);
    assert stage[..|stage|] == stage;
    EveryMomentIsSafe(p, stage, |stage|);
    forall c ensures Demand(all, Reached(stage).InFlight(), c) == Demand(p, Reached(stage).InFlight(), c) {
      DemandOfGates(all, p, Reached(stage).InFlight(), c, |gates|);
    }
  }

  lemma StageInTurn(gates: seq<Gate>, capacities: map<Resource, int>, outcome: seq<Option<string>>, k: nat,
                    before: seq<Event>, stage: seq<Event>)
    requires |outcome| == |gates| && k <= LeadingExclusive(gates)
    requires var p := StagePlan(gates, capacities, outcome, k);
             PassedUpTo(outcome, before, p.first) && Legal(p, stage)
    ensures InTurn(gates, outcome, Reached(before + stage))
  {
    hide Legal, LeadingExclusive, Reached;
    var p := StagePlan(gates, capacities, outcome, k);
    ReachedConcat(before, stage);
    LegalIsSound(p, stage);
    assert stage[..|stage|] == stage;
    EveryMomentIsSafe(p, stage, |stage|);
    forall i, j: nat | i in Reached(before + stage).launched && j < i
      ensures i < |gates|
      ensures j < LeadingExclusive(gates) || OneLane(gates[j].lane, gates[i].lane) ==>
                j in Reached(before + stage).received && outcome[j].None?
    {
      if j < p.first {
        assert j in Reached(before).launched;
      } else if i in Reached(stage).launched && OneLane(gates[j].lane, gates[i].lane) {
        assert SameLane(p, j, i) && Passed(p, Reached(stage), j);
      }
    }
  }

  /** At every moment of the whole run, across its stages. */
  lemma {:induction false} EveryMomentOfRun(gates: seq<Gate>, capacities: map<Resource, int>,
                                            outcome: seq<Option<string>>,
                                            log: seq<Event>, stages: seq<seq<Event>>, m: nat)
    requires |outcome| == |gates| && Staged(gates, capacities, outcome, log, stages) && m <= |log|
    ensures FlightFits(gates, capacities, outcome, Reached(log[..m]).InFlight())
    ensures InTurn(gates, outcome, Reached(log[..m]))
    decreases |stages|
  {
    hide Legal, FlightFits, InTurn, PassedUpTo, LeadingExclusive, Reached;
    if stages == [] {
      NothingStarted(gates, capacities, outcome);
      assert log[..m] == [];
    } else {
      var k := |stages| - 1;
      var start := |log| - |stages[k]|;
      if m <= start {
        assert log[..start][..m] == log[..m];
        EveryMomentOfRun(gates, capacities, outcome, log[..start], stages[..k], m);
      } else {
        var p := StagePlan(gates, capacities, outcome, k);
        PrefixIsLegal(p, stages[k], m - start);
        assert log[..m] == log[..start] + stages[k][..m - start];
        MomentOfStage(gates, capacities, outcome, k, log[..start], stages[k][..m - start]);
      }
    }
  }

  lemma NothingStarted(gates: seq<Gate>, capacities: map<Resource, int>, outcome: seq<Option<string>>)
    requires |outcome| == |gates|
    ensures FlightFits(gates, capacities, outcome, Reached([]).InFlight()) && InTurn(gates, outcome, Reached([]))
  {
    var all := Plan(gates, 0, |gates|, capacities, outcome);
    assert INITIAL.InFlight() == {};
    forall c ensures Demand(all, {}, c) == 0 {
      DemandOfNone(all, c, |gates|);
    }
  }

  /** A gate that raised the flag was started and fails. */
  lemma {:induction false} RaisedFails(gates: seq<Gate>, capacities: map<Resource, int>, outcome: seq<Option<string>>,
                                       log: seq<Event>, stages: seq<seq<Event>>, a: nat)
    requires |outcome| == |gates| && Staged(gates, capacities, outcome, log, stages) && a < |log| && log[a].Published?
    ensures log[a].gate in Reached(log).launched && log[a].gate < |gates| && outcome[log[a].gate].Some?
    decreases |stages|
  {
    hide Legal, PassedUpTo, LeadingExclusive, Reached, After;
    var k := |stages| - 1;
    var start := |log| - |stages[k]|;
    assert log == log[..start] + stages[k];
    ReachedConcat(log[..start], stages[k]);
    if a < start {
      RaisedFails(gates, capacities, outcome, log[..start], stages[..k], a);
    } else {
      StepAt(StagePlan(gates, capacities, outcome, k), stages[k], a - start);
      ReachedGrows(stages[k], a - start, |stages[k]|);
      assert stages[k][..|stages[k]|] == stages[k];
    }
  }

  /** Once a gate has raised the flag, at most one more starts in the whole run: no stage follows that one. */
  lemma OneLaunchAfterFailure(gates: seq<Gate>, capacities: map<Resource, int>, outcome: seq<Option<string>>,
                              log: seq<Event>, stages: seq<seq<Event>>, a: nat)
    requires |outcome| == |gates| && Staged(gates, capacities, outcome, log, stages) && a < |log| && log[a].Published?
    ensures Launches(log[a..]) <= 1
  {
    hide Legal, LeadingExclusive, Reached, After, Launches;
    var k := |stages| - 1;
    var start := |log| - |stages[k]|;
    if a < start {
      RaisedFails(gates, capacities, outcome, log[..start], stages[..k], a);
    } else {
      AtMostOneLaunchAfterFailure(StagePlan(gates, capacities, outcome, k), stages[k], a - start, |stages[k]|);
      assert log[a..] == stages[k][a - start..|stages[k]|];
    }
  }

  // ---------------------------------------------------------------- the run itself

  /** Schedules the next stage after a log of passed gates. */
  method RunStage(p: Plan, ghost capacities: map<Resource, int>, ghost before: seq<Event>,
                  ghost stages: seq<seq<Event>>)
    returns (err: Option<ReleaseError>, ghost log: seq<Event>, ghost trace: seq<Event>)
    requires |p.outcome| == |p.gates| && |stages| <= LeadingExclusive(p.gates)
    requires p == StagePlan(p.gates, capacities, p.outcome, |stages|)
    requires PassedUpTo(p.outcome, before, p.first) && RunAlone(before, LeadingExclusive(p.gates))
    requires Staged(p.gates, capacities, p.outcome, before, stages)
    ensures log == before + trace && Staged(p.gates, capacities, p.outcome, log, stages + [trace])
    ensures RunAlone(log, LeadingExclusive(p.gates))
    ensures if err.None? then PassedUpTo(p.outcome, log, p.last)
            else Explains(p.gates, capacities, p.outcome, log, err.value)
    ensures p.Admissible() && (forall i | p.Scheduled(i) :: !p.Fails(i)) ==> err.None?
  {
    hide ReleaseScheduler.Valid, Reached, Legal, FitsAlone, RunAlone, PassedUpTo, Explains, LeadingExclusive, Staged;
    var scheduler := new ReleaseScheduler(p);
    err := scheduler.ExecuteReleaseSchedule();
    trace := scheduler.trace;
    log := before + trace;
    StagedOnce(p.gates, capacities, p.outcome, before, stages, trace);
    StageRunsAlone(p, before, trace, LeadingExclusive(p.gates));
    if err.Some? {
      StageExplains(p, p.gates, capacities, before, trace, err.value);
    } else {
      StagePasses(p, before, trace);
    }
  }

  /**
   Runs all gates. The log is that of legal stages, so EveryMomentOfRun and
   OneLaunchAfterFailure hold of it. On success every gate has run and passed; the
   leading exclusive gates run alone; an error is explained by the log, and
   whatever was started has been awaited.
   */
  method ExecuteReleaseGates(gates: seq<Gate>, capacities: map<Resource, int>, outcome: seq<Option<string>>)
    returns (err: Option<ReleaseError>, ghost log: seq<Event>, ghost stages: seq<seq<Event>>)
    requires |outcome| == |gates|
    ensures Staged(gates, capacities, outcome, log, stages)
    ensures RunAlone(log, LeadingExclusive(gates))
    ensures if err.None? then PassedUpTo(outcome, log, |gates|)
            else Explains(gates, capacities, outcome, log, err.value)
    ensures AllAdmissible(gates, capacities) && (forall i | 0 <= i < |gates| :: outcome[i].None?) ==> err.None?
  {
    hide Reached, Legal, RunAlone, PassedUpTo, Explains, FitsAlone;
    var firstScheduled := 0;
    ghost var trace;
    log, stages := [], [];
    EmptyLog(outcome, LeadingExclusive(gates));
    while firstScheduled < |gates| && gates[firstScheduled].exclusive
      invariant 0 <= firstScheduled == |stages| <= LeadingExclusive(gates)
      invariant PassedUpTo(outcome, log, firstScheduled) && Staged(gates, capacities, outcome, log, stages)
      invariant RunAlone(log, LeadingExclusive(gates))
    {
      ExclusiveLeads(gates, firstScheduled);
      err, log, trace := RunStage(Plan(gates, firstScheduled, firstScheduled + 1, map[], outcome), capacities, log,
          stages);
      stages := stages + [trace];
      if err.Some? {
        return;
      }
      firstScheduled := firstScheduled + 1;
    }
    err, log, trace := RunStage(Plan(gates, firstScheduled, |gates|, capacities, outcome), capacities, log, stages);
    stages := stages + [trace];
  }

  lemma ExclusiveLeads(gates: seq<Gate>, i: nat)
    requires i < |gates| && i <= LeadingExclusive(gates) && gates[i].exclusive
    ensures i < LeadingExclusive(gates)
  {
  }

  lemma EmptyLog(outcome: seq<Option<string>>, n: nat)
    ensures PassedUpTo(outcome, [], 0) && RunAlone([], n)
  {
  }
}
