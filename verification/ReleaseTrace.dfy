/**
 What a run of the release gates may look like from outside: a trace of the
 scheduler's and the gates' visible actions, judged without any of the
 scheduler's own data structures (lanes, counters, queues).
 */
module ReleaseTrace {
  import opened Wrappers
  import opened ReleaseSlots

  /** gates[first..last] is scheduled; outcome[i] is the error gate i ends with, if it ends with one. */
  datatype Plan = Plan(
    gates: seq<Gate>,
    first: nat,
    last: nat,
    capacities: map<Resource, int>,
    outcome: seq<Option<string>>)
  {
    ghost predicate Valid() {
      first <= last <= |gates| && |outcome| == |gates|
    }

    predicate Scheduled(i: int) {
      first <= i < last
    }

    ghost predicate Fails(i: int)
      requires Valid() && Scheduled(i)
    {
      outcome[i].Some?
    }

    ghost predicate Admissible()
      requires Valid()
    {
      forall i | Scheduled(i) :: FitsAlone(gates[i], capacities)
    }
  }

  /** Gates with one lane field share a lane, and so do the gates without one and those of the lane "serial". */
  predicate OneLane(a: string, b: string) {
    a == b || (a in {"", "serial"} && b in {"", "serial"})
  }

  datatype Event =
    | Checked             // the scheduler read the failure flag and found it clear
    | Launched(gate: nat) // the scheduler started a gate
    | Published(gate: nat) // a failing gate raised the failure flag
    | Received(gate: nat) // the scheduler took a gate's result
    | Settled             // a launch pass looked at every idle lane and ended

  /** armed: the flag was read clear since the last launch; settled: a pass ended since the last result. */
  datatype Progress = Progress(launched: set<nat>, received: set<nat>, published: set<nat>, armed: bool,
      settled: bool) {
    function InFlight(): set<nat> { launched - received }
  }

  const INITIAL := Progress({}, {}, {}, false, false)

  /** Slots of one class the gates in `active` below `hi` hold together. */
  function DemandBelow(p: Plan, active: set<nat>, resource: Resource, hi: nat): nat
    requires hi <= |p.gates|
  {
    if hi == 0 then 0
    else DemandBelow(p, active, resource, hi - 1) +
         if hi - 1 in active then Count(p.gates[hi - 1].resources, resource) else 0
  }

  function Demand(p: Plan, active: set<nat>, resource: Resource): nat {
    DemandBelow(p, active, resource, |p.gates|)
  }

  ghost predicate SameLane(p: Plan, i: nat, j: nat)
    requires p.Valid() && p.Scheduled(i) && p.Scheduled(j)
  {
    OneLane(p.gates[i].lane, p.gates[j].lane)
  }

  /** Gate j ended, and ended well. */
  ghost predicate Passed(p: Plan, o: Progress, j: nat)
    requires p.Valid() && p.Scheduled(j)
  {
    j in o.received && !p.Fails(j)
  }

  /** Gate i has not started and every gate before it in its lane has passed. */
  ghost predicate Ready(p: Plan, o: Progress, i: nat)
    requires p.Valid()
  {
    && p.Scheduled(i)
    && i !in o.launched
    && forall j | p.first <= j < i && SameLane(p, j, i) :: Passed(p, o, j)
  }

  /** The slots gate i asks for are free. */
  ghost predicate HasRoom(p: Plan, o: Progress, i: nat)
    requires p.Valid() && p.Scheduled(i)
  {
    forall c | c in p.gates[i].resources ::
      Demand(p, o.InFlight(), c) + Count(p.gates[i].resources, c) <= Slots(p.capacities, c)
  }

  /** Launch order among gates that are ready at the same time: by priority, ties by canonical index. */
  predicate Precedes(gates: seq<Gate>, i: nat, j: nat) {
    && i < |gates| && j < |gates|
    && (gates[i].priority > gates[j].priority || (gates[i].priority == gates[j].priority && i < j))
  }

  ghost predicate FailureSeen(p: Plan, o: Progress)
    requires p.Valid()
  {
    exists i :: i in o.received && p.Scheduled(i) && p.Fails(i)
  }

  ghost predicate Allowed(p: Plan, o: Progress, e: Event)
    requires p.Valid()
  {
    match e
    case Checked => o.published == {}
    case Launched(i) =>
      && o.armed
      && !FailureSeen(p, o)
      && Ready(p, o, i)
      && HasRoom(p, o, i)
      && forall j: nat | Ready(p, o, j) && Precedes(p.gates, j, i) :: !HasRoom(p, o, j)
    case Published(i) => i in o.InFlight() && p.Scheduled(i) && p.Fails(i)
    case Received(i) =>
      && i in o.InFlight() && p.Scheduled(i)
      && (p.Fails(i) ==> i in o.published)
      && (o.settled || o.published != {})
    case Settled =>
      && !FailureSeen(p, o)
      && forall j: nat | Ready(p, o, j) :: !HasRoom(p, o, j)
  }

  function After(o: Progress, e: Event): Progress {
    match e
    case Checked => o.(armed := true)
    case Launched(i) => o.(launched := o.launched + {i}, armed := false)
    case Published(i) => o.(published := o.published + {i})
    case Received(i) => o.(received := o.received + {i}, settled := false)
    case Settled => o.(settled := true)
  }

  function Reached(trace: seq<Event>): Progress {
    if trace == [] then INITIAL
    else After(Reached(trace[..|trace| - 1]), trace[|trace| - 1])
  }

  ghost predicate Legal(p: Plan, trace: seq<Event>)
    requires p.Valid()
  {
    trace != [] ==>
      && Legal(p, trace[..|trace| - 1])
      && Allowed(p, Reached(trace[..|trace| - 1]), trace[|trace| - 1])
  }

  lemma Extend(p: Plan, trace: seq<Event>, e: Event)
    requires p.Valid() && Legal(p, trace) && Allowed(p, Reached(trace), e)
    ensures Legal(p, trace + [e])
    ensures Reached(trace + [e]) == After(Reached(trace), e)
  {
    assert (trace + [e])[..|trace|] == trace;
  }

  lemma {:induction false} DemandAddsUp(p: Plan, active: set<nat>, i: nat, resource: Resource, hi: nat)
    requires i < |p.gates| && i !in active && hi <= |p.gates|
    ensures DemandBelow(p, active + {i}, resource, hi) ==
            DemandBelow(p, active, resource, hi) + if i < hi then Count(p.gates[i].resources, resource) else 0
  {
    if hi > 0 {
      DemandAddsUp(p, active, i, resource, hi - 1);
    }
  }

  lemma DemandLaunch(p: Plan, active: set<nat>, i: nat)
    requires i < |p.gates| && i !in active
    ensures forall c :: Demand(p, active + {i}, c) == Demand(p, active, c) + Count(p.gates[i].resources, c)
  {
    forall c ensures Demand(p, active + {i}, c) == Demand(p, active, c) + Count(p.gates[i].resources, c) {
      DemandAddsUp(p, active, i, c, |p.gates|);
    }
  }

  lemma {:induction false} DemandOfNone(p: Plan, resource: Resource, hi: nat)
    requires hi <= |p.gates|
    ensures DemandBelow(p, {}, resource, hi) == 0
  {
    if hi > 0 {
      DemandOfNone(p, resource, hi - 1);
    }
  }

  // ---------------------------------------------------------------- what every legal run keeps

  /** What holds between any two actions of a legal run. */
  ghost predicate Sound(p: Plan, o: Progress)
    requires p.Valid()
  {
    && o.received <= o.launched
    && o.published <= o.launched
    && (forall i | i in o.launched :: p.Scheduled(i))
    && (forall i | i in o.published :: p.Scheduled(i) && p.Fails(i))
    && (forall i | i in o.received :: p.Fails(i) ==> i in o.published)
    && (forall i, j | i in o.launched && p.first <= j < i && SameLane(p, j, i) :: Passed(p, o, j))
    && (forall c :: Demand(p, o.InFlight(), c) == 0 || Demand(p, o.InFlight(), c) <= Slots(p.capacities, c))
  }

  lemma StepKeepsSound(p: Plan, o: Progress, e: Event)
    requires p.Valid() && Sound(p, o) && Allowed(p, o, e)
    ensures Sound(p, After(o, e))
  {
    var o' := After(o, e);
    match e
    case Launched(i) =>
      assert o'.InFlight() == o.InFlight() + {i};
      DemandLaunch(p, o.InFlight(), i);
    case Received(i) =>
      assert o'.InFlight() + {i} == o.InFlight();
      DemandLaunch(p, o'.InFlight(), i);
    case Checked =>
    case Published(i) =>
      assert o'.InFlight() == o.InFlight();
    case Settled =>
  }

  lemma {:induction false} LegalIsSound(p: Plan, trace: seq<Event>)
    requires p.Valid() && Legal(p, trace)
    ensures Sound(p, Reached(trace))
  {
    if trace == [] {
      forall c ensures Demand(p, {}, c) == 0 {
        DemandOfNone(p, c, |p.gates|);
      }
      assert INITIAL.InFlight() == {};
    } else {
      LegalIsSound(p, trace[..|trace| - 1]);
      StepKeepsSound(p, Reached(trace[..|trace| - 1]), trace[|trace| - 1]);
    }
  }

  lemma {:induction false} PrefixIsLegal(p: Plan, trace: seq<Event>, k: nat)
    requires p.Valid() && Legal(p, trace) && k <= |trace|
    ensures Legal(p, trace[..k])
  {
    if k < |trace| {
      PrefixIsLegal(p, trace[..|trace| - 1], k);
      assert trace[..|trace| - 1][..k] == trace[..k];
    } else {
      assert trace[..k] == trace;
    }
  }

  /**
   At every moment of every run: the slots held stay within the capacities, a
   lane runs one gate at a time, and whatever has started in a lane has all of
   its predecessors passed.
   */
  lemma EveryMomentIsSafe(p: Plan, trace: seq<Event>, k: nat)
    requires p.Valid() && Legal(p, trace) && k <= |trace|
    ensures forall c :: Demand(p, Reached(trace[..k]).InFlight(), c) > 0 ==>
              Demand(p, Reached(trace[..k]).InFlight(), c) <= Slots(p.capacities, c)
    ensures forall i, j | i in Reached(trace[..k]).InFlight() && j in Reached(trace[..k]).InFlight() ::
              p.Scheduled(i) && p.Scheduled(j) && (SameLane(p, i, j) ==> i == j)
    ensures forall i, j | i in Reached(trace[..k]).launched && p.first <= j < i ::
              p.Scheduled(i) && (SameLane(p, j, i) ==> Passed(p, Reached(trace[..k]), j))
  {
    PrefixIsLegal(p, trace, k);
    LegalIsSound(p, trace[..k]);
    var o := Reached(trace[..k]);
    forall i, j | i in o.InFlight() && j in o.InFlight() && SameLane(p, i, j) ensures i == j {
      assert SameLane(p, j, i);
    }
  }

  lemma {:induction false} ReachedGrows(trace: seq<Event>, a: nat, b: nat)
    requires a <= b <= |trace|
    ensures Reached(trace[..a]).launched <= Reached(trace[..b]).launched
    ensures Reached(trace[..a]).received <= Reached(trace[..b]).received
    ensures Reached(trace[..a]).published <= Reached(trace[..b]).published
  {
    if a < b {
      ReachedGrows(trace, a, b - 1);
      assert trace[..b][..b - 1] == trace[..b - 1];
    }
  }

  lemma StepAt(p: Plan, trace: seq<Event>, k: nat)
    requires p.Valid() && Legal(p, trace) && k < |trace|
    ensures Allowed(p, Reached(trace[..k]), trace[k])
    ensures Reached(trace[..k + 1]) == After(Reached(trace[..k]), trace[k])
  {
    PrefixIsLegal(p, trace, k + 1);
    assert trace[..k + 1][..k] == trace[..k];
  }

  /** No gate is started twice, and none is received twice. */
  lemma EachGateOnce(p: Plan, trace: seq<Event>, a: nat, b: nat)
    requires p.Valid() && Legal(p, trace) && a < b < |trace|
    requires trace[a].Launched? || trace[a].Received?
    ensures trace[a] != trace[b]
  {
    StepAt(p, trace, a);
    StepAt(p, trace, b);
    ReachedGrows(trace, a + 1, b);
  }

  /** A lane starts its gates in input order. */
  lemma LaneOrder(p: Plan, trace: seq<Event>, a: nat, b: nat)
    requires p.Valid() && Legal(p, trace) && a < b < |trace|
    requires trace[a].Launched? && trace[b].Launched?
    ensures p.Scheduled(trace[a].gate) && p.Scheduled(trace[b].gate)
    ensures SameLane(p, trace[a].gate, trace[b].gate) ==> trace[a].gate < trace[b].gate
  {
    StepAt(p, trace, a);
    StepAt(p, trace, b);
    EachGateOnce(p, trace, a, b);
    EveryMomentIsSafe(p, trace, a);
    ReachedGrows(trace, a + 1, b);
    var i, j := trace[a].gate, trace[b].gate;
    if SameLane(p, i, j) && j < i {
      // j must have passed before i could start, so it was launched before position a
      assert Passed(p, Reached(trace[..a]), j);
      PrefixIsLegal(p, trace, a);
      LegalIsSound(p, trace[..a]);
      ReachedGrows(trace, a, b);
    }
  }

  function Launches(trace: seq<Event>): nat {
    if trace == [] then 0
    else Launches(trace[..|trace| - 1]) + if trace[|trace| - 1].Launched? then 1 else 0
  }

  /** With the flag up, a launch uses up the last check, and no check follows. */
  lemma RaisedDisarms(p: Plan, o: Progress, e: Event)
    requires p.Valid() && Allowed(p, o, e) && o.published != {}
    ensures After(o, e).armed ==> o.armed && !e.Launched?
    ensures e.Launched? ==> o.armed
  {
  }

  lemma PublishedStays(p: Plan, trace: seq<Event>, k: nat, m: nat)
    requires p.Valid() && Legal(p, trace) && k < m <= |trace| && trace[k].Published?
    ensures Reached(trace[..m]).published != {}
  {
    hide Allowed, Legal;
    StepAt(p, trace, k);
    ReachedGrows(trace, k + 1, m);
    assert trace[k].gate in Reached(trace[..k + 1]).published;
  }

  lemma LaunchesMore(events: seq<Event>, e: Event)
    ensures Launches(events + [e]) == Launches(events) + if e.Launched? then 1 else 0
  {
    assert (events + [e])[..|events|] == events;
  }

  /**
   Once the failure flag is up, at most one more gate starts: the one whose
   check of the flag came just before.
   */
  lemma {:induction false} AtMostOneLaunchAfterFailure(p: Plan, trace: seq<Event>, k: nat, m: nat)
    requires p.Valid() && Legal(p, trace) && k < m <= |trace| && trace[k].Published?
    ensures Launches(trace[k..m]) + (if Reached(trace[..m]).armed then 1 else 0) <= 1
    decreases m
  {
    hide Allowed, After, Legal, Reached, Launches;
    var e := trace[m - 1];
    assert trace[k..m] == trace[k..m - 1] + [e];
    LaunchesMore(trace[k..m - 1], e);
    if m == k + 1 {
      assert trace[k..m - 1] == [];
      NoLaunches();
    } else {
      AtMostOneLaunchAfterFailure(p, trace, k, m - 1);
      StepAt(p, trace, m - 1);
      PublishedStays(p, trace, k, m - 1);
      RaisedDisarms(p, Reached(trace[..m - 1]), e);
    }
  }

  lemma NoLaunches()
    ensures Launches([]) == 0
  {
  }

  /** Where the pass ended that the progress remembers as settled. */
  lemma {:induction false} SettledAt(trace: seq<Event>, k: nat) returns (m: nat)
    requires k <= |trace| && Reached(trace[..k]).settled
    ensures m < k && trace[m] == Settled && forall n | m < n < k :: !trace[n].Received?
    decreases k
  {
    assert k > 0;
    assert trace[..k][..k - 1] == trace[..k - 1];
    if trace[k - 1] == Settled {
      m := k - 1;
    } else {
      m := SettledAt(trace, k - 1);
    }
  }

  /**
   Until a gate fails, the scheduler never waits for a result while it could
   still launch: since the previous result a pass has ended at which every ready
   gate was blocked by capacity.
   */
  lemma NeverIdleWithRoom(p: Plan, trace: seq<Event>, k: nat) returns (m: nat)
    requires p.Valid() && Legal(p, trace) && k < |trace|
    requires trace[k].Received? && Reached(trace[..k]).published == {}
    ensures m < k && trace[m] == Settled
    ensures forall n | m < n < k :: !trace[n].Received?
    ensures forall j: nat | j < |p.gates| && Waits(p, trace, m, j) :: exists c :: Lacks(p, trace, m, j, c)
  {
    hide Waits, Lacks, Ready, HasRoom, Legal, Reached;
    StepAt(p, trace, k);
    m := SettledAt(trace, k);
    forall j: nat | j < |p.gates| && Waits(p, trace, m, j) ensures exists c :: Lacks(p, trace, m, j, c) {
      var c := SettledLeavesNoRoom(p, trace, m, j);
    }
  }

  /** Whoever is not launched leads back, in its lane, to a gate that is ready. */
  lemma {:induction false} SomeGateIsReady(p: Plan, o: Progress, i: nat) returns (r: nat)
    requires p.Valid() && p.Scheduled(i) && i !in o.launched
    requires o.received == o.launched && !FailureSeen(p, o)
    ensures Ready(p, o, r)
  {
    if j :| p.first <= j < i && SameLane(p, j, i) && !Passed(p, o, j) {
      r := SomeGateIsReady(p, o, j);
    } else {
      r := i;
    }
  }

  /**
   Progress: a launch pass that settles while nothing runs and nothing failed
   has left no gate behind, provided each gate fits on its own.
   */
  lemma NoStall(p: Plan, o: Progress)
    requires p.Valid() && p.Admissible()
    requires o.received == o.launched && Allowed(p, o, Settled)
    ensures forall i | p.Scheduled(i) :: i in o.launched
  {
    forall i | p.Scheduled(i) ensures i in o.launched {
      if i !in o.launched {
        var r := SomeGateIsReady(p, o, i);
        assert o.InFlight() == {};
        forall c ensures Demand(p, {}, c) == 0 {
          DemandOfNone(p, c, |p.gates|);
        }
        assert FitsAlone(p.gates[r], p.capacities);
        assert HasRoom(p, o, r);
      }
    }
  }

  lemma {:induction false} ArmedAt(trace: seq<Event>, k: nat) returns (m: nat)
    requires k <= |trace| && Reached(trace[..k]).armed
    ensures m < k && trace[m] == Checked && forall n | m < n < k :: !trace[n].Launched?
    decreases k
  {
    assert k > 0;
    assert trace[..k][..k - 1] == trace[..k - 1];
    if trace[k - 1] == Checked {
      m := k - 1;
    } else {
      m := ArmedAt(trace, k - 1);
    }
  }

  /** A gate is started only behind a look at the failure flag of its own, at which no gate had raised it. */
  lemma LaunchIsChecked(p: Plan, trace: seq<Event>, k: nat) returns (m: nat)
    requires p.Valid() && Legal(p, trace) && k < |trace| && trace[k].Launched?
    ensures m < k && trace[m] == Checked && forall n | m < n < k :: !trace[n].Launched?
    ensures forall n | 0 <= n < m :: !trace[n].Published?
  {
    StepAt(p, trace, k);
    m := ArmedAt(trace, k);
    StepAt(p, trace, m);
    forall n | 0 <= n < m && trace[n].Published? ensures false {
      PublishedStays(p, trace, n, m);
    }
  }

  // ---------------------------------------------------------------- traces in terms of the gates' fields

  /** Gate j has not been started before position k, and every earlier gate of its lane has ended well. */
  ghost predicate Waits(p: Plan, trace: seq<Event>, k: nat, j: nat)
    requires p.Valid() && k <= |trace|
  {
    && p.first <= j < p.last && Launched(j) !in trace[..k]
    && forall l: nat | p.first <= l < j &&
         (p.gates[l].lane == p.gates[j].lane || {p.gates[l].lane, p.gates[j].lane} == {"", "serial"}) ::
         Received(l) in trace[..k] && p.outcome[l] == None
  }

  /** Slots of a class held before position k by the gates from `lo` on that were started and not awaited. */
  ghost function Held(p: Plan, events: seq<Event>, resource: Resource, lo: nat): nat
    decreases |p.gates| - lo
  {
    if lo >= |p.gates| then 0
    else Held(p, events, resource, lo + 1) +
         if Launched(lo) in events && Received(lo) !in events then multiset(p.gates[lo].resources)[resource] else 0
  }

  /** A class of which gate j asks for more than the gates that run leave. */
  ghost predicate Lacks(p: Plan, trace: seq<Event>, k: nat, j: nat, resource: Resource)
    requires p.Valid() && k <= |trace| && j < |p.gates|
  {
    && resource in p.gates[j].resources
    && Held(p, trace[..k], resource, 0) + multiset(p.gates[j].resources)[resource] >
       if resource in p.capacities then p.capacities[resource] else 0
  }

  lemma {:induction false} ReachedMeans(trace: seq<Event>)
    ensures forall i: nat :: i in Reached(trace).launched <==> Launched(i) in trace
    ensures forall i: nat :: i in Reached(trace).received <==> Received(i) in trace
  {
    if trace != [] {
      var before, e := trace[..|trace| - 1], trace[|trace| - 1];
      ReachedMeans(before);
      assert trace == before + [e];
    }
  }

  lemma WaitsIsReady(p: Plan, trace: seq<Event>, k: nat, j: nat)
    requires p.Valid() && k <= |trace|
    ensures Waits(p, trace, k, j) <==> Ready(p, Reached(trace[..k]), j)
  {
    hide Reached;
    ReachedMeans(trace[..k]);
    if p.Scheduled(j) {
      forall l: nat | p.first <= l < j
        ensures SameLane(p, l, j) <==>
                (p.gates[l].lane == p.gates[j].lane || {p.gates[l].lane, p.gates[j].lane} == {"", "serial"})
      {
        LanesMatch(p.gates[l].lane, p.gates[j].lane);
      }
    }
  }

  lemma LanesMatch(a: string, b: string)
    ensures OneLane(a, b) <==> a == b || {a, b} == {"", "serial"}
  {
    if {a, b} == {"", "serial"} {
      assert a in {a, b} && b in {a, b};
    }
    if OneLane(a, b) && a != b {
      assert {a, b} == {"", "serial"};
    }
  }

  lemma {:induction false} HeldIsDemand(p: Plan, events: seq<Event>, resource: Resource, lo: nat)
    requires lo <= |p.gates|
    ensures DemandBelow(p, Reached(events).InFlight(), resource, lo) + Held(p, events, resource, lo) ==
            Demand(p, Reached(events).InFlight(), resource)
    decreases |p.gates| - lo
  {
    hide Reached;
    ReachedMeans(events);
    if lo < |p.gates| {
      HeldIsDemand(p, events, resource, lo + 1);
    }
  }

  lemma LacksIsNoRoom(p: Plan, trace: seq<Event>, k: nat, j: nat)
    requires p.Valid() && k <= |trace| && p.Scheduled(j)
    ensures (exists c :: Lacks(p, trace, k, j, c)) <==> !HasRoom(p, Reached(trace[..k]), j)
  {
    hide Reached, Held;
    forall c ensures Held(p, trace[..k], c, 0) == Demand(p, Reached(trace[..k]).InFlight(), c) {
      HeldIsDemand(p, trace[..k], c, 0);
    }
    if !HasRoom(p, Reached(trace[..k]), j) {
      var c :| c in p.gates[j].resources &&
        Demand(p, Reached(trace[..k]).InFlight(), c) + Count(p.gates[j].resources, c) > Slots(p.capacities, c);
      assert Lacks(p, trace, k, j, c);
    }
  }

  /**
   A gate is started only when every gate of a higher priority, or of the same
   priority and an earlier place in the list, that waits as well asks for more
   slots of some class than are free.
   */
  lemma LaunchesByPriority(p: Plan, trace: seq<Event>, k: nat, j: nat) returns (lacking: Resource)
    requires p.Valid() && Legal(p, trace) && k < |trace| && trace[k].Launched? && Waits(p, trace, k, j)
    requires var i := trace[k].gate;
             i < |p.gates| ==>
               p.gates[j].priority > p.gates[i].priority || (p.gates[j].priority == p.gates[i].priority && j < i)
    ensures Waits(p, trace, k, trace[k].gate) && Lacks(p, trace, k, j, lacking)
    ensures forall c :: !Lacks(p, trace, k, trace[k].gate, c)
  {
    hide Reached, Held, Legal, Waits, Lacks, Demand;
    var i := trace[k].gate;
    StepAt(p, trace, k);
    WaitsIsReady(p, trace, k, i);
    WaitsIsReady(p, trace, k, j);
    LacksIsNoRoom(p, trace, k, i);
    LacksIsNoRoom(p, trace, k, j);
    lacking :| Lacks(p, trace, k, j, lacking);
  }

  /** Two gates that run at one time have different lane fields, and not the two names of the lane for the rest. */
  lemma LanesRunApart(p: Plan, trace: seq<Event>, k: nat, i: nat, j: nat)
    requires p.Valid() && Legal(p, trace) && k <= |trace| && i != j
    requires Launched(i) in trace[..k] && Received(i) !in trace[..k]
    requires Launched(j) in trace[..k] && Received(j) !in trace[..k]
    ensures p.first <= i < p.last && p.first <= j < p.last
    ensures p.gates[i].lane != p.gates[j].lane && {p.gates[i].lane, p.gates[j].lane} != {"", "serial"}
  {
    hide Reached, Legal;
    ReachedMeans(trace[..k]);
    EveryMomentIsSafe(p, trace, k);
    assert i in Reached(trace[..k]).InFlight() && j in Reached(trace[..k]).InFlight();
    LanesMatch(p.gates[i].lane, p.gates[j].lane);
  }

  /** A pass that settles leaves nothing waiting that could start. */
  lemma SettledLeavesNoRoom(p: Plan, trace: seq<Event>, k: nat, j: nat) returns (lacking: Resource)
    requires p.Valid() && Legal(p, trace) && k < |trace| && trace[k] == Settled && Waits(p, trace, k, j)
    ensures Lacks(p, trace, k, j, lacking)
  {
    hide Reached, Held, Legal, Waits, Lacks, Demand;
    StepAt(p, trace, k);
    WaitsIsReady(p, trace, k, j);
    LacksIsNoRoom(p, trace, k, j);
    lacking :| Lacks(p, trace, k, j, lacking);
  }
}
