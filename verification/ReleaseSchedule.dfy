/**
 The release gate scheduler: one loop that launches gates, one goroutine per
 running gate. The scheduler's actions and the goroutines' actions are recorded
 in `trace`; every method keeps that trace legal in the sense of ReleaseTrace,
 whatever the goroutines do in between.
 */
module ReleaseSchedule {
  import opened Wrappers
  import opened ReleaseSlots
  import opened ReleaseTrace
  import opened ReleaseLane

  datatype GateResult = GateResult(index: nat, laneIndex: nat, err: Option<string>)

  datatype ReleaseError =
    | TooManySlots(index: nat)
    | GateFailed(index: nat, err: string)

  // ---------------------------------------------------------------- the scheduler's state against the trace

  /** Where gate i stands, from its lane's counters: `next` is the lane's position, `slot` the gate's. */
  ghost predicate GateAgrees(p: Plan, o: Progress, slot: nat, next: nat, busy: bool, i: nat)
    requires p.Valid() && p.Scheduled(i)
  {
    if slot < next then Passed(p, o, i)
    else if slot > next then i !in o.launched
    else if busy then i in o.InFlight()
    else i in o.launched ==> i in o.received && p.Fails(i)
  }

  /** The lanes' counters agree with what has been launched and received. */
  ghost predicate LanesAgree(p: Plan, o: Progress, lanes: seq<Lane>, home: map<nat, Place>, next: seq<nat>,
                             busy: seq<bool>)
    requires p.Valid() && Partition(p, lanes, home, p.last)
  {
    && |next| == |busy| == |lanes|
    && (forall l | 0 <= l < |lanes| :: next[l] <= |lanes[l].gates| && (busy[l] ==> next[l] < |lanes[l].gates|))
    && (forall i | i in home :: GateAgrees(p, o, home[i].slot, next[home[i].lane], busy[home[i].lane], i))
  }

  ghost predicate Buffered(results: seq<GateResult>, i: nat) {
    exists b :: 0 <= b < |results| && results[b].index == i
  }

  /** A goroutine remembers the lane it was launched for. */
  ghost predicate RunningAgree(o: Progress, home: map<nat, Place>, running: map<nat, nat>) {
    forall g | g in running :: g in o.InFlight() && g in home && running[g] == home[g].lane
  }

  /** A result in the channel tells the outcome of a gate in flight; a failing one follows its flag. */
  ghost predicate ResultAgrees(p: Plan, o: Progress, home: map<nat, Place>, r: GateResult)
    requires p.Valid()
  {
    && r.index in o.InFlight() && r.index in home && p.Scheduled(r.index)
    && r.laneIndex == home[r.index].lane
    && r.err == p.outcome[r.index]
    && (p.Fails(r.index) ==> r.index in o.published)
  }

  ghost predicate ResultsAgree(p: Plan, o: Progress, home: map<nat, Place>, results: seq<GateResult>)
    requires p.Valid()
  {
    && (forall b | 0 <= b < |results| :: ResultAgrees(p, o, home, results[b]))
    && (forall a, b | 0 <= a < b < |results| :: results[a].index != results[b].index)
  }

  /** Each gate in flight is running or has its result in the channel, not both. */
  ghost predicate Accounted(o: Progress, running: map<nat, nat>, results: seq<GateResult>, active: nat) {
    && (forall b | 0 <= b < |results| :: results[b].index !in running)
    && (forall i | i in o.InFlight() :: i in running || Buffered(results, i))
    && active == |running| + |results|
  }

  ghost predicate GoroutinesAgree(p: Plan, o: Progress, home: map<nat, Place>, running: map<nat, nat>,
                                  results: seq<GateResult>, active: nat, failureDetected: bool)
    requires p.Valid()
  {
    && RunningAgree(o, home, running)
    && ResultsAgree(p, o, home, results)
    && Accounted(o, running, results, active)
    && failureDetected == (o.published != {})
  }

  /** The slots in use, class by class, are those the gates in flight hold. */
  ghost predicate SlotsAgree(p: Plan, o: Progress, inUse: map<Resource, int>) {
    forall c :: Slots(inUse, c) == Demand(p, o.InFlight(), c)
  }

  /** Between o and o' gates at most raised the flag. */
  ghost predicate OnlyPublished(o: Progress, o': Progress) {
    o'.launched == o.launched && o'.received == o.received && o'.armed == o.armed && o'.settled == o.settled
        && o.published <= o'.published
  }

  /** The recorded failures are exactly the failing gates received so far. */
  ghost predicate FailuresAgree(p: Plan, o: Progress, failures: seq<GateResult>)
    requires p.Valid()
  {
    && (forall f | 0 <= f < |failures| ::
          && failures[f].index in o.received && p.Scheduled(failures[f].index)
          && p.Fails(failures[f].index) && failures[f].err == p.outcome[failures[f].index])
    && (forall i | i in o.received && p.Scheduled(i) && p.Fails(i) :: Buffered(failures, i))
  }

  /** A gate's place is where its lane has it. */
  lemma HomeIsInverse(p: Plan, lanes: seq<Lane>, home: map<nat, Place>)
    requires p.Valid() && Partition(p, lanes, home, p.last)
    ensures forall i | i in home ::
              && p.Scheduled(i) && home[i].lane < |lanes| && home[i].slot < |lanes[home[i].lane].gates|
              && lanes[home[i].lane].gates[home[i].slot] == i
  {
    hide LaneName;
  }

  lemma PlaceInHome(p: Plan, lanes: seq<Lane>, home: map<nat, Place>, l: nat, k: nat)
    requires p.Valid() && Partition(p, lanes, home, p.last) && l < |lanes| && k < |lanes[l].gates|
    ensures lanes[l].gates[k] in home && home[lanes[l].gates[k]] == Place(l, k)
  {
    hide LaneName;
  }

  lemma LaunchKeepsLanes(p: Plan, o: Progress, lanes: seq<Lane>, home: map<nat, Place>, next: seq<nat>,
                         busy: seq<bool>, l: nat, gate: nat)
    requires p.Valid() && Partition(p, lanes, home, p.last) && LanesAgree(p, o, lanes, home, next, busy)
    requires l < |lanes| && !busy[l] && next[l] < |lanes[l].gates| && gate == lanes[l].gates[next[l]]
    requires gate !in o.launched && o.received <= o.launched
    ensures LanesAgree(p, After(o, Launched(gate)), lanes, home, next, busy[l := true])
  {
    hide GateAgrees, Partition;
    HomeIsInverse(p, lanes, home);
    PlaceInHome(p, lanes, home, l, next[l]);
    forall i | i in home
      ensures GateAgrees(p, After(o, Launched(gate)), home[i].slot, next[home[i].lane],
              busy[l := true][home[i].lane], i)
    {
      LaunchKeepsGate(p, o, gate, home[i], l, next[home[i].lane], busy[home[i].lane], i);
    }
  }

  lemma LaunchKeepsResults(p: Plan, o: Progress, home: map<nat, Place>, results: seq<GateResult>, gate: nat)
    requires p.Valid() && ResultsAgree(p, o, home, results)
    requires gate !in o.launched && o.received <= o.launched
    ensures ResultsAgree(p, After(o, Launched(gate)), home, results)
    ensures forall b | 0 <= b < |results| :: results[b].index != gate
  {
    assert forall b | 0 <= b < |results| :: ResultAgrees(p, o, home, results[b]);
  }

  lemma LaunchKeepsAccount(o: Progress, running: map<nat, nat>, results: seq<GateResult>, active: nat, gate: nat,
                           lane: nat)
    requires Accounted(o, running, results, active)
    requires gate !in running && gate !in o.launched && o.received <= o.launched
    requires forall b | 0 <= b < |results| :: results[b].index != gate
    ensures Accounted(After(o, Launched(gate)), running[gate := lane], results, active + 1)
  {
    var running' := running[gate := lane];
    assert running'.Keys == running.Keys + {gate};
    assert |running'| == |running| + 1;
    var o' := After(o, Launched(gate));
    forall i | i in o'.InFlight() ensures i in running' || Buffered(results, i) {
      assert i == gate || i in o.InFlight();
    }
  }

  lemma LaunchKeepsGoroutines(p: Plan, o: Progress, home: map<nat, Place>, running: map<nat, nat>,
                              results: seq<GateResult>, active: nat, failureDetected: bool, gate: nat)
    requires p.Valid() && GoroutinesAgree(p, o, home, running, results, active, failureDetected)
    requires gate in home && gate !in o.launched && o.received <= o.launched
    ensures GoroutinesAgree(p, After(o, Launched(gate)), home, running[gate := home[gate].lane], results, active + 1,
            failureDetected)
  {
    var running' := running[gate := home[gate].lane];
    var o' := After(o, Launched(gate));
    LaunchKeepsResults(p, o, home, results, gate);
    LaunchKeepsAccount(o, running, results, active, gate, home[gate].lane);
  }

  lemma SendKeepsGoroutines(p: Plan, o: Progress, home: map<nat, Place>, running: map<nat, nat>,
                            results: seq<GateResult>, active: nat, failureDetected: bool, gate: nat)
    requires p.Valid() && GoroutinesAgree(p, o, home, running, results, active, failureDetected)
    requires gate in running && p.Scheduled(gate) && (p.Fails(gate) ==> gate in o.published)
    ensures GoroutinesAgree(p, o, home, running - {gate},
                            results + [GateResult(gate, running[gate], p.outcome[gate])], active, failureDetected)
  {
    var running' := running - {gate};
    var r := GateResult(gate, running[gate], p.outcome[gate]);
    assert running.Keys == running'.Keys + {gate};
    assert |running| == |running'| + 1;
    assert ResultAgrees(p, o, home, r);
    forall i | i in o.InFlight() ensures i in running' || Buffered(results + [r], i) {
      if i == gate {
        assert (results + [r])[|results|].index == i;
      } else if Buffered(results, i) {
        var b :| 0 <= b < |results| && results[b].index == i;
        assert (results + [r])[b].index == i;
      }
    }
  }

  /** Raising the flag leaves the goroutines accounted for. */
  lemma PublishKeepsGoroutines(p: Plan, o: Progress, home: map<nat, Place>, running: map<nat, nat>,
                               results: seq<GateResult>, active: nat, failureDetected: bool, gate: nat)
    requires p.Valid() && GoroutinesAgree(p, o, home, running, results, active, failureDetected)
    ensures GoroutinesAgree(p, After(o, Published(gate)), home, running, results, active, true)
  {
    var o' := After(o, Published(gate));
    assert o'.InFlight() == o.InFlight() && gate in o'.published;
    forall b | 0 <= b < |results| ensures ResultAgrees(p, o', home, results[b]) {
      assert ResultAgrees(p, o, home, results[b]);
    }
  }

  /** Actions that neither start, end nor fail a gate leave the goroutines accounted for. */
  lemma RestKeepsGoroutines(p: Plan, o: Progress, o': Progress, home: map<nat, Place>, running: map<nat, nat>,
                            results: seq<GateResult>, active: nat, failureDetected: bool)
    requires p.Valid() && GoroutinesAgree(p, o, home, running, results, active, failureDetected)
    requires o'.launched == o.launched && o'.received == o.received && o'.published == o.published
    ensures GoroutinesAgree(p, o', home, running, results, active, failureDetected)
  {
    forall b | 0 <= b < |results| ensures ResultAgrees(p, o', home, results[b]) {
      assert ResultAgrees(p, o, home, results[b]);
    }
  }

  lemma InFlightIsHead(p: Plan, o: Progress, lanes: seq<Lane>, home: map<nat, Place>, next: seq<nat>,
                       busy: seq<bool>, gate: nat)
    requires p.Valid() && Partition(p, lanes, home, p.last) && LanesAgree(p, o, lanes, home, next, busy)
    requires gate in home && gate in o.InFlight()
    ensures home[gate].lane < |lanes| && home[gate].slot < |lanes[home[gate].lane].gates|
    ensures lanes[home[gate].lane].gates[home[gate].slot] == gate
    ensures busy[home[gate].lane] && next[home[gate].lane] == home[gate].slot
  {
  }

  lemma HeadHasNotPassed(p: Plan, o: Progress, lanes: seq<Lane>, home: map<nat, Place>, next: seq<nat>,
                         busy: seq<bool>, l: nat)
    requires p.Valid() && Partition(p, lanes, home, p.last) && LanesAgree(p, o, lanes, home, next, busy)
    requires o.received <= o.launched && l < |lanes| && next[l] < |lanes[l].gates|
    ensures p.Scheduled(lanes[l].gates[next[l]]) && !Passed(p, o, lanes[l].gates[next[l]])
  {
    var g := lanes[l].gates[next[l]];
    assert home[g] == Place(l, next[l]);
    assert GateAgrees(p, o, home[g].slot, next[l], busy[l], g);
  }

  /** One gate's standing after the head of lane l was received. */
  lemma ReceiveKeepsGate(p: Plan, o: Progress, gate: nat, slot: nat, place: Place, l: nat, next: nat, busy: bool,
                         i: nat)
    requires p.Valid() && p.Scheduled(i) && p.Scheduled(gate) && gate in o.InFlight() && o.received <= o.launched
    requires GateAgrees(p, o, place.slot, next, busy, i)
    requires place.lane == l ==> busy && next == slot && (place.slot == slot <==> i == gate)
    requires place.lane != l ==> i != gate
    ensures GateAgrees(p, After(o, Received(gate)), place.slot,
                       if place.lane == l && !p.Fails(gate) then slot + 1 else next,
                       busy && place.lane != l, i)
  {
  }

  lemma ReceiveKeepsLanes(p: Plan, o: Progress, lanes: seq<Lane>, home: map<nat, Place>, next: seq<nat>,
                          busy: seq<bool>, gate: nat)
    requires p.Valid() && Partition(p, lanes, home, p.last) && LanesAgree(p, o, lanes, home, next, busy)
    requires gate in home && gate in o.InFlight() && o.received <= o.launched
    ensures LanesAgree(p, After(o, Received(gate)), lanes, home,
                       if p.Fails(gate) then next else next[home[gate].lane := home[gate].slot + 1],
                       busy[home[gate].lane := false])
  {
    hide GateAgrees, Partition;
    HomeIsInverse(p, lanes, home);
    InFlightIsHead(p, o, lanes, home, next, busy, gate);
    var l := home[gate].lane;
    var next' := if p.Fails(gate) then next else next[l := home[gate].slot + 1];
    forall i | i in home
      ensures GateAgrees(p, After(o, Received(gate)), home[i].slot, next'[home[i].lane],
              busy[l := false][home[i].lane], i)
    {
      ReceiveKeepsGate(p, o, gate, home[gate].slot, home[i], l, next[home[i].lane], busy[home[i].lane], i);
    }
  }

  lemma ReceiveKeepsGoroutines(p: Plan, o: Progress, home: map<nat, Place>, running: map<nat, nat>,
                               results: seq<GateResult>, active: nat, failureDetected: bool)
    requires p.Valid() && GoroutinesAgree(p, o, home, running, results, active, failureDetected)
    requires results != []
    ensures GoroutinesAgree(p, After(o, Received(results[0].index)), home, running, results[1..], active - 1,
            failureDetected)
  {
    var r := results[0].index;
    var o' := After(o, Received(r));
    assert o'.InFlight() == o.InFlight() - {r};
    forall b | 0 <= b < |results| - 1 ensures ResultAgrees(p, o', home, results[1..][b]) {
      assert ResultAgrees(p, o, home, results[b + 1]);
    }
    forall i | i in o'.InFlight() ensures i in running || Buffered(results[1..], i) {
      if i !in running {
        var b :| 0 <= b < |results| && results[b].index == i;
        assert results[1..][b - 1].index == i;
      }
    }
  }

  lemma ReceiveKeepsFailures(p: Plan, o: Progress, failures: seq<GateResult>, r: GateResult)
    requires p.Valid() && FailuresAgree(p, o, failures)
    requires p.Scheduled(r.index) && r.err == p.outcome[r.index]
    ensures FailuresAgree(p, After(o, Received(r.index)), if r.err.Some? then failures + [r] else failures)
  {
    var failures' := if r.err.Some? then failures + [r] else failures;
    var o' := After(o, Received(r.index));
    forall i | i in o'.received && p.Scheduled(i) && p.Fails(i) ensures Buffered(failures', i) {
      if i == r.index {
        assert failures'[|failures|].index == i;
      } else {
        var f :| 0 <= f < |failures| && failures[f].index == i;
        assert failures'[f].index == i;
      }
    }
  }

  lemma LaunchKeepsSlots(p: Plan, o: Progress, inUse: map<Resource, int>, gate: nat)
    requires SlotsAgree(p, o, inUse) && o.received <= o.launched && gate !in o.launched && gate < |p.gates|
    ensures forall after | forall c :: Slots(after, c) == Slots(inUse, c) + Count(p.gates[gate].resources, c) ::
              SlotsAgree(p, After(o, Launched(gate)), after)
  {
    assert After(o, Launched(gate)).InFlight() == o.InFlight() + {gate};
    DemandLaunch(p, o.InFlight(), gate);
  }

  lemma ReceiveKeepsSlots(p: Plan, o: Progress, inUse: map<Resource, int>, gate: nat)
    requires SlotsAgree(p, o, inUse) && gate in o.InFlight() && gate < |p.gates|
    ensures forall after | forall c :: Slots(after, c) == Slots(inUse, c) - Count(p.gates[gate].resources, c) ::
              SlotsAgree(p, After(o, Received(gate)), after)
  {
    var o' := After(o, Received(gate));
    assert o.InFlight() == o'.InFlight() + {gate};
    DemandLaunch(p, o'.InFlight(), gate);
  }

  lemma SameFlightKeepsSlots(p: Plan, o: Progress, o': Progress, inUse: map<Resource, int>)
    requires SlotsAgree(p, o, inUse) && o'.launched == o.launched && o'.received == o.received
    ensures SlotsAgree(p, o', inUse)
  {
  }

  lemma SameFlightKeepsFailures(p: Plan, o: Progress, o': Progress, failures: seq<GateResult>)
    requires p.Valid() && FailuresAgree(p, o, failures) && o'.received == o.received
    ensures FailuresAgree(p, o', failures)
  {
  }

  lemma SameFlightKeepsLanes(p: Plan, o: Progress, o': Progress, lanes: seq<Lane>, home: map<nat, Place>,
                             next: seq<nat>, busy: seq<bool>)
    requires p.Valid() && Partition(p, lanes, home, p.last) && LanesAgree(p, o, lanes, home, next, busy)
    requires o'.launched == o.launched && o'.received == o.received
    ensures LanesAgree(p, o', lanes, home, next, busy)
  {
    forall i | i in home ensures GateAgrees(p, o', home[i].slot, next[home[i].lane], busy[home[i].lane], i) {
      assert GateAgrees(p, o, home[i].slot, next[home[i].lane], busy[home[i].lane], i);
    }
  }

  /** While nothing has failed, a ready gate is the head of a runnable lane. */
  lemma ReadyIsCandidate(p: Plan, o: Progress, lanes: seq<Lane>, home: map<nat, Place>, next: seq<nat>,
                         busy: seq<bool>, i: nat)
    requires p.Valid() && Partition(p, lanes, home, p.last) && LanesAgree(p, o, lanes, home, next, busy)
    requires o.received <= o.launched && Ready(p, o, i)
    ensures i in home && IsCandidate(lanes, next, busy, Candidate(home[i].lane, i))
  {
    var l := home[i].lane;
    if home[i].slot > next[l] {
      var head := lanes[l].gates[next[l]];
      assert home[head] == Place(l, next[l]);
      assert SameLane(p, head, i) && head < i;
      assert false;
    }
  }

  lemma CandidateIsReady(p: Plan, o: Progress, lanes: seq<Lane>, home: map<nat, Place>, next: seq<nat>,
                         busy: seq<bool>, c: Candidate)
    requires p.Valid() && Partition(p, lanes, home, p.last) && LanesAgree(p, o, lanes, home, next, busy)
    requires IsCandidate(lanes, next, busy, c) && !FailureSeen(p, o)
    ensures c.gate in home && home[c.gate] == Place(c.lane, next[c.lane]) && Ready(p, o, c.gate)
  {
    forall j | p.first <= j < c.gate && SameLane(p, j, c.gate) ensures Passed(p, o, j) {
      assert lanes[home[j].lane].name == lanes[c.lane].name;
      assert home[j].lane == c.lane;
    }
  }

  /** What a launch pass has established after looking at the first k runnable lanes. */
  ghost predicate PassSoFar(p: Plan, o: Progress, lanes: seq<Lane>, next: seq<nat>, busy: seq<bool>,
                            runnable: seq<Candidate>, k: nat)
    requires p.Valid() && |next| == |busy| == |lanes| && k <= |runnable|
  {
    && (forall c | IsCandidate(lanes, next, busy, c) :: c in runnable)
    && (forall m | 0 <= m < |runnable| :: p.Scheduled(runnable[m].gate) && runnable[m].lane < |lanes|)
    && (forall a, b | 0 <= a < b < |runnable| :: runnable[a].lane != runnable[b].lane)
    && (forall m | k <= m < |runnable| :: IsCandidate(lanes, next, busy, runnable[m]))
    && (forall m | 0 <= m < k :: busy[runnable[m].lane] || !HasRoom(p, o, runnable[m].gate))
  }

  lemma StartPass(p: Plan, o: Progress, lanes: seq<Lane>, home: map<nat, Place>, next: seq<nat>, busy: seq<bool>,
                  runnable: seq<Candidate>)
    requires p.Valid() && Partition(p, lanes, home, p.last) && |next| == |busy| == |lanes|
    requires InLaunchOrder(p, runnable) && forall c :: c in runnable <==> IsCandidate(lanes, next, busy, c)
    ensures PassSoFar(p, o, lanes, next, busy, runnable, 0)
  {
    forall m | 0 <= m < |runnable| ensures IsCandidate(lanes, next, busy, runnable[m])
        && p.Scheduled(runnable[m].gate) {
      assert runnable[m] in runnable;
      assert runnable[m].gate in home;
    }
    forall a, b | 0 <= a < b < |runnable| ensures runnable[a].lane != runnable[b].lane {
      assert Precedes(p.gates, runnable[a].gate, runnable[b].gate);
    }
  }

  lemma StaysSettled(p: Plan, o: Progress)
    requires p.Valid() && Allowed(p, o, Settled)
    ensures Allowed(p, After(o, Settled), Settled)
  {
    var o' := After(o, Settled);
    assert o'.InFlight() == o.InFlight();
    forall j: nat | Ready(p, o', j) ensures !HasRoom(p, o', j) {
      assert forall i | p.first <= i < j && SameLane(p, i, j) :: Passed(p, o', i) ==> Passed(p, o, i);
      assert Ready(p, o, j);
    }
  }

  lemma SameFlightKeepsPass(p: Plan, o: Progress, o': Progress, lanes: seq<Lane>, next: seq<nat>, busy: seq<bool>,
                            runnable: seq<Candidate>, k: nat)
    requires p.Valid() && |next| == |busy| == |lanes| && k <= |runnable|
    requires PassSoFar(p, o, lanes, next, busy, runnable, k)
    requires o'.launched == o.launched && o'.received == o.received
    ensures PassSoFar(p, o', lanes, next, busy, runnable, k)
  {
    assert o'.InFlight() == o.InFlight();
    assert forall m | 0 <= m < k :: HasRoom(p, o', runnable[m].gate) <==> HasRoom(p, o, runnable[m].gate);
  }

  lemma BlockedKeepsPass(p: Plan, o: Progress, lanes: seq<Lane>, next: seq<nat>, busy: seq<bool>,
                         runnable: seq<Candidate>, k: nat)
    requires p.Valid() && |next| == |busy| == |lanes| && k < |runnable|
    requires PassSoFar(p, o, lanes, next, busy, runnable, k) && !HasRoom(p, o, runnable[k].gate)
    ensures PassSoFar(p, o, lanes, next, busy, runnable, k + 1)
  {
  }

  /** More gates in flight leave less room. */
  lemma RoomShrinks(p: Plan, o: Progress, gate: nat, i: nat)
    requires p.Valid() && p.Scheduled(i) && gate < |p.gates|
    requires gate !in o.launched && o.received <= o.launched && !HasRoom(p, o, i)
    ensures !HasRoom(p, After(o, Launched(gate)), i)
  {
    DemandLaunch(p, o.InFlight(), gate);
    assert After(o, Launched(gate)).InFlight() == o.InFlight() + {gate};
  }

  lemma LaunchKeepsPass(p: Plan, o: Progress, lanes: seq<Lane>, next: seq<nat>, busy: seq<bool>,
                        runnable: seq<Candidate>, k: nat)
    requires p.Valid() && |next| == |busy| == |lanes| && k < |runnable|
    requires PassSoFar(p, o, lanes, next, busy, runnable, k)
    requires runnable[k].gate !in o.launched && o.received <= o.launched
    ensures PassSoFar(p, After(o, Launched(runnable[k].gate)), lanes, next, busy[runnable[k].lane := true], runnable,
            k + 1)
  {
    var c := runnable[k];
    var busy' := busy[c.lane := true];
    var o' := After(o, Launched(c.gate));
    assert forall d | IsCandidate(lanes, next, busy', d) :: IsCandidate(lanes, next, busy, d);
    forall m | 0 <= m < k + 1 ensures busy'[runnable[m].lane] || !HasRoom(p, o', runnable[m].gate) {
      if !busy'[runnable[m].lane] {
        RoomShrinks(p, o, c.gate, runnable[m].gate);
      }
    }
  }

  // ---------------------------------------------------------------- the scheduler

  lemma NothingInUse(p: Plan)
    requires p.Valid()
    ensures SlotsAgree(p, INITIAL, map[])
  {
    hide Demand, Count;
    assert INITIAL.InFlight() == {};
    forall c ensures Demand(p, {}, c) == 0 {
      NoDemand(p, c);
    }
  }

  lemma NoDemand(p: Plan, c: Resource)
    ensures Demand(p, {}, c) == 0
  {
    DemandOfNone(p, c, |p.gates|);
  }

  /** Before anything runs the counters are at their start. */
  lemma NothingLaunched(p: Plan, lanes: seq<Lane>, home: map<nat, Place>)
    requires p.Valid() && Partition(p, lanes, home, p.last)
    ensures LanesAgree(p, INITIAL, lanes, home, seq(|lanes|, _ => 0), seq(|lanes|, _ => false))
    ensures GoroutinesAgree(p, INITIAL, home, map[], [], 0, false) && FailuresAgree(p, INITIAL, [])
  {
    assert INITIAL.InFlight() == {};
  }

  /** A launch changes one gate's standing. */
  lemma LaunchKeepsGate(p: Plan, o: Progress, gate: nat, place: Place, l: nat, next: nat, busy: bool, i: nat)
    requires p.Valid() && p.Scheduled(i) && gate !in o.launched && o.received <= o.launched
    requires GateAgrees(p, o, place.slot, next, busy, i)
    requires place.lane == l ==> !busy && (place.slot == next <==> i == gate)
    requires place.lane != l ==> i != gate
    ensures GateAgrees(p, After(o, Launched(gate)), place.slot, next, busy || place.lane == l, i)
  {
  }

  class ReleaseScheduler {
    const plan: Plan
    const lanes: seq<Lane>
    ghost const home: map<nat, Place>
    // per lane: the position of its next gate, and whether that gate is in flight
    var next: seq<nat>
    var busy: seq<bool>
    var inUse: map<Resource, int>
    var active: nat
    var failures: seq<GateResult>
    // the goroutines: gates whose command runs (with their lane), the results channel, the failure flag
    var running: map<nat, nat>
    var results: seq<GateResult>
    var failureDetected: bool
    var raised: set<nat> // the gates whose goroutine has raised the flag
    ghost var trace: seq<Event>

    ghost function Now(): Progress
      reads this`trace
    {
      Reached(trace)
    }

    ghost predicate Valid()
      reads this
    {
      && plan.Valid()
      && Partition(plan, lanes, home, plan.last)
      && Legal(plan, trace)
      && Sound(plan, Now())
      && |next| == |busy| == |lanes|
      && LanesAgree(plan, Now(), lanes, home, next, busy)
      && SlotsAgree(plan, Now(), inUse)
      && GoroutinesAgree(plan, Now(), home, running, results, active, failureDetected)
      && FailuresAgree(plan, Now(), failures)
      && raised == Now().published
    }

    constructor (p: Plan)
      requires p.Valid()
      ensures plan == p && Valid() && trace == [] && active == 0 && failures == []
    {
      plan := p;
      var ls, h := ReleaseLanes(p);
      lanes := ls;
      home := h;
      next := seq(|ls|, _ => 0);
      busy := seq(|ls|, _ => false);
      inUse := map[];
      active := 0;
      failures := [];
      running := map[];
      results := [];
      failureDetected := false;
      raised := {};
      trace := [];
      new;
      hide Partition, Allowed;
      LegalIsSound(plan, trace);
      NothingInUse(plan);
      NothingLaunched(plan, lanes, home);
    }

    /** At every point the counters are what the gates in flight ask for, and no class is overdrawn. */
    lemma InUseIsDemand(c: Resource)
      requires Valid()
      ensures Slots(inUse, c) == Demand(plan, Now().InFlight(), c)
      ensures Slots(inUse, c) > 0 ==> Slots(inUse, c) <= Slots(plan.capacities, c)
    {
      hide Partition, LanesAgree, GoroutinesAgree, FailuresAgree, Sound, Reached, Demand;
      EveryMomentIsSafe(plan, trace, |trace|);
      assert trace[..|trace|] == trace;
    }

    /** Records an action the trace specification allows. */
    ghost method Record(e: Event)
      requires plan.Valid() && Legal(plan, trace) && Sound(plan, Now()) && Allowed(plan, Now(), e)
      modifies this`trace
      ensures trace == old(trace) + [e]
      ensures Legal(plan, trace) && Sound(plan, Now()) && Now() == After(old(Now()), e)
    {
      StepKeepsSound(plan, Now(), e);
      Extend(plan, trace, e);
      trace := trace + [e];
    }

    /** A failing gate raises the failure flag. */
    method Publish(gate: nat)
      requires Valid() && gate in running && plan.Scheduled(gate) && plan.Fails(gate)
      modifies this`failureDetected, this`raised, this`trace
      ensures Valid() && trace == old(trace) + [Published(gate)] && raised == old(raised) + {gate}
      ensures Now() == After(old(Now()), Published(gate))
    {
      hide Reached, GoroutinesAgree, Sound, LanesAgree, Partition, FailuresAgree, SlotsAgree, Legal, Ready, HasRoom,
           FailureSeen;
      RunningIsScheduled(gate);
      ghost var o := Now();
      Record(Published(gate));
      failureDetected := true;
      raised := raised + {gate};
      assert Now().InFlight() == o.InFlight();
      SameFlightKeepsSlots(plan, o, Now(), inUse);
      SameFlightKeepsFailures(plan, o, Now(), failures);
      PublishKeepsGoroutines(plan, o, home, running, results, active, old(failureDetected), gate);
      SameFlightKeepsLanes(plan, o, Now(), lanes, home, next, busy);
    }

    /** A gate that need not raise the flag any more puts its result into the channel. */
    method Send(gate: nat)
      requires Valid() && gate in running && plan.Scheduled(gate) && (plan.Fails(gate) ==> gate in raised)
      modifies this`running, this`results
      ensures Valid() && results == old(results) + [GateResult(gate, old(running)[gate], plan.outcome[gate])]
    {
      hide GoroutinesAgree, Sound, LanesAgree, Partition, FailuresAgree, SlotsAgree, Legal;
      SendKeepsGoroutines(plan, Now(), home, running, results, active, failureDetected, gate);
      results := results + [GateResult(gate, running[gate], plan.outcome[gate])];
      running := running - {gate};
    }

    lemma RunningIsScheduled(gate: nat)
      requires Valid() && gate in running
      ensures plan.Valid() && plan.Scheduled(gate) && gate in Now().InFlight()
    {
    }

    lemma FlagMeansPublished()
      requires Valid()
      ensures failureDetected <==> Now().published != {}
    {
    }

    /** The next action of one running gate: raise the flag if it failed and has not yet, else send its result. */
    method Advance(gate: nat)
      requires Valid() && gate in running
      modifies this`running, this`results, this`failureDetected, this`raised, this`trace
      ensures Valid() && old(results) <= results && old(trace) <= trace
      ensures OnlyPublished(old(Now()), Now())
      ensures plan.Scheduled(gate) && old(raised) <= raised
      ensures if plan.outcome[gate].Some? && gate !in old(raised) then gate in raised && running == old(running)
              else results != []
    {
      hide Valid, Reached;
      RunningIsScheduled(gate);
      if plan.outcome[gate].Some? && gate !in raised {
        Publish(gate);
      } else {
        Send(gate);
      }
    }

    /** Any number of actions of any running gates. */
    method Goroutines()
      requires Valid()
      modifies this`running, this`results, this`failureDetected, this`raised, this`trace
      ensures Valid() && old(results) <= results && old(trace) <= trace
      ensures OnlyPublished(old(Now()), Now())
    {
      hide Valid, Reached;
      var steps: nat := *;
      while steps > 0
        invariant Valid() && old(results) <= results && old(trace) <= trace
        invariant OnlyPublished(old(Now()), Now())
      {
        if running.Keys != {} {
          var gate :| gate in running.Keys;
          RunningIsScheduled(gate);
          Advance(gate);
        }
        steps := steps - 1;
      }
    }

    /** Reads the failure flag; only a clear reading lets a launch follow. */
    method LoadFailureDetected() returns (detected: bool)
      requires Valid()
      modifies this`running, this`results, this`failureDetected, this`raised, this`trace
      ensures Valid() && old(trace) <= trace
      ensures Now().launched == old(Now()).launched && Now().received == old(Now()).received
      ensures if detected then Now().published != {} else Now().armed
    {
      hide Reached, GoroutinesAgree, Sound, LanesAgree, Partition, FailuresAgree, SlotsAgree, Legal, Ready, HasRoom,
           FailureSeen;
      Goroutines();
      detected := failureDetected;
      FlagMeansPublished();
      if !detected {
        ghost var o := Now();
        Record(Checked);
        SameFlightKeepsSlots(plan, o, Now(), inUse);
        SameFlightKeepsFailures(plan, o, Now(), failures);
        assert Now().InFlight() == o.InFlight();
        RestKeepsGoroutines(plan, o, Now(), home, running, results, active, failureDetected);
        SameFlightKeepsLanes(plan, o, Now(), lanes, home, next, busy);
      }
      Goroutines();
    }

    lemma NoFailureYet()
      requires Valid() && failures == []
      ensures plan.Valid() && !FailureSeen(plan, Now())
    {
    }

    /** The lanes that can launch, in order, cover every ready gate. */
    lemma ReadyIsRunnable(i: nat)
      requires Valid() && Ready(plan, Now(), i)
      ensures i in home && |next| == |busy| == |lanes| && IsCandidate(lanes, next, busy, Candidate(home[i].lane, i))
    {
      ReadyIsCandidate(plan, Now(), lanes, home, next, busy, i);
    }

    lemma RunnableIsReady(c: Candidate)
      requires Valid() && failures == [] && |next| == |busy| == |lanes| && IsCandidate(lanes, next, busy, c)
      ensures c.gate in home && home[c.gate] == Place(c.lane, next[c.lane])
      ensures plan.Valid() && plan.Scheduled(c.gate) && Ready(plan, Now(), c.gate)
      ensures c.gate !in Now().launched && Now().received <= Now().launched
    {
      CandidateIsReady(plan, Now(), lanes, home, next, busy, c);
    }

    /** What launching a candidate leaves true. */
    lemma LaunchingKeeps(c: Candidate, taken: map<Resource, int>)
      requires Valid() && IsCandidate(lanes, next, busy, c) && plan.Scheduled(c.gate)
      requires c.gate in home && home[c.gate].lane == c.lane && c.gate !in Now().launched
               && Now().received <= Now().launched
      requires forall r :: Slots(taken, r) == Slots(inUse, r) + Count(plan.gates[c.gate].resources, r)
      ensures var o := After(Now(), Launched(c.gate));
              && LanesAgree(plan, o, lanes, home, next, busy[c.lane := true])
              && GoroutinesAgree(plan, o, home, running[c.gate := c.lane], results, active + 1, failureDetected)
              && FailuresAgree(plan, o, failures)
              && raised == o.published && SlotsAgree(plan, o, taken)
    {
      hide Reached, GoroutinesAgree, Sound, LanesAgree, FailuresAgree, Legal, Partition, Allowed, Slots, Count;
      var o := Now();
      LaunchKeepsLanes(plan, o, lanes, home, next, busy, c.lane, c.gate);
      LaunchKeepsGoroutines(plan, o, home, running, results, active, failureDetected, c.gate);
      LaunchKeepsSlots(plan, o, inUse, c.gate);
      SameFlightKeepsFailures(plan, o, After(o, Launched(c.gate)), failures);
    }

    method Launch(c: Candidate)
      requires Valid() && failures == [] && Now().armed
      requires IsCandidate(lanes, next, busy, c)
      requires plan.Scheduled(c.gate) && HasRoom(plan, Now(), c.gate)
      requires forall j: nat | Ready(plan, Now(), j) && Precedes(plan.gates, j, c.gate) :: !HasRoom(plan, Now(), j)
      modifies this`busy, this`inUse, this`active, this`running, this`trace
      ensures Valid() && trace == old(trace) + [Launched(c.gate)]
      ensures Now() == After(old(Now()), Launched(c.gate))
      ensures Now().InFlight() == old(Now().InFlight()) + {c.gate} && c.gate !in old(Now().InFlight())
      ensures busy == old(busy)[c.lane := true]
    {
      hide Reached, GoroutinesAgree, Sound, LanesAgree, FailuresAgree, SlotsAgree, Legal, HasRoom, FailureSeen,
           Partition, Ready;
      ghost var o := Now();
      NoFailureYet();
      RunnableIsReady(c);
      var taken := AcquireReleaseResources(plan.gates[c.gate].resources, inUse);
      LaunchingKeeps(c, taken);
      Record(Launched(c.gate));
      assert Now().InFlight() == o.InFlight() + {c.gate};
      inUse := taken;
      busy := busy[c.lane := true];
      active := active + 1;
      running := running[c.gate := c.lane];
    }

    lemma RoomIsFits(gate: nat)
      requires Valid() && plan.Scheduled(gate)
      ensures HasRoom(plan, Now(), gate) <==> Fits(plan.gates[gate].resources, plan.capacities, inUse)
    {
    }

    /** A ready gate that precedes the one under consideration has been found blocked. */
    lemma EarlierIsBlocked(runnable: seq<Candidate>, k: nat, j: nat)
      requires Valid() && k <= |runnable| && InLaunchOrder(plan, runnable)
      requires PassSoFar(plan, Now(), lanes, next, busy, runnable, k)
      requires Ready(plan, Now(), j) && (k < |runnable| ==> Precedes(plan.gates, j, runnable[k].gate))
      ensures plan.Scheduled(j) && !HasRoom(plan, Now(), j)
    {
      hide Reached, GoroutinesAgree, Sound, LanesAgree, FailuresAgree, SlotsAgree, Legal, HasRoom, FailureSeen,
           Partition;
      ReadyIsRunnable(j);
      var m :| 0 <= m < |runnable| && runnable[m] == Candidate(home[j].lane, j);
      assert forall a | 0 <= a < m :: Precedes(plan.gates, runnable[a].gate, runnable[m].gate);
    }

    /** Ends a launch pass that has looked at every lane. */
    ghost method Settle()
      requires Valid() && Allowed(plan, Now(), Settled)
      modifies this`trace
      ensures Valid() && trace == old(trace) + [Settled]
      ensures Now() == After(old(Now()), Settled) && Allowed(plan, Now(), Settled)
    {
      hide Reached, GoroutinesAgree, Sound, LanesAgree, Partition, FailuresAgree, SlotsAgree, Legal;
      ghost var o := Now();
      Record(Settled);
      assert Now().InFlight() == o.InFlight();
      SameFlightKeepsSlots(plan, o, Now(), inUse);
      SameFlightKeepsFailures(plan, o, Now(), failures);
      RestKeepsGoroutines(plan, o, Now(), home, running, results, active, failureDetected);
      SameFlightKeepsLanes(plan, o, Now(), lanes, home, next, busy);
      StaysSettled(plan, o);
    }

    /**
     One launch pass: looks at the runnable lanes in order and launches what
     fits, until the failure flag shows or every lane has been looked at.
     */
    method LaunchPass() returns (settled: bool)
      requires Valid() && failures == []
      modifies this`busy, this`inUse, this`active, this`running, this`results, this`failureDetected, this`raised,
               this`trace
      ensures Valid() && old(trace) <= trace
      ensures Now().received == old(Now()).received
      ensures if settled then Now().settled && Allowed(plan, Now(), Settled) else Now().published != {}
    {
      hide Reached, GoroutinesAgree, Sound, LanesAgree, FailuresAgree, SlotsAgree, Legal, HasRoom, FailureSeen,
           Ready, Partition, InLaunchOrder;
      var runnable := RunnableReleaseLanes(plan, lanes, home, next, busy);
      StartPass(plan, Now(), lanes, home, next, busy, runnable);
      for k := 0 to |runnable|
        invariant Valid() && failures == [] && old(trace) <= trace
        invariant Now().received == old(Now()).received
        invariant PassSoFar(plan, Now(), lanes, next, busy, runnable, k)
      {
        ghost var o := Now();
        var detected := LoadFailureDetected();
        if detected {
          return false;
        }
        SameFlightKeepsPass(plan, o, Now(), lanes, next, busy, runnable, k);
        var c := runnable[k];
        RoomIsFits(c.gate);
        var blocking := BlockingReleaseResources(plan.gates[c.gate].resources, plan.capacities, inUse);
        if blocking == [] {
          forall j: nat | Ready(plan, Now(), j) && Precedes(plan.gates, j, c.gate)
              ensures plan.Scheduled(j) && !HasRoom(plan, Now(), j) {
            EarlierIsBlocked(runnable, k, j);
          }
          RunnableIsReady(c);
          LaunchKeepsPass(plan, Now(), lanes, next, busy, runnable, k);
          Launch(c);
        } else {
          BlockedKeepsPass(plan, Now(), lanes, next, busy, runnable, k);
        }
      }
      NoFailureYet();
      forall j: nat | Ready(plan, Now(), j) ensures plan.Scheduled(j) && !HasRoom(plan, Now(), j) {
        EarlierIsBlocked(runnable, |runnable|, j);
      }
      Settle();
      return true;
    }

    lemma SomethingRuns()
      requires Valid() && active > 0 && results == []
      ensures running.Keys != {}
    {
      assert |running| == |running.Keys|;
    }

    lemma NothingRuns()
      requires Valid() && active == 0
      ensures Now().launched == Now().received
    {
      assert running.Keys == {};
      assert forall i :: !Buffered(results, i);
      assert Now().InFlight() == {};
    }

    lemma FirstResult()
      requires Valid() && results != [] && (Now().settled || Now().published != {})
      ensures plan.Valid() && plan.Scheduled(results[0].index) && results[0].index in Now().InFlight()
      ensures results[0].index in home && results[0].laneIndex == home[results[0].index].lane
      ensures results[0].err == plan.outcome[results[0].index]
      ensures Allowed(plan, Now(), Received(results[0].index)) && Now().received <= Now().launched
    {
      assert ResultAgrees(plan, Now(), home, results[0]);
    }

    /** Waits until one of the gates in flight has sent its result. */
    method AwaitResult()
      requires Valid() && active > 0
      modifies this`running, this`results, this`failureDetected, this`raised, this`trace
      ensures Valid() && results != [] && old(trace) <= trace
      ensures OnlyPublished(old(Now()), Now())
    {
      hide Valid, Reached;
      Goroutines();
      while results == []
        invariant Valid() && active > 0 && old(trace) <= trace
        invariant OnlyPublished(old(Now()), Now())
        decreases if results == [] then 1 else 0, running.Keys - raised
      {
        SomethingRuns();
        var gate :| gate in running.Keys;
        Advance(gate);
      }
    }

    /** What receiving the first buffered result leaves true. */
    lemma ReceivingKeeps(result: GateResult, freed: map<Resource, int>)
      requires Valid() && active > 0 && results != [] && result == results[0]
      requires result.index in home && result.index in Now().InFlight() && plan.Scheduled(result.index)
      requires result.laneIndex == home[result.index].lane && result.err == plan.outcome[result.index]
      requires Now().received <= Now().launched
      requires forall c :: Slots(freed, c) == Slots(inUse, c) - Count(plan.gates[result.index].resources, c)
      ensures result.laneIndex < |lanes| && next[result.laneIndex] < |lanes[result.laneIndex].gates|
      ensures lanes[result.laneIndex].gates[next[result.laneIndex]] == result.index
      ensures var o := After(Now(), Received(result.index));
              && LanesAgree(plan, o, lanes, home,
                            if result.err.Some? then next else next[result.laneIndex := next[result.laneIndex] + 1],
                            busy[result.laneIndex := false])
              && GoroutinesAgree(plan, o, home, running, results[1..], active - 1, failureDetected)
              && FailuresAgree(plan, o, if result.err.Some? then failures + [result] else failures)
              && raised == o.published && SlotsAgree(plan, o, freed)
    {
      hide Reached, GoroutinesAgree, Sound, LanesAgree, FailuresAgree, Legal, Partition, Allowed, Slots, Count;
      var o := Now();
      InFlightIsHead(plan, o, lanes, home, next, busy, result.index);
      ReceiveKeepsLanes(plan, o, lanes, home, next, busy, result.index);
      ReceiveKeepsGoroutines(plan, o, home, running, results, active, failureDetected);
      ReceiveKeepsFailures(plan, o, failures, result);
      ReceiveKeepsSlots(plan, o, inUse, result.index);
    }

    /** Takes the first result from the channel and gives its slots and its lane back. */
    method TakeResult() returns (result: GateResult)
      requires Valid() && active > 0 && results != [] && (Now().settled || Now().published != {})
      modifies this`next, this`busy, this`inUse, this`active, this`failures, this`results, this`trace
      ensures Valid() && trace == old(trace) + [Received(result.index)]
      ensures result == old(results[0]) && result.index in home && result.index in old(Now()).InFlight()
      ensures plan.Scheduled(result.index) && result.err == plan.outcome[result.index]
      ensures Now() == After(old(Now()), Received(result.index))
      ensures failures == if result.err.Some? then old(failures) + [result] else old(failures)
    {
      hide Reached, GoroutinesAgree, Sound, LanesAgree, FailuresAgree, SlotsAgree, Legal, Partition, Allowed, After,
           Slots, Count;
      FirstResult();
      result := results[0];
      HeadOfLane(result);
      var gate := lanes[result.laneIndex].gates[next[result.laneIndex]];
      var freed := ReleaseReleaseResources(plan.gates[gate].resources, inUse);
      ReceivingKeeps(result, freed);
      Record(Received(result.index));
      results := results[1..];
      active := active - 1;
      busy := busy[result.laneIndex := false];
      inUse := freed;
      if result.err.Some? {
        failures := failures + [result];
      } else {
        next := next[result.laneIndex := next[result.laneIndex] + 1];
      }
    }

    /** A result is that of its lane's current gate. */
    lemma HeadOfLane(result: GateResult)
      requires Valid() && result.index in home && result.index in Now().InFlight()
               && result.laneIndex == home[result.index].lane
      ensures result.laneIndex < |lanes| && next[result.laneIndex] < |lanes[result.laneIndex].gates|
      ensures lanes[result.laneIndex].gates[next[result.laneIndex]] == result.index
    {
      hide Reached, GoroutinesAgree, Sound, LanesAgree, FailuresAgree, SlotsAgree, Legal, Partition;
      InFlightIsHead(plan, Now(), lanes, home, next, busy, result.index);
    }

    /** The scheduler's receive: waits for a result and takes it. */
    method Receive() returns (result: GateResult)
      requires Valid() && active > 0 && (Now().settled || Now().published != {})
      modifies this`next, this`busy, this`inUse, this`active, this`failures, this`running, this`results,
               this`failureDetected, this`raised, this`trace
      ensures Valid() && old(trace) <= trace
      ensures plan.Scheduled(result.index) && result.err == plan.outcome[result.index]
      ensures result.index in home && result.index in old(Now()).InFlight()
      ensures Now().received == old(Now()).received + {result.index}
      ensures Now().launched == old(Now()).launched
      ensures failures == if result.err.Some? then old(failures) + [result] else old(failures)
    {
      hide Valid, Reached;
      AwaitResult();
      result := TakeResult();
    }

    /** With nothing in flight, nothing launched failed unless a failure is recorded. */
    lemma NoHiddenFailure()
      requires Valid() && active == 0 && failures == []
      ensures Now().published == {} && Now().launched == Now().received
      ensures forall i | i in Now().received :: plan.Scheduled(i) && !plan.Fails(i)
    {
      NothingRuns();
    }

    lemma FailuresArePublished()
      requires Valid() && failures != []
      ensures Now().published != {}
    {
      assert failures[0].index in Now().published;
    }

    lemma RecordedFailures()
      requires Valid()
      ensures forall f | 0 <= f < |failures| ::
                && plan.Scheduled(failures[f].index) && failures[f].index in Now().received
                && plan.Fails(failures[f].index) && failures[f].err == plan.outcome[failures[f].index]
      ensures forall i | i in Now().received && plan.Scheduled(i) && plan.Fails(i) :: Buffered(failures, i)
    {
    }

    lemma AllReceivedEmptiesLanes()
      requires Valid() && failures == [] && forall i | plan.Scheduled(i) :: i in Now().received
      ensures |next| == |lanes| && forall l | 0 <= l < |lanes| :: next[l] == |lanes[l].gates|
    {
      RecordedFailures();
      forall l | 0 <= l < |lanes| ensures next[l] == |lanes[l].gates| {
        if next[l] < |lanes[l].gates| {
          HeadHasNotPassed(plan, Now(), lanes, home, next, busy, l);
        }
      }
    }

    /** The failure that comes first in the sorted list: the one of the lowest canonical index. */
    method LowestFailure() returns (lowest: GateResult)
      requires failures != []
      ensures lowest in failures && forall f | f in failures :: lowest.index <= f.index
    {
      lowest := failures[0];
      for k := 1 to |failures|
        invariant lowest in failures && forall f | f in failures[..k] :: lowest.index <= f.index
      {
        assert failures[..k + 1] == failures[..k] + [failures[k]];
        if failures[k].index < lowest.index {
          lowest := failures[k];
        }
      }
      assert failures[..|failures|] == failures;
    }

    /** The scheduler has let every gate pass. */
    ghost predicate AllPassed()
      reads this
      requires plan.Valid()
    {
      && Now().launched == Now().received
      && forall i | plan.Scheduled(i) :: Passed(plan, Now(), i)
    }

    /** `err` is the error of the failed gate with the lowest canonical index. */
    ghost predicate IsLowestFailure(err: ReleaseError)
      reads this
      requires plan.Valid()
    {
      && err.GateFailed? && plan.Scheduled(err.index) && err.index in Now().received
      && plan.outcome[err.index] == Some(err.err)
      && forall i | i in Now().launched && plan.Scheduled(i) && plan.Fails(i) :: err.index <= i
    }

    /** Launches while nothing has failed, and awaits everything it launched. */
    method Drive()
      requires Valid() && trace == [] && failures == [] && plan.Admissible()
      modifies this
      ensures Valid() && active == 0
      ensures failures == [] ==> forall i | plan.Scheduled(i) :: i in Now().received
    {
      hide Reached, GoroutinesAgree, LanesAgree, FailuresAgree, SlotsAgree, Legal, HasRoom, FailureSeen, Ready,
           Partition, Demand;
      while true
        invariant Valid()
        decreases home.Keys - Now().received
      {
        if failures == [] {
          var detected := LoadFailureDetected();
          if !detected {
            var settled := LaunchPass();
          }
        }
        if active == 0 {
          if failures == [] {
            NoHiddenFailure();
            NoStall(plan, Now());
          }
          break;
        }
        if failures != [] {
          FailuresArePublished();
        }
        var result := Receive();
      }
    }

    /**
     Runs the scheduled gates. Inadmissible requests are refused before anything
     starts. Otherwise whatever started is awaited; without a failing gate every
     gate has passed, and with one the error is the failed gate's that comes
     first. The scheduler never gives up on a gate it could still launch.
     */
    method ExecuteReleaseSchedule() returns (err: Option<ReleaseError>)
      requires Valid() && trace == [] && active == 0 && failures == []
      modifies this
      ensures Valid() && plan.Valid() && Legal(plan, trace)
      ensures !plan.Admissible() ==>
                && trace == []
                && err.Some? && err.value.TooManySlots?
                && plan.Scheduled(err.value.index) && !FitsAlone(plan.gates[err.value.index], plan.capacities)
                && forall i | plan.first <= i < err.value.index :: FitsAlone(plan.gates[i], plan.capacities)
      ensures Now().launched == Now().received
      ensures plan.Admissible() ==> if err.None? then AllPassed() else IsLowestFailure(err.value)
      ensures plan.Admissible() && (forall i | plan.Scheduled(i) :: !plan.Fails(i)) ==> err.None?
    {
      hide Reached, Valid, Legal, FitsAlone, AllPassed, IsLowestFailure;
      NothingRuns();
      ValidIsLegal();
      if |lanes| == 0 {
        NoLanesNoGates();
        return None;
      }
      var scheduled := plan.gates[plan.first..plan.last];
      var rejected := ValidateReleaseResources(scheduled, plan.capacities);
      RejectedIsFirst(rejected);
      if rejected.Some? {
        return Some(TooManySlots(plan.first + rejected.value));
      }
      Drive();
      err := Conclude();
    }

    /** What the scheduler returns when nothing is in flight any more. */
    method Conclude() returns (err: Option<ReleaseError>)
      requires Valid() && plan.Admissible() && active == 0
      requires failures == [] ==> forall i | plan.Scheduled(i) :: i in Now().received
      ensures Legal(plan, trace) && Now().launched == Now().received
      ensures if err.None? then AllPassed() else IsLowestFailure(err.value)
      ensures (forall i | plan.Scheduled(i) :: !plan.Fails(i)) ==> err.None?
    {
      hide Reached, GoroutinesAgree, LanesAgree, FailuresAgree, SlotsAgree, Legal, HasRoom, FailureSeen, Ready,
           Partition, Demand, FitsAlone;
      NothingRuns();
      RecordedFailures();
      if failures == [] {
        AllReceivedEmptiesLanes();
        for l := 0 to |lanes| {
          if next[l] != |lanes[l].gates| {
            assert false; // the "cannot launch" error
          }
        }
        return None;
      }
      var lowest := LowestFailure();
      return Some(GateFailed(lowest.index, lowest.err.value));
    }

    lemma ValidIsLegal()
      requires Valid()
      ensures plan.Valid() && Legal(plan, trace)
    {
    }

    lemma RejectedIsFirst(rejected: Option<nat>)
      requires plan.Valid()
      requires var scheduled := plan.gates[plan.first..plan.last];
               && (rejected.None? <==> forall g | g in scheduled :: FitsAlone(g, plan.capacities))
               && (rejected.Some? ==>
                     && rejected.value < |scheduled| && !FitsAlone(scheduled[rejected.value], plan.capacities)
                     && forall k: nat | k < rejected.value :: FitsAlone(scheduled[k], plan.capacities))
      ensures rejected.None? <==> plan.Admissible()
      ensures rejected.Some? ==>
                var index := plan.first + rejected.value;
                && plan.Scheduled(index) && !FitsAlone(plan.gates[index], plan.capacities)
                && forall i | plan.first <= i < index :: FitsAlone(plan.gates[i], plan.capacities)
    {
      hide FitsAlone;
      var scheduled := plan.gates[plan.first..plan.last];
      assert forall i | plan.Scheduled(i) :: plan.gates[i] == scheduled[i - plan.first] && plan.gates[i] in scheduled;
    }

    lemma NoLanesNoGates()
      requires Valid() && |lanes| == 0 && active == 0
      ensures (forall i :: !plan.Scheduled(i)) && AllPassed()
    {
      NothingRuns();
      assert forall i: nat :: plan.Scheduled(i) <==> i in home;
    }
  }
}
