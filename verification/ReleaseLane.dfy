/**
 Serial lanes of release gates: grouping gates by lane name, and the order in
 which a launch pass looks at the idle lanes.
 */
module ReleaseLane {
  import opened ReleaseSlots
  import opened ReleaseTrace

  function LaneName(gate: Gate): string {
    if gate.lane == "" then "serial" else gate.lane
  }

  lemma NameIsLane(a: Gate, b: Gate)
    ensures LaneName(a) == LaneName(b) <==> OneLane(a.lane, b.lane)
  {
  }

  datatype Lane = Lane(name: string, gates: seq<nat>)

  /** A gate's lane and its position in that lane. */
  datatype Place = Place(lane: nat, slot: nat)

  /**
   The lanes partition gates[first..upTo] by lane name, each lane in input
   order; `home` is the inverse view, from gate to place.
   */
  ghost predicate Partition(p: Plan, lanes: seq<Lane>, home: map<nat, Place>, upTo: nat)
    requires p.Valid() && p.first <= upTo <= p.last
  {
    && (forall l, k | 0 <= l < |lanes| && 0 <= k < |lanes[l].gates| ::
          lanes[l].gates[k] in home && home[lanes[l].gates[k]] == Place(l, k))
    && (forall i: nat :: i in home <==> p.first <= i < upTo)
    && (forall i | i in home ::
          && home[i].lane < |lanes|
          && home[i].slot < |lanes[home[i].lane].gates|
          && lanes[home[i].lane].gates[home[i].slot] == i
          && lanes[home[i].lane].name == LaneName(p.gates[i]))
    && (forall i, j | i in home && j in home && i < j && home[i].lane == home[j].lane :: home[i].slot < home[j].slot)
    && (forall l, m | 0 <= l < m < |lanes| :: lanes[l].name != lanes[m].name)
  }

  lemma OpenPlaces(p: Plan, lanes: seq<Lane>, home: map<nat, Place>, i: nat, after: seq<Lane>, home': map<nat, Place>)
    requires p.Valid() && p.first <= i < p.last && Partition(p, lanes, home, i)
    requires after == lanes + [Lane(LaneName(p.gates[i]), [i])] && home' == home[i := Place(|lanes|, 0)]
    ensures forall l, k | 0 <= l < |after| && 0 <= k < |after[l].gates| ::
              after[l].gates[k] in home' && home'[after[l].gates[k]] == Place(l, k)
    ensures forall j | j in home' ::
              && home'[j].lane < |after| && home'[j].slot < |after[home'[j].lane].gates|
              && after[home'[j].lane].gates[home'[j].slot] == j
              && after[home'[j].lane].name == LaneName(p.gates[j])
  {
    hide LaneName;
    forall l, k | 0 <= l < |after| && 0 <= k < |after[l].gates|
      ensures after[l].gates[k] in home' && home'[after[l].gates[k]] == Place(l, k)
    {
      assert l < |lanes| ==> after[l] == lanes[l];
    }
    forall j | j in home'
      ensures home'[j].lane < |after| && home'[j].slot < |after[home'[j].lane].gates|
      ensures after[home'[j].lane].gates[home'[j].slot] == j && after[home'[j].lane].name == LaneName(p.gates[j])
    {
      assert j == i || j in home;
    }
  }

  lemma OpenOrder(p: Plan, lanes: seq<Lane>, home: map<nat, Place>, i: nat, home': map<nat, Place>)
    requires p.Valid() && p.first <= i < p.last && Partition(p, lanes, home, i)
    requires home' == home[i := Place(|lanes|, 0)]
    ensures forall a, b | a in home' && b in home' && a < b && home'[a].lane == home'[b].lane ::
            home'[a].slot < home'[b].slot
    ensures forall a: nat :: a in home' <==> p.first <= a < i + 1
  {
    hide LaneName;
    forall a, b | a in home' && b in home' && a < b && home'[a].lane == home'[b].lane
        ensures home'[a].slot < home'[b].slot {
      assert a in home && (b in home || b == i);
    }
  }

  lemma OpenLane(p: Plan, lanes: seq<Lane>, home: map<nat, Place>, i: nat)
    requires p.Valid() && p.first <= i < p.last && Partition(p, lanes, home, i)
    requires forall l | 0 <= l < |lanes| :: lanes[l].name != LaneName(p.gates[i])
    ensures Partition(p, lanes + [Lane(LaneName(p.gates[i]), [i])], home[i := Place(|lanes|, 0)], i + 1)
  {
    hide LaneName;
    var after := lanes + [Lane(LaneName(p.gates[i]), [i])];
    var home' := home[i := Place(|lanes|, 0)];
    OpenPlaces(p, lanes, home, i, after, home');
    OpenOrder(p, lanes, home, i, home');
    assert forall l | 0 <= l < |lanes| :: after[l].name == lanes[l].name;
    Assemble(p, after, home', i + 1);
  }

  lemma ExtendPlaces(p: Plan, lanes: seq<Lane>, home: map<nat, Place>, i: nat, index: nat, after: seq<Lane>,
                     home': map<nat, Place>)
    requires p.Valid() && p.first <= i < p.last && Partition(p, lanes, home, i)
    requires index < |lanes| && lanes[index].name == LaneName(p.gates[i])
    requires after == lanes[index := lanes[index].(gates := lanes[index].gates + [i])]
    requires home' == home[i := Place(index, |lanes[index].gates|)]
    ensures forall l, k | 0 <= l < |after| && 0 <= k < |after[l].gates| ::
              after[l].gates[k] in home' && home'[after[l].gates[k]] == Place(l, k)
    ensures forall j | j in home' ::
              && home'[j].lane < |after| && home'[j].slot < |after[home'[j].lane].gates|
              && after[home'[j].lane].gates[home'[j].slot] == j
              && after[home'[j].lane].name == LaneName(p.gates[j])
  {
    hide LaneName;
    assert after[index].gates == lanes[index].gates + [i];
    forall l, k | 0 <= l < |after| && 0 <= k < |after[l].gates|
      ensures after[l].gates[k] in home' && home'[after[l].gates[k]] == Place(l, k)
    {
      if l != index || k < |lanes[index].gates| {
        assert after[l].gates[k] == lanes[l].gates[k];
      }
    }
    forall j | j in home'
      ensures home'[j].lane < |after| && home'[j].slot < |after[home'[j].lane].gates|
      ensures after[home'[j].lane].gates[home'[j].slot] == j
      ensures after[home'[j].lane].name == LaneName(p.gates[j])
    {
      assert j == i || j in home;
    }
  }

  lemma ExtendOrder(p: Plan, lanes: seq<Lane>, home: map<nat, Place>, i: nat, index: nat, home': map<nat, Place>)
    requires p.Valid() && p.first <= i < p.last && Partition(p, lanes, home, i)
    requires index < |lanes| && home' == home[i := Place(index, |lanes[index].gates|)]
    ensures forall a, b | a in home' && b in home' && a < b && home'[a].lane == home'[b].lane ::
            home'[a].slot < home'[b].slot
    ensures forall a: nat :: a in home' <==> p.first <= a < i + 1
  {
    hide LaneName;
    forall a, b | a in home' && b in home' && a < b && home'[a].lane == home'[b].lane
        ensures home'[a].slot < home'[b].slot {
      assert a in home && (b in home || b == i);
    }
  }

  lemma ExtendLane(p: Plan, lanes: seq<Lane>, home: map<nat, Place>, i: nat, index: nat)
    requires p.Valid() && p.first <= i < p.last && Partition(p, lanes, home, i)
    requires index < |lanes| && lanes[index].name == LaneName(p.gates[i])
    ensures Partition(p, lanes[index := lanes[index].(gates := lanes[index].gates + [i])],
                      home[i := Place(index, |lanes[index].gates|)], i + 1)
  {
    hide LaneName;
    var after := lanes[index := lanes[index].(gates := lanes[index].gates + [i])];
    var home' := home[i := Place(index, |lanes[index].gates|)];
    ExtendPlaces(p, lanes, home, i, index, after, home');
    ExtendOrder(p, lanes, home, i, index, home');
    ExtendNames(p, lanes, home, i, index, after);
    Assemble(p, after, home', i + 1);
  }

  lemma ExtendNames(p: Plan, lanes: seq<Lane>, home: map<nat, Place>, i: nat, index: nat, after: seq<Lane>)
    requires p.Valid() && p.first <= i < p.last && Partition(p, lanes, home, i) && index < |lanes|
    requires after == lanes[index := lanes[index].(gates := lanes[index].gates + [i])]
    ensures forall l, m | 0 <= l < m < |after| :: after[l].name != after[m].name
  {
    hide LaneName;
    assert forall l | 0 <= l < |lanes| :: after[l].name == lanes[l].name;
  }

  lemma Assemble(p: Plan, lanes: seq<Lane>, home: map<nat, Place>, upTo: nat)
    requires p.Valid() && p.first <= upTo <= p.last
    requires forall l, k | 0 <= l < |lanes| && 0 <= k < |lanes[l].gates| ::
               lanes[l].gates[k] in home && home[lanes[l].gates[k]] == Place(l, k)
    requires forall a: nat :: a in home <==> p.first <= a < upTo
    requires forall a | a in home ::
               && home[a].lane < |lanes| && home[a].slot < |lanes[home[a].lane].gates|
               && lanes[home[a].lane].gates[home[a].slot] == a
               && lanes[home[a].lane].name == LaneName(p.gates[a])
    requires forall a, b | a in home && b in home && a < b && home[a].lane == home[b].lane ::
             home[a].slot < home[b].slot
    requires forall l, m | 0 <= l < m < |lanes| :: lanes[l].name != lanes[m].name
    ensures Partition(p, lanes, home, upTo)
  {
  }

  /** The index by lane name finds every lane, and only lanes. */
  ghost predicate Indexed(lanes: seq<Lane>, indexByName: map<string, nat>) {
    && (forall l | 0 <= l < |lanes| :: lanes[l].name in indexByName && indexByName[lanes[l].name] == l)
    && (forall name | name in indexByName :: indexByName[name] < |lanes| && lanes[indexByName[name]].name == name)
  }

  lemma IndexOpened(lanes: seq<Lane>, indexByName: map<string, nat>, lane: Lane)
    requires Indexed(lanes, indexByName) && lane.name !in indexByName
    ensures Indexed(lanes + [lane], indexByName[lane.name := |lanes|])
    ensures forall l | 0 <= l < |lanes| :: lanes[l].name != lane.name
  {
  }

  lemma IndexExtended(lanes: seq<Lane>, indexByName: map<string, nat>, index: nat, lane: Lane)
    requires Indexed(lanes, indexByName) && index < |lanes| && lane.name == lanes[index].name
    ensures Indexed(lanes[index := lane], indexByName)
  {
    var after := lanes[index := lane];
    assert forall l | 0 <= l < |lanes| :: after[l].name == lanes[l].name;
  }

  method ReleaseLanes(p: Plan) returns (lanes: seq<Lane>, ghost home: map<nat, Place>)
    requires p.Valid()
    ensures Partition(p, lanes, home, p.last)
    ensures forall l | 0 <= l < |lanes| :: lanes[l].gates != []
  {
    hide Partition, LaneName;
    var indexByName: map<string, nat> := map[];
    lanes, home := [], map[];
    NothingPartitioned(p);
    for i := p.first to p.last
      invariant Partition(p, lanes, home, i) && Indexed(lanes, indexByName)
      invariant forall l | 0 <= l < |lanes| :: lanes[l].gates != []
    {
      var laneName := LaneName(p.gates[i]);
      if laneName !in indexByName {
        var lane := Lane(laneName, [i]);
        IndexOpened(lanes, indexByName, lane);
        OpenLane(p, lanes, home, i);
        indexByName := indexByName[laneName := |lanes|];
        home := home[i := Place(|lanes|, 0)];
        lanes := lanes + [lane];
      } else {
        var index := indexByName[laneName];
        var lane := lanes[index].(gates := lanes[index].gates + [i]);
        IndexExtended(lanes, indexByName, index, lane);
        ExtendLane(p, lanes, home, i, index);
        home := home[i := Place(index, |lanes[index].gates|)];
        lanes := lanes[index := lane];
      }
    }
  }

  lemma NothingPartitioned(p: Plan)
    requires p.Valid()
    ensures Partition(p, [], map[], p.first)
  {
  }

  /** A lane that is idle and has a gate left, given each lane's next position and whether it is busy. */
  predicate Runnable(lanes: seq<Lane>, next: seq<nat>, busy: seq<bool>, l: nat)
    requires |next| == |busy| == |lanes|
  {
    l < |lanes| && !busy[l] && next[l] < |lanes[l].gates|
  }

  /** A runnable lane and the gate it would launch. */
  datatype Candidate = Candidate(lane: nat, gate: nat)

  ghost predicate IsCandidate(lanes: seq<Lane>, next: seq<nat>, busy: seq<bool>, c: Candidate)
    requires |next| == |busy| == |lanes|
  {
    Runnable(lanes, next, busy, c.lane) && c.gate == lanes[c.lane].gates[next[c.lane]]
  }

  ghost predicate InLaunchOrder(p: Plan, candidates: seq<Candidate>) {
    forall a, b | 0 <= a < b < |candidates| :: Precedes(p.gates, candidates[a].gate, candidates[b].gate)
  }

  /** The runnable lanes with their next gates, by priority, ties by canonical gate index. */
  method RunnableReleaseLanes(p: Plan, lanes: seq<Lane>, ghost home: map<nat, Place>, next: seq<nat>, busy: seq<bool>)
    returns (runnable: seq<Candidate>)
    requires p.Valid() && Partition(p, lanes, home, p.last)
    requires |next| == |busy| == |lanes|
    ensures forall c :: c in runnable <==> IsCandidate(lanes, next, busy, c)
    ensures InLaunchOrder(p, runnable)
  {
    runnable := [];
    for laneIndex := 0 to |lanes|
      invariant forall c :: c in runnable <==> c.lane < laneIndex && IsCandidate(lanes, next, busy, c)
      invariant InLaunchOrder(p, runnable)
    {
      if Runnable(lanes, next, busy, laneIndex) {
        var c := Candidate(laneIndex, lanes[laneIndex].gates[next[laneIndex]]);
        forall d | d in runnable ensures d.gate < |p.gates| && d.gate != c.gate {
          assert home[d.gate].lane == d.lane;
          assert home[c.gate].lane == c.lane;
        }
        runnable := InsertByOrder(p, runnable, c);
      }
    }
  }

  /** The comparison the runnable lanes are sorted by. */
  predicate RunsBefore(left: Gate, leftIndex: nat, right: Gate, rightIndex: nat) {
    if left.priority != right.priority then left.priority > right.priority else leftIndex < rightIndex
  }

  /** One insertion of the stable sort that orders the runnable lanes. */
  method InsertByOrder(p: Plan, sorted: seq<Candidate>, c: Candidate) returns (result: seq<Candidate>)
    requires c.gate < |p.gates|
    requires forall d | d in sorted :: d.gate < |p.gates| && d.gate != c.gate
    requires InLaunchOrder(p, sorted)
    ensures forall d :: d in result <==> d in sorted || d == c
    ensures InLaunchOrder(p, result)
  {
    var at := |sorted|;
    while at > 0 && RunsBefore(p.gates[c.gate], c.gate, p.gates[sorted[at - 1].gate], sorted[at - 1].gate)
      invariant 0 <= at <= |sorted|
      invariant forall k | at <= k < |sorted| :: Precedes(p.gates, c.gate, sorted[k].gate)
    {
      at := at - 1;
    }
    forall k | 0 <= k < at ensures Precedes(p.gates, sorted[k].gate, c.gate) {
      assert sorted[at - 1] in sorted;
      assert k == at - 1 || Precedes(p.gates, sorted[k].gate, sorted[at - 1].gate);
    }
    result := sorted[..at] + [c] + sorted[at..];
    assert forall d :: d in sorted <==> d in sorted[..at] || d in sorted[at..];
  }
}
