/**
 Resource slots of the release gates: how many slots of each class a gate asks
 for, when they fit, and the loops that check, take and give back slots.
 */
module ReleaseSlots {
  import opened Wrappers

  type Resource = string

  datatype Gate = Gate(
    name: string,
    lane: string,
    resources: seq<Resource>,
    priority: int,
    exclusive: bool)

  /** Looking a class up in a Go map of counters: an absent class counts zero. */
  function Slots(counters: map<Resource, int>, resource: Resource): int {
    if resource in counters then counters[resource] else 0
  }

  /** Adding to one class of a map of counters, as `m[c] += n` does. */
  function Add(counters: map<Resource, int>, resource: Resource, n: int): (r: map<Resource, int>)
    ensures forall c :: Slots(r, c) == Slots(counters, c) + (if c == resource then n else 0)
  {
    counters[resource := Slots(counters, resource) + n]
  }

  function Count(resources: seq<Resource>, resource: Resource): nat {
    multiset(resources)[resource]
  }

  /** The request fits beside what is already in use, class by class. */
  predicate Fits(resources: seq<Resource>, capacities: map<Resource, int>, inUse: map<Resource, int>) {
    forall resource | resource in resources ::
      Slots(inUse, resource) + Count(resources, resource) <= Slots(capacities, resource)
  }

  /** A gate that fits on its own, before anything else runs. */
  predicate FitsAlone(gate: Gate, capacities: map<Resource, int>) {
    Fits(gate.resources, capacities, map[])
  }

  lemma CountStep(resources: seq<Resource>, i: nat)
    requires i < |resources|
    ensures forall c :: Count(resources[..i + 1], c) == Count(resources[..i], c) + (if c == resources[i] then 1 else 0)
    ensures forall c :: Count(resources[..i + 1], c) <= Count(resources, c)
    ensures forall c :: c in resources[..i + 1] <==> c in resources[..i] || c == resources[i]
  {
    assert resources[..i + 1] == resources[..i] + [resources[i]];
    assert resources == resources[..i + 1] + resources[i + 1..];
  }

  /** The first gate whose own request exceeds the capacities, if any. */
  method ValidateReleaseResources(gates: seq<Gate>, capacities: map<Resource, int>) returns (rejected: Option<nat>)
    ensures rejected.None? <==> forall g | g in gates :: FitsAlone(g, capacities)
    ensures rejected.Some? ==>
              && rejected.value < |gates|
              && !FitsAlone(gates[rejected.value], capacities)
              && forall k: nat | k < rejected.value :: FitsAlone(gates[k], capacities)
  {
    for g := 0 to |gates|
      invariant forall k | 0 <= k < g :: FitsAlone(gates[k], capacities)
    {
      var resources := gates[g].resources;
      var required: map<Resource, int> := map[];
      for i := 0 to |resources|
        invariant forall c :: Slots(required, c) == Count(resources[..i], c)
        invariant forall c | c in resources[..i] :: Count(resources[..i], c) <= Slots(capacities, c)
      {
        CountStep(resources, i);
        required := Add(required, resources[i], 1);
        if Slots(required, resources[i]) > Slots(capacities, resources[i]) {
          assert resources[i] in resources && !FitsAlone(gates[g], capacities);
          return Some(g);
        }
      }
      assert resources[..|resources|] == resources;
    }
    return None;
  }

  predicate Blocks(resources: seq<Resource>, capacities: map<Resource, int>, inUse: map<Resource, int>, c: Resource) {
    c in resources && Slots(inUse, c) + Count(resources, c) > Slots(capacities, c)
  }

  ghost predicate ListsBlocking(blocking: seq<Resource>, resources: seq<Resource>, capacities: map<Resource, int>,
                                inUse: map<Resource, int>) {
    && (forall c :: c in blocking <==> Blocks(resources, capacities, inUse, c))
    && (forall a, b | 0 <= a < b < |blocking| :: blocking[a] != blocking[b])
  }

  /** One more requested slot can only make its own class hold the request back. */
  lemma BlockingStep(blocking: seq<Resource>, resources: seq<Resource>, i: nat, capacities: map<Resource, int>,
                     inUse: map<Resource, int>)
    requires i < |resources| && ListsBlocking(blocking, resources[..i], capacities, inUse)
    ensures var c := resources[i];
            ListsBlocking(if Slots(inUse, c) + Count(resources[..i + 1], c) > Slots(capacities, c) && c !in blocking
                          then blocking + [c] else blocking,
                          resources[..i + 1], capacities, inUse)
  {
    hide Slots, Count;
    CountStep(resources, i);
  }

  lemma NoneBlocking(blocking: seq<Resource>, resources: seq<Resource>, capacities: map<Resource, int>,
                     inUse: map<Resource, int>)
    requires ListsBlocking(blocking, resources, capacities, inUse)
    ensures blocking == [] <==> Fits(resources, capacities, inUse)
  {
    hide Slots, Count;
    forall c | c in resources ensures c in blocking || Slots(inUse, c) + Count(resources, c) <= Slots(capacities, c) {
    }
    if blocking != [] {
      assert blocking[0] in blocking;
    }
  }

  /**
   The classes that hold a request back, without repeats; none exactly when the
   request fits now.
   */
  method BlockingReleaseResources(resources: seq<Resource>, capacities: map<Resource, int>, inUse: map<Resource, int>)
    returns (blocking: seq<Resource>)
    ensures blocking == [] <==> Fits(resources, capacities, inUse)
    ensures forall c :: c in blocking <==>
      c in resources && Slots(inUse, c) + Count(resources, c) > Slots(capacities, c)
    ensures forall a, b | 0 <= a < b < |blocking| :: blocking[a] != blocking[b]
  {
    hide Slots, Count, Fits;
    var required: map<Resource, int> := map[];
    var seen: set<Resource> := {};
    blocking := [];
    NothingRequired(required);
    for i := 0 to |resources|
      invariant forall c :: Slots(required, c) == Count(resources[..i], c)
      invariant forall c :: c in seen <==> c in blocking
      invariant ListsBlocking(blocking, resources[..i], capacities, inUse)
    {
      CountStep(resources, i);
      BlockingStep(blocking, resources, i, capacities, inUse);
      var resource := resources[i];
      required := Add(required, resource, 1);
      if Slots(inUse, resource) + Slots(required, resource) > Slots(capacities, resource) && resource !in seen {
        seen := seen + {resource};
        blocking := blocking + [resource];
      }
    }
    assert resources[..|resources|] == resources;
    NoneBlocking(blocking, resources, capacities, inUse);
  }

  lemma NothingRequired(required: map<Resource, int>)
    requires required == map[]
    ensures forall c :: Slots(required, c) == Count([], c)
  {
  }

  method AcquireReleaseResources(resources: seq<Resource>, inUse: map<Resource, int>)
    returns (after: map<Resource, int>)
    ensures forall c :: Slots(after, c) == Slots(inUse, c) + Count(resources, c)
  {
    after := inUse;
    for i := 0 to |resources|
      invariant forall c :: Slots(after, c) == Slots(inUse, c) + Count(resources[..i], c)
    {
      CountStep(resources, i);
      after := Add(after, resources[i], 1);
    }
    assert resources[..|resources|] == resources;
  }

  method ReleaseReleaseResources(resources: seq<Resource>, inUse: map<Resource, int>)
    returns (after: map<Resource, int>)
    ensures forall c :: Slots(after, c) == Slots(inUse, c) - Count(resources, c)
  {
    after := inUse;
    for i := 0 to |resources|
      invariant forall c :: Slots(after, c) == Slots(inUse, c) - Count(resources[..i], c)
    {
      CountStep(resources, i);
      after := Add(after, resources[i], -1);
    }
    assert resources[..|resources|] == resources;
  }
}
