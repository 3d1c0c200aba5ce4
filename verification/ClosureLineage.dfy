/**
 Consequences of visiting on first trails: what lineages are, which closures are
 visited in full, and which cycles are refused.
 */
module ClosureLineage {
  import opened Wrappers
  import opened ClosureWorld
  import opened Closure
  import opened ClosureExact
  import opened ClosureTrails
  import opened ClosureFirst

  // ---------------------------------------------------------------- lineages

  /** A trail of nodes starts at a source, or refers to it on the way. */
  ghost predicate Enters(w: World, nodes: seq<Node>, k: Key) {
    && nodes != []
    && (nodes[0].key == k ||
        exists i :: 0 <= i < |nodes| - 1 && RefersTo(w, nodes[i], nodes[i + 1]) && nodes[i + 1].key == k)
  }

  ghost predicate IsWalkTo(w: World, init: seq<Item>, nodes: seq<Node>, n: Node) {
    IsTrail(w, nodes) && nodes[0] in StartNodes(init) && nodes[|nodes| - 1] == n
  }

  /** One choice is a step of the closure; references extend the lineage, entries do not. */
  lemma ExitLeads(w: World, item: Item, k: nat)
    requires Exit(w, item, k).Some?
    ensures var t := Exit(w, item, k).value;
            && LeadsTo(w, item.node, t.node)
            && t.lineage == (if RefersTo(w, item.node, t.node) then item.lineage + [t.node.key] else item.lineage)
            && (w.disk(item.node.key).File? ==> t.node.key !in item.lineage)
  {
    match w.disk(item.node.key)
    case Directory(entries) => assert entries[k] in entries;
    case File(_) => assert Read(w, item.node)[k] in Read(w, item.node);
  }

  lemma EntersMore(w: World, nodes: seq<Node>, m: Node, k: Key)
    requires nodes != []
    ensures Enters(w, nodes + [m], k) <==>
            Enters(w, nodes, k) || (RefersTo(w, nodes[|nodes| - 1], m) && m.key == k)
  {
    hide RefersTo;
    var longer := nodes + [m];
    assert forall i | 0 <= i < |nodes| :: longer[i] == nodes[i];
    if RefersTo(w, nodes[|nodes| - 1], m) && m.key == k {
      var i := |nodes| - 1;
      assert RefersTo(w, longer[i], longer[i + 1]);
    }
  }

  /** The lineage gathered on a trail is its start and what it refers to on the way. */
  lemma {:induction false} LineageIsEntered(w: World, init: seq<Item>, t: Trail) returns (nodes: seq<Node>)
    requires IsStart(init) && Reached(w, init, t).Some?
    ensures IsWalkTo(w, init, nodes, Reached(w, init, t).value.node)
    ensures forall k :: k in Reached(w, init, t).value.lineage <==> Enters(w, nodes, k)
  {
    hide LeadsTo, RefersTo, Exit;
    if |t| == 1 {
      nodes := [init[t[0]].node];
    } else {
      var item := Reached(w, init, Front(t)).value;
      var before := LineageIsEntered(w, init, Front(t));
      ExitLeads(w, item, Last(t));
      var m := Reached(w, init, t).value.node;
      nodes := before + [m];
      assert IsTrail(w, nodes);
      forall k ensures k in Reached(w, init, t).value.lineage <==> Enters(w, nodes, k) {
        EntersMore(w, before, m, k);
      }
    }
  }

  /**
   After a successful run a reference between sources that are not REST sources,
   other than to the source itself, leaves a trail to its source that does not
   start at or refer to its target: a reference back to what every trail passes
   is refused.
   */
  lemma DominatingCycleIsRefused(w: World, maxFiles: int, init: seq<Item>, item: Item, e: Edge)
    returns (nodes: seq<Node>)
    requires IsStart(init) && Run(w, maxFiles, Start(init)).Ok?
    requires item in Run(w, maxFiles, Start(init)).value.processed
    requires e in Read(w, item.node) && e.To? && e.key != item.node.key && !IsRest(item.node.key) && !IsRest(e.key)
    ensures IsWalkTo(w, init, nodes, item.node) && !Enters(w, nodes, e.key)
  {
    hide Run, First, Reached, IsWalkTo, Enters, Read, IsRest;
    ProcessedOnFirstTrails(w, maxFiles, init, item);
    var t :| EndsFirst(w, init, t, item);
    SuccessRefersBackNowhere(w, maxFiles, init, t, e);
    nodes := LineageIsEntered(w, init, t);
  }

  ghost predicate OneStartARoot(init: seq<Item>) {
    forall a, b | 0 <= a < b < |init| :: init[a].node.root != init[b].node.root
  }

  lemma StartOfRoot(init: seq<Item>, n: Node, start: nat)
    requires OneStartARoot(init) && start < |init| && n in StartNodes(init)
    ensures n.root == init[start].node.root ==> n == init[start].node
  {
  }

  /**
   With one start a root, nothing visited under a root refers back to the root's source, but
   for itself and REST sources.
   */
  lemma RootCycleIsRefused(w: World, maxFiles: int, init: seq<Item>, start: nat, item: Item, e: Edge)
    requires IsStart(init) && OneStartARoot(init) && Run(w, maxFiles, Start(init)).Ok?
    requires start < |init| && item in Run(w, maxFiles, Start(init)).value.processed
    requires item.node.root == init[start].node.root
    requires e in Read(w, item.node) && e.To? && e.key == init[start].node.key
    ensures e.key == item.node.key || IsRest(e.key) || IsRest(item.node.key)
  {
    hide Run, Read, IsRest, LeadsTo;
    if e.key != item.node.key && !IsRest(e.key) && !IsRest(item.node.key) {
      var nodes := DominatingCycleIsRefused(w, maxFiles, init, item, e);
      TrailKeepsRoot(w, nodes, |nodes| - 1);
      StartOfRoot(init, nodes[0], start);
    }
  }

  // ---------------------------------------------------------------- roots and ways of reading

  /** A trail stays under one root and one way of reading. */
  lemma {:induction false} TrailKeepsRoot(w: World, trail: seq<Node>, k: nat)
    requires IsTrail(w, trail) && k < |trail|
    ensures trail[k].root == trail[0].root && trail[k].packagedOnly == trail[0].packagedOnly
  {
    if k > 0 {
      TrailKeepsRoot(w, trail, k - 1);
      assert LeadsTo(w, trail[k - 1], trail[k - 1 + 1]);
    }
  }

  /** Starts under the same root are read the same way. */
  ghost predicate RootsAreUniform(init: seq<Item>) {
    forall i, j | 0 <= i < |init| && 0 <= j < |init| && init[i].node.root == init[j].node.root ::
      init[i].node.packagedOnly == init[j].node.packagedOnly
  }

  lemma SameRootSameReading(w: World, init: seq<Item>, n: Node, m: Node)
    requires RootsAreUniform(init) && n.root == m.root
    requires InClosure(w, StartNodes(init), n) && InClosure(w, StartNodes(init), m)
    ensures n.packagedOnly == m.packagedOnly
  {
    var a :| IsTrail(w, a) && a[0] in StartNodes(init) && a[|a| - 1] == n;
    var b :| IsTrail(w, b) && b[0] in StartNodes(init) && b[|b| - 1] == m;
    TrailKeepsRoot(w, a, |a| - 1);
    TrailKeepsRoot(w, b, |b| - 1);
  }

  /** Under uniform roots a visit key stands for one node of the closure. */
  lemma SameKeySameNode(w: World, init: seq<Item>, n: Node, m: Node)
    requires RootsAreUniform(init) && VisitKeyOf(n) == VisitKeyOf(m)
    requires InClosure(w, StartNodes(init), n) && InClosure(w, StartNodes(init), m)
    ensures n == m
  {
    SameRootSameReading(w, init, n, m);
  }

  // ---------------------------------------------------------------- cycles of the closure

  /** What is on a lineage leads, within the closure, to its item. */
  lemma {:induction false} LineageReaches(w: World, init: seq<Item>, t: Trail)
    requires IsStart(init) && Reached(w, init, t).Some?
    ensures InClosure(w, StartNodes(init), Reached(w, init, t).value.node)
    ensures forall k | k in Reached(w, init, t).value.lineage ::
              KeyReaches(w, StartNodes(init), k, Reached(w, init, t).value.node.key)
  {
    hide LeadsTo, RefersTo, Exit, InClosure, KeyReaches;
    var starts := StartNodes(init);
    if |t| == 1 {
      StartsInClosure(w, starts, init[t[0]].node);
      KeyReachesItself(w, starts, init[t[0]].node.key);
    } else {
      var item, last := Reached(w, init, Front(t)).value, Reached(w, init, t).value;
      LineageReaches(w, init, Front(t));
      ExitLeads(w, item, Last(t));
      ClosureGrows(w, starts, item.node, last.node);
      assert KeyStep(w, starts, item.node.key, last.node.key);
      forall k | k in last.lineage ensures KeyReaches(w, starts, k, last.node.key) {
        if k in item.lineage {
          KeyReachesFurther(w, starts, k, item.node.key, last.node.key);
        } else {
          KeyReachesItself(w, starts, k);
        }
      }
    }
  }

  /** A reference to another source on the lineage closes a cycle of the closure. */
  lemma BackReferenceClosesCycle(w: World, init: seq<Item>, t: Trail, e: Edge)
    requires IsStart(init) && Reached(w, init, t).Some?
    requires var item := Reached(w, init, t).value;
             e in Read(w, item.node) && e.To? && e.key != item.node.key && e.key in item.lineage
    ensures var n := Reached(w, init, t).value.node;
            ClosesCycle(w, StartNodes(init), n, Node(e.key, e.runtime, n.root, false))
  {
    hide KeyReaches, InClosure, Reached;
    LineageReaches(w, init, t);
  }

  /**
   A closure is never refused as cyclic when every reference that closes a cycle
   in it has a REST source at one end. What is not in the closure does not matter.
   */
  lemma AcyclicIsNotRefused(w: World, maxFiles: int, init: seq<Item>)
    requires IsStart(init)
    requires forall n, m | ClosesCycle(w, StartNodes(init), n, m) :: IsRest(n.key) || IsRest(m.key)
    ensures Run(w, maxFiles, Start(init)).Err? ==> !Run(w, maxFiles, Start(init)).error.CyclicReference?
  {
    hide Run, ClosesCycle, Reached, First, Read, IsRest;
    if Run(w, maxFiles, Start(init)).Err? && Run(w, maxFiles, Start(init)).error.CyclicReference? {
      CyclicErrorIsOnLineage(w, maxFiles, init);
      var t, e :| RefersBackOn(w, init, t, e);
      BackReferenceClosesCycle(w, init, t, e);
    }
  }

  // ---------------------------------------------------------------- completeness

  lemma OwedOrDropped(w: World, maxFiles: int, init: seq<Item>, item: Item, m: Node)
    requires maxFiles >= 0 && IsStart(init) && Run(w, maxFiles, Start(init)).Ok?
    requires item in Run(w, maxFiles, Start(init)).value.processed && LeadsTo(w, item.node, m)
    requires forall a, b | ClosesCycle(w, StartNodes(init), a, b) :: !IsRest(a.key) && !IsRest(b.key)
    ensures Owes(w, item, m)
  {
    hide Run, ClosesCycle, Reached, First, IsRest;
    ProcessedOnFirstTrails(w, maxFiles, init, item);
    var t :| EndsFirst(w, init, t, item);
    if RefersTo(w, item.node, m) && m.key in item.lineage {
      var e :| e in Read(w, item.node) && e.To? && e.key == m.key && e.runtime == m.runtime;
      BackReferenceClosesCycle(w, init, t, e);
      SuccessRefersBackNowhere(w, maxFiles, init, t, e);
    }
  }

  /**
   Where no reference of a REST source, or to one, closes a cycle, a successful
   run visits the closure of its starting nodes, no more and no less.
   */
  lemma VisitedIsClosure(w: World, maxFiles: int, init: seq<Item>, n: Node)
    requires maxFiles >= 0 && IsStart(init) && Run(w, maxFiles, Start(init)).Ok? && RootsAreUniform(init)
    requires forall a, b | ClosesCycle(w, StartNodes(init), a, b) :: !IsRest(a.key) && !IsRest(b.key)
    ensures InClosure(w, StartNodes(init), n) ==> VisitKeyOf(n) in Run(w, maxFiles, Start(init)).value.visited
    ensures VisitKeyOf(n) in Run(w, maxFiles, Start(init)).value.visited ==>
              exists m :: InClosure(w, StartNodes(init), m) && VisitKeyOf(m) == VisitKeyOf(n)
  {
    hide Run, FilesAgree, OneToOne, InClosure, LeadsTo, ClosesCycle, Owes, ReferencesAccepted, VisitKeyOf;
    RunIsExact(w, maxFiles, init);
    var s := Run(w, maxFiles, Start(init)).value;
    if InClosure(w, StartNodes(init), n) {
      var trail := TrailTo(w, StartNodes(init), n);
      var nodes := iset m: Node | VisitKeyOf(m) in s.visited && InClosure(w, StartNodes(init), m);
      forall m, m' | m in nodes && LeadsTo(w, m, m') ensures m' in nodes {
        ClosureGrows(w, StartNodes(init), m, m');
        var i :| 0 <= i < |s.processed| && VisitKeyOf(s.processed[i].node) == VisitKeyOf(m);
        SameKeySameNode(w, init, s.processed[i].node, m);
        OwedOrDropped(w, maxFiles, init, s.processed[i], m');
      }
      StartsInClosure(w, StartNodes(init), trail[0]);
      ClosedSetHoldsTrail(w, nodes, trail, |trail| - 1);
    }
  }

  lemma TrailTo(w: World, starts: set<Node>, n: Node) returns (trail: seq<Node>)
    requires InClosure(w, starts, n)
    ensures IsTrail(w, trail) && trail[0] in starts && trail[|trail| - 1] == n
  {
    trail :| IsTrail(w, trail) && trail[0] in starts && trail[|trail| - 1] == n;
  }
}
