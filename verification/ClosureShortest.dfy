/**
 First trails are shortest trails: where references back to a lineage are to
 nodes already on the trail, the trail a source is visited on is the one of
 fewest steps, ties broken by the order of starts, entries and references.
 */
module ClosureShortest {
  import opened Wrappers
  import opened ClosureWorld
  import opened Closure
  import opened ClosureExact
  import opened ClosureTrails
  import opened ClosureFirst
  import opened ClosureLineage

  /** Where a choice leads from a node, whatever the lineage; a reference of a source to itself leads nowhere. */
  function NodeExit(w: World, n: Node, k: nat): Option<Node> {
    match w.disk(n.key)
    case Broken => None
    case Directory(entries) =>
      if k < |entries| then
        Some(n.(key := ChildKey(n.key, entries[k].name), runtime := PathJoin(n.runtime, entries[k].name)))
      else None
    case File(_) =>
      if k < |Read(w, n)| && Read(w, n)[k].To? && Read(w, n)[k].key != n.key then
        Some(Node(Read(w, n)[k].key, Read(w, n)[k].runtime, n.root, false))
      else None
  }

  function Walked(w: World, init: seq<Item>, t: Trail): Option<Node> {
    if t == [] then None
    else if |t| == 1 then if t[0] < |init| then Some(init[t[0]].node) else None
    else
      match Walked(w, init, Front(t))
      case None => None
      case Some(n) => NodeExit(w, n, Last(t))
  }

  /** Of all trails to a source at its runtime path and root: fewest steps, then earliest choices, step by step. */
  ghost predicate Least(w: World, init: seq<Item>, t: Trail) {
    && Walked(w, init, t).Some?
    && forall q | Before(q, t) && Walked(w, init, q).Some? ::
         VisitKeyOf(Walked(w, init, q).value) != VisitKeyOf(Walked(w, init, t).value)
  }

  /** A reference back to a lineage is to the runtime path its target has there. */
  ghost predicate BacksRepeat(w: World, init: seq<Item>) {
    forall t, e | First(w, init, t) && BackReference(Reached(w, init, t), w, e) ::
      Passes(w, init, t, VisitKey(e.key, e.runtime, Reached(w, init, t).value.node.root))
  }

  /** A trail passes what a visit key stands for before its end. */
  ghost predicate Passes(w: World, init: seq<Item>, t: Trail, k: VisitKey) {
    exists n :: 0 < n < |t| && KeyAt(w, init, t[..n]) == Some(k)
  }

  predicate BackReference(found: Option<Item>, w: World, e: Edge) {
    && found.Some? && e in Read(w, found.value.node) && e.To?
    && e.key != found.value.node.key && e.key in found.value.lineage
  }

  lemma ExitIsNodeExit(w: World, item: Item, k: nat)
    ensures Exit(w, item, k).Some? ==> NodeExit(w, item.node, k) == Some(Exit(w, item, k).value.node)
    ensures Exit(w, item, k).None? && NodeExit(w, item.node, k).Some? ==>
              && k < |Read(w, item.node)| && BackReference(Some(item), w, Read(w, item.node)[k])
              && VisitKeyOf(NodeExit(w, item.node, k).value) ==
                 VisitKey(Read(w, item.node)[k].key, Read(w, item.node)[k].runtime, item.node.root)
  {
  }

  lemma {:induction false} ReachedIsWalked(w: World, init: seq<Item>, t: Trail)
    requires Reached(w, init, t).Some?
    ensures Walked(w, init, t) == Some(Reached(w, init, t).value.node)
  {
    hide Exit, NodeExit;
    if |t| > 1 {
      ReachedIsWalked(w, init, Front(t));
      ExitIsNodeExit(w, Reached(w, init, Front(t)).value, Last(t));
    }
  }

  lemma NodeExitLeads(w: World, n: Node, k: nat)
    requires NodeExit(w, n, k).Some?
    ensures LeadsTo(w, n, NodeExit(w, n, k).value)
  {
    match w.disk(n.key)
    case Directory(entries) => assert entries[k] in entries;
    case File(_) => assert Read(w, n)[k] in Read(w, n);
  }

  lemma {:induction false} WalkedIsInClosure(w: World, init: seq<Item>, t: Trail)
    requires Walked(w, init, t).Some?
    ensures InClosure(w, StartNodes(init), Walked(w, init, t).value)
  {
    hide LeadsTo, NodeExit, InClosure;
    if |t| == 1 {
      StartsInClosure(w, StartNodes(init), init[t[0]].node);
    } else {
      var n := Walked(w, init, Front(t)).value;
      WalkedIsInClosure(w, init, Front(t));
      NodeExitLeads(w, n, Last(t));
      ClosureGrows(w, StartNodes(init), n, Walked(w, init, t).value);
    }
  }

  lemma WalksToSameNode(w: World, init: seq<Item>, a: Trail, b: Trail)
    requires RootsAreUniform(init) && Walked(w, init, a).Some? && Walked(w, init, b).Some?
    requires VisitKeyOf(Walked(w, init, a).value) == VisitKeyOf(Walked(w, init, b).value)
    ensures Walked(w, init, a) == Walked(w, init, b)
  {
    hide InClosure, Walked;
    WalkedIsInClosure(w, init, a);
    WalkedIsInClosure(w, init, b);
    SameKeySameNode(w, init, Walked(w, init, a).value, Walked(w, init, b).value);
  }

  lemma LeastFront(w: World, init: seq<Item>, t: Trail)
    requires RootsAreUniform(init) && Least(w, init, t) && |t| > 1
    ensures Least(w, init, Front(t))
  {
    hide NodeExit, VisitKeyOf;
    forall q | Before(q, Front(t)) && Walked(w, init, q).Some?
      ensures VisitKeyOf(Walked(w, init, q).value) != VisitKeyOf(Walked(w, init, Front(t)).value)
    {
      if VisitKeyOf(Walked(w, init, q).value) == VisitKeyOf(Walked(w, init, Front(t)).value) {
        WalksToSameNode(w, init, q, Front(t));
        var q' := q + [Last(t)];
        assert Front(q') == q && q != [];
        BeforeExtends(q, Front(t), Last(t), Last(t));
        assert t == Front(t) + [Last(t)];
        assert Walked(w, init, q') == Walked(w, init, t);
      }
    }
  }

  lemma PrefixIsBefore(t: Trail, n: nat)
    requires n < |t|
    ensures Before(t[..n], t)
  {
  }

  /** On a least trail no step is back to the lineage. */
  lemma LeastStepIsOpen(w: World, init: seq<Item>, t: Trail)
    requires BacksRepeat(w, init) && Least(w, init, t) && |t| > 1
    requires First(w, init, Front(t)) && Reached(w, init, Front(t)).Some?
    requires Walked(w, init, Front(t)) == Some(Reached(w, init, Front(t)).value.node)
    ensures Reached(w, init, t).Some?
  {
    hide NodeExit, Exit, First, Before, BackReference;
    var item := Reached(w, init, Front(t)).value;
    ExitIsNodeExit(w, item, Last(t));
    if Reached(w, init, t).None? {
      var n :| 0 < n < |Front(t)| &&
        KeyAt(w, init, Front(t)[..n]) == Some(VisitKeyOf(Walked(w, init, t).value));
      assert Front(t)[..n] == t[..n];
      ReachedIsWalked(w, init, t[..n]);
      PrefixIsBefore(t, n);
    }
  }

  /** A shortest trail is a first trail. */
  lemma {:induction false} LeastIsFirst(w: World, init: seq<Item>, t: Trail)
    requires RootsAreUniform(init) && BacksRepeat(w, init) && Least(w, init, t)
    ensures First(w, init, t)
    decreases |t|
  {
    hide NodeExit, Exit, Before, BacksRepeat, VisitKeyOf;
    if |t| > 1 {
      LeastFront(w, init, t);
      LeastIsFirst(w, init, Front(t));
      ReachedIsWalked(w, init, Front(t));
      LeastStepIsOpen(w, init, t);
    }
    ReachedIsWalked(w, init, t);
    forall q | Before(q, t) && Candidate(w, init, q) ensures KeyAt(w, init, q) != KeyAt(w, init, t) {
      ReachedIsWalked(w, init, q);
    }
  }

  /**
   Under uniform roots, and where references back to a lineage repeat nodes of
   the trail, a trail is a first trail exactly when it is the shortest one.
   */
  lemma FirstIsLeast(w: World, init: seq<Item>, t: Trail)
    requires RootsAreUniform(init) && BacksRepeat(w, init)
    ensures First(w, init, t) <==> Least(w, init, t)
  {
    hide NodeExit, Exit, Before, BacksRepeat, VisitKeyOf;
    if Least(w, init, t) {
      LeastIsFirst(w, init, t);
    }
    if First(w, init, t) {
      FirstReaches(w, init, t);
      ReachedIsWalked(w, init, t);
      var n := Walked(w, init, t).value;
      var same := iset q: Trail | Walked(w, init, q).Some? && VisitKeyOf(Walked(w, init, q).value) == VisitKeyOf(n);
      var least := LeastTrail(same, t);
      forall q | Before(q, least) && Walked(w, init, q).Some?
        ensures VisitKeyOf(Walked(w, init, q).value) != VisitKeyOf(Walked(w, init, least).value)
      {
        NotBoth(q, least);
        assert q in same ==> q == least || Before(least, q);
      }
      LeastIsFirst(w, init, least);
      FirstReaches(w, init, least);
      ReachedIsWalked(w, init, least);
      FirstIsUnique(w, init, t, least);
    }
  }

  /** No source is in the closure of a root under two runtime paths. */
  ghost predicate OneRuntimePath(w: World, init: seq<Item>) {
    forall n, m | InClosure(w, StartNodes(init), n) && InClosure(w, StartNodes(init), m) && n.key == m.key
        && n.root == m.root ::
      n.runtime == m.runtime
  }

  /** The lineage of a trail names only sources it has passed. */
  lemma {:induction false} LineageIsPassed(w: World, init: seq<Item>, t: Trail, k: Key) returns (n: nat)
    requires IsStart(init) && Reached(w, init, t).Some? && k in Reached(w, init, t).value.lineage
    ensures 0 < n <= |t| && Reached(w, init, t[..n]).Some?
    ensures Reached(w, init, t[..n]).value.node.key == k
    ensures Reached(w, init, t[..n]).value.node.root == Reached(w, init, t).value.node.root
  {
    hide Exit, LeadsTo, RefersTo;
    n := |t|;
    assert t[..|t|] == t;
    if |t| > 1 {
      var item := Reached(w, init, Front(t)).value;
      ExitLeads(w, item, Last(t));
      StepKeepsRoot(w, item.node, Reached(w, init, t).value.node);
      if k in item.lineage {
        n := LineageIsPassed(w, init, Front(t), k);
        assert Front(t)[..n] == t[..n];
      }
    }
  }

  lemma StepKeepsRoot(w: World, n: Node, m: Node)
    requires LeadsTo(w, n, m)
    ensures m.root == n.root
  {
  }

  lemma OneRuntimePathRepeats(w: World, init: seq<Item>)
    requires IsStart(init) && OneRuntimePath(w, init)
    ensures BacksRepeat(w, init)
  {
    hide Reached, First, InClosure, LeadsTo, Read;
    forall t, e | First(w, init, t) && BackReference(Reached(w, init, t), w, e)
      ensures Passes(w, init, t, VisitKey(e.key, e.runtime, Reached(w, init, t).value.node.root))
    {
      var item := Reached(w, init, t).value;
      var n := LineageIsPassed(w, init, t, e.key);
      assert t[..|t|] == t;
      var target := Node(e.key, e.runtime, item.node.root, false);
      BackReferenceLeads(w, item.node, e);
      LineageReaches(w, init, t);
      LineageReaches(w, init, t[..n]);
      ClosureGrows(w, StartNodes(init), item.node, target);
      var passed := Reached(w, init, t[..n]).value.node;
      assert passed.runtime == target.runtime;
      assert 0 < n < |t| && KeyAt(w, init, t[..n]) == Some(VisitKey(e.key, e.runtime, item.node.root));
    }
  }

  lemma BackReferenceLeads(w: World, n: Node, e: Edge)
    requires e in Read(w, n) && e.To? && e.key != n.key
    ensures LeadsTo(w, n, Node(e.key, e.runtime, n.root, false))
  {
    assert RefersTo(w, n, Node(e.key, e.runtime, n.root, false));
  }

  /** The shortest trail t ends at an item whose reference e is refused as cyclic. */
  ghost predicate RefersBackOnLeast(w: World, init: seq<Item>, t: Trail, e: Edge) {
    Least(w, init, t) && Reached(w, init, t).Some? && RefersBack(w, Reached(w, init, t).value, e)
  }

  /**
   With one runtime path for each source, a run that meets no other error is
   refused as cyclic exactly when some source refers to another one on the
   lineage of the shortest trail to itself, neither of them a REST source.
   */
  lemma RefusedOnShortestTrails(w: World, maxFiles: int, init: seq<Item>)
    requires IsStart(init) && RootsAreUniform(init) && OneRuntimePath(w, init)
    requires Run(w, maxFiles, Start(init)).Err? ==> Run(w, maxFiles, Start(init)).error.CyclicReference?
    ensures Run(w, maxFiles, Start(init)).Err? <==>
            exists t, e :: RefersBackOnLeast(w, init, t, e)
  {
    hide Run, First, Least, OneRuntimePath, BacksRepeat, RefersBack, Reached;
    OneRuntimePathRepeats(w, init);
    RefusedExactly(w, maxFiles, init);
    forall t ensures First(w, init, t) <==> Least(w, init, t) {
      FirstIsLeast(w, init, t);
    }
    if t, e :| RefersBackOn(w, init, t, e) {
      assert RefersBackOnLeast(w, init, t, e);
    }
    if t, e :| RefersBackOnLeast(w, init, t, e) {
      assert RefersBackOn(w, init, t, e);
    }
  }
}
