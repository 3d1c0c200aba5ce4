/**
 The worklist visits every source on its first trail: the items a run processes
 are those at the ends of first trails, with the lineages gathered there. From
 this follows exactly what a run visits and exactly when it is refused as cyclic.
 */
module ClosureFirst {
  import opened Wrappers
  import opened ClosureWorld
  import opened Closure
  import opened ClosureExact
  import opened ClosureTrails

  // ---------------------------------------------------------------- the queue against the trails

  /** The queue holds the ends of these candidates, in their order. */
  ghost predicate QueueTracks(w: World, init: seq<Item>, queue: seq<Item>, pending: seq<Trail>) {
    && |pending| == |queue|
    && forall i | 0 <= i < |pending| :: Candidate(w, init, pending[i]) && Reached(w, init, pending[i]) == Some(queue[i])
  }

  /** Taken trails come before pending ones, and these are in order; what they go on from is taken. */
  ghost predicate Ordered(taken: set<Trail>, pending: seq<Trail>) {
    && (forall i, j | 0 <= i < j < |pending| :: Before(pending[i], pending[j]))
    && (forall q, i | q in taken && 0 <= i < |pending| :: Before(q, pending[i]))
    && (forall i | 0 <= i < |pending| && |pending[i]| > 1 :: Front(pending[i]) in taken)
  }

  /** A candidate is taken or pending, or what it goes on from is not taken yet. */
  ghost predicate NoneMissed(w: World, init: seq<Item>, taken: set<Trail>, pending: seq<Trail>) {
    && (forall q | q in taken :: Candidate(w, init, q))
    && (forall q | Candidate(w, init, q) && q !in taken && q !in pending :: |q| > 1 && Front(q) !in taken)
  }

  ghost predicate VisitedTracks(w: World, init: seq<Item>, visited: set<VisitKey>, taken: set<Trail>) {
    forall k :: k in visited <==> exists q :: q in taken && KeyAt(w, init, q) == Some(k)
  }

  /** The processed items are the ends of the first trails among those taken. */
  ghost predicate ProcessedTracks(w: World, init: seq<Item>, processed: seq<Item>, taken: set<Trail>) {
    forall item :: item in processed <==> exists q :: IsFirstOf(w, init, taken, q, item)
  }

  ghost predicate IsFirstOf(w: World, init: seq<Item>, taken: set<Trail>, q: Trail, item: Item) {
    q in taken && EndsFirst(w, init, q, item)
  }

  /** A first trail ends at the item. */
  ghost predicate EndsFirst(w: World, init: seq<Item>, t: Trail, item: Item) {
    First(w, init, t) && Reached(w, init, t) == Some(item)
  }

  /** What a processed item was accepted for. */
  ghost predicate NoneRefersBack(w: World, processed: seq<Item>) {
    forall item, e | item in processed :: !RefersBack(w, item, e)
  }

  /** A file refers to another source on its lineage, and neither is a REST source. */
  ghost predicate RefersBack(w: World, item: Item, e: Edge) {
    && e in Read(w, item.node) && e.To?
    && e.key != item.node.key && e.key in item.lineage
    && !IsRest(item.node.key) && !IsRest(e.key)
  }

  ghost predicate Tracks(w: World, init: seq<Item>, s: State, taken: set<Trail>, pending: seq<Trail>) {
    && QueueTracks(w, init, s.queue, pending)
    && Ordered(taken, pending)
    && NoneMissed(w, init, taken, pending)
    && VisitedTracks(w, init, s.visited, taken)
    && ProcessedTracks(w, init, s.processed, taken)
    && NoneRefersBack(w, s.processed)
  }

  // ---------------------------------------------------------------- taking one trail

  /** Whatever candidate is not taken comes no earlier than the first pending one. */
  lemma {:induction false} RestIsLater(w: World, init: seq<Item>, taken: set<Trail>, pending: seq<Trail>, q: Trail)
    requires Ordered(taken, pending) && NoneMissed(w, init, taken, pending)
    requires Candidate(w, init, q) && q !in taken
    ensures pending != [] && (q == pending[0] || Before(pending[0], q))
    decreases |q|
  {
    hide Before, Reached, KeyAt;
    if q !in pending {
      assert First(w, init, Front(q)) && Candidate(w, init, Front(q));
      RestIsLater(w, init, taken, pending, Front(q));
      ShorterIsBefore(Front(q), q);
      if Front(q) != pending[0] {
        BeforeTransitive(pending[0], Front(q), q);
      }
    }
  }

  /** The next trail is a first trail exactly when what it reaches is not visited yet. */
  lemma UnvisitedIsFirst(w: World, init: seq<Item>, s: State, taken: set<Trail>, pending: seq<Trail>)
    requires Tracks(w, init, s, taken, pending) && pending != []
    ensures First(w, init, pending[0]) <==> VisitKeyOf(s.queue[0].node) !in s.visited
  {
    hide Before, NoneRefersBack, ProcessedTracks, Reached;
    var p := pending[0];
    assert KeyAt(w, init, p) == Some(VisitKeyOf(s.queue[0].node)) by {
      KeyIsOfItem(w, init, p, s.queue[0]);
    }
    if VisitKeyOf(s.queue[0].node) in s.visited {
      var q :| q in taken && KeyAt(w, init, q) == Some(VisitKeyOf(s.queue[0].node));
      assert Before(q, p);
    } else {
      forall q | Before(q, p) && Candidate(w, init, q) ensures KeyAt(w, init, q) != KeyAt(w, init, p) {
        if q !in taken {
          RestIsLater(w, init, taken, pending, q);
          NotBoth(q, p);
        } else {
          ReachedHasKey(w, init, q);
        }
      }
    }
  }

  lemma KeyIsOfItem(w: World, init: seq<Item>, t: Trail, item: Item)
    requires Reached(w, init, t) == Some(item)
    ensures KeyAt(w, init, t) == Some(VisitKeyOf(item.node))
  {
    hide Reached;
  }

  lemma ReachedHasKey(w: World, init: seq<Item>, t: Trail)
    requires Candidate(w, init, t)
    ensures KeyAt(w, init, t).Some?
  {
    hide First;
  }

  lemma TakeVisited(w: World, init: seq<Item>, visited: set<VisitKey>, taken: set<Trail>, p: Trail, k: VisitKey)
    requires VisitedTracks(w, init, visited, taken) && KeyAt(w, init, p) == Some(k)
    ensures VisitedTracks(w, init, visited + {k}, taken + {p})
  {
    hide KeyAt;
    forall j ensures j in visited + {k} <==> exists q :: q in taken + {p} && KeyAt(w, init, q) == Some(j) {
      if j in visited {
        var q :| q in taken && KeyAt(w, init, q) == Some(j);
        assert q in taken + {p};
      } else if j == k {
        assert p in taken + {p};
      }
    }
  }

  /** A trail that is not a first one is dropped. */
  lemma Skip(w: World, init: seq<Item>, s: State, taken: set<Trail>, pending: seq<Trail>)
    requires Tracks(w, init, s, taken, pending) && pending != [] && !First(w, init, pending[0])
    ensures Tracks(w, init, s.(queue := s.queue[1..]), taken + {pending[0]}, pending[1..])
  {
    hide Before, NoneRefersBack, Reached, First, Candidate, KeyAt;
    var p := pending[0];
    UnvisitedIsFirst(w, init, s, taken, pending);
    KeyIsOfItem(w, init, p, s.queue[0]);
    TakeVisited(w, init, s.visited, taken, p, VisitKeyOf(s.queue[0].node));
    assert s.visited + {VisitKeyOf(s.queue[0].node)} == s.visited;
    SkipKeepsOrder(taken, pending);
    SkipMissesNone(w, init, taken, pending);
    assert forall q, item :: IsFirstOf(w, init, taken + {p}, q, item) <==> IsFirstOf(w, init, taken, q, item);
  }

  lemma SkipKeepsOrder(taken: set<Trail>, pending: seq<Trail>)
    requires Ordered(taken, pending) && pending != []
    ensures Ordered(taken + {pending[0]}, pending[1..])
  {
    hide Before;
  }

  lemma SkipMissesNone(w: World, init: seq<Item>, taken: set<Trail>, pending: seq<Trail>)
    requires NoneMissed(w, init, taken, pending) && pending != []
    requires Candidate(w, init, pending[0]) && !First(w, init, pending[0])
    ensures NoneMissed(w, init, taken + {pending[0]}, pending[1..])
  {
    hide Before, Reached, KeyAt;
    var p := pending[0];
    forall q | Candidate(w, init, q) && q !in taken + {p} && q !in pending[1..]
      ensures |q| > 1 && Front(q) !in taken + {p}
    {
      assert pending == [p] + pending[1..];
      assert q !in pending;
    }
  }

  // ---------------------------------------------------------------- visiting at the end of a first trail

  lemma {:induction false} AcceptedReferBackNowhere(w: World, item: Item, edges: seq<Edge>)
    requires FollowAll(w, item, edges).Ok?
    ensures forall e | e in edges && e.To? && e.key != item.node.key && e.key in item.lineage ::
            IsRest(item.node.key) || IsRest(e.key)
  {
    hide IsRest;
    if edges != [] {
      AcceptedReferBackNowhere(w, item, edges[1..]);
      assert edges == [edges[0]] + edges[1..];
    }
  }

  /** A visit that goes on queues what the item's choices lead to, in their order. */
  lemma VisitQueues(w: World, maxFiles: int, s: State, item: Item) returns (added: seq<Item>)
    requires Visit(w, maxFiles, s, item).Next?
    ensures var s' := Visit(w, maxFiles, s, item).state;
            s'.queue == s.queue + added && s'.visited == s.visited && s'.processed == s.processed
    ensures Matches(w, item, added, Exits(w, item, 0))
    ensures forall e :: !RefersBack(w, item, e)
  {
    hide AddFile, FollowAll, Children, IsRest;
    match w.disk(item.node.key)
    case Directory(entries) =>
      added := Children(item, entries).value;
      assert entries[0..] == entries;
      ChildrenMatch(w, item, entries, 0);
    case File(_) =>
      var edges := Read(w, item.node);
      added := FollowAll(w, item, edges).value;
      assert edges[0..] == edges;
      FollowedMatch(w, item, 0);
      AcceptedReferBackNowhere(w, item, edges);
  }

  function Extended(p: Trail, ks: seq<nat>): seq<Trail> {
    seq(|ks|, i requires 0 <= i < |ks| => p + [ks[i]])
  }

  lemma ReachedOnward(w: World, init: seq<Item>, p: Trail, item: Item, k: nat)
    requires p != [] && Reached(w, init, p) == Some(item)
    ensures Reached(w, init, p + [k]) == Exit(w, item, k)
  {
    hide Exit;
    assert Front(p + [k]) == p;
  }

  lemma OnwardIsCandidate(w: World, init: seq<Item>, p: Trail, item: Item, k: nat)
    requires p != [] && First(w, init, p) && Reached(w, init, p) == Some(item) && Exit(w, item, k).Some?
    ensures Candidate(w, init, p + [k])
  {
    hide Exit, Before, KeyAt;
    ReachedOnward(w, init, p, item, k);
    assert Front(p + [k]) == p;
  }

  lemma CandidateIsNonEmpty(w: World, init: seq<Item>, p: Trail)
    requires Candidate(w, init, p)
    ensures p != []
  {
    hide First;
  }

  lemma VisitTracksQueue(w: World, init: seq<Item>, queue: seq<Item>, pending: seq<Trail>, added: seq<Item>,
                         ks: seq<nat>)
    requires QueueTracks(w, init, queue, pending) && pending != [] && First(w, init, pending[0])
    requires Matches(w, queue[0], added, ks)
    ensures QueueTracks(w, init, queue[1..] + added, pending[1..] + Extended(pending[0], ks))
  {
    hide Exit, Before, KeyAt, First, Reached, Candidate;
    CandidateIsNonEmpty(w, init, pending[0]);
    forall i | 0 <= i < |ks|
      ensures Candidate(w, init, Extended(pending[0], ks)[i])
              && Reached(w, init, Extended(pending[0], ks)[i]) == Some(added[i])
    {
      ReachedOnward(w, init, pending[0], queue[0], ks[i]);
      OnwardIsCandidate(w, init, pending[0], queue[0], ks[i]);
    }
  }

  lemma PendingPrecedeOnward(taken: set<Trail>, pending: seq<Trail>, x: Trail, k: nat)
    requires Ordered(taken, pending) && pending != [] && pending[0] != [] && x in pending && x != []
    ensures Before(x, pending[0] + [k])
  {
    hide Before;
    if |x| > 1 {
      var i :| 0 <= i < |pending| && pending[i] == x;
      BeforeExtends(Front(x), pending[0], Last(x), k);
      assert Front(x) + [Last(x)] == x;
    } else {
      ShorterIsBefore(x, pending[0] + [k]);
    }
  }

  lemma VisitKeepsOrder(taken: set<Trail>, pending: seq<Trail>, ks: seq<nat>)
    requires Ordered(taken, pending) && pending != [] && (forall x | x in pending :: x != []) && Increasing(ks)
    ensures Ordered(taken + {pending[0]}, pending[1..] + Extended(pending[0], ks))
  {
    hide Before;
    var p, onward := pending[0], Extended(pending[0], ks);
    assert p in pending;
    forall i | 0 <= i < |onward| ensures |onward[i]| > 1 && Front(onward[i]) == p && Before(p, onward[i]) {
      ShorterIsBefore(p, onward[i]);
    }
    forall i, j | 0 <= i < j < |onward| ensures Before(onward[i], onward[j]) {
      BeforeExtends(p, p, ks[i], ks[j]);
    }
    forall x, j | x in pending[1..] && 0 <= j < |onward| ensures Before(x, onward[j]) {
      assert pending == [p] + pending[1..];
      PendingPrecedeOnward(taken, pending, x, ks[j]);
    }
    forall q, j | q in taken && 0 <= j < |onward| ensures Before(q, onward[j]) {
      BeforeTransitive(q, p, onward[j]);
    }
    VisitKeepsOrderOf(taken, pending, onward);
  }

  /** Appending trails that come later. */
  lemma VisitKeepsOrderOf(taken: set<Trail>, pending: seq<Trail>, onward: seq<Trail>)
    requires Ordered(taken, pending) && pending != []
    requires forall i | 0 <= i < |onward| ::
             |onward[i]| > 1 && Front(onward[i]) == pending[0] && Before(pending[0], onward[i])
    requires forall i, j | 0 <= i < j < |onward| :: Before(onward[i], onward[j])
    requires forall x, j | x in pending[1..] && 0 <= j < |onward| :: Before(x, onward[j])
    requires forall q, j | q in taken && 0 <= j < |onward| :: Before(q, onward[j])
    ensures Ordered(taken + {pending[0]}, pending[1..] + onward)
  {
    hide Before;
    var after := pending[1..] + onward;
    forall i, j | 0 <= i < j < |after| ensures Before(after[i], after[j]) {
      if i < |pending| - 1 {
        assert after[i] == pending[i + 1] && after[i] in pending[1..];
      }
    }
  }

  /** Every candidate that goes on from a trail is among those its visit queues. */
  lemma OnwardIsQueued(w: World, init: seq<Item>, p: Trail, item: Item, q: Trail)
    requires p != [] && Reached(w, init, p) == Some(item)
    requires |q| > 1 && Front(q) == p && Candidate(w, init, q)
    ensures q in Extended(p, Exits(w, item, 0))
  {
    hide KeyAt, Exit, Exits, Before;
    var ks := Exits(w, item, 0);
    ExitsAre(w, item, 0);
    FrontAndLast(q);
    ReachedOnward(w, init, p, item, Last(q));
    var i :| 0 <= i < |ks| && ks[i] == Last(q);
    assert Extended(p, ks)[i] == q;
  }

  lemma VisitMissesNone(w: World, init: seq<Item>, taken: set<Trail>, pending: seq<Trail>, item: Item)
    requires NoneMissed(w, init, taken, pending) && pending != [] && Candidate(w, init, pending[0])
    requires Reached(w, init, pending[0]) == Some(item)
    ensures NoneMissed(w, init, taken + {pending[0]}, pending[1..] + Extended(pending[0], Exits(w, item, 0)))
  {
    hide Before, KeyAt, Exits, Reached, Candidate, Extended;
    var p := pending[0];
    CandidateIsNonEmpty(w, init, p);
    forall q | Candidate(w, init, q) && |q| > 1 && Front(q) == p ensures q in Extended(p, Exits(w, item, 0)) {
      OnwardIsQueued(w, init, p, item, q);
    }
    assert pending == [p] + pending[1..];
  }

  lemma VisitTracksProcessed(w: World, init: seq<Item>, processed: seq<Item>, taken: set<Trail>, p: Trail, item: Item)
    requires ProcessedTracks(w, init, processed, taken) && First(w, init, p) && Reached(w, init, p) == Some(item)
    ensures ProcessedTracks(w, init, processed + [item], taken + {p})
  {
    hide First, Reached;
    forall x ensures x in processed + [item] <==> exists q :: IsFirstOf(w, init, taken + {p}, q, x) {
      if x in processed {
        var q :| IsFirstOf(w, init, taken, q, x);
        assert IsFirstOf(w, init, taken + {p}, q, x);
      } else if x == item {
        assert IsFirstOf(w, init, taken + {p}, p, x);
      }
      if q :| IsFirstOf(w, init, taken + {p}, q, x) {
        if q != p {
          assert IsFirstOf(w, init, taken, q, x);
        }
      }
    }
  }

  /** The item at the end of a first trail is visited, and what it leads to is queued in the order of trails. */
  lemma Take(w: World, maxFiles: int, init: seq<Item>, s: State, taken: set<Trail>, pending: seq<Trail>)
    returns (pending': seq<Trail>)
    requires Tracks(w, init, s, taken, pending) && pending != [] && First(w, init, pending[0])
    requires Step(w, maxFiles, s).Next?
    ensures Tracks(w, init, Step(w, maxFiles, s).state, taken + {pending[0]}, pending')
  {
    hide Before, Reached, First, Candidate, KeyAt, Visit, Ordered, NoneMissed, VisitedTracks, ProcessedTracks, Exits,
         RefersBack;
    var p, item := pending[0], s.queue[0];
    UnvisitedIsFirst(w, init, s, taken, pending);
    KeyIsOfItem(w, init, p, item);
    var visiting := s.(queue := s.queue[1..], visited := s.visited + {VisitKeyOf(item.node)},
        processed := s.processed + [item]);
    var added := VisitQueues(w, maxFiles, visiting, item);
    var ks := Exits(w, item, 0);
    ExitsAre(w, item, 0);
    pending' := pending[1..] + Extended(p, ks);
    VisitTracksQueue(w, init, s.queue, pending, added, ks);
    forall x | x in pending ensures x != [] {
      CandidateIsNonEmpty(w, init, x);
    }
    VisitKeepsOrder(taken, pending, ks);
    VisitMissesNone(w, init, taken, pending, item);
    TakeVisited(w, init, s.visited, taken, p, VisitKeyOf(item.node));
    VisitTracksProcessed(w, init, s.processed, taken, p, item);
  }

  // ---------------------------------------------------------------- the whole run

  lemma StartTracks(w: World, init: seq<Item>)
    ensures Tracks(w, init, Start(init), {}, seq(|init|, i requires 0 <= i < |init| => [i]))
  {
    hide KeyAt, Before;
    var pending: seq<Trail> := seq(|init|, i requires 0 <= i < |init| => [i]);
    forall q | Candidate(w, init, q) ensures |q| > 1 || q in pending {
      CandidateIsNonEmpty(w, init, q);
      if |q| == 1 {
        assert q == [q[0]] == pending[q[0]];
      }
    }
    forall i, j | 0 <= i < j < |pending| ensures Before(pending[i], pending[j]) {
      SinglesInOrder(i, j);
    }
  }

  lemma SinglesInOrder(i: nat, j: nat)
    requires i < j
    ensures Before([i], [j])
  {
    assert Front([i]) == [] && Front([j]) == [];
  }

  /** The first trail t ends at an item whose reference e is refused as cyclic. */
  ghost predicate RefersBackOn(w: World, init: seq<Item>, t: Trail, e: Edge) {
    First(w, init, t) && Reached(w, init, t).Some? && RefersBack(w, Reached(w, init, t).value, e)
  }

  lemma {:induction false} FollowRefuses(w: World, item: Item, edges: seq<Edge>)
    requires FollowAll(w, item, edges).Err? && FollowAll(w, item, edges).error.CyclicReference?
    ensures exists e | e in edges ::
              && e.To? && e.key != item.node.key && e.key in item.lineage && !IsRest(item.node.key) && !IsRest(e.key)
              && FollowAll(w, item, edges).error == CyclicReference(item.node.key, e.key)
  {
    hide IsRest;
    if Follow(w, item, edges[0]).Ok? {
      FollowRefuses(w, item, edges[1..]);
      assert forall e | e in edges[1..] :: e in edges;
    } else {
      assert edges[0] in edges;
    }
  }

  lemma {:induction false} ChildrenErrors(item: Item, entries: seq<Entry>)
    ensures Children(item, entries).Err? ==> Children(item, entries).error.Symlink?
  {
    if entries != [] {
      ChildrenErrors(item, entries[1..]);
    }
  }

  lemma AddFileErrors(inv: Inventory, maxFiles: int, item: Item, checksum: string)
    ensures AddFile(inv, maxFiles, item, checksum).Err? ==>
            !AddFile(inv, maxFiles, item, checksum).error.CyclicReference?
  {
  }

  lemma VisitRefuses(w: World, maxFiles: int, s: State, item: Item) returns (e: Edge)
    requires Visit(w, maxFiles, s, item).Failed? && Visit(w, maxFiles, s, item).error.CyclicReference?
    ensures RefersBack(w, item, e) && Visit(w, maxFiles, s, item).error == CyclicReference(item.node.key, e.key)
  {
    hide FollowAll, IsRest, AddFile;
    match w.disk(item.node.key)
    case Directory(entries) => ChildrenErrors(item, entries);
    case File(checksum) =>
      AddFileErrors(Inventory(s.files, s.packages), maxFiles, item, checksum);
      FollowRefuses(w, item, Read(w, item.node));
      e :| e in Read(w, item.node) && e.To? && e.key != item.node.key && e.key in item.lineage
           && !IsRest(item.node.key) && !IsRest(e.key)
           && FollowAll(w, item, Read(w, item.node)).error == CyclicReference(item.node.key, e.key);
  }

  /** Step by step the run takes the trails in their order; it ends with all taken, or at the first refusal. */
  lemma {:induction false} RunTracks(w: World, maxFiles: int, init: seq<Item>, s: State, taken: set<Trail>,
                                     pending: seq<Trail>)
    returns (taken': set<Trail>)
    requires Tracks(w, init, s, taken, pending)
    ensures match Run(w, maxFiles, s)
            case Ok(s') => Tracks(w, init, s', taken', [])
            case Err(CyclicReference(from, target)) =>
              exists t, e :: RefersBackOn(w, init, t, e) && Reached(w, init, t).value.node.key == from
                  && e.key == target
            case Err(_) => true
    decreases maxFiles * 16 - |s.visited|, |s.queue|
  {
    hide Tracks, Visit, First, Reached, RefersBack, VisitKeyOf;
    taken' := taken;
    TracksQueue(w, init, s, taken, pending);
    if s.queue == [] {
      assert pending == [];
    } else {
      OnlyEmptyEnds(w, maxFiles, s);
      UnvisitedIsFirst(w, init, s, taken, pending);
      match Step(w, maxFiles, s)
      case Next(s') =>
        StepDescends(w, maxFiles, s);
        if First(w, init, pending[0]) {
          var pending' := Take(w, maxFiles, init, s, taken, pending);
          taken' := RunTracks(w, maxFiles, init, s', taken + {pending[0]}, pending');
        } else {
          Skip(w, init, s, taken, pending);
          taken' := RunTracks(w, maxFiles, init, s', taken + {pending[0]}, pending[1..]);
        }
      case Failed(error) =>
        if error.CyclicReference? {
          var item := s.queue[0];
          var visiting := s.(queue := s.queue[1..], visited := s.visited + {VisitKeyOf(item.node)},
              processed := s.processed + [item]);
          var e := VisitRefuses(w, maxFiles, visiting, item);
          assert RefersBackOn(w, init, pending[0], e);
        }
    }
  }

  lemma OnlyEmptyEnds(w: World, maxFiles: int, s: State)
    ensures Step(w, maxFiles, s).Finished? <==> s.queue == []
  {
  }

  lemma TracksQueue(w: World, init: seq<Item>, s: State, taken: set<Trail>, pending: seq<Trail>)
    requires Tracks(w, init, s, taken, pending)
    ensures |pending| == |s.queue|
    ensures s.queue != [] ==> Reached(w, init, pending[0]) == Some(s.queue[0])
  {
    hide Reached, Candidate;
  }

  /** The items a successful run processed are exactly the ends of first trails, with the lineages these gather. */
  lemma ProcessedOnFirstTrails(w: World, maxFiles: int, init: seq<Item>, item: Item)
    requires Run(w, maxFiles, Start(init)).Ok?
    ensures item in Run(w, maxFiles, Start(init)).value.processed <==>
            exists t :: EndsFirst(w, init, t, item)
  {
    hide Run, First, Reached, NoneRefersBack, VisitedTracks, Candidate, Before;
    StartTracks(w, init);
    var taken := RunTracks(w, maxFiles, init, Start(init), {}, seq(|init|, i requires 0 <= i < |init| => [i]));
    var s := Run(w, maxFiles, Start(init)).value;
    if t :| EndsFirst(w, init, t, item) {
      FirstIsTaken(w, init, taken, t);
      assert IsFirstOf(w, init, taken, t, item);
    }
    if item in s.processed {
      var t :| IsFirstOf(w, init, taken, t, item);
    }
  }

  lemma FirstIsTaken(w: World, init: seq<Item>, taken: set<Trail>, t: Trail)
    requires Ordered(taken, []) && NoneMissed(w, init, taken, []) && First(w, init, t)
    ensures t in taken
  {
    hide Before, KeyAt, Reached;
    if t !in taken {
      RestIsLater(w, init, taken, [], t);
    }
  }

  /** A run visits exactly what some first trail reaches. */
  lemma VisitedOnFirstTrails(w: World, maxFiles: int, init: seq<Item>, k: VisitKey)
    requires maxFiles >= 0 && Run(w, maxFiles, Start(init)).Ok?
    ensures k in Run(w, maxFiles, Start(init)).value.visited <==>
            exists t :: First(w, init, t) && KeyAt(w, init, t) == Some(k)
  {
    hide Run, First, Reached, InventoryAgrees, NothingLost, OnlyClosure, VisitKeyOf;
    StartIsKept(w, maxFiles, init);
    RunKeeps(w, maxFiles, init, Start(init));
    var s := Run(w, maxFiles, Start(init)).value;
    if k in s.visited {
      var i :| 0 <= i < |s.processed| && VisitKeyOf(s.processed[i].node) == k;
      ProcessedOnFirstTrails(w, maxFiles, init, s.processed[i]);
      var t :| EndsFirst(w, init, t, s.processed[i]);
      FirstReaches(w, init, t);
    }
    if t :| First(w, init, t) && KeyAt(w, init, t) == Some(k) {
      FirstReaches(w, init, t);
      var item := Reached(w, init, t).value;
      ProcessedOnFirstTrails(w, maxFiles, init, item);
      assert EndsFirst(w, init, t, item);
      assert item in s.processed;
    }
  }

  /** Nothing a successful run processed refers back. */
  lemma SuccessRefersBackNowhere(w: World, maxFiles: int, init: seq<Item>, t: Trail, e: Edge)
    requires Run(w, maxFiles, Start(init)).Ok?
    ensures !RefersBackOn(w, init, t, e)
  {
    hide Run, First, Reached, VisitedTracks, Candidate, Before, RefersBack;
    StartTracks(w, init);
    var taken := RunTracks(w, maxFiles, init, Start(init), {}, seq(|init|, i requires 0 <= i < |init| => [i]));
    if First(w, init, t) && Reached(w, init, t).Some? {
      FirstIsTaken(w, init, taken, t);
      assert IsFirstOf(w, init, taken, t, Reached(w, init, t).value);
    }
  }

  /** A refusal as cyclic names a reference back to the lineage of a first trail, neither end of it a REST source. */
  lemma CyclicErrorIsOnLineage(w: World, maxFiles: int, init: seq<Item>)
    requires Run(w, maxFiles, Start(init)).Err? && Run(w, maxFiles, Start(init)).error.CyclicReference?
    ensures exists t, e :: RefersBackOn(w, init, t, e) &&
              Run(w, maxFiles, Start(init)).error == CyclicReference(Reached(w, init, t).value.node.key, e.key)
  {
    hide Run, RefersBackOn, Reached, Tracks;
    StartTracks(w, init);
    var taken := RunTracks(w, maxFiles, init, Start(init), {}, seq(|init|, i requires 0 <= i < |init| => [i]));
  }

  /**
   A run that meets no other error is refused as cyclic exactly when some source
   refers to another one on the lineage of its own first trail, neither of them a
   REST source.
   */
  lemma RefusedExactly(w: World, maxFiles: int, init: seq<Item>)
    requires Run(w, maxFiles, Start(init)).Err? ==> Run(w, maxFiles, Start(init)).error.CyclicReference?
    ensures Run(w, maxFiles, Start(init)).Err? <==> exists t, e :: RefersBackOn(w, init, t, e)
  {
    hide Run, RefersBackOn;
    if Run(w, maxFiles, Start(init)).Err? {
      CyclicErrorIsOnLineage(w, maxFiles, init);
    } else {
      forall t, e ensures !RefersBackOn(w, init, t, e) {
        SuccessRefersBackNowhere(w, maxFiles, init, t, e);
      }
    }
  }
}
