/**
 The trail each visited source is first reached on, defined without the worklist.
 A trail is the sequence of choices made on it: which start, then at every step
 which entry of the directory or which reference of the file. Fewer steps come
 first, then earlier choices.
 */
module ClosureTrails {
  import opened Wrappers
  import opened ClosureWorld
  import opened Closure

  type Trail = seq<nat>

  function Front(t: Trail): Trail
    requires t != []
  {
    t[..|t| - 1]
  }

  function Last(t: Trail): nat
    requires t != []
  {
    t[|t| - 1]
  }

  // ---------------------------------------------------------------- the order of trails

  predicate Before(a: Trail, b: Trail) {
    || |a| < |b|
    || (|a| == |b| && a != [] && (Before(Front(a), Front(b)) || (Front(a) == Front(b) && Last(a) < Last(b))))
  }

  lemma {:induction false} BeforeIrreflexive(a: Trail)
    ensures !Before(a, a)
  {
    if a != [] {
      BeforeIrreflexive(Front(a));
    }
  }

  lemma {:induction false} BeforeTransitive(a: Trail, b: Trail, c: Trail)
    requires Before(a, b) && Before(b, c)
    ensures Before(a, c)
  {
    if |a| == |b| == |c| && Before(Front(a), Front(b)) && Before(Front(b), Front(c)) {
      BeforeTransitive(Front(a), Front(b), Front(c));
    }
  }

  lemma NotBoth(q: Trail, p: Trail)
    ensures !(Before(q, p) && (q == p || Before(p, q)))
  {
    BeforeIrreflexive(p);
    if Before(q, p) && Before(p, q) {
      BeforeTransitive(p, q, p);
    }
  }

  lemma {:induction false} BeforeTotal(a: Trail, b: Trail)
    ensures Before(a, b) || Before(b, a) || a == b
  {
    if |a| == |b| && a != [] {
      BeforeTotal(Front(a), Front(b));
      assert a == Front(a) + [Last(a)] && b == Front(b) + [Last(b)];
    }
  }

  /** Going on from an earlier trail comes before going on from a later one. */
  lemma BeforeExtends(a: Trail, b: Trail, j: nat, k: nat)
    requires Before(a, b) || (a == b && j < k)
    ensures Before(a + [j], b + [k])
  {
    assert Front(a + [j]) == a && Front(b + [k]) == b;
  }

  lemma {:induction false} LeastNat(ns: iset<nat>, n: nat) returns (least: nat)
    requires n in ns
    ensures least in ns && forall k | k in ns :: least <= k
    decreases n
  {
    if k: nat :| k in ns && k < n {
      least := LeastNat(ns, k);
    } else {
      least := n;
    }
  }

  lemma FrontAndLast(t: Trail)
    requires t != []
    ensures t == Front(t) + [Last(t)]
  {
  }

  ghost function Fronts(ts: iset<Trail>): iset<Trail> {
    iset x | x in ts && x != [] :: Front(x)
  }

  ghost function LastsBehind(ts: iset<Trail>, front: Trail): iset<nat> {
    iset x | x in ts && x != [] && Front(x) == front :: Last(x)
  }

  /** Among trails with an earliest front, the earliest is the one that goes on with the least choice. */
  lemma EarliestGoesOn(ts: iset<Trail>, front: Trail, last: nat, x: Trail)
    requires forall f | f in Fronts(ts) :: f == front || Before(front, f)
    requires forall k | k in LastsBehind(ts, front) :: last <= k
    requires x in ts && x != []
    ensures x == front + [last] || Before(front + [last], x)
  {
    hide Before;
    assert Front(x) in Fronts(ts);
    FrontAndLast(x);
    if Front(x) == front {
      assert Last(x) in LastsBehind(ts, front);
    }
    if x != front + [last] {
      BeforeExtends(front, Front(x), last, Last(x));
    }
  }

  /** Trails of one length have an earliest one among them. */
  lemma {:induction false} LeastOfLength(ts: iset<Trail>, t: Trail) returns (least: Trail)
    requires t in ts && forall x | x in ts :: |x| == |t|
    ensures least in ts && forall x | x in ts :: x == least || Before(least, x)
    decreases |t|
  {
    hide Before;
    if t == [] {
      least := t;
    } else {
      assert Front(t) in Fronts(ts);
      var front := LeastOfLength(Fronts(ts), Front(t));
      var some :| some in ts && some != [] && Front(some) == front;
      assert Last(some) in LastsBehind(ts, front);
      var last := LeastNat(LastsBehind(ts, front), Last(some));
      least :| least in ts && least != [] && Front(least) == front && Last(least) == last;
      FrontAndLast(least);
      forall x | x in ts ensures x == least || Before(least, x) {
        EarliestGoesOn(ts, front, last, x);
      }
    }
  }

  /** The order of trails is well-founded. */
  lemma LeastTrail(ts: iset<Trail>, t: Trail) returns (least: Trail)
    requires t in ts
    ensures least in ts && forall x | x in ts :: x == least || Before(least, x)
  {
    hide Before;
    var lengths := iset x | x in ts :: |x|;
    assert |t| in lengths;
    var length := LeastNat(lengths, |t|);
    var shortest := iset x | x in ts && |x| == length;
    var some :| some in ts && |some| == length;
    least := LeastOfLength(shortest, some);
    forall x | x in ts ensures x == least || Before(least, x) {
      assert |x| in lengths;
      if |x| > length {
        ShorterIsBefore(least, x);
      }
    }
  }

  lemma ShorterIsBefore(a: Trail, b: Trail)
    requires |a| < |b|
    ensures Before(a, b)
  {
  }

  // ---------------------------------------------------------------- following a trail

  /** Where choice k leads from an item; a reference to the source itself or to one on the lineage leads nowhere. */
  function Exit(w: World, item: Item, k: nat): Option<Item> {
    match w.disk(item.node.key)
    case Broken => None
    case Directory(entries) => if k < |entries| then Some(ChildItem(item, entries[k])) else None
    case File(_) => if k < |Read(w, item.node)| then Target(w, item, Read(w, item.node)[k]) else None
  }

  function Target(w: World, item: Item, edge: Edge): Option<Item> {
    if edge.To? && edge.key != item.node.key && edge.key !in item.lineage then
      Some(Item(Node(edge.key, edge.runtime, item.node.root, false),
                w.packagePath(item.package, edge.reference), item.lineage + [edge.key]))
    else None
  }

  /** The item at the end of a trail, with the lineage it has gathered on the way. */
  function Reached(w: World, init: seq<Item>, t: Trail): Option<Item> {
    if t == [] then None
    else if |t| == 1 then if t[0] < |init| then Some(init[t[0]]) else None
    else
      match Reached(w, init, Front(t))
      case None => None
      case Some(item) => Exit(w, item, Last(t))
  }

  function KeyAt(w: World, init: seq<Item>, t: Trail): Option<VisitKey> {
    match Reached(w, init, t)
    case None => None
    case Some(item) => Some(VisitKeyOf(item.node))
  }

  /** A trail that goes one step on from a first trail. */
  ghost predicate Candidate(w: World, init: seq<Item>, t: Trail)
    decreases |t|, 0
  {
    Reached(w, init, t).Some? && (|t| > 1 ==> First(w, init, Front(t)))
  }

  /**
   The first trail to what it reaches, among those that go on from first trails.
   Only these count, because a source is read once, on the lineage of its first
   trail: a reference that a REST source makes back to that lineage is dropped
   there, although a later trail to the source might have left it open.
   */
  ghost predicate First(w: World, init: seq<Item>, t: Trail)
    decreases |t|, 1
  {
    && Candidate(w, init, t)
    && forall q | Before(q, t) && Candidate(w, init, q) :: KeyAt(w, init, q) != KeyAt(w, init, t)
  }

  /** What is reached at all is reached first on one trail only. */
  lemma FirstIsUnique(w: World, init: seq<Item>, a: Trail, b: Trail)
    requires First(w, init, a) && First(w, init, b) && KeyAt(w, init, a) == KeyAt(w, init, b)
    ensures a == b
  {
    hide Before, KeyAt, Reached;
    BeforeTotal(a, b);
  }

  /** No candidate reaches the same in fewer steps. */
  lemma FirstIsShortest(w: World, init: seq<Item>, a: Trail, b: Trail)
    requires First(w, init, a) && Candidate(w, init, b) && KeyAt(w, init, a) == KeyAt(w, init, b)
    ensures a == b || Before(a, b)
    ensures |a| <= |b|
  {
    hide KeyAt, Reached;
    BeforeTotal(a, b);
  }

  /** What a candidate reaches is reached by a first trail, no later. */
  lemma FirstExists(w: World, init: seq<Item>, c: Trail) returns (t: Trail)
    requires Candidate(w, init, c)
    ensures First(w, init, t) && KeyAt(w, init, t) == KeyAt(w, init, c)
    ensures t == c || Before(t, c)
  {
    hide Before, KeyAt, Reached;
    var same := iset q | Candidate(w, init, q) && KeyAt(w, init, q) == KeyAt(w, init, c);
    t := LeastTrail(same, c);
    forall q | Before(q, t) && Candidate(w, init, q) ensures KeyAt(w, init, q) != KeyAt(w, init, t) {
      NotBoth(q, t);
      assert q in same ==> q == t || Before(t, q);
    }
  }

  lemma FirstReaches(w: World, init: seq<Item>, t: Trail)
    requires First(w, init, t)
    ensures Reached(w, init, t).Some? && KeyAt(w, init, t) == Some(VisitKeyOf(Reached(w, init, t).value.node))
  {
    hide Reached, Before;
  }

  lemma {:induction false} FirstPrefix(w: World, init: seq<Item>, t: Trail, n: nat)
    requires First(w, init, t) && 0 < n <= |t|
    ensures First(w, init, t[..n])
  {
    if n < |t| {
      assert Front(t)[..n] == t[..n];
      FirstPrefix(w, init, Front(t), n);
    } else {
      assert t[..n] == t;
    }
  }

  // ---------------------------------------------------------------- what a visit queues

  function Width(w: World, item: Item): nat {
    match w.disk(item.node.key)
    case Broken => 0
    case Directory(entries) => |entries|
    case File(_) => |Read(w, item.node)|
  }

  /** The choices from k on that lead somewhere. */
  function Exits(w: World, item: Item, k: nat): seq<nat>
    requires k <= Width(w, item)
    decreases Width(w, item) - k
  {
    if k == Width(w, item) then []
    else (if Exit(w, item, k).Some? then [k] else []) + Exits(w, item, k + 1)
  }

  ghost predicate Increasing(ks: seq<nat>) {
    forall i, j | 0 <= i < j < |ks| :: ks[i] < ks[j]
  }

  lemma ExitIsWithin(w: World, item: Item, k: nat)
    ensures Exit(w, item, k).Some? ==> k < Width(w, item)
  {
  }

  lemma {:induction false} ExitsAre(w: World, item: Item, k: nat)
    requires k <= Width(w, item)
    ensures forall j | j in Exits(w, item, k) :: k <= j < Width(w, item) && Exit(w, item, j).Some?
    ensures forall j: nat | k <= j && Exit(w, item, j).Some? :: j in Exits(w, item, k)
    ensures Increasing(Exits(w, item, k))
    decreases Width(w, item) - k
  {
    hide Exit, Width;
    forall j: nat | k <= j && Exit(w, item, j).Some? ensures j < Width(w, item) {
      ExitIsWithin(w, item, j);
    }
    if k < Width(w, item) {
      var later := Exits(w, item, k + 1);
      ExitsAre(w, item, k + 1);
      assert forall i | 0 <= i < |later| :: later[i] in later;
    }
  }

  ghost predicate Matches(w: World, item: Item, added: seq<Item>, ks: seq<nat>) {
    |added| == |ks| && forall i | 0 <= i < |ks| :: Exit(w, item, ks[i]) == Some(added[i])
  }

  lemma {:induction false} ChildrenMatch(w: World, item: Item, entries: seq<Entry>, k: nat)
    requires w.disk(item.node.key) == Directory(entries) && k <= |entries| && Children(item, entries[k..]).Ok?
    ensures Matches(w, item, Children(item, entries[k..]).value, Exits(w, item, k))
    decreases |entries| - k
  {
    if k < |entries| {
      assert entries[k..][1..] == entries[k + 1..];
      ChildrenMatch(w, item, entries, k + 1);
    }
  }

  lemma {:induction false} FollowedMatch(w: World, item: Item, k: nat)
    requires w.disk(item.node.key).File? && k <= |Read(w, item.node)| && FollowAll(w, item, Read(w, item.node)[k..]).Ok?
    ensures Matches(w, item, FollowAll(w, item, Read(w, item.node)[k..]).value, Exits(w, item, k))
    decreases |Read(w, item.node)| - k
  {
    hide Read, IsRest;
    var edges := Read(w, item.node);
    if k < |edges| {
      assert edges[k..][1..] == edges[k + 1..];
      FollowedMatch(w, item, k + 1);
    }
  }
}
