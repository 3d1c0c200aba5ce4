/**
 Why a closure run is refused: every error has its cause among the ends of first
 trails, and a run that ends well has met none of them.
 */
module ClosureRefusals {
  import opened Wrappers
  import opened ClosureWorld
  import opened Closure
  import opened ClosureExact
  import opened ClosureTrails
  import opened ClosureFirst

  /** The item stands at the end of a first trail. */
  ghost predicate Stands(w: World, init: seq<Item>, item: Item) {
    exists t :: EndsFirst(w, init, t, item)
  }

  ghost predicate StandsOnFile(w: World, init: seq<Item>, item: Item) {
    Stands(w, init, item) && w.disk(item.node.key).File?
  }

  /** What in the sources calls for an error. */
  ghost predicate Cause(w: World, maxFiles: int, init: seq<Item>, error: ClosureError) {
    match error
    case WorkLimit =>
      exists keys: set<VisitKey> ::
        && |keys| >= maxFiles * 16
        && forall k | k in keys :: exists item :: Stands(w, init, item) && VisitKeyOf(item.node) == k
    case BrokenSource(key) => exists item :: Stands(w, init, item) && item.node.key == key && w.disk(key).Broken?
    case Symlink(key) => exists item :: Stands(w, init, item) && item.node.key == key && HasSymlink(w.disk(key))
    case ConflictingDestination(runtime) =>
      exists a, b :: StandsOnFile(w, init, a) && StandsOnFile(w, init, b) && ClashAt(w, a, b, runtime)
    case TooManyFiles =>
      exists paths: set<string> ::
        && |paths| > maxFiles
        && forall r | r in paths :: exists item :: StandsOnFile(w, init, item) && item.node.runtime == r
    case ConflictingPackage(package) =>
      exists a, b :: StandsOnFile(w, init, a) && StandsOnFile(w, init, b) && ClashIn(w, a, b, package)
    case UnresolvedReference(key) =>
      exists item :: Stands(w, init, item) && item.node.key == key && Unresolvable in Read(w, item.node)
    case CyclicReference(from, target) =>
      exists item, e :: Stands(w, init, item) && item.node.key == from && RefersBack(w, item, e) && e.key == target
  }

  /** Two files for one destination that differ in what they hold or where they are packaged. */
  predicate ClashAt(w: World, a: Item, b: Item, runtime: string)
    requires w.disk(a.node.key).File? && w.disk(b.node.key).File?
  {
    && a.node.runtime == b.node.runtime == runtime
    && (w.disk(a.node.key).checksum != w.disk(b.node.key).checksum || a.package != b.package)
  }

  /** Two files packaged under one path that differ in what they hold or where they go. */
  predicate ClashIn(w: World, a: Item, b: Item, package: string)
    requires w.disk(a.node.key).File? && w.disk(b.node.key).File?
  {
    && a.package == b.package == package
    && (w.disk(a.node.key).checksum != w.disk(b.node.key).checksum || a.node.runtime != b.node.runtime)
  }

  // ---------------------------------------------------------------- every error has its cause

  /** The state a refused run was in when it met the error. */
  lemma {:induction false} StoppedAt(w: World, maxFiles: int, init: seq<Item>, s: State, taken: set<Trail>,
                                     pending: seq<Trail>)
    returns (s': State, taken': set<Trail>, pending': seq<Trail>)
    requires Tracks(w, init, s, taken, pending) && Kept(w, maxFiles, init, s) && Run(w, maxFiles, s).Err?
    ensures Tracks(w, init, s', taken', pending') && Kept(w, maxFiles, init, s')
    ensures Step(w, maxFiles, s') == Failed(Run(w, maxFiles, s).error)
    decreases maxFiles * 16 - |s.visited|, |s.queue|
  {
    hide Tracks, Visit, First, Reached, VisitKeyOf, VisitedAgrees, OnlyClosure, NothingLost, InventoryAgrees,
         StartNodes;
    hide Step;
    if Step(w, maxFiles, s).Failed? {
      return s, taken, pending;
    }
    TracksQueue(w, init, s, taken, pending);
    OnlyEmptyEnds(w, maxFiles, s);
    UnvisitedIsFirst(w, init, s, taken, pending);
    StepDescends(w, maxFiles, s);
    KeepVisited(w, maxFiles, s);
    KeepOnlyClosure(w, maxFiles, StartNodes(init), s);
    KeepNothingLost(w, maxFiles, init, s);
    KeepInventory(w, maxFiles, s);
    var next := Step(w, maxFiles, s).state;
    if First(w, init, pending[0]) {
      var onward := Take(w, maxFiles, init, s, taken, pending);
      s', taken', pending' := StoppedAt(w, maxFiles, init, next, taken + {pending[0]}, onward);
    } else {
      Skip(w, init, s, taken, pending);
      SkipSteps(w, maxFiles, s);
      s', taken', pending' := StoppedAt(w, maxFiles, init, next, taken + {pending[0]}, pending[1..]);
    }
  }

  lemma SkipSteps(w: World, maxFiles: int, s: State)
    requires Step(w, maxFiles, s).Next? && VisitKeyOf(s.queue[0].node) in s.visited
    ensures Step(w, maxFiles, s).state == s.(queue := s.queue[1..])
  {
  }

  /** Processed items stand at the ends of first trails, and so does the one that is visited next. */
  lemma ProcessedStand(w: World, init: seq<Item>, s: State, taken: set<Trail>, pending: seq<Trail>)
    requires Tracks(w, init, s, taken, pending)
    ensures forall item | item in s.processed :: Stands(w, init, item)
    ensures s.queue != [] && VisitKeyOf(s.queue[0].node) !in s.visited ==> Stands(w, init, s.queue[0])
  {
    hide First, Reached, Before, Ordered, NoneMissed, VisitedTracks, NoneRefersBack, Candidate;
    forall item | item in s.processed ensures Stands(w, init, item) {
      var q :| IsFirstOf(w, init, taken, q, item);
    }
    if s.queue != [] && VisitKeyOf(s.queue[0].node) !in s.visited {
      UnvisitedIsFirst(w, init, s, taken, pending);
      assert EndsFirst(w, init, pending[0], s.queue[0]);
    }
  }

  lemma {:induction false} ChildrenRefused(item: Item, entries: seq<Entry>)
    requires Children(item, entries).Err?
    ensures Children(item, entries).error == Symlink(item.node.key) && exists e :: e in entries && e.symlink
  {
    if !entries[0].symlink {
      ChildrenRefused(item, entries[1..]);
    }
  }

  lemma {:induction false} FollowingRefused(w: World, item: Item, edges: seq<Edge>) returns (e: Edge)
    requires FollowAll(w, item, edges).Err?
    ensures e in edges && Follow(w, item, e) == Err(FollowAll(w, item, edges).error)
  {
    hide Follow;
    e := edges[0];
    if Follow(w, item, e).Ok? {
      e := FollowingRefused(w, item, edges[1..]);
    }
  }

  lemma AgainRefused(w: World, maxFiles: int, init: seq<Item>, s: State, item: Item)
    requires InventoryAgrees(w, maxFiles, s) && forall x | x in s.processed :: Stands(w, init, x)
    requires StandsOnFile(w, init, item) && item.node.runtime in s.files
    requires AddAgain(Inventory(s.files, s.packages), item, w.disk(item.node.key).checksum).Err?
    ensures Cause(w, maxFiles, init, ConflictingDestination(item.node.runtime))
  {
    hide Stands, OneToOne, FilesAgree;
    var i := FileHasItem(w, Inventory(s.files, s.packages), s.processed, item.node.runtime);
    assert StandsOnFile(w, init, s.processed[i]);
    assert ClashAt(w, s.processed[i], item, item.node.runtime);
  }

  lemma OneMoreKey<V>(m: map<string, V>, key: string)
    requires key !in m
    ensures |m.Keys + {key}| == |m| + 1
  {
    assert |m| == |m.Keys|;
  }

  lemma FilesAreMany(w: World, maxFiles: int, init: seq<Item>, s: State, item: Item)
    requires InventoryAgrees(w, maxFiles, s) && forall x | x in s.processed :: Stands(w, init, x)
    requires StandsOnFile(w, init, item) && item.node.runtime !in s.files && |s.files| >= maxFiles
    ensures Cause(w, maxFiles, init, TooManyFiles)
  {
    hide Stands, OneToOne, FilesAgree;
    var paths := s.files.Keys + {item.node.runtime};
    OneMoreKey(s.files, item.node.runtime);
    forall q | q in paths ensures exists x :: StandsOnFile(w, init, x) && x.node.runtime == q {
      if q in s.files {
        var i := FileHasItem(w, Inventory(s.files, s.packages), s.processed, q);
        assert StandsOnFile(w, init, s.processed[i]);
      }
    }
  }

  lemma PackageRefused(w: World, maxFiles: int, init: seq<Item>, s: State, item: Item)
    requires InventoryAgrees(w, maxFiles, s) && forall x | x in s.processed :: Stands(w, init, x)
    requires StandsOnFile(w, init, item) && item.package in s.packages
    requires var previous := s.packages[item.package];
             previous.runtime != item.node.runtime || previous.checksum != w.disk(item.node.key).checksum
    ensures Cause(w, maxFiles, init, ConflictingPackage(item.package))
  {
    hide Stands, OneToOne, FilesAgree;
    var inv := Inventory(s.files, s.packages);
    PackageIsListed(inv, item.package);
    var i := FileHasItem(w, inv, s.processed, s.packages[item.package].runtime);
    assert StandsOnFile(w, init, s.processed[i]);
    assert ClashIn(w, s.processed[i], item, item.package);
  }

  /** The cause of an error met in adding a file. */
  lemma AddRefused(w: World, maxFiles: int, init: seq<Item>, s: State, item: Item)
    requires InventoryAgrees(w, maxFiles, s) && forall x | x in s.processed :: Stands(w, init, x)
    requires StandsOnFile(w, init, item)
    requires AddFile(Inventory(s.files, s.packages), maxFiles, item, w.disk(item.node.key).checksum).Err?
    ensures Cause(w, maxFiles, init,
                  AddFile(Inventory(s.files, s.packages), maxFiles, item, w.disk(item.node.key).checksum).error)
  {
    hide Stands, NewFile, InventoryAgrees, Cause, StandsOnFile;
    if item.node.runtime in s.files {
      AgainRefused(w, maxFiles, init, s, item);
    } else if |s.files| >= maxFiles {
      FilesAreMany(w, maxFiles, init, s, item);
    } else {
      PackageRefused(w, maxFiles, init, s, item);
    }
  }

  lemma PackageIsListed(inv: Inventory, package: string)
    requires OneToOne(inv) && package in inv.packages
    ensures inv.packages[package].runtime in inv.files
    ensures inv.files[inv.packages[package].runtime].package == package
    ensures inv.files[inv.packages[package].runtime].checksum == inv.packages[package].checksum
  {
  }

  lemma VisitRefused(w: World, maxFiles: int, init: seq<Item>, s: State, visiting: State, item: Item)
    requires InventoryAgrees(w, maxFiles, s) && forall x | x in s.processed :: Stands(w, init, x)
    requires visiting.files == s.files && visiting.packages == s.packages && Stands(w, init, item)
    requires Visit(w, maxFiles, visiting, item).Failed?
    ensures Cause(w, maxFiles, init, Visit(w, maxFiles, visiting, item).error)
  {
    hide Stands, InventoryAgrees, AddFile, Children, FollowAll, IsRest;
    match w.disk(item.node.key)
    case Broken =>
    case Directory(entries) => ChildrenRefused(item, entries);
    case File(checksum) =>
      if AddFile(Inventory(s.files, s.packages), maxFiles, item, checksum).Err? {
        AddRefused(w, maxFiles, init, s, item);
      } else {
        var e := FollowingRefused(w, item, Read(w, item.node));
        assert e.To? ==> RefersBack(w, item, e);
      }
  }

  /** Whatever a run is refused for is so. */
  lemma RefusalHasCause(w: World, maxFiles: int, init: seq<Item>)
    requires maxFiles >= 0 && Run(w, maxFiles, Start(init)).Err?
    ensures Cause(w, maxFiles, init, Run(w, maxFiles, Start(init)).error)
  {
    hide Run, Tracks, Visit, Stands, VisitKeyOf, VisitedAgrees, OnlyClosure, NothingLost, InventoryAgrees, StartNodes;
    hide Cause;
    StartTracks(w, init);
    StartIsKept(w, maxFiles, init);
    var s, taken, pending := StoppedAt(w, maxFiles, init, Start(init), {},
        seq(|init|, i requires 0 <= i < |init| => [i]));
    ProcessedStand(w, init, s, taken, pending);
    if |s.visited| >= maxFiles * 16 {
      VisitedAreMany(w, maxFiles, init, s);
    } else {
      var item := s.queue[0];
      var visiting := s.(queue := s.queue[1..], visited := s.visited + {VisitKeyOf(item.node)},
                         processed := s.processed + [item]);
      VisitRefused(w, maxFiles, init, s, visiting, item);
    }
  }

  lemma VisitedAreMany(w: World, maxFiles: int, init: seq<Item>, s: State)
    requires VisitedAgrees(s) && |s.visited| >= maxFiles * 16 && forall x | x in s.processed :: Stands(w, init, x)
    ensures Cause(w, maxFiles, init, WorkLimit)
  {
    hide Stands, VisitKeyOf;
    forall k | k in s.visited ensures exists item :: Stands(w, init, item) && VisitKeyOf(item.node) == k {
      var i :| 0 <= i < |s.processed| && VisitKeyOf(s.processed[i].node) == k;
      assert Stands(w, init, s.processed[i]);
    }
  }

  // ---------------------------------------------------------------- a run that ends well has met no cause

  /** Whatever stands at the end of a first trail was processed. */
  lemma StandingIsProcessed(w: World, maxFiles: int, init: seq<Item>, item: Item)
    requires Run(w, maxFiles, Start(init)).Ok? && Stands(w, init, item)
    ensures item in Run(w, maxFiles, Start(init)).value.processed
  {
    hide Run, First, Reached;
    ProcessedOnFirstTrails(w, maxFiles, init, item);
  }

  lemma OneDestination(w: World, maxFiles: int, init: seq<Item>, s: State, a: Item, b: Item)
    requires Kept(w, maxFiles, init, s) && a in s.processed && b in s.processed
    requires w.disk(a.node.key).File? && w.disk(b.node.key).File?
    ensures forall r :: !ClashAt(w, a, b, r)
    ensures forall g :: !ClashIn(w, a, b, g)
  {
    hide VisitedAgrees, OnlyClosure, NothingLost, HasSource, HasRoot;
    var i :| 0 <= i < |s.processed| && s.processed[i] == a;
    var j :| 0 <= j < |s.processed| && s.processed[j] == b;
    assert Lists(w, s.files[a.node.runtime], a) && Lists(w, s.files[b.node.runtime], b);
  }

  lemma PathsAreFew(w: World, maxFiles: int, init: seq<Item>, s: State, paths: set<string>)
    requires Kept(w, maxFiles, init, s)
    requires forall r | r in paths ::
               exists item :: item in s.processed && w.disk(item.node.key).File? && item.node.runtime == r
    ensures |paths| <= maxFiles
  {
    hide VisitedAgrees, OnlyClosure, NothingLost, OneToOne, HasSource, HasRoot, Lists;
    forall r | r in paths ensures r in s.files.Keys {
      var item :| item in s.processed && w.disk(item.node.key).File? && item.node.runtime == r;
      var i :| 0 <= i < |s.processed| && s.processed[i] == item;
    }
    SubsetIsNoLarger(paths, s.files.Keys);
  }

  lemma {:induction false} SubsetIsNoLarger<T>(a: set<T>, b: set<T>)
    requires a <= b
    ensures |a| <= |b|
  {
    if a != {} {
      var x :| x in a;
      SubsetIsNoLarger(a - {x}, b - {x});
    }
  }

  lemma SoundSources(w: World, maxFiles: int, init: seq<Item>, s: State, item: Item)
    requires Kept(w, maxFiles, init, s) && item in s.processed
    ensures !w.disk(item.node.key).Broken? && !HasSymlink(w.disk(item.node.key))
    ensures Unresolvable !in Read(w, item.node)
  {
    hide VisitedAgrees, OnlyClosure, InventoryAgrees;
    var i :| 0 <= i < |s.processed| && s.processed[i] == item;
  }

  lemma SuccessHasNoCause(w: World, maxFiles: int, init: seq<Item>, error: ClosureError)
    requires maxFiles >= 0 && Run(w, maxFiles, Start(init)).Ok? && !error.WorkLimit?
    ensures !Cause(w, maxFiles, init, error)
  {
    hide Run, Stands, Kept, RefersBack, ClashAt, ClashIn, HasSymlink, Read;
    StartIsKept(w, maxFiles, init);
    RunKeeps(w, maxFiles, init, Start(init));
    var s := Run(w, maxFiles, Start(init)).value;
    forall item | Stands(w, init, item)
      ensures item in s.processed && !w.disk(item.node.key).Broken? && !HasSymlink(w.disk(item.node.key))
      ensures Unresolvable !in Read(w, item.node)
      ensures forall e :: !RefersBack(w, item, e)
    {
      StandingIsProcessed(w, maxFiles, init, item);
      SoundSources(w, maxFiles, init, s, item);
      StandingRefersBackNowhere(w, maxFiles, init, item);
    }
    forall a, b | StandsOnFile(w, init, a) && StandsOnFile(w, init, b)
      ensures forall r :: !ClashAt(w, a, b, r)
      ensures forall g :: !ClashIn(w, a, b, g)
    {
      OneDestination(w, maxFiles, init, s, a, b);
    }
    forall paths: set<string> |
      forall r | r in paths :: exists item :: StandsOnFile(w, init, item) && item.node.runtime == r
      ensures |paths| <= maxFiles
    {
      PathsAreFew(w, maxFiles, init, s, paths);
    }
  }

  lemma StandingRefersBackNowhere(w: World, maxFiles: int, init: seq<Item>, item: Item)
    requires Run(w, maxFiles, Start(init)).Ok? && Stands(w, init, item)
    ensures forall e :: !RefersBack(w, item, e)
  {
    hide Run, First, Reached, RefersBack;
    var t :| EndsFirst(w, init, t, item);
    forall e ensures !RefersBack(w, item, e) {
      SuccessRefersBackNowhere(w, maxFiles, init, t, e);
    }
  }

  /** A run that the work bound does not stop is refused if and only if something calls for an error. */
  lemma RefusedForCause(w: World, maxFiles: int, init: seq<Item>)
    requires maxFiles >= 0 && Run(w, maxFiles, Start(init)) != Err(WorkLimit)
    ensures Run(w, maxFiles, Start(init)).Err? <==>
            exists error :: error != WorkLimit && Cause(w, maxFiles, init, error)
  {
    hide Run, Cause;
    if Run(w, maxFiles, Start(init)).Err? {
      RefusalHasCause(w, maxFiles, init);
    } else {
      forall error | error != WorkLimit ensures !Cause(w, maxFiles, init, error) {
        SuccessHasNoCause(w, maxFiles, init, error);
      }
    }
  }
}
