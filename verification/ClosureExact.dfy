/** What a successful closure run has established, and what it never refuses. */
module ClosureExact {
  import opened Wrappers
  import opened Strings
  import opened ClosureWorld
  import opened Closure

  function StartNodes(queue: seq<Item>): set<Node> {
    set i | 0 <= i < |queue| :: queue[i].node
  }

  // ---------------------------------------------------------------- what each step keeps

  /** The visited set is the set of keys of the processed items, one item each. */
  ghost predicate VisitedAgrees(s: State) {
    && (forall i | 0 <= i < |s.processed| :: VisitKeyOf(s.processed[i].node) in s.visited)
    && (forall k | k in s.visited :: exists i :: 0 <= i < |s.processed| && VisitKeyOf(s.processed[i].node) == k)
  }

  /** Everything processed or queued belongs to the closure of the starting nodes. */
  ghost predicate OnlyClosure(w: World, starts: set<Node>, s: State) {
    && (forall i | 0 <= i < |s.processed| :: InClosure(w, starts, s.processed[i].node))
    && (forall i | 0 <= i < |s.queue| :: InClosure(w, starts, s.queue[i].node))
  }

  /** The nodes an item brings into the closure: its entries, and the references not on its own lineage. */
  ghost predicate Owes(w: World, item: Item, n: Node) {
    HasEntry(w, item.node, n) || (RefersTo(w, item.node, n) && n.key !in item.lineage)
  }

  /** The references of an item that was accepted: resolved, and on its lineage only around REST sources. */
  ghost predicate ReferencesAccepted(w: World, item: Item) {
    forall e | e in Read(w, item.node) :: AcceptsEdge(item, e)
  }

  ghost predicate Pending(s: State, k: VisitKey) {
    k in s.visited || exists i :: 0 <= i < |s.queue| && VisitKeyOf(s.queue[i].node) == k
  }

  ghost predicate NothingLost(w: World, init: seq<Item>, s: State) {
    && (forall i | 0 <= i < |init| :: Pending(s, VisitKeyOf(init[i].node)))
    && (forall i, n | 0 <= i < |s.processed| && Owes(w, s.processed[i], n) :: Pending(s, VisitKeyOf(n)))
    && (forall i | 0 <= i < |s.processed| ::
        && ReferencesAccepted(w, s.processed[i])
        && !w.disk(s.processed[i].node.key).Broken? && !HasSymlink(w.disk(s.processed[i].node.key)))
  }

  predicate HasSymlink(d: Disk) {
    d.Directory? && exists e :: e in d.entries && e.symlink
  }

  lemma {:induction false} ChildrenAre(item: Item, entries: seq<Entry>)
    requires Children(item, entries).Ok?
    ensures |Children(item, entries).value| == |entries|
    ensures forall i | 0 <= i < |entries| :: !entries[i].symlink
    ensures forall i | 0 <= i < |entries| :: Children(item, entries).value[i] == ChildItem(item, entries[i])
  {
    if entries != [] {
      ChildrenAre(item, entries[1..]);
    }
  }

  /** Following reference e of an item queues t. */
  predicate Queues(w: World, item: Item, e: Edge, t: Item) {
    && e.To? && e.key != item.node.key && e.key !in item.lineage
    && t == Item(Node(e.key, e.runtime, item.node.root, false), w.packagePath(item.package, e.reference),
        item.lineage + [e.key])
  }

  predicate AcceptsEdge(item: Item, e: Edge) {
    && !e.Unresolvable?
    && (e.To? && e.key != item.node.key && e.key in item.lineage ==> IsRest(item.node.key) || IsRest(e.key))
  }

  /** Following all references accepts each and queues one item for each that calls for one. */
  lemma {:induction false} FollowedAre(w: World, item: Item, edges: seq<Edge>)
    requires FollowAll(w, item, edges).Ok?
    ensures forall e | e in edges :: AcceptsEdge(item, e)
    ensures forall e | e in edges && e.To? && e.key != item.node.key && e.key !in item.lineage ::
              exists t :: t in FollowAll(w, item, edges).value && Queues(w, item, e, t)
    ensures forall t | t in FollowAll(w, item, edges).value :: exists e :: e in edges && Queues(w, item, e, t)
  {
    if edges != [] {
      FollowedAre(w, item, edges[1..]);
      var first := Follow(w, item, edges[0]).value;
      var rest := FollowAll(w, item, edges[1..]).value;
      assert edges == [edges[0]] + edges[1..];
      forall e | e in edges && e.To? && e.key != item.node.key && e.key !in item.lineage
        ensures exists t :: t in first + rest && Queues(w, item, e, t)
      {
        if e == edges[0] {
          assert first[0] in first + rest && Queues(w, item, e, first[0]);
        } else {
          var t :| t in rest && Queues(w, item, e, t);
          assert t in first + rest;
        }
      }
      forall t | t in first + rest ensures exists e :: e in edges && Queues(w, item, e, t) {
        if t in first {
          assert edges[0] in edges && Queues(w, item, edges[0], t);
        }
      }
    }
  }

  /** The items a visit adds to the queue. */
  function Added(w: World, item: Item): seq<Item> {
    match w.disk(item.node.key)
    case Broken => []
    case Directory(entries) => if Children(item, entries).Ok? then Children(item, entries).value else []
    case File(_) => if FollowAll(w, item, Read(w, item.node)).Ok? then FollowAll(w, item, Read(w, item.node)).value
        else []
  }

  lemma DirectoryAdds(w: World, item: Item)
    requires w.disk(item.node.key).Directory? && Children(item, w.disk(item.node.key).entries).Ok?
    ensures forall t | t in Added(w, item) :: HasEntry(w, item.node, t.node) && t.lineage == item.lineage
    ensures forall n | Owes(w, item, n) :: exists t :: t in Added(w, item) && VisitKeyOf(t.node) == VisitKeyOf(n)
    ensures ReferencesAccepted(w, item) && !HasSymlink(w.disk(item.node.key))
  {
    var entries := w.disk(item.node.key).entries;
    ChildrenAre(item, entries);
    forall t | t in Added(w, item) ensures HasEntry(w, item.node, t.node) && t.lineage == item.lineage {
      var i :| 0 <= i < |entries| && t == ChildItem(item, entries[i]);
    }
    forall n | Owes(w, item, n) ensures exists t :: t in Added(w, item) && VisitKeyOf(t.node) == VisitKeyOf(n) {
      var e :| e in entries && n.key == ChildKey(item.node.key, e.name)
          && n.runtime == PathJoin(item.node.runtime, e.name);
      var i :| 0 <= i < |entries| && entries[i] == e;
      assert Added(w, item)[i] in Added(w, item);
    }
  }

  lemma FileAdds(w: World, item: Item)
    requires w.disk(item.node.key).File? && FollowAll(w, item, Read(w, item.node)).Ok?
    ensures forall t | t in Added(w, item) ::
              RefersTo(w, item.node, t.node) && t.node.key !in item.lineage && t.lineage == item.lineage + [t.node.key]
    ensures forall n | Owes(w, item, n) :: exists t :: t in Added(w, item) && VisitKeyOf(t.node) == VisitKeyOf(n)
    ensures ReferencesAccepted(w, item)
  {
    var edges := Read(w, item.node);
    FollowedAre(w, item, edges);
    assert edges != [] ==> !item.node.packagedOnly;
    forall t | t in Added(w, item)
      ensures RefersTo(w, item.node, t.node) && t.node.key !in item.lineage && t.lineage == item.lineage + [t.node.key]
    {
      var e :| e in edges && Queues(w, item, e, t);
    }
    forall n | Owes(w, item, n) ensures exists t :: t in Added(w, item) && VisitKeyOf(t.node) == VisitKeyOf(n) {
      var e :| e in edges && e.To? && e.key == n.key && e.runtime == n.runtime;
      var t :| t in Added(w, item) && Queues(w, item, e, t);
    }
  }

  /** A visit that goes on adds exactly what the item owes. */
  lemma AddedIsOwed(w: World, maxFiles: int, s: State, item: Item)
    requires Visit(w, maxFiles, s, item).Next?
    ensures Visit(w, maxFiles, s, item).state.queue == s.queue + Added(w, item)
    ensures Visit(w, maxFiles, s, item).state.visited == s.visited
            && Visit(w, maxFiles, s, item).state.processed == s.processed
    ensures forall t | t in Added(w, item) :: LeadsTo(w, item.node, t.node)
    ensures forall n | Owes(w, item, n) :: exists t :: t in Added(w, item) && VisitKeyOf(t.node) == VisitKeyOf(n)
    ensures ReferencesAccepted(w, item) && !w.disk(item.node.key).Broken? && !HasSymlink(w.disk(item.node.key))
  {
    hide Owes, HasEntry, RefersTo, ReferencesAccepted, FollowAll, Children, AddFile;
    match w.disk(item.node.key)
    case Directory(entries) => DirectoryAdds(w, item);
    case File(_) => FileAdds(w, item);
  }

  /** A step visits one item or none. */
  lemma StepVisits(w: World, maxFiles: int, s: State)
    requires Step(w, maxFiles, s).Next?
    ensures s.queue != []
    ensures var s' := Step(w, maxFiles, s).state;
            || (s'.visited == s.visited && s'.processed == s.processed)
            || (s'.visited == s.visited + {VisitKeyOf(s.queue[0].node)} && s'.processed == s.processed + [s.queue[0]])
  {
    hide VisitKeyOf, AddFile, Children, FollowAll, Read;
  }

  lemma KeepVisited(w: World, maxFiles: int, s: State)
    requires VisitedAgrees(s) && Step(w, maxFiles, s).Next?
    ensures VisitedAgrees(Step(w, maxFiles, s).state)
  {
    hide VisitKeyOf, Step;
    var s' := Step(w, maxFiles, s).state;
    StepVisits(w, maxFiles, s);
    forall k | k in s'.visited ensures exists i :: 0 <= i < |s'.processed| && VisitKeyOf(s'.processed[i].node) == k {
      if k in s.visited {
        var i :| 0 <= i < |s.processed| && VisitKeyOf(s.processed[i].node) == k;
        assert s'.processed[i] == s.processed[i];
      } else {
        assert s'.processed[|s.processed|] == s.queue[0];
      }
    }
  }

  /** The state in which the first item of the queue is visited. */
  function Popped(s: State): State
    requires s.queue != []
  {
    s.(queue := s.queue[1..], visited := s.visited + {VisitKeyOf(s.queue[0].node)},
        processed := s.processed + [s.queue[0]])
  }

  lemma KeepOnlyClosure(w: World, maxFiles: int, starts: set<Node>, s: State)
    requires OnlyClosure(w, starts, s) && Step(w, maxFiles, s).Next?
    ensures OnlyClosure(w, starts, Step(w, maxFiles, s).state)
  {
    hide InClosure, LeadsTo;
    var item := s.queue[0];
    var s' := Step(w, maxFiles, s).state;
    if VisitKeyOf(item.node) !in s.visited {
      AddedIsOwed(w, maxFiles, Popped(s), item);
      forall i | 0 <= i < |s'.queue| ensures InClosure(w, starts, s'.queue[i].node) {
        if i >= |s.queue| - 1 {
          assert s'.queue[i] in Added(w, item);
          ClosureGrows(w, starts, item.node, s'.queue[i].node);
        }
      }
    }
  }

  lemma StaysPending(w: World, maxFiles: int, s: State, k: VisitKey)
    requires Pending(s, k) && Step(w, maxFiles, s).Next?
    ensures Pending(Step(w, maxFiles, s).state, k)
  {
    var item := s.queue[0];
    var s' := Step(w, maxFiles, s).state;
    if VisitKeyOf(item.node) !in s.visited {
      AddedIsOwed(w, maxFiles, Popped(s), item);
    }
    if k !in s'.visited {
      var i :| 0 <= i < |s.queue| && VisitKeyOf(s.queue[i].node) == k;
      assert i > 0 && s'.queue[i - 1] == s.queue[i];
    }
  }

  lemma KeepNothingLost(w: World, maxFiles: int, init: seq<Item>, s: State)
    requires NothingLost(w, init, s) && Step(w, maxFiles, s).Next?
    ensures NothingLost(w, init, Step(w, maxFiles, s).state)
  {
    hide Pending, Owes, ReferencesAccepted;
    var item := s.queue[0];
    var s' := Step(w, maxFiles, s).state;
    forall k | Pending(s, k) ensures Pending(s', k) {
      StaysPending(w, maxFiles, s, k);
    }
    if VisitKeyOf(item.node) !in s.visited {
      AddedIsOwed(w, maxFiles, Popped(s), item);
      forall i, n | 0 <= i < |s'.processed| && Owes(w, s'.processed[i], n) ensures Pending(s', VisitKeyOf(n)) {
        if i == |s.processed| {
          var t :| t in Added(w, item) && VisitKeyOf(t.node) == VisitKeyOf(n);
          QueuedIsPending(s', t);
        }
      }
    }
  }

  lemma QueuedIsPending(s: State, t: Item)
    requires t in s.queue
    ensures Pending(s, VisitKeyOf(t.node))
  {
    var i :| 0 <= i < |s.queue| && s.queue[i] == t;
  }

  // ---------------------------------------------------------------- the inventory

  ghost predicate IsFileAt(w: World, item: Item, runtime: string) {
    item.node.runtime == runtime && w.disk(item.node.key).File?
  }

  /**
   A listed file: every processed source of that runtime path agrees with it, and its source
   name is the least of theirs.
   */
  ghost predicate Lists(w: World, file: InventoryFile, item: Item) {
    && w.disk(item.node.key).File? ==>
         && w.disk(item.node.key).checksum == file.checksum && item.package == file.package
         && item.node.root in file.roots && !Less(LogicalSource(item.node.key), file.source)
  }

  /** The inventory lists exactly the processed files. */
  ghost predicate FilesAgree(w: World, inv: Inventory, processed: seq<Item>) {
    && (forall i | 0 <= i < |processed| && w.disk(processed[i].node.key).File? ::
          processed[i].node.runtime in inv.files && Lists(w, inv.files[processed[i].node.runtime], processed[i]))
    && (forall r | r in inv.files :: inv.files[r].runtime == r && HasSource(w, r, inv.files[r].source, processed))
    && (forall r, root | r in inv.files && root in inv.files[r].roots :: HasRoot(w, r, root, processed))
  }

  ghost predicate HasSource(w: World, r: string, source: string, processed: seq<Item>) {
    exists i :: 0 <= i < |processed| && IsFileAt(w, processed[i], r) && LogicalSource(processed[i].node.key) == source
  }

  ghost predicate HasRoot(w: World, r: string, root: string, processed: seq<Item>) {
    exists i :: 0 <= i < |processed| && IsFileAt(w, processed[i], r) && processed[i].node.root == root
  }

  /** A listed file is that of a processed item. */
  lemma FileHasItem(w: World, inv: Inventory, processed: seq<Item>, runtime: string) returns (i: nat)
    requires FilesAgree(w, inv, processed) && runtime in inv.files
    ensures i < |processed| && processed[i].node.runtime == runtime
    ensures w.disk(processed[i].node.key) == File(inv.files[runtime].checksum)
    ensures processed[i].package == inv.files[runtime].package
    ensures LogicalSource(processed[i].node.key) == inv.files[runtime].source
  {
    assert HasSource(w, runtime, inv.files[runtime].source, processed);
    i :| 0 <= i < |processed| && IsFileAt(w, processed[i], runtime) &&
         LogicalSource(processed[i].node.key) == inv.files[runtime].source;
  }

  /** Runtime paths and package paths correspond one to one, with one checksum each. */
  ghost predicate OneToOne(inv: Inventory) {
    && (forall r | r in inv.files ::
          && inv.files[r].package in inv.packages
          && inv.packages[inv.files[r].package].runtime == r
          && inv.packages[inv.files[r].package].checksum == inv.files[r].checksum)
    && (forall g | g in inv.packages ::
          inv.packages[g].runtime in inv.files && inv.files[inv.packages[g].runtime].package == g)
  }

  lemma AddAgainKeepsOneToOne(inv: Inventory, item: Item, checksum: string)
    requires OneToOne(inv) && item.node.runtime in inv.files && AddAgain(inv, item, checksum).Ok?
    ensures OneToOne(AddAgain(inv, item, checksum).value)
  {
    hide Less, LogicalSource;
  }

  lemma AddNewKeepsOneToOne(inv: Inventory, maxFiles: int, item: Item, checksum: string)
    requires OneToOne(inv) && item.node.runtime !in inv.files && AddNew(inv, maxFiles, item, checksum).Ok?
    ensures OneToOne(AddNew(inv, maxFiles, item, checksum).value)
  {
    hide LogicalSource;
    assert item.package !in inv.packages;
  }

  lemma AddKeepsOneToOne(inv: Inventory, maxFiles: int, item: Item, checksum: string)
    requires OneToOne(inv) && AddFile(inv, maxFiles, item, checksum).Ok?
    ensures OneToOne(AddFile(inv, maxFiles, item, checksum).value)
  {
    hide OneToOne, AddAgain, AddNew;
    if item.node.runtime in inv.files {
      AddAgainKeepsOneToOne(inv, item, checksum);
    } else {
      AddNewKeepsOneToOne(inv, maxFiles, item, checksum);
    }
  }

  lemma AddKeepsSize(inv: Inventory, maxFiles: int, item: Item, checksum: string)
    requires AddFile(inv, maxFiles, item, checksum).Ok? && |inv.files| <= maxFiles
    ensures |AddFile(inv, maxFiles, item, checksum).value.files| <= maxFiles
  {
    hide AddFile, LogicalSource, Less, NewFile;
    var inv' := AddFile(inv, maxFiles, item, checksum).value;
    AddFileAddsOne(inv, maxFiles, item, checksum);
    if item.node.runtime !in inv.files {
      AddedHaveRoom(inv, maxFiles, item, checksum);
    }
    KeysCount(inv.files, inv'.files, item.node.runtime);
  }

  lemma AddedHaveRoom(inv: Inventory, maxFiles: int, item: Item, checksum: string)
    requires AddFile(inv, maxFiles, item, checksum).Ok? && item.node.runtime !in inv.files
    ensures |inv.files| < maxFiles
  {
    hide NewFile;
  }

  lemma KeysCount(files: map<string, InventoryFile>, files': map<string, InventoryFile>, r: string)
    requires files'.Keys == files.Keys + {r}
    ensures |files'| == if r in files then |files| else |files| + 1
  {
    assert |files'| == |files'.Keys| && |files| == |files.Keys|;
    if r in files {
      assert files'.Keys == files.Keys;
    }
  }

  /** How a file already listed changes: only its source may become less, and a root may be added. */
  lemma AddKeepsListing(w: World, file: InventoryFile, file': InventoryFile, source: string, earlier: Item)
    requires Lists(w, file, earlier)
    requires file' == file.(source := file'.source, roots := file'.roots) && file.roots <= file'.roots
    requires file'.source == if Less(source, file.source) then source else file.source
    ensures Lists(w, file', earlier)
  {
    var earlierSource := LogicalSource(earlier.node.key);
    if Less(source, file.source) && Less(earlierSource, source) {
      LessTransitive(earlierSource, source, file.source);
    }
  }

  /** What adding an item's file does to the listing, path by path. */
  ghost predicate AddedOne(inv: Inventory, inv': Inventory, item: Item, checksum: string) {
    var r, source := item.node.runtime, LogicalSource(item.node.key);
    && inv'.files.Keys == inv.files.Keys + {r}
    && (forall q | q in inv.files && q != r :: inv'.files[q] == inv.files[q])
    && (r in inv.files ==>
          && inv.files[r].checksum == checksum && inv.files[r].package == item.package
          && inv'.files[r] == inv.files[r].(source := if Less(source, inv.files[r].source) then source
              else inv.files[r].source,
                                            roots := inv.files[r].roots + {item.node.root}))
    && (r !in inv.files ==> inv'.files[r] == InventoryFile(source, r, item.package, checksum, {item.node.root}))
  }

  lemma AddAgainAddsOne(inv: Inventory, item: Item, checksum: string)
    requires item.node.runtime in inv.files && AddAgain(inv, item, checksum).Ok?
    ensures AddedOne(inv, AddAgain(inv, item, checksum).value, item, checksum)
  {
    hide Less, LogicalSource;
  }

  lemma AddNewAddsOne(inv: Inventory, maxFiles: int, item: Item, checksum: string)
    requires item.node.runtime !in inv.files && AddNew(inv, maxFiles, item, checksum).Ok?
    ensures AddedOne(inv, AddNew(inv, maxFiles, item, checksum).value, item, checksum)
  {
    hide AddNew, Less, LogicalSource;
    AddNewPuts(inv, maxFiles, item, checksum);
    PutKeys(inv.files, item.node.runtime, NewFile(item, checksum));
  }

  lemma AddFileAddsOne(inv: Inventory, maxFiles: int, item: Item, checksum: string)
    requires AddFile(inv, maxFiles, item, checksum).Ok?
    ensures AddedOne(inv, AddFile(inv, maxFiles, item, checksum).value, item, checksum)
  {
    hide AddedOne, AddAgain, AddNew;
    if item.node.runtime in inv.files {
      AddAgainAddsOne(inv, item, checksum);
    } else {
      AddNewAddsOne(inv, maxFiles, item, checksum);
    }
  }

  lemma AddKeepsListings(w: World, inv: Inventory, inv': Inventory, processed: seq<Item>, item: Item)
    requires FilesAgree(w, inv, processed)
    requires w.disk(item.node.key).File? && AddedOne(inv, inv', item, w.disk(item.node.key).checksum)
    ensures forall i | 0 <= i < |processed| && w.disk(processed[i].node.key).File? ::
              processed[i].node.runtime in inv'.files && Lists(w, inv'.files[processed[i].node.runtime], processed[i])
    ensures item.node.runtime in inv'.files && Lists(w, inv'.files[item.node.runtime], item)
  {
    hide HasSource, HasRoot, LogicalSource;
    var r, source := item.node.runtime, LogicalSource(item.node.key);
    LessIrreflexive(source);
    forall i | 0 <= i < |processed| && w.disk(processed[i].node.key).File?
      ensures processed[i].node.runtime in inv'.files && Lists(w, inv'.files[processed[i].node.runtime], processed[i])
    {
      if processed[i].node.runtime == r {
        AddKeepsListing(w, inv.files[r], inv'.files[r], source, processed[i]);
      }
    }
  }

  lemma AddKeepsFiles(w: World, inv: Inventory, inv': Inventory, processed: seq<Item>, item: Item)
    requires FilesAgree(w, inv, processed)
    requires w.disk(item.node.key).File? && AddedOne(inv, inv', item, w.disk(item.node.key).checksum)
    ensures FilesAgree(w, inv', processed + [item])
  {
    hide Less, LogicalSource, Lists, HasSource, HasRoot;
    var all := processed + [item];
    AddKeepsListings(w, inv, inv', processed, item);
    MoreProcessed(w, processed, item);
  }

  /** What a processed item witnesses stays witnessed, and a new file witnesses itself. */
  lemma MoreProcessed(w: World, processed: seq<Item>, item: Item)
    ensures forall r, source | HasSource(w, r, source, processed) :: HasSource(w, r, source, processed + [item])
    ensures forall r, root | HasRoot(w, r, root, processed) :: HasRoot(w, r, root, processed + [item])
    ensures w.disk(item.node.key).File? ==>
              && HasSource(w, item.node.runtime, LogicalSource(item.node.key), processed + [item])
              && HasRoot(w, item.node.runtime, item.node.root, processed + [item])
  {
    hide LogicalSource;
    var all := processed + [item];
    forall r, source | HasSource(w, r, source, processed) ensures HasSource(w, r, source, all) {
      var i :| 0 <= i < |processed| && IsFileAt(w, processed[i], r) && LogicalSource(processed[i].node.key) == source;
      assert all[i] == processed[i];
    }
    forall r, root | HasRoot(w, r, root, processed) ensures HasRoot(w, r, root, all) {
      var i :| 0 <= i < |processed| && IsFileAt(w, processed[i], r) && processed[i].node.root == root;
      assert all[i] == processed[i];
    }
    assert all[|processed|] == item;
  }

  lemma DirectoryKeepsFiles(w: World, inv: Inventory, processed: seq<Item>, item: Item)
    requires FilesAgree(w, inv, processed) && !w.disk(item.node.key).File?
    ensures FilesAgree(w, inv, processed + [item])
  {
    hide LogicalSource, Lists, HasSource, HasRoot;
    MoreProcessed(w, processed, item);
  }

  ghost predicate InventoryAgrees(w: World, maxFiles: int, s: State) {
    && FilesAgree(w, Inventory(s.files, s.packages), s.processed)
    && OneToOne(Inventory(s.files, s.packages))
    && |s.files| <= maxFiles
  }

  lemma KeepInventory(w: World, maxFiles: int, s: State)
    requires InventoryAgrees(w, maxFiles, s) && Step(w, maxFiles, s).Next?
    ensures InventoryAgrees(w, maxFiles, Step(w, maxFiles, s).state)
  {
    hide FilesAgree, OneToOne, AddFile, FollowAll, Children;
    var item := s.queue[0];
    if VisitKeyOf(item.node) !in s.visited {
      var inv := Inventory(s.files, s.packages);
      match w.disk(item.node.key)
      case Directory(_) => DirectoryKeepsFiles(w, inv, s.processed, item);
      case File(checksum) =>
        AddFileAddsOne(inv, maxFiles, item, checksum);
        AddKeepsFiles(w, inv, AddFile(inv, maxFiles, item, checksum).value, s.processed, item);
        AddKeepsOneToOne(inv, maxFiles, item, checksum);
        AddKeepsSize(inv, maxFiles, item, checksum);
    }
  }

  // ---------------------------------------------------------------- the whole run

  ghost predicate Kept(w: World, maxFiles: int, init: seq<Item>, s: State) {
    && VisitedAgrees(s)
    && OnlyClosure(w, StartNodes(init), s)
    && NothingLost(w, init, s)
    && InventoryAgrees(w, maxFiles, s)
  }

  lemma {:induction false} RunKeeps(w: World, maxFiles: int, init: seq<Item>, s: State)
    requires Kept(w, maxFiles, init, s)
    ensures Run(w, maxFiles, s).Ok? ==>
              Kept(w, maxFiles, init, Run(w, maxFiles, s).value) && Run(w, maxFiles, s).value.queue == []
    decreases maxFiles * 16 - |s.visited|, |s.queue|
  {
    hide VisitedAgrees, OnlyClosure, NothingLost, InventoryAgrees, StartNodes;
    if Step(w, maxFiles, s).Next? {
      StepDescends(w, maxFiles, s);
      KeepVisited(w, maxFiles, s);
      KeepOnlyClosure(w, maxFiles, StartNodes(init), s);
      KeepNothingLost(w, maxFiles, init, s);
      KeepInventory(w, maxFiles, s);
      RunKeeps(w, maxFiles, init, Step(w, maxFiles, s).state);
    }
  }

  lemma StartIsKept(w: World, maxFiles: int, init: seq<Item>)
    requires maxFiles >= 0
    ensures Kept(w, maxFiles, init, Start(init))
  {
    var starts := StartNodes(init);
    forall i | 0 <= i < |init| ensures InClosure(w, starts, init[i].node) {
      assert init[i].node in starts;
      StartsInClosure(w, starts, init[i].node);
    }
  }

  /**
   A successful run is exact. Everything visited belongs to the closure; every
   start, directory entry and reference of what was visited is visited under
   the same root, except references that are runtime-owned, to the source
   itself, or back to the item's own lineage around a REST source; the inventory
   lists exactly the visited files, with their roots and least source names.
   */
  lemma RunIsExact(w: World, maxFiles: int, init: seq<Item>)
    requires maxFiles >= 0 && Run(w, maxFiles, Start(init)).Ok?
    ensures var s := Run(w, maxFiles, Start(init)).value;
            && (forall i | 0 <= i < |s.processed| :: InClosure(w, StartNodes(init), s.processed[i].node))
            && (forall i | 0 <= i < |init| :: VisitKeyOf(init[i].node) in s.visited)
            && (forall i, n | 0 <= i < |s.processed| && Owes(w, s.processed[i], n) :: VisitKeyOf(n) in s.visited)
            && (forall i | 0 <= i < |s.processed| :: ReferencesAccepted(w, s.processed[i]))
            && (forall k | k in s.visited :: exists i :: 0 <= i < |s.processed| && VisitKeyOf(s.processed[i].node) == k)
            && FilesAgree(w, Inventory(s.files, s.packages), s.processed)
            && OneToOne(Inventory(s.files, s.packages))
  {
    hide FilesAgree, OneToOne, Owes, InClosure, StartNodes, Run, ReferencesAccepted;
    StartIsKept(w, maxFiles, init);
    RunKeeps(w, maxFiles, init, Start(init));
  }

  /** A file is listed under a root only if references lead there from that root. */
  lemma ListedIsReachable(w: World, maxFiles: int, init: seq<Item>, runtime: string, root: string) returns (n: Node)
    requires maxFiles >= 0 && Run(w, maxFiles, Start(init)).Ok?
    requires runtime in Run(w, maxFiles, Start(init)).value.files
    requires root in Run(w, maxFiles, Start(init)).value.files[runtime].roots
    ensures InClosure(w, StartNodes(init), n) && n.runtime == runtime && n.root == root && w.disk(n.key).File?
    ensures w.disk(n.key).checksum == Run(w, maxFiles, Start(init)).value.files[runtime].checksum
  {
    hide Run, InClosure, StartNodes, OneToOne;
    RunIsExact(w, maxFiles, init);
    var s := Run(w, maxFiles, Start(init)).value;
    assert HasRoot(w, runtime, root, s.processed);
    var i :| 0 <= i < |s.processed| && IsFileAt(w, s.processed[i], runtime) && s.processed[i].node.root == root;
    n := s.processed[i].node;
  }
}
