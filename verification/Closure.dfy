/**
 The package closure resolver: a worklist over sources with a visited set,
 per-item lineage, destination conflict checks and a work bound. The functions
 give one step and the whole run on values.
 */
module Closure {
  import opened Wrappers
  import opened Strings
  import opened ClosureWorld

  datatype Item = Item(node: Node, package: string, lineage: seq<Key>)

  datatype VisitKey = VisitKey(key: Key, runtime: string, root: string)

  datatype InventoryFile = InventoryFile(source: string, runtime: string, package: string, checksum: string,
      roots: set<string>)

  datatype ClosureError =
    | WorkLimit
    | BrokenSource(key: Key)
    | Symlink(key: Key)
    | ConflictingDestination(runtime: string)
    | TooManyFiles
    | ConflictingPackage(package: string)
    | UnresolvedReference(key: Key)
    | CyclicReference(from: Key, target: Key)

  /** `processed` lists the items that were visited, in order; the resolver's visited set holds their keys. */
  datatype State = State(
    queue: seq<Item>,
    visited: set<VisitKey>,
    files: map<string, InventoryFile>,
    packages: map<string, InventoryFile>,
    processed: seq<Item>)

  function VisitKeyOf(n: Node): VisitKey {
    VisitKey(n.key, n.runtime, n.root)
  }

  // ---------------------------------------------------------------- one step

  function Children(item: Item, entries: seq<Entry>): Result<seq<Item>, ClosureError> {
    if entries == [] then Ok([])
    else if entries[0].symlink then Err(Symlink(item.node.key))
    else Prepend([ChildItem(item, entries[0])], Children(item, entries[1..]))
  }

  /** Items in front of those of a result, if it has any. */
  function Prepend(first: seq<Item>, r: Result<seq<Item>, ClosureError>): Result<seq<Item>, ClosureError> {
    match r
    case Err(e) => Err(e)
    case Ok(rest) => Ok(first + rest)
  }

  lemma PrependNone(r: Result<seq<Item>, ClosureError>)
    ensures Prepend([], r) == r
  {
    if r.Ok? {
      assert [] + r.value == r.value;
    }
  }

  lemma PrependTwice(a: seq<Item>, b: seq<Item>, r: Result<seq<Item>, ClosureError>)
    ensures Prepend(a, Prepend(b, r)) == Prepend(a + b, r)
  {
    if r.Ok? {
      assert a + (b + r.value) == a + b + r.value;
    }
  }

  function ChildItem(item: Item, entry: Entry): Item {
    Item(item.node.(key := ChildKey(item.node.key, entry.name), runtime := PathJoin(item.node.runtime, entry.name)),
         PathJoin(item.package, entry.name),
         item.lineage)
  }

  /** The item one reference adds, if any. */
  function Follow(w: World, item: Item, edge: Edge): Result<seq<Item>, ClosureError> {
    match edge
    case RuntimeOwned => Ok([])
    case Unresolvable => Err(UnresolvedReference(item.node.key))
    case To(key, runtime, reference) =>
      if key == item.node.key then Ok([])
      else if key in item.lineage then
        if IsRest(item.node.key) || IsRest(key) then Ok([]) else Err(CyclicReference(item.node.key, key))
      else Ok([Item(Node(key, runtime, item.node.root, false), w.packagePath(item.package, reference),
          item.lineage + [key])])
  }

  function FollowAll(w: World, item: Item, edges: seq<Edge>): Result<seq<Item>, ClosureError> {
    if edges == [] then Ok([])
    else match Follow(w, item, edges[0])
      case Err(e) => Err(e)
      case Ok(first) => Prepend(first, FollowAll(w, item, edges[1..]))
  }

  datatype Inventory = Inventory(files: map<string, InventoryFile>, packages: map<string, InventoryFile>)

  function AddFile(inv: Inventory, maxFiles: int, item: Item, checksum: string): Result<Inventory, ClosureError> {
    if item.node.runtime in inv.files then AddAgain(inv, item, checksum) else AddNew(inv, maxFiles, item, checksum)
  }

  /** A destination that is listed already must agree; it keeps its least source and gains a root. */
  function AddAgain(inv: Inventory, item: Item, checksum: string): Result<Inventory, ClosureError>
    requires item.node.runtime in inv.files
  {
    var source, runtime := LogicalSource(item.node.key), item.node.runtime;
    var previous := inv.files[runtime];
    if previous.checksum != checksum || previous.package != item.package then Err(ConflictingDestination(runtime))
    else
      var least := if Less(source, previous.source) then source else previous.source;
      Ok(inv.(files := inv.files[runtime := previous.(source := least, roots := previous.roots + {item.node.root})]))
  }

  function NewFile(item: Item, checksum: string): InventoryFile {
    InventoryFile(LogicalSource(item.node.key), item.node.runtime, item.package, checksum, {item.node.root})
  }

  /** A new destination needs room and a package path of its own. */
  function AddNew(inv: Inventory, maxFiles: int, item: Item, checksum: string): Result<Inventory, ClosureError> {
    var runtime := item.node.runtime;
    if |inv.files| >= maxFiles then Err(TooManyFiles)
    else if item.package in inv.packages &&
            (inv.packages[item.package].runtime != runtime || inv.packages[item.package].checksum != checksum) then
      Err(ConflictingPackage(item.package))
    else
      var file := NewFile(item, checksum);
      Ok(Inventory(inv.files[runtime := file], inv.packages[item.package := file]))
  }

  /** What an addition under a new destination leaves. */
  lemma AddNewPuts(inv: Inventory, maxFiles: int, item: Item, checksum: string)
    requires AddNew(inv, maxFiles, item, checksum).Ok?
    ensures var file := NewFile(item, checksum);
            AddNew(inv, maxFiles, item, checksum).value ==
            Inventory(inv.files[item.node.runtime := file], inv.packages[item.package := file])
  {
    hide NewFile;
  }

  lemma PutKeys<V>(m: map<string, V>, key: string, value: V)
    ensures m[key := value].Keys == m.Keys + {key}
  {
  }

  datatype Outcome = Finished | Failed(error: ClosureError) | Next(state: State)

  /** Takes one item off the queue. */
  function Step(w: World, maxFiles: int, s: State): Outcome {
    if s.queue == [] then Finished
    else if |s.visited| >= maxFiles * 16 then Failed(WorkLimit)
    else
      var item, rest := s.queue[0], s.queue[1..];
      if VisitKeyOf(item.node) in s.visited then Next(s.(queue := rest))
      else Visit(w, maxFiles,
          s.(queue := rest, visited := s.visited + {VisitKeyOf(item.node)}, processed := s.processed + [item]), item)
  }

  function Visit(w: World, maxFiles: int, s: State, item: Item): Outcome {
    match w.disk(item.node.key)
    case Broken => Failed(BrokenSource(item.node.key))
    case Directory(entries) =>
      (match Children(item, entries)
       case Err(e) => Failed(e)
       case Ok(children) => Next(s.(queue := s.queue + children)))
    case File(checksum) =>
      match AddFile(Inventory(s.files, s.packages), maxFiles, item, checksum)
      case Err(e) => Failed(e)
      case Ok(inv) =>
        match FollowAll(w, item, Read(w, item.node))
        case Err(e) => Failed(e)
        case Ok(targets) => Next(s.(queue := s.queue + targets, files := inv.files, packages := inv.packages))
  }

  /** Each step visits a new key, of which the work bound allows only so many, or shortens the queue. */
  lemma StepDescends(w: World, maxFiles: int, s: State)
    requires Step(w, maxFiles, s).Next?
    ensures var s' := Step(w, maxFiles, s).state;
            && |s.visited| < maxFiles * 16
            && (|s'.visited| == |s.visited| + 1 || (s'.visited == s.visited && |s'.queue| < |s.queue|))
  {
  }

  /** The whole run; it ends on every graph, cyclic ones included. */
  function Run(w: World, maxFiles: int, s: State): Result<State, ClosureError>
    decreases maxFiles * 16 - |s.visited|, |s.queue|
  {
    match Step(w, maxFiles, s)
    case Finished => Ok(s)
    case Failed(e) => Err(e)
    case Next(s') => StepDescends(w, maxFiles, s); Run(w, maxFiles, s')
  }

  /** The starting state for the items of the manifest: no item visited, each root its own lineage. */
  function Start(queue: seq<Item>): State {
    State(queue, {}, map[], map[], [])
  }

  ghost predicate IsStart(queue: seq<Item>) {
    forall i | 0 <= i < |queue| :: queue[i].lineage == [queue[i].node.key]
  }
}
