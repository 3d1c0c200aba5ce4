/** The resolver itself: a worklist loop over fields it updates in place. */
module ClosureResolver {
  import opened Wrappers
  import opened Strings
  import opened ClosureWorld
  import opened Closure

  class Resolver {
    const world: World
    const maxFiles: int
    var queue: seq<Item>
    var visited: set<VisitKey>
    var files: map<string, InventoryFile>
    var packages: map<string, InventoryFile>
    ghost var processed: seq<Item>

    ghost function Current(): State
      reads this
    {
      State(queue, visited, files, packages, processed)
    }

    constructor (world: World, maxFiles: int, start: seq<Item>)
      ensures this.world == world && this.maxFiles == maxFiles && Current() == Start(start)
    {
      this.world := world;
      this.maxFiles := maxFiles;
      queue := start;
      visited := {};
      files := map[];
      packages := map[];
      processed := [];
    }

    /** Queues the entries of a directory; a symbolic link among them is refused. */
    method ExpandDirectory(item: Item, entries: seq<Entry>) returns (err: Option<ClosureError>)
      modifies this`queue
      ensures match Children(item, entries)
              case Ok(children) => err.None? && queue == old(queue) + children
              case Err(e) => err == Some(e)
    {
      var i := 0;
      ghost var done: seq<Item> := [];
      PrependNone(Children(item, entries));
      assert entries[0..] == entries;
      while i < |entries|
        invariant 0 <= i <= |entries| && queue == old(queue) + done
        invariant Children(item, entries) == Prepend(done, Children(item, entries[i..]))
      {
        var entry := entries[i];
        PrependTwice(done, [ChildItem(item, entry)], Children(item, entries[i + 1..]));
        assert entries[i..][1..] == entries[i + 1..];
        if entry.symlink {
          return Some(Symlink(item.node.key));
        }
        queue := queue + [ChildItem(item, entry)];
        done := done + [ChildItem(item, entry)];
        i := i + 1;
      }
      return None;
    }

    /** Records a file under its destination, unless it conflicts with what is there. */
    method AddItemFile(item: Item, checksum: string) returns (err: Option<ClosureError>)
      modifies this`files, this`packages
      ensures match AddFile(Inventory(old(files), old(packages)), maxFiles, item, checksum)
              case Ok(inv) => err.None? && files == inv.files && packages == inv.packages
              case Err(e) => err == Some(e) && files == old(files) && packages == old(packages)
    {
      var source, runtime := LogicalSource(item.node.key), item.node.runtime;
      if runtime in files {
        var previous := files[runtime];
        if previous.checksum != checksum || previous.package != item.package {
          return Some(ConflictingDestination(runtime));
        }
        if Less(source, previous.source) {
          previous := previous.(source := source);
        }
        previous := previous.(roots := previous.roots + {item.node.root});
        files := files[runtime := previous];
        return None;
      }
      if |files| >= maxFiles {
        return Some(TooManyFiles);
      }
      if item.package in packages &&
         (packages[item.package].runtime != runtime || packages[item.package].checksum != checksum) {
        return Some(ConflictingPackage(item.package));
      }
      var file := InventoryFile(source, runtime, item.package, checksum, {item.node.root});
      files := files[runtime := file];
      packages := packages[item.package := file];
      return None;
    }

    /** Queues the target of one reference, unless it adds nothing. */
    method EnqueueReference(item: Item, edge: Edge) returns (err: Option<ClosureError>)
      modifies this`queue
      ensures match Follow(world, item, edge)
              case Ok(targets) => err.None? && queue == old(queue) + targets
              case Err(e) => err == Some(e) && queue == old(queue)
    {
      match edge
      case RuntimeOwned => return None;
      case Unresolvable => return Some(UnresolvedReference(item.node.key));
      case To(key, runtime, reference) =>
        if key == item.node.key {
          return None;
        }
        if key in item.lineage {
          if IsRest(item.node.key) || IsRest(key) {
            return None;
          }
          return Some(CyclicReference(item.node.key, key));
        }
        queue := queue + [Item(Node(key, runtime, item.node.root, false), world.packagePath(item.package, reference),
            item.lineage + [key])];
        return None;
    }

    /** Queues the targets of all references of a file. */
    method ResolveReferences(item: Item, edges: seq<Edge>) returns (err: Option<ClosureError>)
      modifies this`queue
      ensures match FollowAll(world, item, edges)
              case Ok(targets) => err.None? && queue == old(queue) + targets
              case Err(e) => err == Some(e)
    {
      var i := 0;
      ghost var done: seq<Item> := [];
      PrependNone(FollowAll(world, item, edges));
      assert edges[0..] == edges;
      while i < |edges|
        invariant 0 <= i <= |edges| && queue == old(queue) + done
        invariant FollowAll(world, item, edges) == Prepend(done, FollowAll(world, item, edges[i..]))
      {
        assert edges[i..][1..] == edges[i + 1..];
        err := EnqueueReference(item, edges[i]);
        if err.Some? {
          return;
        }
        PrependTwice(done, Follow(world, item, edges[i]).value, FollowAll(world, item, edges[i + 1..]));
        done := done + Follow(world, item, edges[i]).value;
        i := i + 1;
      }
      return None;
    }

    /** Works the queue off; the outcome and the final fields are those of the run on values. */
    method Resolve() returns (err: Option<ClosureError>)
      modifies this
      ensures match Run(world, maxFiles, old(Current()))
              case Ok(s) => err.None? && Current() == s
              case Err(e) => err == Some(e)
    {
      hide Children, FollowAll, AddFile, Read;
      while queue != []
        invariant Run(world, maxFiles, Current()) == Run(world, maxFiles, old(Current()))
        decreases maxFiles * 16 - |visited|, |queue|
      {
        if |visited| >= maxFiles * 16 {
          return Some(WorkLimit);
        }
        var item := queue[0];
        queue := queue[1..];
        var visitKey := VisitKeyOf(item.node);
        if visitKey in visited {
          continue;
        }
        visited := visited + {visitKey};
        processed := processed + [item];
        match world.disk(item.node.key)
        case Broken =>
          return Some(BrokenSource(item.node.key));
        case Directory(entries) =>
          err := ExpandDirectory(item, entries);
          if err.Some? {
            return;
          }
        case File(checksum) =>
          err := AddItemFile(item, checksum);
          if err.Some? {
            return;
          }
          err := ResolveReferences(item, Read(world, item.node));
          if err.Some? {
            return;
          }
      }
      return None;
    }
  }
}
