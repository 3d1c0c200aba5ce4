/**
 Where trails lead, told by what the sources on disk offer on the way: a directory
 its entries, a file its references. From the start and these hops follow the
 source, the runtime path, the package path and the lineage of every item.
 */
module ClosurePaths {
  import opened Wrappers
  import opened Strings
  import opened ClosureWorld
  import opened Closure
  import opened ClosureExact
  import opened ClosureTrails
  import opened ClosureFirst

  /** One step on from a source: to a directory's entry, or along a file's reference. */
  datatype Hop = Into(name: string) | Along(key: Key, runtime: string, reference: string)

  function AllButLast(hops: seq<Hop>): seq<Hop>
    requires hops != []
  {
    hops[..|hops| - 1]
  }

  // ---------------------------------------------------------------- where hops lead

  /** The path of a name behind a directory. */
  function Under(directory: string, name: string): string {
    match directory
    case "" => name
    case "." => name
    case _ => directory + "/" + name
  }

  function SourceAfter(start: Key, hops: seq<Hop>): Key {
    if hops == [] then start
    else
      var before := SourceAfter(start, AllButLast(hops));
      match hops[|hops| - 1]
      case Into(name) => Key(before.ownership, Under(before.source, name))
      case Along(key, _, _) => key
  }

  function RuntimeAfter(start: string, hops: seq<Hop>): string {
    if hops == [] then start
    else
      match hops[|hops| - 1]
      case Into(name) => Under(RuntimeAfter(start, AllButLast(hops)), name)
      case Along(_, runtime, _) => runtime
  }

  /** A directory's entries are packaged under it, a reference where it is packaged relative to the referring file. */
  function PackageAfter(w: World, start: string, hops: seq<Hop>): string {
    if hops == [] then start
    else
      var before := PackageAfter(w, start, AllButLast(hops));
      match hops[|hops| - 1]
      case Into(name) => Under(before, name)
      case Along(_, _, reference) => w.packagePath(before, reference)
  }

  /** The sources referred to on the way. */
  function Targets(hops: seq<Hop>): seq<Key> {
    if hops == [] then []
    else
      var before := Targets(AllButLast(hops));
      match hops[|hops| - 1]
      case Into(_) => before
      case Along(key, _, _) => before + [key]
  }

  function EndOf(w: World, start: Item, hops: seq<Hop>): Item {
    Item(Node(SourceAfter(start.node.key, hops), RuntimeAfter(start.node.runtime, hops), start.node.root,
              start.node.packagedOnly && Targets(hops) == []),
         PackageAfter(w, start.package, hops),
         start.lineage + Targets(hops))
  }

  // ---------------------------------------------------------------- hops the disk offers

  /** The source where an item stands offers the hop as its k-th choice; a source on the lineage is no target. */
  ghost predicate Offers(w: World, item: Item, k: nat, hop: Hop) {
    match w.disk(item.node.key)
    case Broken => false
    case Directory(entries) => k < |entries| && hop == Into(entries[k].name)
    case File(_) =>
      && hop.Along? && !item.node.packagedOnly
      && (HasSuffix(item.node.key.source, ".yaml") || HasSuffix(item.node.key.source, ".yml"))
      && k < |w.references(item.node.key, item.node.runtime)|
      && w.references(item.node.key, item.node.runtime)[k] == To(hop.key, hop.runtime, hop.reference)
      && hop.key != item.node.key && hop.key !in item.lineage
  }

  /** The hops are the trail's choices, each offered where the hops before it lead. */
  ghost predicate IsWay(w: World, init: seq<Item>, t: Trail, hops: seq<Hop>) {
    && |t| == |hops| + 1 && t[0] < |init|
    && forall i | 0 <= i < |hops| :: Offers(w, EndOf(w, init[t[0]], hops[..i]), t[i + 1], hops[i])
  }

  lemma JoinIsUnder(directory: string, name: string)
    ensures PathJoin(directory, name) == Under(directory, name)
  {
  }

  /** An item's exit by a choice is where the offered hop leads. */
  lemma ExitIsHop(w: World, start: Item, hops: seq<Hop>, k: nat) returns (hop: Hop)
    requires Exit(w, EndOf(w, start, hops), k).Some?
    ensures Offers(w, EndOf(w, start, hops), k, hop)
    ensures Exit(w, EndOf(w, start, hops), k) == Some(EndOf(w, start, hops + [hop]))
  {
    hide HasSuffix, Under, PathJoin;
    var item := EndOf(w, start, hops);
    match w.disk(item.node.key) {
      case Directory(entries) =>
        hop := Into(entries[k].name);
        JoinIsUnder(item.node.key.source, hop.name);
        JoinIsUnder(item.node.runtime, hop.name);
        JoinIsUnder(item.package, hop.name);
      case File(_) =>
        var e := Read(w, item.node)[k];
        hop := Along(e.key, e.runtime, e.reference);
        assert start.lineage + Targets(hops) + [hop.key] == start.lineage + (Targets(hops) + [hop.key]);
    }
    assert AllButLast(hops + [hop]) == hops;
  }

  /** What a trail reaches is the end of its hops. */
  lemma {:induction false} ReachedByHops(w: World, init: seq<Item>, t: Trail) returns (hops: seq<Hop>)
    requires Reached(w, init, t).Some?
    ensures IsWay(w, init, t, hops) && Reached(w, init, t) == Some(EndOf(w, init[t[0]], hops))
  {
    hide Exit, Offers, EndOf;
    if |t| == 1 {
      hops := [];
      NoHops(w, init[t[0]]);
    } else {
      var before := ReachedByHops(w, init, Front(t));
      var hop := ExitIsHop(w, init[t[0]], before, Last(t));
      hops := before + [hop];
      assert hops[..|before|] == before;
      forall i | 0 <= i < |hops| ensures Offers(w, EndOf(w, init[t[0]], hops[..i]), t[i + 1], hops[i]) {
        if i < |before| {
          assert hops[..i] == before[..i] && hops[i] == before[i] && t[i + 1] == Front(t)[i + 1];
        }
      }
    }
  }

  lemma NoHops(w: World, start: Item)
    ensures EndOf(w, start, []) == start
  {
  }

  /** Every processed item is the end of the hops of its first trail. */
  lemma ProcessedIsEnd(w: World, maxFiles: int, init: seq<Item>, item: Item) returns (t: Trail, hops: seq<Hop>)
    requires Run(w, maxFiles, Start(init)).Ok? && item in Run(w, maxFiles, Start(init)).value.processed
    ensures First(w, init, t) && IsWay(w, init, t, hops) && item == EndOf(w, init[t[0]], hops)
  {
    hide Run, First, IsWay, EndOf, Reached;
    ProcessedOnFirstTrails(w, maxFiles, init, item);
    t :| EndsFirst(w, init, t, item);
    hops := ReachedByHops(w, init, t);
  }

  /** A listed file is packaged where the hops of a first trail to it lead. */
  lemma ListedIsPackagedOnTrail(w: World, maxFiles: int, init: seq<Item>, runtime: string)
    returns (t: Trail, hops: seq<Hop>)
    requires maxFiles >= 0 && Run(w, maxFiles, Start(init)).Ok?
    requires runtime in Run(w, maxFiles, Start(init)).value.files
    ensures First(w, init, t) && IsWay(w, init, t, hops) && RuntimeAfter(init[t[0]].node.runtime, hops) == runtime
    ensures Run(w, maxFiles, Start(init)).value.files[runtime].package == PackageAfter(w, init[t[0]].package, hops)
    ensures var file, key := Run(w, maxFiles, Start(init)).value.files[runtime], SourceAfter(init[t[0]].node.key, hops);
            && w.disk(key) == File(file.checksum)
            && file.source == (if key.ownership == "catalog" then "catalog/" else "application/") + key.source
  {
    hide Run, First, IsWay, InClosure, StartNodes, OneToOne, RuntimeAfter, SourceAfter, PackageAfter, Targets;
    RunIsExact(w, maxFiles, init);
    var s := Run(w, maxFiles, Start(init)).value;
    var i := FileHasItem(w, Inventory(s.files, s.packages), s.processed, runtime);
    t, hops := ProcessedIsEnd(w, maxFiles, init, s.processed[i]);
  }
}
