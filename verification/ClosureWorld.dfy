/**
 What the package closure walks over: sources on disk, the references each
 source makes, and the closure those references span, defined without a
 worklist.
 */
module ClosureWorld {
  import opened Strings

  /** A source file or directory, by owning tree. */
  datatype Key = Key(ownership: string, source: string)

  datatype Entry = Entry(name: string, symlink: bool)

  /** What is on disk; Broken covers a missing, unreadable, escaping or irregular source. */
  datatype Disk = Broken | Directory(entries: seq<Entry>) | File(checksum: string)

  /** One reference of a file, resolved. */
  datatype Edge = RuntimeOwned | Unresolvable | To(key: Key, runtime: string, reference: string)

  /** Disk contents, the references of a source at a runtime path, and the package path of a reference. */
  datatype World = World(
    disk: Key -> Disk,
    references: (Key, string) -> seq<Edge>,
    packagePath: (string, string) -> string)

  function PathJoin(directory: string, name: string): string {
    if directory == "" || directory == "." then name else directory + "/" + name
  }

  function Base(path: string): string {
    path[LastIndex(path, '/') + 1..]
  }

  predicate IsYaml(key: Key) {
    HasSuffix(key.source, ".yaml") || HasSuffix(key.source, ".yml")
  }

  predicate IsRest(key: Key) {
    Base(key.source) == "rest.yaml" || HasSuffix(Base(key.source), "-rest.yaml")
  }

  lemma BaseOf(path: string, directory: string, name: string)
    requires '/' !in name
    ensures path == name ==> Base(path) == name
    ensures path == directory + "/" + name ==> Base(path) == name
  {
    if path == name {
      LastIndexIn("", '/', name);
      assert "" + name == name;
    }
    if path == directory + "/" + name {
      assert path == directory + ['/'] + name;
      LastIndexBetween(directory, '/', name);
    }
  }

  lemma BaseEnds(path: string) returns (directory: string)
    ensures path == Base(path) || path == directory + "/" + Base(path)
    ensures path == path[..|path| - |Base(path)|] + Base(path)
  {
    var slash := LastIndex(path, '/');
    directory := if slash >= 0 then path[..slash] else "";
    if slash >= 0 {
      assert path == path[..slash] + "/" + path[slash + 1..];
    }
  }

  /** A name without a slash ends a path exactly when it ends the path's file name. */
  lemma BaseSuffix(path: string, suffix: string)
    requires '/' !in suffix
    ensures HasSuffix(Base(path), suffix) <==> HasSuffix(path, suffix)
  {
    var slash := LastIndex(path, '/');
    if HasSuffix(path, suffix) {
      var d := path[..|path| - |suffix|];
      assert path == d + suffix;
      LastIndexIn(d, '/', suffix);
    }
  }

  lemma RestNames()
    ensures '/' !in "rest.yaml" && '/' !in "-rest.yaml"
  {
  }

  lemma BaseExactly(path: string, name: string)
    requires '/' !in name
    ensures Base(path) == name <==> path == name || exists d :: path == d + "/" + name
  {
    hide Base;
    var directory := BaseEnds(path);
    BaseOf(path, "", name);
    forall d | path == d + "/" + name ensures Base(path) == name {
      BaseOf(path, d, name);
    }
  }

  /** REST sources go by their file name. */
  lemma RestExactly(key: Key)
    ensures IsRest(key) <==>
            || key.source == "rest.yaml" || (exists d :: key.source == d + "/rest.yaml")
            || (exists d :: key.source == d + "-rest.yaml")
  {
    hide Base, HasSuffix;
    RestNames();
    BaseExactly(key.source, "rest.yaml");
    BaseSuffix(key.source, "-rest.yaml");
    SuffixIsEnd(key.source, "-rest.yaml");
    forall d ensures d + "/" + "rest.yaml" == d + "/rest.yaml" {
    }
  }

  function LogicalSource(key: Key): string {
    (if key.ownership == "catalog" then "catalog/" else "application/") + key.source
  }

  function ChildKey(key: Key, name: string): Key {
    Key(key.ownership, PathJoin(key.source, name))
  }

  /** A source reached for one closure root; opaque sources are packaged but not read. */
  datatype Node = Node(key: Key, runtime: string, root: string, packagedOnly: bool)

  /** The references a node is read for. */
  function Read(w: World, n: Node): seq<Edge> {
    if w.disk(n.key).File? && !n.packagedOnly && IsYaml(n.key) then w.references(n.key, n.runtime) else []
  }

  predicate HasEntry(w: World, directory: Node, child: Node) {
    && w.disk(directory.key).Directory?
    && child.root == directory.root && child.packagedOnly == directory.packagedOnly
    && exists e | e in w.disk(directory.key).entries ::
         child.key == ChildKey(directory.key, e.name) && child.runtime == PathJoin(directory.runtime, e.name)
  }

  predicate RefersTo(w: World, from: Node, target: Node) {
    && target.root == from.root && !from.packagedOnly && !target.packagedOnly
    && target.key != from.key
    && exists e | e in Read(w, from) :: e.To? && e.key == target.key && e.runtime == target.runtime
  }

  /** One step of the closure: a directory entry, or a reference other than to the source itself. */
  predicate LeadsTo(w: World, from: Node, target: Node) {
    HasEntry(w, from, target) || RefersTo(w, from, target)
  }

  ghost predicate IsTrail(w: World, trail: seq<Node>) {
    trail != [] && forall i | 0 <= i < |trail| - 1 :: LeadsTo(w, trail[i], trail[i + 1])
  }

  /** The nodes the closure of some starting nodes consists of. */
  ghost predicate InClosure(w: World, starts: set<Node>, n: Node) {
    exists trail :: IsTrail(w, trail) && trail[0] in starts && trail[|trail| - 1] == n
  }

  lemma StartsInClosure(w: World, starts: set<Node>, n: Node)
    requires n in starts
    ensures InClosure(w, starts, n)
  {
    assert IsTrail(w, [n]) && [n][0] in starts && [n][|[n]| - 1] == n;
  }

  lemma ClosureGrows(w: World, starts: set<Node>, n: Node, m: Node)
    requires InClosure(w, starts, n) && LeadsTo(w, n, m)
    ensures InClosure(w, starts, m)
  {
    var trail :| IsTrail(w, trail) && trail[0] in starts && trail[|trail| - 1] == n;
    var longer := trail + [m];
    assert IsTrail(w, longer) && longer[0] in starts && longer[|longer| - 1] == m;
  }

  /** A set of nodes that holds the starting nodes and is closed under steps holds the whole closure. */
  lemma {:induction false} ClosedSetHoldsTrail(w: World, nodes: iset<Node>, trail: seq<Node>, k: nat)
    requires IsTrail(w, trail) && trail[0] in nodes && k < |trail|
    requires forall n, m | n in nodes && LeadsTo(w, n, m) :: m in nodes
    ensures trail[k] in nodes
  {
    if k > 0 {
      ClosedSetHoldsTrail(w, nodes, trail, k - 1);
    }
  }

  // ---------------------------------------------------------------- sources that lead to sources

  /** In the closure, some node of one source leads to a node of another. */
  ghost predicate KeyStep(w: World, starts: set<Node>, a: Key, b: Key) {
    exists n: Node, m: Node :: n.key == a && m.key == b && InClosure(w, starts, n) && LeadsTo(w, n, m)
  }

  ghost predicate IsKeyTrail(w: World, starts: set<Node>, trail: seq<Key>) {
    trail != [] && forall i | 0 <= i < |trail| - 1 :: KeyStep(w, starts, trail[i], trail[i + 1])
  }

  ghost predicate KeyReaches(w: World, starts: set<Node>, a: Key, b: Key) {
    exists trail :: IsKeyTrail(w, starts, trail) && trail[0] == a && trail[|trail| - 1] == b
  }

  /** A reference of the closure closes a cycle: its target leads back to its source. */
  ghost predicate ClosesCycle(w: World, starts: set<Node>, n: Node, m: Node) {
    InClosure(w, starts, n) && RefersTo(w, n, m) && KeyReaches(w, starts, m.key, n.key)
  }

  lemma KeyReachesItself(w: World, starts: set<Node>, a: Key)
    ensures KeyReaches(w, starts, a, a)
  {
    assert IsKeyTrail(w, starts, [a]) && [a][0] == a && [a][|[a]| - 1] == a;
  }

  lemma KeyReachesFurther(w: World, starts: set<Node>, a: Key, b: Key, c: Key)
    requires KeyReaches(w, starts, a, b) && KeyStep(w, starts, b, c)
    ensures KeyReaches(w, starts, a, c)
  {
    hide KeyStep;
    var trail :| IsKeyTrail(w, starts, trail) && trail[0] == a && trail[|trail| - 1] == b;
    var longer := trail + [c];
    assert IsKeyTrail(w, starts, longer) && longer[0] == a && longer[|longer| - 1] == c;
  }
}
