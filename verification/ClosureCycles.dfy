/**
 Two cyclic packages: one the resolver refuses, and one it accepts although no
 source on its cycle is a REST source. The lineage test sees a cycle only when
 none of its sources was visited on another way first.
 */
module ClosureCycles {
  import opened Wrappers
  import opened Strings
  import opened ClosureWorld
  import opened Closure

  function Ref(key: Key): Edge {
    To(key, key.source, key.source)
  }

  function ItemAt(key: Key, lineage: seq<Key>): Item {
    Item(Node(key, key.source, "root", false), key.source, lineage)
  }

  /** Files only, kept under the paths they are referenced by. */
  function FilesWith(references: Key -> seq<Edge>): World {
    World(_ => File("checksum"), (key: Key, runtime: string) => references(key), (from, reference) => reference)
  }

  predicate PlainYaml(key: Key) {
    IsYaml(key) && !IsRest(key)
  }

  /** One-letter YAML files are plain ones, so there are as many of them as needed. */
  lemma LettersArePlain(ownership: string, letter: char)
    requires letter != '/'
    ensures PlainYaml(Key(ownership, [letter] + ".yaml"))
  {
    var source := [letter] + ".yaml";
    assert source[1..] == ".yaml";
    assert '/' !in source;
    assert source[0..] == source;
    assert Base(source) == source;
    assert |source| == 6;
  }

  /** a refers to b, and b back to a. */
  function Direct(a: Key, b: Key): Key -> seq<Edge> {
    key => if key == a then [Ref(b)] else if key == b then [Ref(a)] else []
  }

  /** a refers to b and c, and these refer to each other. */
  function Crossed(a: Key, b: Key, c: Key): Key -> seq<Edge> {
    key =>
      if key == a then [Ref(b), Ref(c)]
      else if key == b then [Ref(c)]
      else if key == c then [Ref(b)]
      else []
  }

  lemma FollowOne(references: Key -> seq<Edge>, item: Item, target: Key)
    requires target != item.node.key && target !in item.lineage && item.node.root == "root"
    ensures FollowAll(FilesWith(references), item, [Ref(target)]) == Ok([ItemAt(target, item.lineage + [target])])
  {
    var none: seq<Item> := [];
    assert [Ref(target)][1..] == [];
    assert [ItemAt(target, item.lineage + [target])] + none == [ItemAt(target, item.lineage + [target])];
  }

  lemma FollowTwo(references: Key -> seq<Edge>, item: Item, one: Key, two: Key)
    requires one != item.node.key && one !in item.lineage && item.node.root == "root"
    requires two != item.node.key && two !in item.lineage
    ensures FollowAll(FilesWith(references), item, [Ref(one), Ref(two)]) ==
            Ok([ItemAt(one, item.lineage + [one]), ItemAt(two, item.lineage + [two])])
  {
    FollowOne(references, item, two);
    assert [Ref(one), Ref(two)][1..] == [Ref(two)];
    var first, second := ItemAt(one, item.lineage + [one]), ItemAt(two, item.lineage + [two]);
    assert [first] + [second] == [first, second];
  }

  /** Visiting a file for the first time, under a path not seen before, queues its references. */
  lemma VisitFile(references: Key -> seq<Edge>, s: State, item: Item)
    requires PlainYaml(item.node.key) && item == ItemAt(item.node.key, item.lineage)
    requires s.queue != [] && s.queue[0] == item && |s.visited| < 160000 && |s.files| < 10000
    requires VisitKeyOf(item.node) !in s.visited
    requires item.package !in s.files && item.package !in s.packages
    ensures match FollowAll(FilesWith(references), item, references(item.node.key))
            case Err(e) => Step(FilesWith(references), 10000, s) == Failed(e)
            case Ok(targets) =>
              var next := Step(FilesWith(references), 10000, s);
              && next.Next?
              && next.state.queue == s.queue[1..] + targets
              && next.state.visited == s.visited + {VisitKeyOf(item.node)}
              && next.state.files.Keys == s.files.Keys + {item.package}
              && next.state.packages.Keys == s.packages.Keys + {item.package}
  {
    hide FollowAll, IsYaml, IsRest, LogicalSource, Base, Children, Less, AddFile;
    FreshFile(Inventory(s.files, s.packages), item);
  }

  lemma FreshFile(inv: Inventory, item: Item)
    requires item.node.runtime == item.package && |inv.files| < 10000
    requires item.package !in inv.files && item.package !in inv.packages
    ensures var added := AddFile(inv, 10000, item, "checksum");
            && added.Ok?
            && added.value.files.Keys == inv.files.Keys + {item.package}
            && added.value.packages.Keys == inv.packages.Keys + {item.package}
  {
    hide NewFile, AddAgain, AddNew;
    var file := NewFile(item, "checksum");
    FreshHasRoom(inv, item);
    AddNewPuts(inv, 10000, item, "checksum");
    PutKeys(inv.files, item.package, file);
    PutKeys(inv.packages, item.package, file);
  }

  lemma FreshHasRoom(inv: Inventory, item: Item)
    requires |inv.files| < 10000 && item.package !in inv.packages
    ensures AddNew(inv, 10000, item, "checksum").Ok?
  {
    hide NewFile;
  }

  lemma SkipVisited(w: World, s: State)
    requires s.queue != [] && |s.visited| < 160000 && VisitKeyOf(s.queue[0].node) in s.visited
    ensures Run(w, 10000, s) == Run(w, 10000, s.(queue := s.queue[1..]))
  {
  }

  lemma Descend(w: World, s: State)
    requires Step(w, 10000, s).Next?
    ensures Run(w, 10000, s) == Run(w, 10000, Step(w, 10000, s).state)
  {
  }

  lemma Fail(w: World, s: State, e: ClosureError)
    requires Step(w, 10000, s) == Failed(e)
    ensures Run(w, 10000, s) == Err(e)
  {
  }

  /** Two files that refer to each other are refused. */
  lemma DirectCycleIsRefused(a: Key, b: Key)
    requires PlainYaml(a) && PlainYaml(b) && a.source != b.source
    ensures Run(FilesWith(Direct(a, b)), 10000, Start([ItemAt(a, [a])])) == Err(CyclicReference(b, a))
  {
    hide IsRest, IsYaml, Step, Run, VisitKeyOf;
    var references := Direct(a, b);
    var w := FilesWith(references);
    var s0 := Start([ItemAt(a, [a])]);
    VisitFile(references, s0, ItemAt(a, [a]));
    FollowOne(references, ItemAt(a, [a]), b);
    Descend(w, s0);
    var s1 := Step(w, 10000, s0).state;
    var second := ItemAt(b, [a] + [b]);
    assert s1.queue == [second] && |s1.visited| <= 1 && |s1.files.Keys| == 1;
    assert VisitKeyOf(second.node) !in s1.visited by {
      VisitKeysDiffer(ItemAt(a, [a]), second);
    }
    VisitFile(references, s1, second);
    assert FollowAll(w, second, [Ref(a)]) == Err(CyclicReference(b, a));
    Fail(w, s1, CyclicReference(b, a));
  }

  lemma VisitKeysDiffer(one: Item, two: Item)
    requires one.node.key != two.node.key
    ensures VisitKeyOf(one.node) != VisitKeyOf(two.node)
  {
  }

  /**
   Two files that refer to each other are accepted when a third one queued
   both before either was visited: each repeats the other's visit and is
   dropped before its lineage is looked at.
   */
  lemma CrossedCycleIsAccepted(a: Key, b: Key, c: Key)
    requires PlainYaml(a) && PlainYaml(b) && PlainYaml(c)
    requires a.source != b.source && a.source != c.source && b.source != c.source
    ensures Ref(c) in Crossed(a, b, c)(b) && Ref(b) in Crossed(a, b, c)(c)
    ensures Run(FilesWith(Crossed(a, b, c)), 10000, Start([ItemAt(a, [a])])).Ok?
  {
    hide IsRest, IsYaml, Step, Run, VisitKeyOf;
    var references := Crossed(a, b, c);
    var w := FilesWith(references);
    var s0 := Start([ItemAt(a, [a])]);
    VisitFile(references, s0, ItemAt(a, [a]));
    FollowTwo(references, ItemAt(a, [a]), b, c);
    Descend(w, s0);
    CrossedFromB(a, b, c, Step(w, 10000, s0).state);
  }

  /** Three files a.yaml, b.yaml and c.yaml of which the last two form such a cycle. */
  lemma CrossedLetters() returns (a: Key, b: Key, c: Key)
    ensures a.source == "a.yaml" && b.source == "b.yaml" && c.source == "c.yaml"
    ensures Run(FilesWith(Crossed(a, b, c)), 10000, Start([ItemAt(a, [a])])).Ok?
  {
    hide PlainYaml, Run;
    a, b, c := Key("application", ['a'] + ".yaml"), Key("application", ['b'] + ".yaml"),
        Key("application", ['c'] + ".yaml");
    LettersArePlain("application", 'a');
    LettersArePlain("application", 'b');
    LettersArePlain("application", 'c');
    assert a.source[0] == 'a' && b.source[0] == 'b' && c.source[0] == 'c';
    CrossedCycleIsAccepted(a, b, c);
  }

  lemma CrossedFromB(a: Key, b: Key, c: Key, s: State)
    requires PlainYaml(a) && PlainYaml(b) && PlainYaml(c)
    requires a.source != b.source && a.source != c.source && b.source != c.source
    requires s.queue == [ItemAt(b, [a] + [b]), ItemAt(c, [a] + [c])]
    requires s.visited == {VisitKeyOf(ItemAt(a, [a]).node)}
    requires s.files.Keys == {a.source} && s.packages.Keys == {a.source}
    ensures Run(FilesWith(Crossed(a, b, c)), 10000, s).Ok?
  {
    hide IsRest, IsYaml, Step, Run, VisitKeyOf;
    var references := Crossed(a, b, c);
    var w := FilesWith(references);
    var item := ItemAt(b, [a] + [b]);
    VisitKeysDiffer(ItemAt(a, [a]), item);
    assert |s.files.Keys| == 1;
    VisitFile(references, s, item);
    FollowOne(references, item, c);
    Descend(w, s);
    var next := Step(w, 10000, s).state;
    assert next.queue == [ItemAt(c, [a] + [c]), ItemAt(c, [a] + [b] + [c])];
    CrossedFromC(a, b, c, next);
  }

  lemma CrossedFromC(a: Key, b: Key, c: Key, s: State)
    requires PlainYaml(a) && PlainYaml(b) && PlainYaml(c)
    requires a.source != b.source && a.source != c.source && b.source != c.source
    requires s.queue == [ItemAt(c, [a] + [c]), ItemAt(c, [a] + [b] + [c])]
    requires s.visited == {VisitKeyOf(ItemAt(a, [a]).node), VisitKeyOf(ItemAt(b, [a] + [b]).node)}
    requires s.files.Keys == {a.source, b.source} && s.packages.Keys == {a.source, b.source}
    ensures Run(FilesWith(Crossed(a, b, c)), 10000, s).Ok?
  {
    hide IsRest, IsYaml, Step, Run, VisitKeyOf;
    var references := Crossed(a, b, c);
    var w := FilesWith(references);
    var item := ItemAt(c, [a] + [c]);
    VisitKeysDiffer(ItemAt(a, [a]), item);
    VisitKeysDiffer(ItemAt(b, [a] + [b]), item);
    assert |s.files.Keys| <= 2;
    VisitFile(references, s, item);
    FollowOne(references, item, b);
    Descend(w, s);
    var next := Step(w, 10000, s).state;
    assert next.queue == [ItemAt(c, [a] + [b] + [c]), ItemAt(b, [a] + [c] + [b])];
    BothRepeatsAreDropped(w, next, b, c);
  }

  lemma BothRepeatsAreDropped(w: World, s: State, b: Key, c: Key)
    requires |s.queue| == 2 && s.queue[0].node == ItemAt(c, []).node && s.queue[1].node == ItemAt(b, []).node
    requires |s.visited| < 160000
    requires VisitKeyOf(ItemAt(b, []).node) in s.visited && VisitKeyOf(ItemAt(c, []).node) in s.visited
    ensures Run(w, 10000, s).Ok?
  {
    hide VisitKeyOf, Visit;
    SkipVisited(w, s);
    var after := s.(queue := s.queue[1..]);
    SkipVisited(w, after);
    var done := after.(queue := after.queue[1..]);
    assert Run(w, 10000, done) == Ok(done);
  }
}
