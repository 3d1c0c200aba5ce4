/**
 Which application source a runtime path comes from: the sorted list of declared
 runtime sources, the single pass over it, and the rule that pass implements,
 stated without an order.
 */
module RuntimeSources {
  import opened Wrappers
  import opened Strings

  datatype Root = Root(ownership: string, source: string, runtimePath: string, planned: bool)

  datatype Mapping = Mapping(
    ownership: string,
    sourcePath: string,
    sourceDir: string,
    runtimePath: string,
    runtimeDir: string)

  /** Escapes is the error of a joined path that leaves its ownership root. */
  datatype Answer = Declared(ownership: string, source: string) | Undeclared | Ambiguous | Escapes

  // ---------------------------------------------------------------- the rule

  predicate Covers(m: Mapping, runtime: string) {
    runtime == m.runtimeDir || HasPrefix(runtime, m.runtimeDir + "/")
  }

  ghost predicate Deepest(mappings: seq<Mapping>, runtime: string, m: Mapping) {
    && m in mappings && Covers(m, runtime)
    && forall other | other in mappings && Covers(other, runtime) :: |other.runtimeDir| <= |m.runtimeDir|
  }

  predicate SameTree(a: Mapping, b: Mapping) {
    a.ownership == b.ownership && a.sourceDir == b.sourceDir
  }

  function TrimPrefix(s: string, prefix: string): string {
    if HasPrefix(s, prefix) then s[|prefix|..] else s
  }

  /** A path below a declared directory, carried over to the source directory. */
  function Carried(m: Mapping, runtime: string, join: (string, string) -> Option<string>): Answer {
    match join(m.sourceDir, TrimPrefix(TrimPrefix(runtime, m.runtimeDir), "/"))
    case None => Escapes
    case Some(source) => Declared(m.ownership, source)
  }

  lemma CoversExactly(m: Mapping, runtime: string)
    ensures Covers(m, runtime) <==> runtime == m.runtimeDir || exists rest :: runtime == m.runtimeDir + "/" + rest
  {
    var prefix := m.runtimeDir + "/";
    if HasPrefix(runtime, prefix) {
      assert runtime == prefix + runtime[|prefix|..];
    }
  }

  /** What is behind a declared directory is joined to its source directory, slash and all in front of it left away. */
  lemma CarriedExactly(m: Mapping, rest: string, join: (string, string) -> Option<string>)
    ensures Carried(m, m.runtimeDir, join) ==
            match join(m.sourceDir, "") case None => Escapes case Some(source) => Declared(m.ownership, source)
    ensures Carried(m, m.runtimeDir + "/" + rest, join) ==
            match join(m.sourceDir, rest) case None => Escapes case Some(source) => Declared(m.ownership, source)
  {
    var runtime := m.runtimeDir + "/" + rest;
    assert runtime == m.runtimeDir + ("/" + rest);
    assert runtime[|m.runtimeDir|..] == "/" + rest && ("/" + rest)[1..] == rest;
    assert m.runtimeDir[|m.runtimeDir|..] == "";
  }

  /** An exact match wins; otherwise the deepest declared directory decides, if it is one tree's. */
  ghost predicate IsAnswer(mappings: seq<Mapping>, runtime: string, join: (string, string) -> Option<string>,
                           answer: Answer) {
    if exists m :: m in mappings && m.runtimePath == runtime then
      exists m :: m in mappings && LeastExact(mappings, runtime, m) && answer == Declared(m.ownership, m.sourcePath)
    else if !exists m :: m in mappings && Covers(m, runtime) then
      answer == Undeclared
    else if TwoTrees(mappings, runtime) then
      answer == Ambiguous
    else
      exists m :: Deepest(mappings, runtime, m) && answer == Carried(m, runtime, join)
  }

  /** Directories of different trees cover the path at the same depth. */
  ghost predicate TwoTrees(mappings: seq<Mapping>, runtime: string) {
    exists m, other :: Deepest(mappings, runtime, m) && Deepest(mappings, runtime, other) && !SameTree(m, other)
  }

  ghost predicate LeastExact(mappings: seq<Mapping>, runtime: string, m: Mapping) {
    && m.runtimePath == runtime
    && forall other | other in mappings && other.runtimePath == runtime :: !SourceBefore(other, m)
  }

  /** Directories of equal length that contain one path are one directory. */
  lemma SameLengthSameDir(a: Mapping, b: Mapping, runtime: string)
    requires Covers(a, runtime) && Covers(b, runtime) && |a.runtimeDir| == |b.runtimeDir|
    ensures a.runtimeDir == b.runtimeDir
  {
    assert a.runtimeDir == runtime[..|a.runtimeDir|];
    assert b.runtimeDir == runtime[..|b.runtimeDir|];
  }

  lemma ExactIsUnique(one: seq<Mapping>, two: seq<Mapping>, runtime: string, m: Mapping, n: Mapping)
    requires forall x :: x in one <==> x in two
    requires m in one && LeastExact(one, runtime, m) && n in two && LeastExact(two, runtime, n)
    ensures m.ownership == n.ownership && m.sourcePath == n.sourcePath
  {
    hide SourceBefore;
    SourcesCompare(m, n);
  }

  lemma DeepestIsUnique(one: seq<Mapping>, runtime: string, join: (string, string) -> Option<string>, m: Mapping,
                        n: Mapping)
    requires Deepest(one, runtime, m) && Deepest(one, runtime, n) && SameTree(m, n)
    ensures Carried(m, runtime, join) == Carried(n, runtime, join)
  {
    hide Covers, TrimPrefix;
    SameLengthSameDir(m, n, runtime);
  }

  /** The rule gives one answer, whatever order the sources are declared or sorted in. */
  lemma AnswerIsUnique(one: seq<Mapping>, two: seq<Mapping>, runtime: string,
                       join: (string, string) -> Option<string>, a: Answer, b: Answer)
    requires forall m :: m in one <==> m in two
    requires IsAnswer(one, runtime, join, a) && IsAnswer(two, runtime, join, b)
    ensures a == b
  {
    hide SourceBefore, Covers, LeastExact, Deepest, SameTree, Carried, TwoTrees;
    DeepestInBoth(one, two, runtime);
    if exists m :: m in one && m.runtimePath == runtime {
      var m :| m in one && LeastExact(one, runtime, m) && a == Declared(m.ownership, m.sourcePath);
      var n :| n in two && LeastExact(two, runtime, n) && b == Declared(n.ownership, n.sourcePath);
      ExactIsUnique(one, two, runtime, m, n);
    } else if (exists m :: m in one && Covers(m, runtime)) && !TwoTrees(one, runtime) {
      var m :| Deepest(one, runtime, m) && a == Carried(m, runtime, join);
      var n :| Deepest(two, runtime, n) && b == Carried(n, runtime, join);
      assert SameTree(m, n) by { OneTree(one, runtime, m, n); }
      DeepestIsUnique(one, runtime, join, m, n);
    }
  }

  lemma OneTree(mappings: seq<Mapping>, runtime: string, m: Mapping, n: Mapping)
    requires !TwoTrees(mappings, runtime) && Deepest(mappings, runtime, m) && Deepest(mappings, runtime, n)
    ensures SameTree(m, n)
  {
    hide Deepest, SameTree;
  }

  lemma DeepestInBoth(one: seq<Mapping>, two: seq<Mapping>, runtime: string)
    requires forall m :: m in one <==> m in two
    ensures forall m :: Deepest(one, runtime, m) <==> Deepest(two, runtime, m)
    ensures TwoTrees(one, runtime) == TwoTrees(two, runtime)
  {
    assert forall m :: Deepest(one, runtime, m) <==> Deepest(two, runtime, m);
    hide Deepest, SameTree;
  }

  // ---------------------------------------------------------------- the order

  predicate SourceBefore(a: Mapping, b: Mapping) {
    if a.ownership != b.ownership then Less(a.ownership, b.ownership) else Less(a.sourcePath, b.sourcePath)
  }

  /** Longer directories first, then by directory, ownership and source. */
  predicate Before(a: Mapping, b: Mapping) {
    if |a.runtimeDir| != |b.runtimeDir| then |a.runtimeDir| > |b.runtimeDir|
    else if a.runtimeDir != b.runtimeDir then Less(a.runtimeDir, b.runtimeDir)
    else SourceBefore(a, b)
  }

  ghost predicate Ordered(mappings: seq<Mapping>) {
    forall i, j | 0 <= i < j < |mappings| :: !Before(mappings[j], mappings[i])
  }

  lemma SourcesCompare(a: Mapping, b: Mapping)
    ensures !SourceBefore(a, b) && !SourceBefore(b, a) ==> a.ownership == b.ownership && a.sourcePath == b.sourcePath
  {
    LessTotal(a.ownership, b.ownership);
    LessTotal(a.sourcePath, b.sourcePath);
  }

  lemma BeforeAsymmetric(a: Mapping, b: Mapping)
    requires Before(a, b)
    ensures !Before(b, a)
  {
    LessAsymmetric(a.runtimeDir, b.runtimeDir);
    LessAsymmetric(a.ownership, b.ownership);
    LessAsymmetric(a.sourcePath, b.sourcePath);
  }

  /** Not being before carries over two steps. */
  lemma NotBeforeTransitive(a: Mapping, b: Mapping, c: Mapping)
    requires !Before(b, a) && !Before(c, b)
    ensures !Before(c, a)
  {
    hide Less;
    NotLessTransitive(a.runtimeDir, b.runtimeDir, c.runtimeDir);
    NotLessTransitive(a.ownership, b.ownership, c.ownership);
    NotLessTransitive(a.sourcePath, b.sourcePath, c.sourcePath);
    LessTotal(a.runtimeDir, b.runtimeDir);
    LessTotal(b.runtimeDir, c.runtimeDir);
    LessTotal(a.ownership, b.ownership);
    LessTotal(b.ownership, c.ownership);
  }

  // ---------------------------------------------------------------- the code

  /** The declared sources of the roots that are not only planned. */
  function Declarations(dir: string -> string, roots: seq<Root>): seq<Mapping> {
    if roots == [] then []
    else
      var r := roots[|roots| - 1];
      var rest := Declarations(dir, roots[..|roots| - 1]);
      if r.planned then rest
          else rest + [Mapping(r.ownership, r.source, dir(r.source), r.runtimePath, dir(r.runtimePath))]
  }

  lemma {:induction false} DirsAreOfPaths(dir: string -> string, roots: seq<Root>)
    ensures forall m | m in Declarations(dir, roots) :: m.runtimeDir == dir(m.runtimePath)
  {
    if roots != [] {
      DirsAreOfPaths(dir, roots[..|roots| - 1]);
    }
  }

  /** The declared sources, sorted. */
  method SortedDeclarations(dir: string -> string, roots: seq<Root>) returns (mappings: seq<Mapping>)
    ensures multiset(mappings) == multiset(Declarations(dir, roots))
    ensures Ordered(mappings)
  {
    hide Before;
    mappings := [];
    for i := 0 to |roots|
      invariant multiset(mappings) == multiset(Declarations(dir, roots[..i]))
      invariant Ordered(mappings)
    {
      var r := roots[i];
      assert roots[..i + 1][..i] == roots[..i];
      if !r.planned {
        mappings := Insert(mappings, Mapping(r.ownership, r.source, dir(r.source), r.runtimePath, dir(r.runtimePath)));
      }
    }
    assert roots[..|roots|] == roots;
  }

  method Insert(sorted: seq<Mapping>, m: Mapping) returns (result: seq<Mapping>)
    requires Ordered(sorted)
    ensures multiset(result) == multiset(sorted) + multiset{m}
    ensures Ordered(result)
  {
    hide Before;
    var at := |sorted|;
    while at > 0 && Before(m, sorted[at - 1])
      invariant 0 <= at <= |sorted|
      invariant forall k | at <= k < |sorted| :: !Before(sorted[k], m)
    {
      at := at - 1;
      BeforeAsymmetric(m, sorted[at]);
    }
    InsertedIsOrdered(sorted, m, at);
    result := sorted[..at] + [m] + sorted[at..];
    assert sorted == sorted[..at] + sorted[at..];
  }

  lemma InsertedIsOrdered(sorted: seq<Mapping>, m: Mapping, at: nat)
    requires Ordered(sorted) && at <= |sorted|
    requires at > 0 ==> !Before(m, sorted[at - 1])
    requires forall k | at <= k < |sorted| :: !Before(sorted[k], m)
    ensures Ordered(sorted[..at] + [m] + sorted[at..])
  {
    hide Before;
    forall k | 0 <= k < at ensures !Before(m, sorted[k]) {
      if k < at - 1 {
        NotBeforeTransitive(sorted[k], sorted[at - 1], m);
      }
    }
  }

  /** The first sorted exact match; otherwise one pass that stops below the first directory that contains the path. */
  method DeclaredRuntimeSource(mappings: seq<Mapping>, dir: string -> string, runtime: string,
                               join: (string, string) -> Option<string>)
    returns (answer: Answer)
    requires Ordered(mappings)
    requires forall m | m in mappings :: m.runtimeDir == dir(m.runtimePath)
    ensures IsAnswer(mappings, runtime, join, answer)
  {
    hide Less, HasPrefix, TrimPrefix, Covers, Carried;
    for i := 0 to |mappings|
      invariant forall k | 0 <= k < i :: mappings[k].runtimePath != runtime
    {
      if runtime == mappings[i].runtimePath {
        assert mappings[i] in mappings;
        FirstIsLeast(mappings, dir, runtime, i);
        return Declared(mappings[i].ownership, mappings[i].sourcePath);
      }
    }
    var selected: Option<Mapping> := None;
    var i := 0;
    while i < |mappings|
      invariant 0 <= i <= |mappings|
      invariant selected.None? ==> forall k | 0 <= k < i :: !Covers(mappings[k], runtime)
      invariant selected.Some? ==>
                  Deepest(mappings, runtime, selected.value) && AllAgree(mappings[..i], runtime, selected.value)
    {
      var m := mappings[i];
      assert m in mappings && mappings[..i + 1] == mappings[..i] + [m];
      if Covers(m, runtime) {
        if selected.Some? && selected.value.runtimeDir != m.runtimeDir {
          RestIsShallower(mappings, runtime, selected.value, i);
          break;
        }
        if selected.Some? && !SameTree(selected.value, m) {
          assert Deepest(mappings, runtime, m);
          return Ambiguous;
        }
        if selected.None? {
          FirstIsDeepest(mappings, runtime, i);
        }
        selected := Some(m);
      }
      i := i + 1;
    }
    if selected.None? {
      return Undeclared;
    }
    assert i == |mappings| ==> mappings[..i] == mappings;
    assert AllAgree(mappings, runtime, selected.value);
    answer := Carried(selected.value, runtime, join);
  }

  /** Every mapping listed that is as deep as the selected one is of its tree. */
  ghost predicate AllAgree(listed: seq<Mapping>, runtime: string, selected: Mapping) {
    forall m | m in listed && Covers(m, runtime) && |m.runtimeDir| == |selected.runtimeDir| :: SameTree(m, selected)
  }

  lemma FirstIsLeast(mappings: seq<Mapping>, dir: string -> string, runtime: string, i: nat)
    requires Ordered(mappings) && i < |mappings| && mappings[i].runtimePath == runtime
    requires forall m | m in mappings :: m.runtimeDir == dir(m.runtimePath)
    requires forall k | 0 <= k < i :: mappings[k].runtimePath != runtime
    ensures LeastExact(mappings, runtime, mappings[i])
  {
    hide Less, HasPrefix, Covers;
    forall other | other in mappings && other.runtimePath == runtime ensures !SourceBefore(other, mappings[i]) {
      var j :| 0 <= j < |mappings| && mappings[j] == other;
      assert mappings[i] in mappings;
      if j == i {
        LessIrreflexive(other.sourcePath);
      } else {
        assert !Before(mappings[j], mappings[i]);
      }
    }
  }

  lemma FirstIsDeepest(mappings: seq<Mapping>, runtime: string, i: nat)
    requires Ordered(mappings) && i < |mappings| && Covers(mappings[i], runtime)
    requires forall k | 0 <= k < i :: !Covers(mappings[k], runtime)
    ensures Deepest(mappings, runtime, mappings[i])
    ensures AllAgree(mappings[..i + 1], runtime, mappings[i])
  {
    hide Less, HasPrefix, Covers;
  }

  lemma RestIsShallower(mappings: seq<Mapping>, runtime: string, selected: Mapping, i: nat)
    requires Ordered(mappings) && i < |mappings| && Covers(mappings[i], runtime)
    requires Deepest(mappings, runtime, selected) && mappings[i].runtimeDir != selected.runtimeDir
    requires AllAgree(mappings[..i], runtime, selected)
    ensures AllAgree(mappings, runtime, selected)
  {
    hide Less, HasPrefix, Covers;
    if |mappings[i].runtimeDir| == |selected.runtimeDir| {
      SameLengthSameDir(mappings[i], selected, runtime);
    }
    forall m | m in mappings && Covers(m, runtime) && |m.runtimeDir| == |selected.runtimeDir|
      ensures SameTree(m, selected)
    {
      var j :| 0 <= j < |mappings| && mappings[j] == m;
      if j < i {
        assert m in mappings[..i];
      }
    }
  }

  lemma AnswerIgnoresOrder(one: seq<Mapping>, two: seq<Mapping>, runtime: string,
                           join: (string, string) -> Option<string>, answer: Answer)
    requires multiset(one) == multiset(two) && IsAnswer(one, runtime, join, answer)
    ensures IsAnswer(two, runtime, join, answer)
  {
    hide SourceBefore, HasPrefix, Covers, Carried;
    assert forall m :: m in one <==> m in multiset(one);
    assert forall m :: m in two <==> m in multiset(two);
    assert forall m: Mapping :: m in one <==> m in two;
    DeepestInBoth(one, two, runtime);
    assert forall m :: LeastExact(one, runtime, m) <==> LeastExact(two, runtime, m);
  }

  /** A runtime path looked up among the declared sources, sorted once. */
  method ResolveRuntimeSource(dir: string -> string, roots: seq<Root>, runtime: string,
                              join: (string, string) -> Option<string>)
    returns (answer: Answer)
    ensures IsAnswer(Declarations(dir, roots), runtime, join, answer)
  {
    hide IsAnswer;
    var mappings := SortedDeclarations(dir, roots);
    DirsAreOfPaths(dir, roots);
    assert forall m :: m in mappings <==> m in multiset(mappings);
    assert forall m :: m in Declarations(dir, roots) <==> m in multiset(Declarations(dir, roots));
    answer := DeclaredRuntimeSource(mappings, dir, runtime, join);
    AnswerIgnoresOrder(mappings, Declarations(dir, roots), runtime, join, answer);
  }
}
