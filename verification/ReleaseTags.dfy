/**
 Release tags v0.<date>.<revision>: the two searches for the newest one, and the
 choice of the next revision.
 */
module ReleaseTags {
  import opened Wrappers
  import opened Strings

  const MAX_INT: int := 0x7fff_ffff_ffff_ffff
  const TAG_PREFIX := "v0."

  /** strconv.Atoi on digits: fails beyond the 64-bit range. */
  function Atoi(digits: string): Option<nat>
    requires forall c | c in digits :: IsDigit(c)
  {
    if Value(digits) <= MAX_INT then Some(Value(digits)) else None
  }

  datatype Parts = Parts(date: string, revision: string)

  /** The submatches of ^v0\.(\d{8})\.(\d+)$. */
  function MatchRelease(tag: string): (m: Option<Parts>)
    ensures m.Some? ==> |m.value.date| == 8 && IsDigits(m.value.date) && IsDigits(m.value.revision)
    ensures m.Some? ==> tag == TAG_PREFIX + m.value.date + "." + m.value.revision
  {
    if |tag| > 12 && tag[..3] == TAG_PREFIX && IsDigits(tag[3..11]) && tag[11] == '.' && IsDigits(tag[12..])
    then Some(Parts(tag[3..11], tag[12..]))
    else None
  }

  /** A tag line that names a release of this line, with a revision in range. */
  predicate IsRelease(line: string) {
    var m := MatchRelease(TrimSpace(line));
    m.Some? && Atoi(m.value.revision).Some?
  }

  function Date(line: string): (d: nat)
    requires IsRelease(line)
    ensures d <= MAX_INT
  {
    var date := MatchRelease(TrimSpace(line)).value.date;
    ValueBound(date);
    Value(date)
  }

  function Revision(line: string): nat
    requires IsRelease(line)
  {
    Value(MatchRelease(TrimSpace(line)).value.revision)
  }

  predicate Later(a: string, b: string)
    requires IsRelease(a) && IsRelease(b)
  {
    Date(a) > Date(b) || (Date(a) == Date(b) && Revision(a) > Revision(b))
  }

  /** Among the first k lines, no release is later than the one at index i, and none before it is as late. */
  ghost predicate IsNewestBelow(lines: seq<string>, k: nat, i: int)
    requires k <= |lines|
  {
    && 0 <= i < k && IsRelease(lines[i])
    && (forall j | 0 <= j < k && IsRelease(lines[j]) :: !Later(lines[j], lines[i]))
    && (forall j | 0 <= j < i && IsRelease(lines[j]) :: Later(lines[i], lines[j]))
  }

  /** `tag` is the newest release of the list, or empty when the list has none. */
  ghost predicate IsNewest(lines: seq<string>, tag: string) {
    if tag == "" then forall i | 0 <= i < |lines| :: !IsRelease(lines[i])
    else exists i :: IsNewestBelow(lines, |lines|, i) && tag == TrimSpace(lines[i])
  }

  /** Both searches answer with the one newest release, so they answer alike. */
  lemma NewestIsUnique(lines: seq<string>, a: string, b: string)
    requires IsNewest(lines, a) && IsNewest(lines, b)
    ensures a == b
  {
    if a != "" && b != "" {
      var i :| IsNewestBelow(lines, |lines|, i) && a == TrimSpace(lines[i]);
      var j :| IsNewestBelow(lines, |lines|, j) && b == TrimSpace(lines[j]);
    }
  }

  /** A search that has looked at the first k lines holds their newest release, the one of line `at`. */
  ghost predicate Holds(lines: seq<string>, k: nat, newest: string, at: int)
    requires k <= |lines|
  {
    if newest == "" then forall i | 0 <= i < k :: !IsRelease(lines[i])
    else IsNewestBelow(lines, k, at) && newest == TrimSpace(lines[at])
  }

  lemma Passes(lines: seq<string>, k: nat, newest: string, at: int)
    requires k < |lines| && Holds(lines, k, newest, at)
    requires IsRelease(lines[k]) ==> newest != "" && !Later(lines[k], lines[at])
    ensures Holds(lines, k + 1, newest, at)
  {
    hide TrimSpace, MatchRelease, Value;
  }

  lemma Takes(lines: seq<string>, k: nat, newest: string, at: int)
    requires k < |lines| && Holds(lines, k, newest, at)
    requires IsRelease(lines[k]) && (newest == "" || Later(lines[k], lines[at]))
    ensures Holds(lines, k + 1, TrimSpace(lines[k]), k) && TrimSpace(lines[k]) != ""
  {
    hide TrimSpace, Value;
  }

  /** The highest date and revision among tag lines, comparing dates as numbers. */
  method NewestReleaseTag(text: string) returns (newest: string)
    ensures IsNewest(Split(text, '\n'), newest)
  {
    hide TrimSpace, MatchRelease, Value;
    var lines := Split(text, '\n');
    var newestDate: int, newestRevision: int := -1, -1;
    newest := "";
    ghost var at := -1;
    for k := 0 to |lines|
      invariant Holds(lines, k, newest, at)
      invariant if newest == "" then newestDate == -1
                else newestDate == Date(lines[at]) && newestRevision == Revision(lines[at])
    {
      var line := TrimSpace(lines[k]);
      var m := MatchRelease(line);
      if m.Some? {
        var date, revision := Atoi(m.value.date), Atoi(m.value.revision);
        DateInRange(m.value.date);
        if date.Some? && revision.Some?
            && (date.value > newestDate || (date.value == newestDate && revision.value > newestRevision)) {
          Takes(lines, k, newest, at);
          newest, newestDate, newestRevision := line, date.value, revision.value;
          at := k;
        } else {
          Passes(lines, k, newest, at);
        }
      } else {
        Passes(lines, k, newest, at);
      }
    }
  }

  lemma DateInRange(date: string)
    requires |date| == 8 && IsDigits(date)
    ensures Value(date) <= MAX_INT
  {
    ValueBound(date);
  }

  /** The same search over a list of tags, comparing dates as strings. */
  method LatestReleaseTag(tags: seq<string>) returns (latest: string, ok: bool)
    ensures IsNewest(tags, latest) && (ok <==> latest != "")
  {
    hide TrimSpace, MatchRelease, Value;
    var latestDate: string, latestRev: int := "", -1;
    latest := "";
    ghost var at := -1;
    for k := 0 to |tags|
      invariant Holds(tags, k, latest, at)
      invariant if latest == "" then latestDate == ""
                else
                  && |latestDate| == 8 && IsDigits(latestDate) && Value(latestDate) == Date(tags[at])
                  && latestRev == Revision(tags[at])
    {
      var tag := TrimSpace(tags[k]);
      var m := MatchRelease(tag);
      if m.Some? && Atoi(m.value.revision).Some? {
        var rev := Atoi(m.value.revision).value;
        if latest != "" {
          LessIsNumeric(latestDate, m.value.date);
        }
        if Less(latestDate, m.value.date) || (m.value.date == latestDate && rev > latestRev) {
          Takes(tags, k, latest, at);
          latest, latestDate, latestRev := tag, m.value.date, rev;
          at := k;
        } else {
          Passes(tags, k, latest, at);
        }
      } else {
        Passes(tags, k, latest, at);
      }
    }
    ok := latest != "";
  }

  // ---------------------------------------------------------------- the next revision

  /** Zero or more non-empty path segments, each followed by a slash. */
  predicate IsModulePath(s: string) {
    && (s != "" ==> s[|s| - 1] == '/')
    && forall i | 0 <= i < |s| && s[i] == '/' :: i > 0 && s[i - 1] != '/'
  }

  /** Where the digits at the end of a string start. */
  function DigitsStart(s: string): (i: nat)
    ensures i <= |s|
    ensures forall k | i <= k < |s| :: IsDigit(s[k])
    ensures i > 0 ==> !IsDigit(s[i - 1])
  {
    if s != "" && IsDigit(s[|s| - 1]) then DigitsStart(s[..|s| - 1]) else |s|
  }

  /** The submatch of ^(?:[^/]+/)*v0\.<date>\.(\d+)$. */
  function MatchRevision(date: string, tag: string): (m: Option<string>)
    ensures m.Some? ==> IsDigits(m.value)
  {
    var head, digits := tag[..DigitsStart(tag)], tag[DigitsStart(tag)..];
    var middle := TAG_PREFIX + date + ".";
    if digits != "" && HasSuffix(head, middle) && IsModulePath(head[..|head| - |middle|]) then Some(digits) else None
  }

  /** The lines list revision n of the date, possibly under a module path, whether or not it fits an int. */
  ghost predicate Lists(date: string, lines: seq<string>, n: nat) {
    exists i :: 0 <= i < |lines| && LineLists(date, lines[i], n)
  }

  predicate LineLists(date: string, line: string, n: nat) {
    var m := MatchRevision(date, TrimSpace(line));
    m.Some? && Value(m.value) == n
  }

  /** Adding one to an int64. */
  function Increment(n: int): int {
    if n == MAX_INT then -MAX_INT - 1 else n + 1
  }

  /** The highest listed revision that fits an int, or -1. */
  ghost predicate IsHighest(date: string, lines: seq<string>, max: int) {
    && (max == -1 || (0 <= max <= MAX_INT && Lists(date, lines, max)))
    && forall n: nat | Lists(date, lines, n) && n <= MAX_INT :: n <= max
  }

  lemma ListsMore(date: string, lines: seq<string>, k: nat)
    requires k < |lines|
    ensures forall n: nat :: Lists(date, lines[..k + 1], n) <==>
            Lists(date, lines[..k], n) || LineLists(date, lines[k], n)
  {
    hide LineLists;
    forall n: nat ensures Lists(date, lines[..k + 1], n) <==>
        Lists(date, lines[..k], n) || LineLists(date, lines[k], n) {
      assert lines[..k + 1][k] == lines[k];
      assert forall i | 0 <= i < k :: lines[..k + 1][i] == lines[..k][i];
    }
  }

  /** How one more line changes the highest revision. */
  lemma HighestMore(date: string, lines: seq<string>, k: nat, max: int)
    requires k < |lines| && IsHighest(date, lines[..k], max)
    ensures var m := MatchRevision(date, TrimSpace(lines[k]));
            IsHighest(date, lines[..k + 1],
                      if m.Some? && Atoi(m.value).Some? && Value(m.value) > max then Value(m.value) else max)
  {
    hide Split, TrimSpace, MatchRevision, Value, Lists;
    ListsMore(date, lines, k);
    var m := MatchRevision(date, TrimSpace(lines[k]));
    var max' := if m.Some? && Atoi(m.value).Some? && Value(m.value) > max then Value(m.value) else max;
    var listed := lines[..k + 1];
    forall n: nat | Lists(date, listed, n) && n <= MAX_INT ensures n <= max' {
      assert Lists(date, lines[..k], n) || LineLists(date, lines[k], n);
    }
    if max' == max {
      assert max == -1 || Lists(date, lines[..k], max);
    } else {
      assert LineLists(date, lines[k], max');
    }
  }

  method NextRevisionFromTags(date: string, tags: string) returns (next: int)
    ensures exists max :: IsHighest(date, Split(tags, '\n'), max) && next == Increment(max)
  {
    hide Split, TrimSpace, MatchRevision, Value, Lists, IsHighest;
    var lines := Split(tags, '\n');
    var maxRev: int := -1;
    NothingListed(date, lines[..0]);
    for k := 0 to |lines|
      invariant IsHighest(date, lines[..k], maxRev)
    {
      HighestMore(date, lines, k, maxRev);
      var m := MatchRevision(date, TrimSpace(lines[k]));
      if m.Some? {
        var rev := Atoi(m.value);
        if rev.Some? && rev.value > maxRev {
          maxRev := rev.value;
        }
      }
    }
    assert lines[..|lines|] == lines;
    next := Increment(maxRev);
  }

  lemma NothingListed(date: string, lines: seq<string>)
    requires lines == []
    ensures IsHighest(date, lines, -1)
  {
  }

  /** The chosen revision exceeds every listed one exactly when none has reached the top of the int range. */
  lemma NextRevisionExceedsAll(date: string, lines: seq<string>, max: int)
    requires IsHighest(date, lines, max)
    ensures (forall n: nat | Lists(date, lines, n) :: n < Increment(max)) <==>
            (forall n: nat | Lists(date, lines, n) :: n < MAX_INT)
  {
    hide Lists;
    if max == MAX_INT {
      assert Lists(date, lines, max);
    }
  }

  function FormatInt(n: int): string {
    if n < 0 then "-" + FormatNat(-n) else FormatNat(n)
  }

  function NewTag(date: string, revision: int): string {
    TAG_PREFIX + date + "." + FormatInt(revision)
  }

  /** A tag of the date lists its own revision. */
  lemma TagListsRevision(date: string, digits: string)
    requires IsDigits(digits)
    ensures MatchRevision(date, TAG_PREFIX + date + "." + digits) == Some(digits)
  {
    var middle := TAG_PREFIX + date + ".";
    var tag := middle + digits;
    assert tag[|middle| - 1] == '.';
    assert forall k | |middle| <= k < |tag| :: tag[k] in digits;
    assert DigitsStart(tag) == |middle|;
    assert tag[..|middle|] == middle && tag[|middle|..] == digits;
  }

  lemma NewTagIsTrimmed(date: string, n: nat)
    ensures TrimSpace(NewTag(date, n)) == NewTag(date, n)
  {
    var digits := FormatNat(n);
    var tag := NewTag(date, n);
    assert tag[|tag| - 1] == digits[|digits| - 1];
    assert digits[|digits| - 1] in digits;
    TrimmedIsFixed(tag);
  }

  lemma SameTagIsListed(date: string, line: string, n: nat)
    ensures TrimSpace(line) == NewTag(date, n) ==> LineLists(date, line, n)
  {
    TagListsRevision(date, FormatNat(n));
    ValueOfFormat(n);
  }

  /** A list that holds the top revision: the next one wraps around and exceeds nothing. */
  lemma TopRevisionWraps(date: string)
    ensures var lines := [NewTag(date, MAX_INT)];
            && IsHighest(date, lines, MAX_INT)
            && Lists(date, lines, MAX_INT) && Increment(MAX_INT) == -0x8000_0000_0000_0000 < MAX_INT
            && NewTag(date, Increment(MAX_INT)) == "v0." + date + ".-" + FormatNat(0x8000_0000_0000_0000)
  {
    hide TrimSpace, MatchRevision, FormatNat;
    assert NewTag(date, Increment(MAX_INT)) == TAG_PREFIX + date + "." + ("-" + FormatNat(0x8000_0000_0000_0000));
    var lines := [NewTag(date, MAX_INT)];
    NewTagIsTrimmed(date, MAX_INT);
    SameTagIsListed(date, lines[0], MAX_INT);
  }

  /** Barring the overflow, the new tag is none of the listed ones. */
  lemma NewTagIsFresh(date: string, lines: seq<string>, max: int)
    requires IsHighest(date, lines, max) && max < MAX_INT
    ensures forall i | 0 <= i < |lines| :: TrimSpace(lines[i]) != NewTag(date, Increment(max))
  {
    hide TrimSpace, MatchRevision;
    var n: nat := max + 1;
    forall i | 0 <= i < |lines| ensures TrimSpace(lines[i]) != NewTag(date, n) {
      SameTagIsListed(date, lines[i], n);
      assert LineLists(date, lines[i], n) ==> Lists(date, lines, n);
    }
  }

  lemma PrintedReleaseMatches(date: string, digits: string)
    requires |date| == 8 && IsDigits(date) && IsDigits(digits)
    ensures MatchRelease(TAG_PREFIX + date + "." + digits) == Some(Parts(date, digits))
  {
    hide IsDigits;
    var tag := TAG_PREFIX + date + "." + digits;
    assert tag[..3] == TAG_PREFIX && tag[3..11] == date && tag[11] == '.' && tag[12..] == digits;
    assert digits != "" by { NotEmpty(digits); }
  }

  lemma NotEmpty(digits: string)
    requires IsDigits(digits)
    ensures digits != ""
  {
  }

  lemma NewTagIsRelease(date: string, n: nat)
    requires |date| == 8 && IsDigits(date) && n <= MAX_INT
    ensures IsRelease(NewTag(date, n)) && Date(NewTag(date, n)) == Value(date) && Revision(NewTag(date, n)) == n
  {
    hide TrimSpace, MatchRelease, Value, FormatNat;
    NewTagIsTrimmed(date, n);
    ValueOfFormat(n);
    PrintedReleaseMatches(date, FormatNat(n));
  }

  lemma ReleaseOfDateIsListed(date: string, line: string)
    requires |date| == 8 && IsDigits(date) && IsRelease(line) && Date(line) == Value(date)
    ensures LineLists(date, line, Revision(line))
  {
    hide TrimSpace, MatchRelease, Value, MatchRevision;
    var m := MatchRelease(TrimSpace(line)).value;
    LessIsNumeric(m.date, date);
    TagListsRevision(date, m.revision);
  }

  lemma NewTagIsLater(date: string, lines: seq<string>, max: int, i: nat)
    requires |date| == 8 && IsDigits(date) && IsHighest(date, lines, max) && max < MAX_INT
    requires i < |lines| && IsRelease(lines[i]) && Date(lines[i]) <= Value(date)
    ensures IsRelease(NewTag(date, max + 1)) && Later(NewTag(date, max + 1), lines[i])
  {
    hide TrimSpace, MatchRelease, Value, MatchRevision, LineLists, FormatInt;
    NewTagIsRelease(date, max + 1);
    if Date(lines[i]) == Value(date) {
      ReleaseOfDateIsListed(date, lines[i]);
      assert Lists(date, lines, Revision(lines[i]));
    }
  }

  /** Barring the overflow, the new tag becomes the newest exactly when no listed release has a later date. */
  lemma NewTagIsNewest(date: string, lines: seq<string>, max: int)
    requires |date| == 8 && IsDigits(date) && IsHighest(date, lines, max) && max < MAX_INT
    ensures IsNewest(lines + [NewTag(date, Increment(max))], NewTag(date, Increment(max))) <==>
            forall i | 0 <= i < |lines| && IsRelease(lines[i]) :: Date(lines[i]) <= Value(date)
  {
    hide TrimSpace, IsRelease, Date, Revision, Value, Lists, NewTag;
    var tag := NewTag(date, max + 1);
    var all := lines + [tag];
    NewTagIsRelease(date, max + 1);
    NewTagIsTrimmed(date, max + 1);
    if forall i | 0 <= i < |lines| && IsRelease(lines[i]) :: Date(lines[i]) <= Value(date) {
      forall i | 0 <= i < |lines| && IsRelease(lines[i]) ensures Later(tag, lines[i]) {
        NewTagIsLater(date, lines, max, i);
      }
      assert all[|lines|] == tag;
      assert IsNewestBelow(all, |all|, |lines|);
      TagIsNotEmpty(date, max + 1);
    } else {
      var j :| 0 <= j < |lines| && IsRelease(lines[j]) && Date(lines[j]) > Value(date);
      assert all[j] == lines[j];
      TagIsNotEmpty(date, max + 1);
      forall i | 0 <= i < |all| && TrimSpace(all[i]) == tag ensures !IsNewestBelow(all, |all|, i) {
        SameTagSameDate(all[i], tag);
        assert Later(all[j], all[i]);
      }
    }
  }

  lemma TagIsNotEmpty(date: string, n: nat)
    ensures NewTag(date, n) != ""
  {
  }

  lemma SameTagSameDate(line: string, tag: string)
    requires TrimSpace(line) == tag && TrimSpace(tag) == tag && IsRelease(tag)
    ensures IsRelease(line) && Date(line) == Date(tag)
  {
  }

  // ---------------------------------------------------------------- merging tag lists

  /** The lines of all sets in order. */
  function AllLines(sets: seq<string>): seq<string> {
    if sets == [] then [] else Split(sets[0], '\n') + AllLines(sets[1..])
  }

  /** Appends to `kept` the trimmed lines that are neither empty nor there already. */
  function Keep(kept: seq<string>, lines: seq<string>): seq<string>
    decreases |lines|
  {
    if lines == [] then kept
    else
      var line := TrimSpace(lines[0]);
      Keep(if line == "" || line in kept then kept else kept + [line], lines[1..])
  }

  lemma {:induction false} KeepConcat(kept: seq<string>, a: seq<string>, b: seq<string>)
    ensures Keep(kept, a + b) == Keep(Keep(kept, a), b)
    decreases |a|
  {
    if a == [] {
      assert a + b == b;
    } else {
      assert (a + b)[1..] == a[1..] + b;
      var line := TrimSpace(a[0]);
      KeepConcat(if line == "" || line in kept then kept else kept + [line], a[1..], b);
    }
  }

  ghost predicate NoRepeats(s: seq<string>) {
    forall i, j | 0 <= i < j < |s| :: s[i] != s[j]
  }

  /** Every non-empty line is kept, once, and nothing else is. */
  lemma {:induction false} KeepMeaning(kept: seq<string>, lines: seq<string>)
    requires NoRepeats(kept)
    ensures NoRepeats(Keep(kept, lines)) && kept <= Keep(kept, lines)
    ensures forall t :: t in Keep(kept, lines) <==>
            t in kept || (t != "" && exists i :: 0 <= i < |lines| && TrimSpace(lines[i]) == t)
    decreases |lines|
  {
    hide TrimSpace;
    if lines != [] {
      var line := TrimSpace(lines[0]);
      var kept' := if line == "" || line in kept then kept else kept + [line];
      KeepMeaning(kept', lines[1..]);
      forall t ensures t in Keep(kept, lines) <==>
          t in kept || (t != "" && exists i :: 0 <= i < |lines| && TrimSpace(lines[i]) == t) {
        if i :| 0 <= i < |lines| && TrimSpace(lines[i]) == t && i > 0 {
          assert lines[1..][i - 1] == lines[i];
        }
        if i :| 0 <= i < |lines| - 1 && TrimSpace(lines[1..][i]) == t {
          assert lines[i + 1] == lines[1..][i];
        }
      }
    }
  }

  method MergeTagLines(sets: seq<string>) returns (merged: string)
    ensures merged == Join(Keep([], AllLines(sets)), "\n")
  {
    hide TrimSpace, Split;
    var seen: set<string> := {};
    var lines: seq<string> := [];
    AllLinesUpTo(sets, 0);
    for s := 0 to |sets|
      invariant lines == Keep([], AllLines(sets[..s])) && forall l :: l in seen <==> l in lines
    {
      var tags := Split(sets[s], '\n');
      ghost var before := lines;
      for k := 0 to |tags|
        invariant lines == Keep(before, tags[..k]) && forall l :: l in seen <==> l in lines
      {
        var line := TrimSpace(tags[k]);
        KeepConcat(before, tags[..k], [tags[k]]);
        assert tags[..k + 1] == tags[..k] + [tags[k]];
        if line != "" && line !in seen {
          seen := seen + {line};
          lines := lines + [line];
        }
      }
      assert tags[..|tags|] == tags;
      AllLinesUpTo(sets, s);
      KeepConcat([], AllLines(sets[..s]), tags);
    }
    assert sets[..|sets|] == sets;
    merged := Join(lines, "\n");
  }

  lemma {:induction false} AllLinesUpTo(sets: seq<string>, s: nat)
    requires s <= |sets|
    ensures s < |sets| ==> AllLines(sets[..s + 1]) == AllLines(sets[..s]) + Split(sets[s], '\n')
    ensures AllLines(sets[..0]) == []
    decreases s
  {
    if 0 < s < |sets| {
      AllLinesUpTo(sets[1..], s - 1);
      assert sets[..s + 1][1..] == sets[1..][..s] && sets[..s][1..] == sets[1..][..s - 1];
    } else if s == 0 < |sets| {
      assert sets[..1] == [sets[0]] && sets[..1][1..] == [];
    }
  }

  /**
   Reading the merged text back gives the distinct non-empty lines of all sets,
   so a revision chosen from it has seen every set.
   */
  lemma MergedListsAll(date: string, sets: seq<string>, n: nat)
    ensures Lists(date, Split(Join(Keep([], AllLines(sets)), "\n"), '\n'), n) <==> Lists(date, AllLines(sets), n)
  {
    hide TrimSpace, MatchRevision, Split, Join, Value;
    var lines := AllLines(sets);
    var kept := Keep([], lines);
    KeepMeaning([], lines);
    KeptLines(sets);
    EmptyLineListsNothing(date);
    if kept == [] {
      EmptyJoin();
    } else {
      SplitJoin(kept, '\n');
    }
    var back := Split(Join(kept, "\n"), '\n');
    if i :| 0 <= i < |lines| && LineLists(date, lines[i], n) {
      assert TrimSpace(lines[i]) in kept;
      var k :| 0 <= k < |kept| && kept[k] == TrimSpace(lines[i]);
      assert LineLists(date, back[k], n);
    }
    if k :| 0 <= k < |back| && LineLists(date, back[k], n) {
      assert back[k] in kept;
      var i :| 0 <= i < |lines| && TrimSpace(lines[i]) == back[k];
      assert LineLists(date, lines[i], n);
    }
  }

  lemma EmptyJoin()
    ensures Split(Join([], "\n"), '\n') == [""]
  {
  }

  lemma EmptyLineListsNothing(date: string)
    ensures TrimSpace("") == "" && MatchRevision(date, "") == None
  {
  }

  /** Kept lines are trimmed pieces of lines: no line break inside, and trimming again changes nothing. */
  lemma KeptLines(sets: seq<string>)
    ensures forall t | t in Keep([], AllLines(sets)) :: '\n' !in t && TrimSpace(t) == t
  {
    hide TrimSpace, Split;
    var lines := AllLines(sets);
    KeepMeaning([], lines);
    NoBreaks(sets);
    forall t | t in Keep([], lines) ensures '\n' !in t && TrimSpace(t) == t {
      var i :| 0 <= i < |lines| && TrimSpace(lines[i]) == t;
      TrimmedIsFixed(t);
      assert lines[i] in lines;
    }
  }

  lemma {:induction false} NoBreaks(sets: seq<string>)
    ensures forall l | l in AllLines(sets) :: '\n' !in l
  {
    if sets != [] {
      NoBreaks(sets[1..]);
    }
  }

  lemma HighestOfMerged(date: string, sets: seq<string>, max: int)
    requires IsHighest(date, Split(Join(Keep([], AllLines(sets)), "\n"), '\n'), max)
    ensures IsHighest(date, AllLines(sets), max)
  {
    hide TrimSpace, Split, Join, Lists, AllLines, Keep;
    var merged := Split(Join(Keep([], AllLines(sets)), "\n"), '\n');
    forall n: nat ensures Lists(date, merged, n) <==> Lists(date, AllLines(sets), n) {
      MergedListsAll(date, sets, n);
    }
  }

  /**
   The tag a release creates, from the tag lines known locally and remotely. As
   long as no listed revision of the date is at the top of the int range, the
   tag is on neither list, and it is the newest release unless a listed one
   carries a later date.
   */
  method ChooseReleaseTag(date: string, localTags: string, remoteTags: string) returns (tag: string)
    requires |date| == 8 && IsDigits(date)
    ensures var lines := AllLines([localTags, remoteTags]);
            (forall n: nat | Lists(date, lines, n) :: n < MAX_INT) ==>
              && (forall i | 0 <= i < |lines| :: TrimSpace(lines[i]) != tag)
              && (IsNewest(lines + [tag], tag) <==>
                    forall i | 0 <= i < |lines| && IsRelease(lines[i]) :: Date(lines[i]) <= Value(date))
  {
    hide TrimSpace, Split, Join, Lists, AllLines, Keep, IsRelease, Date, IsNewest;
    var merged := MergeTagLines([localTags, remoteTags]);
    var revision := NextRevisionFromTags(date, merged);
    tag := NewTag(date, revision);
    ghost var lines := AllLines([localTags, remoteTags]);
    ghost var max :| IsHighest(date, Split(merged, '\n'), max) && revision == Increment(max);
    HighestOfMerged(date, [localTags, remoteTags], max);
    if max < MAX_INT {
      NewTagIsFresh(date, lines, max);
      NewTagIsNewest(date, lines, max);
    } else {
      assert Lists(date, lines, max);
    }
  }
}
