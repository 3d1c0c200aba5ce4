/**
 Local images and their references put together from parts: which images are
 valid, and which texts are read as which image.
 */
module ImageParts {
  import opened Wrappers
  import opened Strings
  import opened ImageRef

  // ---------------------------------------------------------------- the parts of a valid image

  predicate IsRun(s: string) {
    s != "" && forall c | c in s :: 'a' <= c <= 'z' || '0' <= c <= '9'
  }

  function Chained(runs: seq<string>, marks: seq<char>): string
    requires |runs| == |marks| + 1
  {
    if marks == [] then runs[0] else runs[0] + [marks[0]] + Chained(runs[1..], marks[1..])
  }

  /** Runs of small letters and digits with one dot, underscore or hyphen between any two. */
  ghost predicate IsChain(s: string) {
    exists runs, marks ::
      && |runs| == |marks| + 1 && s == Chained(runs, marks)
      && (forall r | r in runs :: IsRun(r)) && (forall m | m in marks :: m in {'.', '_', '-'})
  }

  predicate IsHash(s: string) {
    |s| == 12 && forall c | c in s :: '0' <= c <= '9' || 'a' <= c <= 'f'
  }

  predicate IsLetterOrDigit(c: char) {
    'a' <= c <= 'z' || 'A' <= c <= 'Z' || '0' <= c <= '9'
  }

  /** A letter or digit, and any of these and of the marks behind it; the delimiter of the recipe nowhere. */
  ghost predicate IsVersion(s: string) {
    && (exists first, more :: s == [first] + more && IsLetterOrDigit(first) &&
          forall c | c in more :: IsLetterOrDigit(c) || c in {'.', '_', '-'})
    && !exists a, b :: s == a + "-recipe-" + b
  }

  /** Each identity carries what it is made from, and nothing else. */
  ghost predicate IsIdentified(image: LocalImage) {
    || (image.identity == "git" && IsHash(image.revision) && image.recipe == "" && image.upstreamVersion == "")
    || (image.identity == "recipe" && image.revision == "" && IsHash(image.recipe) && image.upstreamVersion == "")
    || (image.identity == "upstream" && image.revision == "" && IsHash(image.recipe)
        && IsVersion(image.upstreamVersion))
  }

  lemma {:induction false} ChainOfComponent(s: string) returns (runs: seq<string>, marks: seq<char>)
    requires IsComponent(s)
    ensures |runs| == |marks| + 1 && s == Chained(runs, marks)
    ensures (forall r | r in runs :: IsRun(r)) && (forall m | m in marks :: m in {'.', '_', '-'})
    decreases |s|
  {
    var i := FirstMark(s, 0);
    if i == |s| {
      runs, marks := [s], [];
      assert IsRun(s) by {
        forall c | c in s ensures IsLowerAlnum(c) {
          var k :| 0 <= k < |s| && s[k] == c;
        }
      }
    } else {
      var rest := s[i + 1..];
      RestIsComponent(s, i);
      var others, more := ChainOfComponent(rest);
      runs, marks := [s[..i]] + others, [s[i]] + more;
      assert runs[1..] == others && marks[1..] == more;
      assert s == s[..i] + [s[i]] + rest;
      assert IsRun(s[..i]) by {
        forall c | c in s[..i] ensures IsLowerAlnum(c) {
          var k :| 0 <= k < i && s[k] == c;
        }
      }
    }
  }

  /** Where the first mark from k on stands. */
  lemma {:induction false} FirstMark(s: string, k: nat) returns (i: nat)
    requires k <= |s| && forall c | c in s :: IsLowerAlnum(c) || IsSeparator(c)
    ensures k <= i <= |s| && (i < |s| ==> IsSeparator(s[i])) && forall j | k <= j < i :: IsLowerAlnum(s[j])
    decreases |s| - k
  {
    if k == |s| || IsSeparator(s[k]) {
      i := k;
    } else {
      i := FirstMark(s, k + 1);
      assert s[k] in s;
    }
  }

  lemma RestIsComponent(s: string, i: nat)
    requires IsComponent(s) && i < |s| && IsSeparator(s[i])
    ensures 0 < i < |s| - 1 && IsComponent(s[i + 1..])
  {
    var rest := s[i + 1..];
    assert !IsSeparator(s[i + 1]) && s[i + 1] in s;
    forall c | c in rest ensures c in s {
    }
    forall k | 0 < k < |rest| && IsSeparator(rest[k]) ensures !IsSeparator(rest[k - 1]) {
      assert rest[k] == s[i + 1 + k] && rest[k - 1] == s[i + k];
    }
  }

  lemma {:induction false} ChainIsComponent(runs: seq<string>, marks: seq<char>)
    requires |runs| == |marks| + 1
    requires (forall r | r in runs :: IsRun(r)) && (forall m | m in marks :: m in {'.', '_', '-'})
    ensures IsComponent(Chained(runs, marks))
  {
    var run := runs[0];
    assert IsRun(run);
    assert forall k | 0 <= k < |run| :: run[k] in run;
    if marks != [] {
      assert marks[0] in marks && forall m | m in marks[1..] :: m in marks;
      assert forall r | r in runs[1..] :: r in runs;
      ChainIsComponent(runs[1..], marks[1..]);
      JoinedIsComponent(run, marks[0], Chained(runs[1..], marks[1..]));
    }
  }

  lemma JoinedIsComponent(run: string, mark: char, rest: string)
    requires IsRun(run) && mark in {'.', '_', '-'} && IsComponent(rest)
    ensures IsComponent(run + [mark] + rest)
  {
    var s := run + [mark] + rest;
    assert forall k | 0 <= k < |run| :: run[k] in run;
    forall k | 0 < k < |s| && IsSeparator(s[k]) ensures !IsSeparator(s[k - 1]) {
      if k > |run| {
        assert s[k] == rest[k - |run| - 1];
        assert k > |run| + 1 ==> s[k - 1] == rest[k - |run| - 2];
      }
    }
  }

  lemma ComponentIsChain(s: string)
    ensures IsComponent(s) <==> IsChain(s)
  {
    hide IsComponent, IsRun;
    if IsComponent(s) {
      var runs, marks := ChainOfComponent(s);
    }
    if IsChain(s) {
      var runs, marks :| && |runs| == |marks| + 1 && s == Chained(runs, marks)
                         && (forall r | r in runs :: IsRun(r)) && (forall m | m in marks :: m in {'.', '_', '-'});
      ChainIsComponent(runs, marks);
    }
  }

  lemma ContainsIsMiddle(s: string, sub: string)
    ensures Contains(s, sub) <==> exists a, b :: s == a + sub + b
  {
    hide Cut;
    if Contains(s, sub) {
      var p := Cut(s, sub);
      assert s == p.before + sub + p.after;
    }
    if a, b :| s == a + sub + b {
      assert OccursAt(s, sub, |a|) by {
        assert s[|a|..] == sub + b;
      }
      if !Contains(s, sub) {
        CutMissesNone(s, sub, |a|);
      }
    }
  }

  lemma VersionStarts(s: string, first: char, more: string)
    requires s == [first] + more
    ensures IsUpstreamVersion(s) <==>
            IsLetterOrDigit(first) && forall c | c in more :: IsLetterOrDigit(c) || c in {'.', '_', '-'}
  {
    assert s[0] == first && forall c :: c in s <==> c == first || c in more;
  }

  lemma VersionIs(s: string)
    ensures IsUpstreamVersion(s) && !Contains(s, "-recipe-") <==> IsVersion(s)
  {
    hide Contains, IsLetterOrDigit, IsUpstreamVersion;
    ContainsIsMiddle(s, "-recipe-");
    forall first, more | s == [first] + more
      ensures IsUpstreamVersion(s) <==>
              IsLetterOrDigit(first) && forall c | c in more :: IsLetterOrDigit(c) || c in {'.', '_', '-'}
    {
      VersionStarts(s, first, more);
    }
    if IsUpstreamVersion(s) {
      VersionIsNotEmpty(s);
      assert s == [s[0]] + s[1..];
    }
  }

  lemma VersionIsNotEmpty(s: string)
    requires IsUpstreamVersion(s)
    ensures s != ""
  {
  }

  /** The valid images, by their parts. */
  lemma ValidatesExactly(image: LocalImage)
    ensures Validates(image) <==>
              && image.role in {"runtime", "test", "derived", "cache"}
              && IsChain(image.component) && !(exists stem :: image.component == stem + "-smoke")
              && image.os == "linux" && IsRun(image.arch)
              && IsIdentified(image)
  {
    hide IsComponent, IsChain, HasSuffix, Contains, IsUpstreamVersion, IsVersion;
    ComponentIsChain(image.component);
    SuffixIsEnd(image.component, "-smoke");
    VersionIs(image.upstreamVersion);
  }

  // ---------------------------------------------------------------- the texts that are read as an image

  /** A hash in either case, and a platform in either case, with or without space around it. */
  ghost predicate HashAndPlatform(rest: string, hash: string, arch: string) {
    exists h, platform :: IsPair(rest, h, platform, hash, arch)
  }

  predicate IsPair(rest: string, h: string, platform: string, hash: string, arch: string) {
    rest == h + "-" + platform && ToLower(h) == hash && ToLower(TrimSpace(platform)) == "linux-" + arch
  }

  /** The tag of an image. */
  ghost predicate TagSpells(tag: string, image: LocalImage) {
    match image.identity
    case "git" => exists rest :: tag == "git-" + rest && HashAndPlatform(rest, image.revision, image.arch)
    case "recipe" => exists rest :: tag == "recipe-" + rest && HashAndPlatform(rest, image.recipe, image.arch)
    case _ =>
      && !(exists stem :: image.upstreamVersion == stem + "-recipe")
      && exists rest :: tag == "upstream-" + (image.upstreamVersion + "-recipe-" + rest) &&
                        HashAndPlatform(rest, image.recipe, image.arch)
  }

  /** The reference of an image: the name in either case, a tag, and at most an empty digest behind it. */
  ghost predicate Spells(reference: string, image: LocalImage, name: string, tag: string) {
    && TrimSpace(reference) in {name + ":" + tag, name + ":" + tag + "@"}
    && ToLower(name) == "localhost/declarative-agents/" + image.role + "/" + image.component
  }

  lemma LowerIn(s: string, c: char)
    requires Lower(c) == c && c !in ToLower(s)
    ensures c !in s
  {
  }

  lemma MarksStay()
    ensures forall c | c in {'-', '/', ':', '@'} :: Lower(c) == c && !IsSpace(c)
  {
  }

  lemma {:induction false} TrimLeftDrops(s: string, c: char)
    requires c in s && !IsSpace(c)
    ensures c in TrimLeft(s)
  {
    hide IsSpace;
    if IsSpace(s[0]) {
      TrimLeftDrops(s[1..], c);
    }
  }

  lemma {:induction false} TrimRightDrops(s: string, c: char)
    requires c in s && !IsSpace(c)
    ensures c in TrimRight(s)
  {
    hide IsSpace;
    if IsSpace(s[|s| - 1]) {
      assert s == s[..|s| - 1] + [s[|s| - 1]];
      TrimRightDrops(s[..|s| - 1], c);
    }
  }

  /** Trimming drops nothing but white space. */
  lemma TrimDrops(s: string, c: char)
    requires c !in TrimSpace(s) && !IsSpace(c)
    ensures c !in s
  {
    hide IsSpace;
    if c in s {
      TrimLeftDrops(s, c);
      TrimRightDrops(TrimLeft(s), c);
    }
  }

  /** The texts that are read as the platform of an architecture. */
  lemma PlatformExactly(platform: string, arch: string)
    ensures SplitPlatform(platform) == Some(Platform("linux", arch)) <==>
            IsRun(arch) && ToLower(TrimSpace(platform)) in {"linux-" + arch, "linux/" + arch}
  {
    hide Cut, TrimSpace, ToLower;
    var p := ToLower(TrimSpace(platform));
    assert IsRun(arch) <==> IsArch(arch);
    hide IsArch, IsRun;
    if SplitPlatform(platform) == Some(Platform("linux", arch)) {
      SplitAtMark(platform, arch);
    }
    if IsArch(arch) {
      ArchHasNoMark(arch);
      LinuxCut(p, arch);
    }
  }

  lemma SplitAtMark(platform: string, arch: string)
    requires SplitPlatform(platform) == Some(Platform("linux", arch))
    ensures IsArch(arch) && ToLower(TrimSpace(platform)) in {"linux-" + arch, "linux/" + arch}
  {
    hide Cut, TrimSpace, ToLower, IsArch;
    var p := ToLower(TrimSpace(platform));
    var mark := if Contains(p, "/") then "/" else "-";
    assert Cut(p, mark).found && p == "linux" + mark + arch;
    assert "linux" + "/" == "linux/" && "linux" + "-" == "linux-";
  }

  lemma LinuxCut(p: string, arch: string)
    requires IsArch(arch)
    ensures p == "linux/" + arch ==> Cut(p, "/") == Pieces("linux", arch, true)
    ensures p == "linux-" + arch ==> !Contains(p, "/") && Cut(p, "-") == Pieces("linux", arch, true)
  {
    hide Cut;
    if p == "linux/" + arch {
      assert p == "linux" + ['/'] + arch;
      CutChar("linux", '/', arch);
    }
    if p == "linux-" + arch {
      NoCharNoCut(p, '/');
      assert p == "linux" + ['-'] + arch;
      CutChar("linux", '-', arch);
    }
  }

  lemma PlatformTextIs(platform: string, arch: string)
    requires '/' !in platform
    ensures SplitPlatform(platform) == Some(Platform("linux", arch)) <==>
            ToLower(TrimSpace(platform)) == "linux-" + arch && IsArch(arch)
  {
    hide ToLower, TrimSpace, SplitPlatform;
    NoSlash(platform);
    PlatformExactly(platform, arch);
    assert ("linux/" + arch)[5] == '/';
    assert IsRun(arch) <==> IsArch(arch);
  }

  lemma NoSlash(platform: string)
    requires '/' !in platform
    ensures '/' !in ToLower(TrimSpace(platform))
  {
    hide TrimSpace;
  }

  lemma ArchHasNoMark(arch: string)
    requires IsArch(arch)
    ensures !Contains(arch, "/") && !Contains(arch, "-")
  {
    NoCharNoCut(arch, '/');
    NoCharNoCut(arch, '-');
  }

  lemma SplitPlatformIsLinux(platform: string)
    requires SplitPlatform(platform).Some?
    ensures SplitPlatform(platform).value.os == "linux" && IsArch(SplitPlatform(platform).value.arch)
  {
    hide Cut, TrimSpace, ToLower;
  }

  /** Behind its type, a tag is a hash and a platform. */
  lemma PiecesAre(rest: string, hash: string, arch: string)
    requires IsHex12(hash) && IsArch(arch) && '/' !in rest
    ensures var p := Cut(rest, "-");
            p.found && ToLower(p.before) == hash && SplitPlatform(p.after) == Some(Platform("linux", arch)) <==>
            HashAndPlatform(rest, hash, arch)
  {
    hide Cut, TrimSpace, ToLower, SplitPlatform, IsArch;
    var p := Cut(rest, "-");
    if p.found {
      assert rest == p.before + "-" + p.after;
      PlatformTextIs(p.after, arch);
      assert SplitPlatform(p.after) == Some(Platform("linux", arch)) && ToLower(p.before) == hash ==>
        IsPair(rest, p.before, p.after, hash, arch);
    }
    if h, platform :| IsPair(rest, h, platform, hash, arch) {
      MarksStay();
      LowerIn(h, '-');
      assert rest == h + ['-'] + platform;
      CutChar(h, '-', platform);
      PlatformTextIs(platform, arch);
    }
  }

  lemma TypedTagHasMark(tag: string)
    requires '-' in tag
    ensures tag != "" && tag != "local" && tag != "latest" && !IsHex12(tag)
  {
  }

  lemma PrefixedTag(tag: string, prefix: string)
    requires prefix in {"git-", "recipe-", "upstream-"}
    ensures HasPrefix(tag, prefix) <==> |tag| >= |prefix| && tag == prefix + tag[|prefix|..]
    ensures HasPrefix(tag, prefix) ==> '-' in tag
  {
    if HasPrefix(tag, prefix) {
      assert tag[|prefix| - 1] == '-';
    }
  }

  lemma GitTagIs(tag: string, image: LocalImage)
    requires Validates(image) && image.identity == "git" && '/' !in tag
    ensures ParseTypedTag(tag) == Ok(TypedTag("git", image.revision, "", "", Platform("linux", image.arch))) <==>
            HasPrefix(tag, "git-") && HashAndPlatform(tag[4..], image.revision, image.arch)
  {
    hide Cut, TrimSpace, ToLower, SplitPlatform, IsArch, IsHex12, IsComponent, HashAndPlatform;
    PrefixedTag(tag, "git-");
    EmptyIsLower();
    if HasPrefix(tag, "git-") {
      TypedTagHasMark(tag);
      PiecesAre(tag[4..], image.revision, image.arch);
    }
  }

  lemma RecipeTagIs(tag: string, image: LocalImage)
    requires Validates(image) && image.identity == "recipe" && '/' !in tag
    ensures ParseTypedTag(tag) == Ok(TypedTag("recipe", "", image.recipe, "", Platform("linux", image.arch))) <==>
            HasPrefix(tag, "recipe-") && HashAndPlatform(tag[7..], image.recipe, image.arch)
  {
    hide Cut, TrimSpace, ToLower, SplitPlatform, IsArch, IsHex12, IsComponent, HashAndPlatform;
    PrefixedTag(tag, "recipe-");
    EmptyIsLower();
    if HasPrefix(tag, "recipe-") {
      assert tag[0] == 'r';
      TypedTagHasMark(tag);
      PiecesAre(tag[7..], image.recipe, image.arch);
    }
  }

  lemma UpstreamTagIs(tag: string, image: LocalImage)
    requires Validates(image) && image.identity == "upstream" && '/' !in tag
    ensures ParseTypedTag(tag) ==
            Ok(TypedTag("upstream", "", image.recipe, image.upstreamVersion, Platform("linux", image.arch))) <==>
            && HasPrefix(tag, "upstream-") && !HasSuffix(image.upstreamVersion, "-recipe")
            && exists rest :: tag[9..] == image.upstreamVersion + "-recipe-" + rest &&
                              HashAndPlatform(rest, image.recipe, image.arch)
  {
    hide Cut, TrimSpace, ToLower, SplitPlatform, IsArch, IsHex12, IsComponent, HashAndPlatform, IsUpstreamVersion,
         HasSuffix;
    PrefixedTag(tag, "upstream-");
    EmptyIsLower();
    if HasPrefix(tag, "upstream-") {
      assert tag[0] == 'u';
      TypedTagHasMark(tag);
      var v := Cut(tag[9..], "-recipe-");
      if v.found {
        assert tag[9..] == v.before + "-recipe-" + v.after;
        assert '/' !in v.after;
        PiecesAre(v.after, image.recipe, image.arch);
        CutVersionUnambiguous(tag[9..]);
      }
      forall rest | tag[9..] == image.upstreamVersion + "-recipe-" + rest
          && !HasSuffix(image.upstreamVersion, "-recipe")
        ensures v == Pieces(image.upstreamVersion, rest, true)
      {
        DelimiterFirst(image.upstreamVersion, rest);
      }
    }
  }

  function TypedTagOf(image: LocalImage): TypedTag {
    TypedTag(image.identity, image.revision, image.recipe, image.upstreamVersion, Platform("linux", image.arch))
  }

  lemma AfterPrefix(tag: string, prefix: string, rest: string)
    requires tag == prefix + rest
    ensures HasPrefix(tag, prefix) && tag[|prefix|..] == rest
  {
  }

  lemma TagIs(tag: string, image: LocalImage)
    requires Validates(image) && '/' !in tag
    ensures ParseTypedTag(tag) == Ok(TypedTagOf(image)) <==> TagSpells(tag, image)
  {
    hide ParseTypedTag, HashAndPlatform, IsHex12, IsArch, IsComponent, IsUpstreamVersion, Contains, HasSuffix;
    if image.identity == "git" {
      GitTagIs(tag, image);
      PrefixedTag(tag, "git-");
      forall rest | tag == "git-" + rest { AfterPrefix(tag, "git-", rest); }
    } else if image.identity == "recipe" {
      RecipeTagIs(tag, image);
      PrefixedTag(tag, "recipe-");
      forall rest | tag == "recipe-" + rest { AfterPrefix(tag, "recipe-", rest); }
    } else {
      UpstreamTagIs(tag, image);
      PrefixedTag(tag, "upstream-");
      SuffixIsEnd(image.upstreamVersion, "-recipe");
      forall rest | tag == "upstream-" + (image.upstreamVersion + "-recipe-" + rest) {
        AfterPrefix(tag, "upstream-", image.upstreamVersion + "-recipe-" + rest);
      }
    }
  }

  predicate Unmarked(s: string) {
    ':' !in s && '/' !in s && '@' !in s
  }

  lemma UnmarkedTogether(a: string, b: string)
    ensures Unmarked(a + b) <==> Unmarked(a) && Unmarked(b)
  {
    assert forall c :: c in a + b <==> c in a || c in b;
  }

  lemma VersionMarks(version: string)
    requires IsUpstreamVersion(version)
    ensures Unmarked(version)
  {
  }

  lemma PrefixMarks()
    ensures Unmarked("git-") && Unmarked("recipe-") && Unmarked("upstream-") && Unmarked("-recipe-")
  {
  }

  /** No mark that would end a tag stands in one. */
  lemma TagMarks(tag: string, image: LocalImage)
    requires Validates(image) && TagSpells(tag, image)
    ensures Unmarked(tag) && tag != ""
  {
    hide HashAndPlatform, IsHex12, IsArch, IsComponent, Contains, IsUpstreamVersion, Unmarked;
    var hash := if image.identity == "git" then image.revision else image.recipe;
    PrefixMarks();
    forall rest | HashAndPlatform(rest, hash, image.arch) ensures Unmarked(rest) {
      RestMarks(rest, hash, image.arch);
    }
    if image.identity == "git" {
      forall rest { UnmarkedTogether("git-", rest); }
    } else if image.identity == "recipe" {
      forall rest { UnmarkedTogether("recipe-", rest); }
    } else {
      VersionMarks(image.upstreamVersion);
      var rest :| tag == "upstream-" + (image.upstreamVersion + "-recipe-" + rest) &&
                  HashAndPlatform(rest, image.recipe, image.arch);
      UnmarkedTogether(image.upstreamVersion, "-recipe-");
      UnmarkedTogether(image.upstreamVersion + "-recipe-", rest);
      UnmarkedTogether("upstream-", image.upstreamVersion + "-recipe-" + rest);
    }
  }

  lemma RestMarks(rest: string, hash: string, arch: string)
    requires IsHex12(hash) && IsArch(arch) && HashAndPlatform(rest, hash, arch)
    ensures Unmarked(rest)
  {
    hide ToLower, TrimSpace;
    var h, platform :| IsPair(rest, h, platform, hash, arch);
    MarksStay();
    forall c | c in {':', '/', '@'} ensures c !in rest {
      LowerIn(h, c);
      LowerIn(TrimSpace(platform), c);
      TrimDrops(platform, c);
    }
  }

  lemma NameIs(name: string, image: LocalImage)
    requires Validates(image)
    ensures ToLower(name) == "localhost/declarative-agents/" + image.role + "/" + image.component <==>
            var lowered := ToLower(name);
            && HasPrefix(lowered, LOCAL_PREFIX)
            && Cut(lowered[|LOCAL_PREFIX|..], "/") == Pieces(image.role, image.component, true)
  {
    hide Cut, ToLower, IsHex12, IsArch, IsComponent, Contains, IsUpstreamVersion;
    var lowered := ToLower(name);
    var local, tail := "localhost/declarative-agents/", image.role + "/" + image.component;
    Reassociate(local, image.role, "/", image.component);
    assert image.role + ("/" + image.component) == tail;
    if HasPrefix(lowered, LOCAL_PREFIX) {
      assert lowered == local + lowered[|local|..];
    }
    assert (local + tail)[|local|..] == tail && local <= local + tail;
    RoleHasNoSlash(image.role);
    assert tail == image.role + ['/'] + image.component;
    CutChar(image.role, '/', image.component);
  }

  lemma RoleHasNoSlash(role: string)
    requires IsRole(role)
    ensures '/' !in role
  {
  }

  lemma ValidNameMarks(name: string, image: LocalImage)
    requires Validates(image) && ToLower(name) == "localhost/declarative-agents/" + image.role + "/" + image.component
    ensures '@' !in name
  {
    hide ToLower, IsHex12, IsArch, Contains, IsUpstreamVersion;
    MarksStay();
    NameText(image);
    LowerIn(name, '@');
  }

  /** Name and tag are found at the last colon, and an empty digest is none. */
  lemma SplitsAtTag(name: string, tag: string, s: string)
    requires '@' !in name && Unmarked(tag) && s in {name + ":" + tag, name + ":" + tag + "@"}
    ensures SplitReference(s) == Split3(name, tag, "")
  {
    hide Cut, LastIndex;
    var all := name + ":" + tag;
    assert '@' !in all;
    if s == all {
      NoCharNoCut(s, '@');
    } else {
      assert s == all + ['@'] + "";
      CutChar(all, '@', "");
    }
    LastIndexBetween(name, ':', tag);
    LastIndexIn(name, '/', ":" + tag);
    assert all == name + (":" + tag) && all[..|name|] == name && all[|name| + 1..] == tag;
  }

  lemma SplitIs(s: string)
    requires SplitReference(s).digest == "" && SplitReference(s).tag != ""
    ensures var p := SplitReference(s); s in {p.name + ":" + p.tag, p.name + ":" + p.tag + "@"} && '/' !in p.tag
  {
    hide Cut, LastIndex;
    var at := Cut(s, "@");
    var colon := LastIndex(at.before, ':');
    assert at.before == at.before[..colon] + ":" + at.before[colon + 1..];
    assert at.before + "@" + "" == at.before + "@";
    assert s in {at.before, at.before + "@"};
  }

  /**
   A reference is read as an image exactly when the image is valid and the
   reference spells its name and its tag.
   */
  lemma ParsesExactly(reference: string, image: LocalImage)
    ensures ParseLocal(reference) == Ok(image) <==>
            Validates(image) && exists name, tag :: Spells(reference, image, name, tag) && TagSpells(tag, image)
  {
    hide ToLower, TrimSpace, Cut, SplitReference, ParseTypedTag, Validates, TagSpells;
    if ParseLocal(reference) == Ok(image) {
      ParsedSpells(reference, image);
    }
    if Validates(image) {
      forall name, tag | Spells(reference, image, name, tag) && TagSpells(tag, image)
        ensures ParseLocal(reference) == Ok(image)
      {
        SpelledParses(reference, image, name, tag);
      }
    }
  }

  lemma ParsedSpells(reference: string, image: LocalImage)
    requires ParseLocal(reference) == Ok(image)
    ensures Validates(image)
    ensures exists name, tag :: Spells(reference, image, name, tag) && TagSpells(tag, image)
  {
    hide ToLower, TrimSpace, Cut, SplitReference, ParseTypedTag, Validates, TagSpells, Contains;
    var p := SplitReference(TrimSpace(reference));
    EmptyTagFails();
    SplitIs(TrimSpace(reference));
    TagIsLinux(p.tag);
    TagIs(p.tag, image);
    NameIs(p.name, image);
    CutFinds(ToLower(p.name)[|LOCAL_PREFIX|..]);
    assert Spells(reference, image, p.name, p.tag);
  }

  lemma CutFinds(s: string)
    requires Cut(s, "/").found
    ensures Cut(s, "/") == Pieces(Cut(s, "/").before, Cut(s, "/").after, true)
  {
    hide Cut;
  }

  lemma EmptyTagFails()
    ensures ParseTypedTag("").Err?
  {
  }

  lemma TagIsLinux(tag: string)
    requires ParseTypedTag(tag).Ok?
    ensures ParseTypedTag(tag).value.platform.os == "linux"
  {
    hide SplitPlatform, Cut, ToLower;
    forall platform | SplitPlatform(platform).Some? { SplitPlatformIsLinux(platform); }
  }

  lemma SpelledParses(reference: string, image: LocalImage, name: string, tag: string)
    requires Validates(image) && Spells(reference, image, name, tag) && TagSpells(tag, image)
    ensures ParseLocal(reference) == Ok(image)
  {
    hide ToLower, TrimSpace, Cut, SplitReference, ParseTypedTag, TagSpells, IsHex12, IsArch, IsComponent, Unmarked;
    TagMarks(tag, image);
    NoSlashIn(tag);
    ValidNameMarks(name, image);
    SplitsAtTag(name, tag, TrimSpace(reference));
    TagIs(tag, image);
    NameIs(name, image);
    ComponentIsNotEmpty(image);
    ComponentHasNoSlash(image.component);
  }

  lemma NoSlashIn(tag: string)
    requires Unmarked(tag)
    ensures '/' !in tag
  {
  }

  lemma ComponentHasNoSlash(component: string)
    requires IsComponent(component)
    ensures !Contains(component, "/")
  {
    NoCharNoCut(component, '/');
  }
}
