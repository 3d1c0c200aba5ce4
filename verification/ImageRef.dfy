/**
 The grammar of local image references,
 localhost/declarative-agents/<role>/<component>:<typed tag>: printing a
 validated image and parsing a reference.
 */
module ImageRef {
  import opened Wrappers
  import opened Strings

  const LOCAL_PREFIX := "localhost/declarative-agents/"

  datatype LocalImage = LocalImage(
    role: string,
    component: string,
    identity: string,
    revision: string,
    recipe: string,
    upstreamVersion: string,
    os: string,
    arch: string)

  datatype RefError = CarriesDigest | NotLocal | BadName | BadTag | BadPlatform | BadHex | Invalid

  // ---------------------------------------------------------------- character classes

  predicate IsLowerAlnum(c: char) { 'a' <= c <= 'z' || '0' <= c <= '9' }

  predicate IsAlnum(c: char) { IsLowerAlnum(c) || 'A' <= c <= 'Z' }

  predicate IsSeparator(c: char) { c == '.' || c == '_' || c == '-' }

  predicate IsLowerHex(c: char) { '0' <= c <= '9' || 'a' <= c <= 'f' }

  /** ^[a-z0-9]+(?:[._-][a-z0-9]+)*$ */
  predicate IsComponent(s: string) {
    && s != "" && IsLowerAlnum(s[0]) && IsLowerAlnum(s[|s| - 1])
    && (forall c | c in s :: IsLowerAlnum(c) || IsSeparator(c))
    && (forall i | 0 < i < |s| && IsSeparator(s[i]) :: !IsSeparator(s[i - 1]))
  }

  /** ^[0-9a-f]{12}$ */
  predicate IsHex12(s: string) {
    |s| == 12 && forall c | c in s :: IsLowerHex(c)
  }

  /** ^[A-Za-z0-9][A-Za-z0-9._-]*$ */
  predicate IsUpstreamVersion(s: string) {
    s != "" && IsAlnum(s[0]) && forall c | c in s :: IsAlnum(c) || IsSeparator(c)
  }

  /** ^[a-z0-9]+$ */
  predicate IsArch(s: string) {
    s != "" && forall c | c in s :: IsLowerAlnum(c)
  }

  predicate IsRole(s: string) {
    s == "runtime" || s == "test" || s == "derived" || s == "cache"
  }

  // ---------------------------------------------------------------- printing

  function Tag(image: LocalImage): string {
    var platform := image.os + "-" + image.arch;
    if image.identity == "git" then "git-" + image.revision + "-" + platform
    else if image.identity == "recipe" then "recipe-" + image.recipe + "-" + platform
    else if image.identity == "upstream" then
        "upstream-" + image.upstreamVersion + "-recipe-" + image.recipe + "-" + platform
    else ""
  }

  function Print(image: LocalImage): string {
    LOCAL_PREFIX + image.role + "/" + image.component + ":" + Tag(image)
  }

  predicate Validates(image: LocalImage) {
    && IsRole(image.role)
    && IsComponent(image.component) && !HasSuffix(image.component, "-smoke")
    && image.os == "linux" && IsArch(image.arch)
    && if image.identity == "git" then
         IsHex12(image.revision) && image.recipe == "" && image.upstreamVersion == ""
       else if image.identity == "recipe" then
         IsHex12(image.recipe) && image.revision == "" && image.upstreamVersion == ""
       else
         && image.identity == "upstream"
         && IsHex12(image.recipe) && image.revision == ""
         && IsUpstreamVersion(image.upstreamVersion) && !Contains(image.upstreamVersion, "-recipe-")
  }

  // ---------------------------------------------------------------- parsing

  datatype Split3 = Split3(name: string, tag: string, digest: string)

  function SplitReference(image: string): Split3 {
    var at := Cut(image, "@");
    var remainder := at.before;
    var lastSlash, colon := LastIndex(remainder, '/'), LastIndex(remainder, ':');
    if colon > lastSlash then Split3(remainder[..colon], remainder[colon + 1..], at.after)
    else Split3(remainder, "", at.after)
  }

  datatype Platform = Platform(os: string, arch: string)

  function SplitPlatform(platform: string): Option<Platform> {
    var p := ToLower(TrimSpace(platform));
    if Contains(p, "/") then CheckPlatform(Cut(p, "/"))
    else if Contains(p, "-") then CheckPlatform(Cut(p, "-"))
    else None
  }

  function CheckPlatform(p: Pieces): Option<Platform> {
    if p.before != "linux" || !IsArch(p.after) || Contains(p.after, "/") || Contains(p.after, "-") then None
    else Some(Platform(p.before, p.after))
  }

  datatype TypedTag = TypedTag(identity: string, revision: string, recipe: string, version: string, platform: Platform)

  function ParseTypedTag(tag: string): Result<TypedTag, RefError> {
    if tag == "" || tag == "local" || tag == "latest" || IsHex12(tag) then Err(BadTag)
    else if HasPrefix(tag, "git-") then
      var p := Cut(tag[|"git-"|..], "-");
      Typed("git", p.before, "", "", p)
    else if HasPrefix(tag, "recipe-") then
      var p := Cut(tag[|"recipe-"|..], "-");
      Typed("recipe", "", p.before, "", p)
    else if HasPrefix(tag, "upstream-") then
      var v := Cut(tag[|"upstream-"|..], "-recipe-");
      if !v.found then Err(BadTag)
      else
        var p := Cut(v.after, "-");
        Typed("upstream", "", p.before, v.before, p)
    else Err(BadTag)
  }

  function Typed(identity: string, revision: string, recipe: string, version: string, p: Pieces)
    : Result<TypedTag, RefError>
  {
    if !p.found then Err(BadTag)
    else match SplitPlatform(p.after)
      case None => Err(BadPlatform)
      case Some(platform) => Ok(TypedTag(identity, ToLower(revision), ToLower(recipe), version, platform))
  }

  function ParseLocal(reference: string): Result<LocalImage, RefError> {
    var parts := SplitReference(TrimSpace(reference));
    if parts.digest != "" then Err(CarriesDigest)
    else
      var lowered := ToLower(parts.name);
      if !HasPrefix(lowered, LOCAL_PREFIX) then Err(NotLocal)
      else
        var name := Cut(lowered[|LOCAL_PREFIX|..], "/");
        if !name.found || name.after == "" || Contains(name.after, "/") then Err(BadName)
        else match ParseTypedTag(parts.tag)
          case Err(e) => Err(e)
          case Ok(t) =>
            var image := LocalImage(name.before, name.after, t.identity, t.revision, t.recipe, t.version,
                t.platform.os, t.platform.arch);
            if Validates(image) then Ok(image) else Err(Invalid)
  }

  // ---------------------------------------------------------------- the parse of a print

  /**
   The one family of valid images whose print does not parse: an upstream version that ends
   like the recipe delimiter.
   */
  predicate Ambiguous(image: LocalImage) {
    image.identity == "upstream" && HasSuffix(image.upstreamVersion, "-recipe")
  }

  predicate IsLowerChar(c: char) { IsLowerAlnum(c) || IsSeparator(c) }

  lemma LowerText(s: string)
    requires forall c | c in s :: IsLowerChar(c)
    ensures ToLower(s) == s
    ensures '/' !in s && ':' !in s && '@' !in s
    ensures s != "" ==> TrimSpace(s) == s
  {
    LowerIsFixed(s);
    if s != "" {
      assert s[0] in s && s[|s| - 1] in s;
      TrimmedIsFixed(s);
    }
  }

  lemma PlatformParses(arch: string)
    requires IsArch(arch)
    ensures SplitPlatform("linux-" + arch) == Some(Platform("linux", arch))
  {
    hide TrimSpace, ToLower, Cut;
    var p := "linux-" + arch;
    LowerText(p);
    NoCharNoCut(p, '/');
    assert p == "linux" + "-" + arch;
    CutChar("linux", '-', arch);
    NoCharNoCut(arch, '/');
    NoCharNoCut(arch, '-');
  }

  lemma HexParses(identity: string, version: string, hex: string, arch: string)
    requires IsHex12(hex) && IsArch(arch)
    ensures Cut(hex + "-" + "linux-" + arch, "-") == Pieces(hex, "linux-" + arch, true)
    ensures ToLower(hex) == hex
  {
    hide Cut, ToLower;
    var tail := "linux-" + arch;
    assert hex + "-" + "linux-" + arch == hex + ['-'] + tail;
    CutChar(hex, '-', tail);
    LowerText(hex);
  }

  lemma DelimitersShift(version: string, w: string, rest: string)
    requires version == w + "-recipe"
    ensures version + "-recipe-" + rest == w + "-recipe-" + ("recipe-" + rest)
  {
    var a, b, c := "-recipe", "-", "recipe-";
    assert "-recipe-" == a + b == b + c;
    assert version + "-recipe-" + rest == w + (a + (b + c)) + rest;
    assert a + (b + c) == (a + b) + c;
    assert w + ((a + b) + c) + rest == w + (a + b) + (c + rest);
  }

  /** The recipe delimiter first occurs right behind the version, unless the version ends like it. */
  lemma DelimiterFirst(version: string, rest: string)
    requires IsUpstreamVersion(version) && !Contains(version, "-recipe-")
    ensures Cut(version + "-recipe-" + rest, "-recipe-") ==
            if HasSuffix(version, "-recipe")
            then Pieces(version[..|version| - 7], "recipe-" + rest, true)
            else Pieces(version, rest, true)
  {
    hide Cut, IsUpstreamVersion, OccursAt;
    if HasSuffix(version, "-recipe") {
      var w := version[..|version| - 7];
      DelimitersShift(version, w, rest);
      forall i: nat | i < |w| ensures !OccursAt(w + "-recipe-" + ("recipe-" + rest), "-recipe-", i) {
        DelimiterOverlap(version, rest, i);
      }
      CutBetween(w, "-recipe-", "recipe-" + rest);
    } else {
      forall i: nat | i < |version| ensures !OccursAt(version + "-recipe-" + rest, "-recipe-", i) {
        DelimiterOverlap(version, rest, i);
      }
      CutBetween(version, "-recipe-", rest);
    }
  }

  /** An earlier occurrence would lie inside the version or overlap its end. */
  lemma DelimiterOverlap(version: string, rest: string, i: nat)
    requires !Contains(version, "-recipe-")
    requires i < |version| && (HasSuffix(version, "-recipe") ==> i < |version| - 7)
    ensures !OccursAt(version + "-recipe-" + rest, "-recipe-", i)
  {
    hide Cut;
    var s := version + "-recipe-" + rest;
    CutMissesNone(version, "-recipe-", i);
    if i + 8 <= |version| {
      assert s[i..][..8] == version[i..][..8];
    } else if i + 7 == |version| {
      assert s[i..][..7] == version[i..];
      assert version[i..] == version[|version| - 7..];
      assert "-recipe-"[..7] == "-recipe";
    } else {
      // the version ends inside the delimiter, and a dash of one stands on a letter of the other
      var k := |version| - i;
      assert s[i..][k] == '-';
      assert s[i..][0] == version[i];
    }
  }

  lemma TagParses(image: LocalImage)
    requires Validates(image)
    ensures Ambiguous(image) ==> ParseTypedTag(Tag(image)).Err?
    ensures !Ambiguous(image) ==>
              ParseTypedTag(Tag(image)) == Ok(TypedTag(image.identity, image.revision, image.recipe,
                  image.upstreamVersion, Platform("linux", image.arch)))
  {
    hide ParseTypedTag, Tag, IsComponent, IsHex12, IsArch, HasSuffix, Contains;
    if image.identity == "git" {
      GitTagParses(image);
    } else if image.identity == "recipe" {
      RecipeTagParses(image);
    } else {
      UpstreamTagParses(image);
    }
  }

  lemma HexTagText(image: LocalImage)
    requires Validates(image) && (image.identity == "git" || image.identity == "recipe")
    ensures var hex := if image.identity == "git" then image.revision else image.recipe;
            var prefix := if image.identity == "git" then "git-" else "recipe-";
            && Tag(image) == prefix + (hex + "-" + "linux-" + image.arch)
            && Tag(image)[|prefix|..] == hex + "-" + "linux-" + image.arch
  {
    hide IsComponent, IsHex12, IsArch;
    var hex := if image.identity == "git" then image.revision else image.recipe;
    var prefix := if image.identity == "git" then "git-" else "recipe-";
    assert image.os + "-" + image.arch == "linux-" + image.arch;
    Reassociate(prefix, hex, "-", "linux-" + image.arch);
    assert hex + "-" + ("linux-" + image.arch) == hex + "-" + "linux-" + image.arch;
  }

  lemma GitTagParses(image: LocalImage)
    requires Validates(image) && image.identity == "git"
    ensures ParseTypedTag(Tag(image)) == Ok(TypedTag("git", image.revision, "", "", Platform("linux", image.arch)))
  {
    hide Cut, ToLower, SplitPlatform, IsComponent, Tag, Contains;
    var tag := Tag(image);
    PlatformParses(image.arch);
    EmptyIsLower();
    HexParses("git", "", image.revision, image.arch);
    HexTagText(image);
    assert tag[0] == 'g' && tag[0] in tag;
  }

  lemma RecipeTagParses(image: LocalImage)
    requires Validates(image) && image.identity == "recipe"
    ensures ParseTypedTag(Tag(image)) == Ok(TypedTag("recipe", "", image.recipe, "", Platform("linux", image.arch)))
  {
    hide Cut, ToLower, SplitPlatform, IsComponent, Tag, Contains;
    var tag := Tag(image);
    PlatformParses(image.arch);
    EmptyIsLower();
    HexParses("recipe", "", image.recipe, image.arch);
    HexTagText(image);
    assert tag[0] == 'r' && tag[0] in tag;
  }

  lemma EmptyIsLower()
    ensures ToLower("") == ""
  {
  }

  lemma UpstreamTagText(image: LocalImage, rest: string)
    requires Validates(image) && image.identity == "upstream"
    requires rest == image.recipe + "-" + "linux-" + image.arch
    ensures Tag(image) != "" && Tag(image)[0] == 'u' && Tag(image)[0] in Tag(image)
    ensures HasPrefix(Tag(image), "upstream-") && Tag(image)[9..] == image.upstreamVersion + "-recipe-" + rest
  {
    hide IsComponent, IsHex12, IsArch, IsUpstreamVersion, Contains;
    var body := image.upstreamVersion + "-recipe-" + rest;
    assert image.os + "-" + image.arch == "linux-" + image.arch;
    Reassociate("upstream-" + image.upstreamVersion + "-recipe-", image.recipe, "-", "linux-" + image.arch);
    assert rest == image.recipe + "-" + ("linux-" + image.arch);
    Reassociate("upstream-", image.upstreamVersion, "-recipe-", rest);
    assert Tag(image) == "upstream-" + body;
    assert Tag(image)[0] == 'u';
  }

  lemma Reassociate(a: string, b: string, c: string, d: string)
    ensures a + b + c + d == a + (b + c + d)
  {
  }

  lemma AmbiguousTagFails(image: LocalImage)
    requires Validates(image) && Ambiguous(image)
    ensures ParseTypedTag(Tag(image)).Err?
  {
    hide Cut, ToLower, SplitPlatform, IsComponent, Tag;
    var rest := image.recipe + "-" + "linux-" + image.arch;
    UpstreamTagText(image, rest);
    PlatformParses(image.arch);
    EmptyIsLower();
    DelimiterFirst(image.upstreamVersion, rest);
    assert "recipe-" + rest == "recipe" + ['-'] + rest;
    CutChar("recipe", '-', rest);
    HashIsNoPlatform(image.recipe, "linux-" + image.arch);
    assert rest == image.recipe + "-" + ("linux-" + image.arch);
  }

  lemma UpstreamTagParses(image: LocalImage)
    requires Validates(image) && image.identity == "upstream"
    ensures Ambiguous(image) ==> ParseTypedTag(Tag(image)).Err?
    ensures !Ambiguous(image) ==>
              ParseTypedTag(Tag(image)) == Ok(TypedTag("upstream", "", image.recipe, image.upstreamVersion,
                  Platform("linux", image.arch)))
  {
    hide Cut, ToLower, SplitPlatform, IsComponent, Tag;
    if Ambiguous(image) {
      AmbiguousTagFails(image);
    } else {
      var rest := image.recipe + "-" + "linux-" + image.arch;
      UpstreamTagText(image, rest);
      PlatformParses(image.arch);
      EmptyIsLower();
      HexParses("upstream", "", image.recipe, image.arch);
      DelimiterFirst(image.upstreamVersion, rest);
    }
  }

  /** A hash where the operating system should stand. */
  lemma HashIsNoPlatform(hash: string, tail: string)
    requires IsHex12(hash) && tail != "" && forall c | c in tail :: IsLowerChar(c)
    ensures SplitPlatform(hash + "-" + tail) == None
  {
    hide Cut, TrimSpace, ToLower;
    var p := hash + "-" + tail;
    LowerText(p);
    NoCharNoCut(p, '/');
    assert p == hash + ['-'] + tail;
    CutChar(hash, '-', tail);
    assert hash != "linux";
  }

  predicate IsTagText(s: string) {
    forall c | c in s :: IsAlnum(c) || IsSeparator(c)
  }

  lemma TagText(image: LocalImage)
    requires Validates(image)
    ensures Tag(image) != "" && IsLowerAlnum(Tag(image)[|Tag(image)| - 1])
    ensures IsTagText(Tag(image))
  {
    hide IsComponent, Contains, IsRole;
    assert image.arch[|image.arch| - 1] in image.arch;
    assert Tag(image)[|Tag(image)| - 1] == image.arch[|image.arch| - 1];
    assert IsTagText(image.revision) && IsTagText(image.recipe) && IsTagText(image.upstreamVersion)
        && IsTagText(image.arch);
    assert IsTagText("git-") && IsTagText("recipe-") && IsTagText("upstream-") && IsTagText("-")
        && IsTagText("-recipe-") && IsTagText("linux");
  }

  lemma NameText(image: LocalImage)
    requires Validates(image)
    ensures forall c | c in image.role :: IsLowerChar(c)
    ensures forall c | c in image.component :: IsLowerChar(c)
    ensures image.component != ""
  {
    hide Contains;
  }

  lemma PrefixText()
    ensures '@' !in LOCAL_PREFIX && ToLower(LOCAL_PREFIX) == LOCAL_PREFIX
    ensures LOCAL_PREFIX[0] == 'l' && !IsSpace('l') && ToLower("/") == "/"
  {
    hide ToLower, Lower, IsSpace;
    PrefixChars();
    LowerIsFixed(LOCAL_PREFIX);
    LowerIsFixed("/");
  }

  lemma PrefixChars()
    ensures forall c | c in LOCAL_PREFIX :: Lower(c) == c && c != '@'
    ensures forall c | c in "/" :: Lower(c) == c
    ensures !IsSpace('l')
  {
  }

  lemma PrintSplits(image: LocalImage)
    requires Validates(image)
    ensures TrimSpace(Print(image)) == Print(image)
    ensures SplitReference(Print(image)) == Split3(LOCAL_PREFIX + image.role + "/" + image.component, Tag(image), "")
  {
    hide Cut, TrimSpace, Tag, LastIndex, ToLower, Validates;
    var name, tag := LOCAL_PREFIX + image.role + "/" + image.component, Tag(image);
    PrefixText();
    NameText(image);
    TagText(image);
    SplitsAt(name, tag);
  }

  lemma SplitsAt(name: string, tag: string)
    requires name != "" && !IsSpace(name[0]) && tag != "" && IsLowerAlnum(tag[|tag| - 1])
    requires '@' !in name && IsTagText(tag)
    ensures TrimSpace(name + ":" + tag) == name + ":" + tag
    ensures SplitReference(name + ":" + tag) == Split3(name, tag, "")
  {
    hide Cut, TrimSpace, LastIndex;
    var s := name + ":" + tag;
    assert s[0] == name[0] && s[|s| - 1] == tag[|tag| - 1];
    TrimmedIsFixed(s);
    NoCharNoCut(s, '@');
    LastIndexBetween(name, ':', tag);
    LastIndexIn(name, '/', ":" + tag);
    assert s == name + (":" + tag);
    assert s[..|name|] == name && s[|name| + 1..] == tag;
  }

  lemma NameParses(image: LocalImage)
    requires Validates(image)
    ensures var name := LOCAL_PREFIX + image.role + "/" + image.component;
            && ToLower(name) == name && HasPrefix(name, LOCAL_PREFIX)
            && Cut(name[|LOCAL_PREFIX|..], "/") == Pieces(image.role, image.component, true)
            && !Contains(image.component, "/")
  {
    hide Cut, ToLower, Validates;
    var name := LOCAL_PREFIX + image.role + "/" + image.component;
    NameText(image);
    PrefixText();
    LowerText(image.role);
    LowerText(image.component);
    LowerConcat(LOCAL_PREFIX, image.role);
    LowerConcat(LOCAL_PREFIX + image.role, "/");
    LowerConcat(LOCAL_PREFIX + image.role + "/", image.component);
    assert name[|LOCAL_PREFIX|..] == image.role + ['/'] + image.component;
    CutChar(image.role, '/', image.component);
    NoCharNoCut(image.component, '/');
  }

  /** A valid image parses back from its print exactly when it is not ambiguous. */
  lemma PrintParses(image: LocalImage)
    requires Validates(image)
    ensures ParseLocal(Print(image)) == Ok(image) <==> !Ambiguous(image)
    ensures Ambiguous(image) ==> ParseLocal(Print(image)).Err?
  {
    hide Cut, ToLower, TrimSpace, SplitReference, ParseTypedTag, Print, Tag, IsComponent, IsRole, Contains;
    PrintSplits(image);
    NameParses(image);
    TagParses(image);
    ComponentIsNotEmpty(image);
  }

  /** A valid image whose print is refused. */
  lemma AmbiguousImage() returns (image: LocalImage)
    ensures Validates(image) && Ambiguous(image) && ParseLocal(Print(image)).Err?
  {
    hide ParseLocal, Print, IsComponent, IsArch, IsHex12, IsUpstreamVersion, Contains, HasSuffix;
    image := LocalImage("derived", "tool", "upstream", "", "0123456789ab", "1-recipe", "linux", "amd64");
    AmbiguousNames();
    AmbiguousVersion();
    PrintParses(image);
  }

  lemma AmbiguousNames()
    ensures IsComponent("tool") && IsArch("amd64") && IsHex12("0123456789ab")
    ensures !HasSuffix("tool", "-smoke") && HasSuffix("1-recipe", "-recipe")
  {
    assert "1-recipe"[1..] == "-recipe";
  }

  lemma AmbiguousVersion()
    ensures IsUpstreamVersion("1-recipe") && !Contains("1-recipe", "-recipe-")
  {
    hide Cut;
    var version := "1-recipe";
    var p := Cut(version, "-recipe-");
    assert p.found ==> |version| == |p.before| + 8 + |p.after|;
    assert p.found ==> version == "-recipe-";
    assert version[0] == '1';
  }

  lemma ComponentIsNotEmpty(image: LocalImage)
    requires Validates(image)
    ensures image.component != "" && image.os == "linux"
  {
  }

  /** What the parser accepts is valid and never ambiguous. */
  lemma ParsedIsUnambiguous(reference: string)
    requires ParseLocal(reference).Ok?
    ensures Validates(ParseLocal(reference).value) && !Ambiguous(ParseLocal(reference).value)
  {
    hide Cut, ToLower, TrimSpace, SplitReference, SplitPlatform, IsComponent, IsRole;
    var tag := SplitReference(TrimSpace(reference)).tag;
    if HasPrefix(tag, "upstream-") && Cut(tag[9..], "-recipe-").found {
      CutVersionUnambiguous(tag[9..]);
    }
  }

  lemma CutVersionUnambiguous(s: string)
    requires Cut(s, "-recipe-").found
    ensures !HasSuffix(Cut(s, "-recipe-").before, "-recipe")
  {
    hide Cut;
    var p := Cut(s, "-recipe-");
    if HasSuffix(p.before, "-recipe") {
      var i := |p.before| - 7;
      assert s[i..] == p.before[i..] + "-recipe-" + p.after;
      assert p.before[i..] == "-recipe";
      assert OccursAt(s, "-recipe-", i);
      CutMissesNone(s, "-recipe-", i);
    }
  }

  /** Whatever the parser accepts, its canonical print parses to the same image. */
  lemma ParsePrintParse(reference: string)
    requires ParseLocal(reference).Ok?
    ensures ParseLocal(Print(ParseLocal(reference).value)) == ParseLocal(reference)
  {
    hide ParseLocal, Print, Validates, Ambiguous;
    ParsedIsUnambiguous(reference);
    PrintParses(ParseLocal(reference).value);
  }

  // ---------------------------------------------------------------- normalising before printing

  /** A hash or revision, cut to its first twelve digits. */
  function ShortenHex(value: string): Option<string> {
    var lower := ToLower(TrimSpace(value));
    if lower == "" then Some("")
    else
      var hex := if HasPrefix(lower, "sha256:") then lower[|"sha256:"|..] else lower;
      if 12 <= |hex| <= 64 && forall c | c in hex :: IsLowerHex(c) || 'A' <= c <= 'F' then Some(hex[..12]) else None
  }

  function NormalizeLocal(image: LocalImage): (r: Result<LocalImage, RefError>)
    ensures r.Ok? ==> Validates(r.value)
  {
    match (ShortenHex(image.revision), ShortenHex(image.recipe))
    case (Some(revision), Some(recipe)) =>
      var lowered := LocalImage(
        ToLower(image.role), ToLower(TrimSpace(image.component)), ToLower(image.identity),
        revision, recipe, TrimSpace(image.upstreamVersion),
        ToLower(TrimSpace(image.os)), ToLower(TrimSpace(image.arch)));
      var normalized :=
        if lowered.os == "" || lowered.arch == "" then
          match SplitPlatform(lowered.os + "/" + lowered.arch)
          case Some(platform) => lowered.(os := platform.os, arch := platform.arch)
          case None => lowered
        else lowered;
      if Validates(normalized) then Ok(normalized) else Err(Invalid)
    case _ => Err(BadHex)
  }

  function FormatLocal(image: LocalImage): Result<string, RefError> {
    match NormalizeLocal(image)
    case Ok(normalized) => Ok(Print(normalized))
    case Err(e) => Err(e)
  }

  lemma ShortHexIsFixed(hex: string)
    requires IsHex12(hex) || hex == ""
    ensures ShortenHex(hex) == Some(hex)
  {
    hide ToLower, TrimSpace;
    LowerText(hex);
    EmptyIsLower();
    EmptyIsTrimmed();
    assert hex[..|hex|] == hex;
    NotPrefixed(hex, "sha256:", ':');
  }

  lemma NotPrefixed(s: string, prefix: string, c: char)
    requires c in prefix && c !in s
    ensures !HasPrefix(s, prefix)
  {
  }

  lemma EmptyIsTrimmed()
    ensures TrimSpace("") == ""
  {
  }

  lemma VersionIsTrimmed(version: string)
    requires IsUpstreamVersion(version)
    ensures TrimSpace(version) == version
  {
    assert version[|version| - 1] in version;
    TrimmedIsFixed(version);
  }

  lemma RoleIsLower(role: string)
    requires IsRole(role)
    ensures ToLower(role) == role
  {
    hide ToLower;
    LowerText(role);
  }

  lemma IdentityIsLower(identity: string)
    requires identity == "git" || identity == "recipe" || identity == "upstream" || identity == "linux"
    ensures ToLower(identity) == identity && TrimSpace(identity) == identity
  {
    hide ToLower, TrimSpace;
    LowerText(identity);
  }

  /** A valid image is its own normal form. */
  lemma ValidIsNormal(image: LocalImage)
    requires Validates(image)
    ensures NormalizeLocal(image) == Ok(image)
  {
    hide ToLower, TrimSpace, ShortenHex, Cut, SplitPlatform, IsRole, IsComponent;
    RoleIsLower(image.role);
    IdentityIsLower(image.identity);
    IdentityIsLower(image.os);
    NameText(image);
    LowerText(image.component);
    LowerText(image.arch);
    EmptyIsLower();
    EmptyIsTrimmed();
    ShortHexIsFixed(image.revision);
    ShortHexIsFixed(image.recipe);
    if image.identity == "upstream" {
      VersionIsTrimmed(image.upstreamVersion);
    }
  }

  // ---------------------------------------------------------------- what an image is normalised to

  predicate IsHash(hex: string) {
    12 <= |hex| <= 64 && forall c | c in hex :: IsLowerHex(c)
  }

  /** The value is blank, or a hash of which `short` is the start, in either case and maybe behind its algorithm. */
  ghost predicate NamesHash(value: string, short: string) {
    var lower := ToLower(TrimSpace(value));
    if lower == "" then short == ""
    else exists hex :: IsHash(hex) && short == hex[..12] && (lower == hex || lower == "sha256:" + hex)
  }

  /** The image names what v names, up to case, surrounding space and the length of hashes. */
  ghost predicate Spells(image: LocalImage, v: LocalImage) {
    && v.role == ToLower(image.role) && v.identity == ToLower(image.identity)
    && v.component == ToLower(TrimSpace(image.component)) && v.upstreamVersion == TrimSpace(image.upstreamVersion)
    && v.os == ToLower(TrimSpace(image.os)) && v.arch == ToLower(TrimSpace(image.arch))
    && NamesHash(image.revision, v.revision) && NamesHash(image.recipe, v.recipe)
  }

  lemma LowerIsNoUpper(s: string)
    ensures forall c | c in ToLower(s) :: !('A' <= c <= 'F')
  {
    forall c | c in ToLower(s) ensures !('A' <= c <= 'F') {
      var i :| 0 <= i < |s| && ToLower(s)[i] == c;
      assert c == Lower(s[i]);
    }
  }

  lemma ShortenNames(value: string, short: string)
    ensures ShortenHex(value) == Some(short) <==> NamesHash(value, short)
  {
    hide ToLower, TrimSpace, IsLowerHex;
    var lower := ToLower(TrimSpace(value));
    LowerIsNoUpper(TrimSpace(value));
    if ShortenHex(value) == Some(short) && lower != "" {
      var hex := if HasPrefix(lower, "sha256:") then lower[|"sha256:"|..] else lower;
      assert IsHash(hex);
    }
    if NamesHash(value, short) && lower != "" {
      var hex :| IsHash(hex) && short == hex[..12] && (lower == hex || lower == "sha256:" + hex);
      HashHasNoColon(hex);
      NotPrefixed(hex, "sha256:", ':');
    }
  }

  lemma HashHasNoColon(hex: string)
    requires IsHash(hex)
    ensures ':' !in hex
  {
  }

  /** A platform with an empty half is none. */
  lemma HalfPlatform(os: string, arch: string)
    requires os == "" || arch == ""
    ensures SplitPlatform(os + "/" + arch) == None
  {
    hide Cut, TrimSpace, TrimLeft, TrimRight, IsSpace, Lower;
    var s := os + "/" + arch;
    var p := ToLower(TrimSpace(s));
    SlashStays();
    if os == "" {
      assert s[0] == '/';
      TrimKeepsFirst(s);
      assert p[0] == '/';
      CutAtOnce(p, "/");
    } else {
      assert s[|s| - 1] == '/';
      TrimKeepsLast(s);
      assert p[|p| - 1] == '/';
      CharIsCut(p, '/');
      var pieces := Cut(p, "/");
      assert p == pieces.before + "/" + pieces.after;
      assert pieces.after != "" ==> pieces.after[|pieces.after| - 1] == '/';
      assert pieces.after != "" ==> '/' in pieces.after;
    }
  }

  lemma SlashStays()
    ensures !IsSpace('/') && Lower('/') == '/'
  {
  }

  /**
   An image is normalised to v exactly when v is valid and the image spells it. A
   platform left out is never filled in: such an image is refused.
   */
  lemma NormalIsSpelled(image: LocalImage, v: LocalImage)
    ensures NormalizeLocal(image) == Ok(v) <==> Validates(v) && Spells(image, v)
  {
    hide ToLower, TrimSpace, ShortenHex, NamesHash, SplitPlatform, IsComponent, IsRole, IsHex12;
    ShortenNames(image.revision, v.revision);
    ShortenNames(image.recipe, v.recipe);
    var os, arch := ToLower(TrimSpace(image.os)), ToLower(TrimSpace(image.arch));
    if os == "" || arch == "" {
      HalfPlatform(os, arch);
    }
  }

  /**
   Formatting any image that can be normalised yields a reference that parses to
   the normal form, except in the ambiguous family, where it does not parse.
   Formatting what was parsed gives the same reference again.
   */
  lemma FormatParses(image: LocalImage)
    requires NormalizeLocal(image).Ok?
    ensures FormatLocal(image).Ok?
    ensures ParseLocal(FormatLocal(image).value) == NormalizeLocal(image) <==> !Ambiguous(NormalizeLocal(image).value)
    ensures Ambiguous(NormalizeLocal(image).value) ==> ParseLocal(FormatLocal(image).value).Err?
    ensures FormatLocal(NormalizeLocal(image).value) == FormatLocal(image)
  {
    hide ParseLocal, Print, Validates, Ambiguous, NormalizeLocal;
    PrintParses(NormalizeLocal(image).value);
    ValidIsNormal(NormalizeLocal(image).value);
  }
}
