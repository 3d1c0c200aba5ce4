/**
 JSON documents put together from values, brackets, commas, colons and blanks
 anywhere between them, by sections 2 to 5 of RFC 8259. The parser reads each
 document as the tree it is put together for, and reads nothing else.
 */
module JsonDocuments {
  import opened Wrappers
  import opened Strings
  import opened JsonGrammar
  import opened JsonSyntax

  datatype Doc =
    | Word(before: string, word: string)
    | Numeral(before: string, parts: NumberParts)
    | Quoted(before: string, glyphs: seq<Glyph>)
    | Bracketed(before: string, items: seq<Elem>, gap: string)
    | Braced(before: string, entries: seq<Entry>, gap: string)

  /** An element with the blanks behind it. */
  datatype Elem = Elem(doc: Doc, after: string)

  /** A key and its value, with the blanks around the key and behind the value. */
  datatype Entry = Entry(before: string, key: seq<Glyph>, gap: string, doc: Doc, after: string)

  predicate Blanks(s: string) {
    forall c | c in s :: c in {' ', '\t', '\n', '\r'}
  }

  predicate Valid(doc: Doc)
    decreases doc
  {
    && Blanks(doc.before)
    && match doc
       case Word(_, word) => word in {"null", "true", "false"}
       case Numeral(_, parts) => ValidNumber(parts)
       case Quoted(_, glyphs) => ValidGlyphs(glyphs)
       case Bracketed(_, items, gap) => Blanks(gap) && forall x | x in items :: Blanks(x.after) && Valid(x.doc)
       case Braced(_, entries, gap) => Blanks(gap) && forall x | x in entries :: ValidKey(x) && Valid(x.doc)
  }

  /** The key of an entry, and the blanks of the entry. */
  predicate ValidKey(x: Entry) {
    ValidGlyphs(x.key) && Blanks(x.before) && Blanks(x.gap) && Blanks(x.after)
  }

  function DocText(doc: Doc): string
    decreases doc
  {
    match doc
    case Word(before, word) => before + word
    case Numeral(before, parts) => before + NumberText(parts)
    case Quoted(before, glyphs) => before + ("\"" + (GlyphsText(glyphs) + "\""))
    case Bracketed(before, items, gap) => before + ("[" + ItemsText(items, true, gap))
    case Braced(before, entries, gap) => before + ("{" + EntriesText(entries, true, gap))
  }

  /** The items from here on up to the closing bracket; a comma precedes all but the first. */
  function ItemsText(items: seq<Elem>, first: bool, gap: string): string
    decreases items
  {
    if items == [] then gap + "]"
    else (if first then "" else ",") + (DocText(items[0].doc) + (items[0].after + ItemsText(items[1..], false, gap)))
  }

  function EntriesText(entries: seq<Entry>, first: bool, gap: string): string
    decreases entries
  {
    if entries == [] then gap + "}"
    else
      var e := entries[0];
      (if first then "" else ",") + (EntryText(e) + (e.after + EntriesText(entries[1..], false, gap)))
  }

  function EntryText(e: Entry): string
    decreases e
  {
    e.before + ("\"" + (GlyphsText(e.key) + "\"")) + (e.gap + ":") + DocText(e.doc)
  }

  /** The tree a document is put together for; a repeated key keeps its first place and its last value. */
  function Tree(doc: Doc): Json
    requires Valid(doc)
    decreases doc
  {
    match doc
    case Word(_, word) => if word == "null" then Null else Bool(word == "true")
    case Numeral(_, parts) => Number(NumberText(parts))
    case Quoted(_, glyphs) => Text(Meanings(glyphs))
    case Bracketed(_, items, _) => Array(Trees(items))
    case Braced(_, entries, _) => Object(Collect([], Members(entries)))
  }

  function Trees(items: seq<Elem>): seq<Json>
    requires forall x | x in items :: Blanks(x.after) && Valid(x.doc)
    decreases items
  {
    if items == [] then [] else [Tree(items[0].doc)] + Trees(items[1..])
  }

  function Members(entries: seq<Entry>): seq<Member>
    requires forall x | x in entries :: ValidKey(x) && Valid(x.doc)
    decreases entries
  {
    if entries == [] then []
    else
      assert ValidKey(entries[0]);
      [Member(Meanings(entries[0].key), Tree(entries[0].doc))] + Members(entries[1..])
  }

  // ---------------------------------------------------------------- blanks

  lemma {:induction false} SkipBlanks(blanks: string, s: string)
    requires Blanks(blanks)
    ensures SkipSpace(blanks + s) == SkipSpace(s)
  {
    if blanks == "" {
      assert blanks + s == s;
    } else {
      assert (blanks + s)[1..] == blanks[1..] + s;
      assert blanks[0] in blanks && forall c | c in blanks[1..] :: c in blanks;
      SkipBlanks(blanks[1..], s);
    }
  }

  lemma SkipNothing(s: string)
    requires s != "" && !IsBlank(s[0])
    ensures SkipSpace(s) == s
  {
  }

  lemma ValueBehindBlanks(blanks: string, s: string)
    requires Blanks(blanks)
    ensures ParseValue(blanks + s) == ParseValue(s)
  {
    hide SkipSpace;
    SkipBlanks(blanks, s);
  }

  lemma SkipTwice(s: string)
    ensures SkipSpace(SkipSpace(s)) == SkipSpace(s)
  {
  }

  // ---------------------------------------------------------------- every document is read as its tree

  lemma WordReads(word: string, rest: string)
    requires word in {"null", "true", "false"}
    ensures ParseValue(word + rest) == Parsed(if word == "null" then Null else Bool(word == "true"), rest)
  {
    hide NumberLength, ParseText, ParseItems, ParseMembers;
    var s := word + rest;
    assert s[0] == word[0] && s[|word|..] == rest && word <= s;
    SkipNothing(s);
  }

  lemma NumeralReads(parts: NumberParts, rest: string)
    requires ValidNumber(parts) && Stops(rest)
    ensures ParseValue(NumberText(parts) + rest) == Parsed(Number(NumberText(parts)), rest)
  {
    hide NumberLength, ParseText, ParseItems, ParseMembers, NumberText, Stops;
    var number := NumberText(parts);
    var s := number + rest;
    NumberReads(parts);
    NumberStops(number, rest);
    NumberStarts(parts);
    assert s[0] == number[0] && s[..|number|] == number && s[|number|..] == rest;
    SkipNothing(s);
  }

  lemma NumberStarts(parts: NumberParts)
    requires ValidNumber(parts)
    ensures NumberText(parts) != "" && (NumberText(parts)[0] == '-' || '0' <= NumberText(parts)[0] <= '9')
  {
    assert parts.whole[0] in parts.whole;
    assert NumberText(parts)[0] == if parts.minus == "" then parts.whole[0] else '-';
  }

  lemma QuotedReads(glyphs: seq<Glyph>, rest: string)
    requires ValidGlyphs(glyphs)
    ensures ParseValue("\"" + (GlyphsText(glyphs) + "\"") + rest) == Parsed(Text(Meanings(glyphs)), rest)
  {
    hide NumberLength, ParseText, ParseItems, ParseMembers;
    var s := "\"" + (GlyphsText(glyphs) + "\"") + rest;
    assert s[1..] == GlyphsText(glyphs) + "\"" + rest;
    GlyphsRead(glyphs, rest);
    SkipNothing(s);
  }

  /** What a document starts with behind its blanks. */
  predicate Opens(s: string) {
    s != "" && !IsBlank(s[0]) && s[0] !in {']', '}', ',', ':'}
  }

  lemma DocOpens(doc: Doc, rest: string)
    requires Valid(doc)
    ensures Opens(SkipSpace(DocText(doc) + rest))
  {
    hide ItemsText, EntriesText, GlyphsText, NumberText, SkipSpace;
    var core := DocText(doc)[|doc.before|..];
    assert DocText(doc) + rest == doc.before + (core + rest);
    if doc.Numeral? {
      NumberStarts(doc.parts);
    }
    assert core != "" && core[0] == (core + rest)[0];
    SkipBlanks(doc.before, core + rest);
    SkipNothing(core + rest);
  }

  /** Elements are read from behind any blanks. */
  lemma ItemsBehindBlanks(blanks: string, s: string, first: bool)
    requires Blanks(blanks)
    ensures ParseItems(blanks + s, first) == ParseItems(s, first)
    ensures ParseMembers(blanks + s, first) == ParseMembers(s, first)
  {
    hide SkipSpace, ParseValue, ParseMember;
    SkipBlanks(blanks, s);
  }

  lemma NoMoreItems(gap: string, rest: string, first: bool)
    requires Blanks(gap)
    ensures ParseItems(gap + "]" + rest, first) == Parsed([], rest)
    ensures ParseMembers(gap + "}" + rest, first) == Parsed([], rest)
  {
    hide ParseValue, ParseMember;
    var s, t := "]" + rest, "}" + rest;
    assert gap + "]" + rest == gap + s && gap + "}" + rest == gap + t;
    ItemsBehindBlanks(gap, s, first);
    ItemsBehindBlanks(gap, t, first);
    SkipNothing(s);
    SkipNothing(t);
    assert s[1..] == rest && t[1..] == rest;
  }

  /** An item in front of others. */
  lemma ItemInFront(s: string, first: bool, item: Json, tail: string)
    requires ParseValue(s) == Parsed(item, tail) && Opens(SkipSpace(s))
    ensures ParseItems((if first then "" else ",") + s, first) ==
            match ParseItems(tail, false)
            case Failed => Failed
            case Parsed(others, rest) => Parsed([item] + others, rest)
  {
    hide SkipSpace, ParseMember, IsBlank;
    var text := (if first then "" else ",") + s;
    if first {
      assert text == s;
      SkipTwice(s);
      SkippedValue(s);
    } else {
      CommaFirst(s);
    }
  }

  lemma SkippedValue(s: string)
    ensures ParseValue(SkipSpace(s)) == ParseValue(s)
  {
    hide SkipSpace;
    SkipTwice(s);
  }

  lemma CommaFirst(s: string)
    ensures SkipSpace("," + s) == "," + s && ("," + s)[1..] == s && ("," + s)[0] == ','
  {
    SkipNothing("," + s);
  }

  /** What follows an item's value stops a number. */
  lemma TailStops(after: string, items: seq<Elem>, gap: string, rest: string)
    requires Blanks(after) && Blanks(gap)
    ensures Stops(after + ItemsText(items, false, gap) + rest)
  {
    hide DocText;
    var s := after + ItemsText(items, false, gap) + rest;
    if after != "" {
      assert s[0] == after[0] && after[0] in after;
    } else if items == [] && gap != "" {
      assert s[0] == gap[0] && gap[0] in gap;
    } else {
      assert s[0] == if items == [] then ']' else ',';
    }
  }

  lemma EntriesTailStops(after: string, entries: seq<Entry>, gap: string, rest: string)
    requires Blanks(after) && Blanks(gap)
    ensures Stops(after + EntriesText(entries, false, gap) + rest)
  {
    hide EntryText;
    var s := after + EntriesText(entries, false, gap) + rest;
    if after != "" {
      assert s[0] == after[0] && after[0] in after;
    } else if entries == [] && gap != "" {
      assert s[0] == gap[0] && gap[0] in gap;
    } else {
      assert s[0] == if entries == [] then '}' else ',';
    }
  }

  lemma BracketedReads(before: string, s: string, items: seq<Json>, rest: string)
    requires Blanks(before) && ParseItems(s, true) == Parsed(items, rest)
    ensures ParseValue(before + ("[" + s)) == Parsed(Array(items), rest)
  {
    hide ParseItems, ParseMembers, ParseScalar;
    ValueBehindBlanks(before, "[" + s);
    SkipNothing("[" + s);
    assert ("[" + s)[1..] == s;
  }

  lemma BracedReads(before: string, s: string, members: seq<Member>, rest: string)
    requires Blanks(before) && ParseMembers(s, true) == Parsed(members, rest)
    ensures ParseValue(before + ("{" + s)) == Parsed(Object(Collect([], members)), rest)
  {
    hide ParseItems, ParseMembers, ParseScalar, Collect;
    ValueBehindBlanks(before, "{" + s);
    SkipNothing("{" + s);
    assert ("{" + s)[1..] == s;
  }

  /** Every document is read as its tree; a number ends where the text goes on with something else. */
  lemma {:induction false} DocReads(doc: Doc, rest: string)
    requires Valid(doc) && (doc.Numeral? ==> Stops(rest))
    ensures ParseValue(DocText(doc) + rest) == Parsed(Tree(doc), rest)
    decreases doc
  {
    hide ParseValue, ParseItems, ParseMembers, Collect, NumberText, GlyphsText, Meanings, ItemsText, EntriesText;
    match doc
    case Word(before, word) =>
      assert DocText(doc) + rest == before + (word + rest);
      ValueBehindBlanks(before, word + rest);
      WordReads(word, rest);
    case Numeral(before, parts) =>
      assert DocText(doc) + rest == before + (NumberText(parts) + rest);
      ValueBehindBlanks(before, NumberText(parts) + rest);
      NumeralReads(parts, rest);
    case Quoted(before, glyphs) =>
      var quoted := "\"" + (GlyphsText(glyphs) + "\"");
      assert DocText(doc) + rest == before + (quoted + rest);
      ValueBehindBlanks(before, quoted + rest);
      QuotedReads(glyphs, rest);
    case Bracketed(before, items, gap) =>
      var s := ItemsText(items, true, gap) + rest;
      assert DocText(doc) + rest == before + ("[" + s);
      ItemsRead(items, true, gap, rest);
      BracketedReads(before, s, Trees(items), rest);
    case Braced(before, entries, gap) =>
      var s := EntriesText(entries, true, gap) + rest;
      assert DocText(doc) + rest == before + ("{" + s);
      EntriesRead(entries, true, gap, rest);
      BracedReads(before, s, Members(entries), rest);
  }

  lemma ItemsTextOf(items: seq<Elem>, first: bool, gap: string, rest: string)
    requires items != []
    ensures var x, others := items[0], ItemsText(items[1..], false, gap);
            && ItemsText(items, first, gap) + rest ==
               (if first then "" else ",") + (DocText(x.doc) + (x.after + (others + rest)))
            && x.after + others + rest == x.after + (others + rest)
  {
    hide DocText;
    Regroup(if first then "" else ",", DocText(items[0].doc), items[0].after, ItemsText(items[1..], false, gap), rest);
  }

  lemma EntriesTextOf(entries: seq<Entry>, first: bool, gap: string, rest: string)
    requires entries != []
    ensures var e, others := entries[0], EntriesText(entries[1..], false, gap);
            && EntriesText(entries, first, gap) + rest ==
               (if first then "" else ",") + (EntryText(e) + (e.after + (others + rest)))
            && e.after + others + rest == e.after + (others + rest)
  {
    hide EntryText;
    Regroup(if first then "" else ",", EntryText(entries[0]), entries[0].after, EntriesText(entries[1..], false, gap),
            rest);
  }

  lemma Regroup(a: string, b: string, c: string, d: string, e: string)
    ensures a + (b + (c + d)) + e == a + (b + (c + (d + e)))
    ensures c + d + e == c + (d + e)
  {
  }

  lemma {:induction false} ItemsRead(items: seq<Elem>, first: bool, gap: string, rest: string)
    requires Blanks(gap) && forall x | x in items :: Blanks(x.after) && Valid(x.doc)
    ensures ParseItems(ItemsText(items, first, gap) + rest, first) == Parsed(Trees(items), rest)
    decreases items
  {
    hide ParseValue, ParseItems, Tree, DocText, Valid, Blanks, Stops, Opens, SkipSpace;
    if items == [] {
      NoMoreItems(gap, rest, first);
    } else {
      var x := items[0];
      assert x in items;
      var others := ItemsText(items[1..], false, gap) + rest;
      var tail := x.after + others;
      ItemsTextOf(items, first, gap, rest);
      TailStops(x.after, items[1..], gap, rest);
      DocReads(x.doc, tail);
      DocOpens(x.doc, tail);
      ItemInFront(DocText(x.doc) + tail, first, Tree(x.doc), tail);
      ItemsBehindBlanks(x.after, others, false);
      ItemsRead(items[1..], false, gap, rest);
    }
  }

  /** A key up to its colon. */
  lemma KeyReads(e: Entry, s: string)
    requires Blanks(e.before) && ValidGlyphs(e.key) && Blanks(e.gap)
    ensures var text := e.before + ("\"" + (GlyphsText(e.key) + "\"")) + (e.gap + ":") + s;
            ParseKey(text) == Parsed(Meanings(e.key), s) && Opens(SkipSpace(text))
  {
    hide ParseText, GlyphsText, Meanings, SkipSpace;
    var behind := e.gap + (":" + s);
    var quoted := "\"" + (GlyphsText(e.key) + "\"" + behind);
    assert e.before + ("\"" + (GlyphsText(e.key) + "\"")) + (e.gap + ":") + s == e.before + quoted;
    SkipBlanks(e.before, quoted);
    SkipNothing(quoted);
    assert quoted[1..] == GlyphsText(e.key) + "\"" + behind;
    GlyphsRead(e.key, behind);
    SkipBlanks(e.gap, ":" + s);
    SkipNothing(":" + s);
    assert (":" + s)[1..] == s;
  }

  /** A key and its value. */
  lemma EntryReads(e: Entry, tail: string)
    requires ValidKey(e) && Valid(e.doc) && ParseValue(DocText(e.doc) + tail) == Parsed(Tree(e.doc), tail)
    ensures ParseMember(EntryText(e) + tail) == Parsed(Member(Meanings(e.key), Tree(e.doc)), tail)
    ensures Opens(SkipSpace(EntryText(e) + tail))
  {
    hide ParseValue, ParseKey, Tree, DocText, Blanks, Opens, SkipSpace, GlyphsText, Meanings;
    KeyReads(e, DocText(e.doc) + tail);
    var head := e.before + ("\"" + (GlyphsText(e.key) + "\"")) + (e.gap + ":");
    assert EntryText(e) + tail == head + (DocText(e.doc) + tail);
  }

  lemma NoEntriesText(first: bool, gap: string)
    ensures EntriesText([], first, gap) == gap + "}"
  {
  }

  lemma MemberInFront(s: string, first: bool, member: Member, tail: string)
    requires ParseMember(s) == Parsed(member, tail) && Opens(SkipSpace(s))
    ensures ParseMembers((if first then "" else ",") + s, first) ==
            match ParseMembers(tail, false)
            case Failed => Failed
            case Parsed(others, rest) => Parsed([member] + others, rest)
  {
    hide SkipSpace, ParseValue, IsBlank;
    var text := (if first then "" else ",") + s;
    if first {
      assert text == s;
      SkipTwice(s);
      SkippedMember(s);
    } else {
      CommaFirst(s);
    }
  }

  lemma SkippedMember(s: string)
    ensures ParseMember(SkipSpace(s)) == ParseMember(s)
  {
    hide SkipSpace, ParseValue, ParseText;
    SkipTwice(s);
  }

  lemma {:induction false} EntriesRead(entries: seq<Entry>, first: bool, gap: string, rest: string)
    requires Blanks(gap) && forall x | x in entries :: ValidKey(x) && Valid(x.doc)
    ensures ParseMembers(EntriesText(entries, first, gap) + rest, first) == Parsed(Members(entries), rest)
    decreases entries
  {
    hide ParseValue, ParseMembers, Tree, DocText, Valid, Blanks, Stops, Opens, SkipSpace, Meanings, GlyphsText;
    hide ParseMember, EntryText, EntriesText, ValidGlyph;
    if entries == [] {
      assert EntriesText(entries, first, gap) == gap + "}" by {
        NoEntriesText(first, gap);
      }
      NoMoreItems(gap, rest, first);
    } else {
      var e := entries[0];
      assert ValidKey(e);
      var others := EntriesText(entries[1..], false, gap) + rest;
      var tail := e.after + others;
      EntriesTextOf(entries, first, gap, rest);
      EntriesTailStops(e.after, entries[1..], gap, rest);
      DocReads(e.doc, tail);
      EntryReads(e, tail);
      MemberInFront(EntryText(e) + tail, first, Member(Meanings(e.key), Tree(e.doc)), tail);
      ItemsBehindBlanks(e.after, others, false);
      EntriesRead(entries[1..], false, gap, rest);
    }
  }

  // ---------------------------------------------------------------- nothing else is read

  lemma {:induction false} SkipSplits(s: string) returns (blanks: string)
    ensures Blanks(blanks) && s == blanks + SkipSpace(s)
  {
    if s != "" && IsBlank(s[0]) {
      var more := SkipSplits(s[1..]);
      blanks := [s[0]] + more;
      assert s == [s[0]] + s[1..];
    } else {
      blanks := "";
    }
  }

  lemma ScalarHasDoc(before: string, s: string) returns (doc: Doc)
    requires Blanks(before) && s != "" && ParseScalar(s).Parsed?
    ensures Valid(doc) && DocText(doc) + ParseScalar(s).rest == before + s && Tree(doc) == ParseScalar(s).value
  {
    hide ParseText, NumberLength, NumberText, Blanks, ValidGlyphs, ValidNumber, GlyphsText, Meanings;
    if s[0] == '"' {
      var glyphs := TextHasGlyphs(s[1..]);
      doc := Quoted(before, glyphs);
      assert s == "\"" + s[1..];
    } else if "true" <= s || "false" <= s || "null" <= s {
      var word := if "true" <= s then "true" else if "false" <= s then "false" else "null";
      doc := Word(before, word);
      assert s == word + s[|word|..];
    } else {
      var n := NumberLength(s).value;
      NumberTaken(s);
      var parts := NumberHasParts(s[..n]);
      doc := Numeral(before, parts);
      assert s == s[..n] + s[n..];
    }
  }

  /** Whatever is read as a value is a document of that value. */
  lemma {:induction false} ValueHasDoc(text: string) returns (doc: Doc)
    requires ParseValue(text).Parsed?
    ensures Valid(doc) && text == DocText(doc) + ParseValue(text).rest && Tree(doc) == ParseValue(text).value
    decreases |text|, 0
  {
    hide ParseScalar, ParseItems, ParseMembers, SkipSpace, Collect, Blanks;
    var s := SkipSpace(text);
    var before := SkipSplits(text);
    if s[0] == '{' {
      var entries, gap := MembersHaveDocs(s[1..]);
      doc := Braced(before, entries, gap);
      assert s == "{" + s[1..];
    } else if s[0] == '[' {
      var items, gap := ItemsHaveDocs(s[1..]);
      doc := Bracketed(before, items, gap);
      assert s == "[" + s[1..];
    } else {
      doc := ScalarHasDoc(before, s);
    }
  }

  /** Items up to their closing bracket. */
  lemma {:induction false} ItemsHaveDocs(s: string) returns (items: seq<Elem>, gap: string)
    requires ParseItems(s, true).Parsed?
    ensures Blanks(gap) && forall x | x in items :: Blanks(x.after) && Valid(x.doc)
    ensures s == ItemsText(items, true, gap) + ParseItems(s, true).rest && Trees(items) == ParseItems(s, true).value
    decreases |s|, 1
  {
    hide ParseValue, SkipSpace, Blanks, Valid, DocText, Tree;
    if Closes(s, ']') {
      items := [];
      gap := EndsBehind(s, ']');
    } else {
      SkippedValue(s);
      var doc := ValueHasDoc(s);
      var after, others;
      after, others, gap := MoreItemsHaveDocs(ParseValue(s).rest);
      items := [Elem(doc, after)] + others;
      assert items[1..] == others;
      ItemsTextOf(items, true, gap, ParseItems(s, true).rest);
    }
  }

  lemma {:induction false} MoreItemsHaveDocs(s: string) returns (lead: string, items: seq<Elem>, gap: string)
    requires ParseItems(s, false).Parsed?
    ensures Blanks(lead) && Blanks(gap) && forall x | x in items :: Blanks(x.after) && Valid(x.doc)
    ensures s == lead + (ItemsText(items, false, gap) + ParseItems(s, false).rest)
    ensures Trees(items) == ParseItems(s, false).value
    decreases |s|, 1
  {
    hide ParseValue, SkipSpace, Blanks, Valid, DocText, Tree;
    if Closes(s, ']') {
      lead, items := "", [];
      gap := EndsBehind(s, ']');
      assert Blanks(lead) by { NoBlanks(); }
    } else {
      lead := SkipSplits(s);
      var u := SkipSpace(s)[1..];
      assert SkipSpace(s) == "," + u;
      var doc := ValueHasDoc(u);
      var after, others;
      after, others, gap := MoreItemsHaveDocs(ParseValue(u).rest);
      items := [Elem(doc, after)] + others;
      assert items[1..] == others;
      ItemsTextOf(items, false, gap, ParseItems(s, false).rest);
    }
  }

  lemma NoBlanks()
    ensures Blanks("")
  {
  }

  lemma EndsBehind(s: string, bracket: char) returns (gap: string)
    requires Closes(s, bracket)
    ensures Blanks(gap) && s == gap + [bracket] + SkipSpace(s)[1..]
  {
    hide SkipSpace, Blanks;
    gap := SkipSplits(s);
    assert SkipSpace(s) == [bracket] + SkipSpace(s)[1..];
  }

  lemma KeyHasText(s: string) returns (before: string, key: seq<Glyph>, gap: string)
    requires ParseKey(s).Parsed?
    ensures Blanks(before) && ValidGlyphs(key) && Blanks(gap) && Meanings(key) == ParseKey(s).value
    ensures s == before + ("\"" + (GlyphsText(key) + "\"")) + (gap + ":") + ParseKey(s).rest
  {
    hide ParseText, SkipSpace, Blanks, ValidGlyphs, Meanings, GlyphsText;
    before := SkipSplits(s);
    var t := SkipSpace(s);
    key := TextHasGlyphs(t[1..]);
    var behind := ParseText(t[1..]).rest;
    gap := EndsBehind(behind, ':');
    assert t == "\"" + t[1..];
  }

  lemma {:induction false} MemberHasEntry(s: string, after: string) returns (e: Entry)
    requires ParseMember(s).Parsed? && Blanks(after)
    ensures ValidKey(e) && Valid(e.doc) && e.after == after && s == EntryText(e) + ParseMember(s).rest
    ensures ParseMember(s).value == Member(Meanings(e.key), Tree(e.doc))
    decreases |s|, 1
  {
    hide ParseKey, ParseValue, Blanks, ValidGlyphs, Meanings, GlyphsText, Valid, DocText, Tree;
    var before, key, gap := KeyHasText(s);
    var doc := ValueHasDoc(ParseKey(s).rest);
    e := Entry(before, key, gap, doc, after);
  }

  /** Members up to their closing bracket. */
  lemma {:induction false} MembersHaveDocs(s: string) returns (entries: seq<Entry>, gap: string)
    requires ParseMembers(s, true).Parsed?
    ensures Blanks(gap) && forall x | x in entries :: ValidKey(x) && Valid(x.doc)
    ensures s == EntriesText(entries, true, gap) + ParseMembers(s, true).rest
    ensures Members(entries) == ParseMembers(s, true).value
    decreases |s|, 2
  {
    hide ParseMember, SkipSpace, Blanks, Valid, EntryText, Tree, ValidGlyph, Meanings;
    if Closes(s, '}') {
      entries := [];
      gap := EndsBehind(s, '}');
    } else {
      SkippedMember(s);
      var after, others;
      after, others, gap := MoreMembersHaveDocs(ParseMember(s).rest);
      var e := MemberHasEntry(s, after);
      entries := [e] + others;
      assert entries[1..] == others;
      EntriesTextOf(entries, true, gap, ParseMembers(s, true).rest);
    }
  }

  lemma {:induction false} MoreMembersHaveDocs(s: string) returns (lead: string, entries: seq<Entry>, gap: string)
    requires ParseMembers(s, false).Parsed?
    ensures Blanks(lead) && Blanks(gap) && forall x | x in entries :: ValidKey(x) && Valid(x.doc)
    ensures s == lead + (EntriesText(entries, false, gap) + ParseMembers(s, false).rest)
    ensures Members(entries) == ParseMembers(s, false).value
    decreases |s|, 2
  {
    hide ParseMember, SkipSpace, Blanks, Valid, EntryText, Tree, ValidGlyph, Meanings;
    if Closes(s, '}') {
      lead, entries := "", [];
      gap := EndsBehind(s, '}');
      assert Blanks(lead) by { NoBlanks(); }
    } else {
      lead := SkipSplits(s);
      var u := SkipSpace(s)[1..];
      assert SkipSpace(s) == "," + u;
      var after, others;
      after, others, gap := MoreMembersHaveDocs(ParseMember(u).rest);
      var e := MemberHasEntry(u, after);
      entries := [e] + others;
      assert entries[1..] == others;
      EntriesTextOf(entries, false, gap, ParseMembers(s, false).rest);
    }
  }

  /**
   A value is read from a text, with this rest, exactly if the text is a document of the
   value in front of the rest.
   */
  lemma ReadsExactlyDocs(text: string, v: Json, rest: string)
    requires Stops(rest)
    ensures ParseValue(text) == Parsed(v, rest) <==>
            exists doc :: Valid(doc) && text == DocText(doc) + rest && Tree(doc) == v
  {
    hide ParseValue, Valid, DocText, Tree, Stops;
    if ParseValue(text) == Parsed(v, rest) {
      var doc := ValueHasDoc(text);
    }
    if doc :| Valid(doc) && text == DocText(doc) + rest && Tree(doc) == v {
      DocReads(doc, rest);
    }
  }
}
