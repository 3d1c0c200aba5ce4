/**
 The layout of the stats documents: a value that fits the width is written on
 one line, a larger container one element a line. Reading a layout gives back
 the value it was made from.
 */
module JsonLayout {
  import opened Wrappers
  import Strings
  import opened JsonGrammar

  const FORMAT_WIDTH := 110

  // ---------------------------------------------------------------- strings

  function HexDigit(n: int): (c: char)
    requires 0 <= n < 16
    ensures HexDigitValue(c) == n
  {
    if n < 10 then (n + '0' as int) as char else (n - 10 + 'a' as int) as char
  }

  /** One character of a string, escaped where JSON or HTML needs it. */
  function EncodeChar(c: char): (s: string)
    ensures s != "" && s[0] >= ' ' && s[0] != '"'
    ensures '\n' !in s
  {
    if c == '"' then "\\\""
    else if c == '\\' then "\\\\"
    else if c == '\U{0008}' then "\\b"
    else if c == '\U{000C}' then "\\f"
    else if c == '\n' then "\\n"
    else if c == '\r' then "\\r"
    else if c == '\t' then "\\t"
    else if c < ' ' || c in {'<', '>', '&'} then "\\u00" + [HexDigit(c as int / 16), HexDigit(c as int % 16)]
    else if c == '\U{2028}' then "\\u2028"
    else if c == '\U{2029}' then "\\u2029"
    else [c]
  }

  function EncodeChars(s: string): (r: string)
    ensures '\n' !in r
  {
    if s == "" then "" else EncodeChar(s[0]) + EncodeChars(s[1..])
  }

  function EncodeString(s: string): (r: string)
    ensures '\n' !in r
  {
    "\"" + EncodeChars(s) + "\""
  }

  lemma HexEscapeReads(c: char, rest: string)
    requires c < '\U{0080}'
    ensures UnicodeEscape("00" + [HexDigit(c as int / 16), HexDigit(c as int % 16)] + rest) == Parsed(c, rest)
  {
    var s := "00" + [HexDigit(c as int / 16), HexDigit(c as int % 16)] + rest;
    assert s[4..] == rest;
    assert Hex4(s) == 16 * (c as int / 16) + c as int % 16 == c as int;
  }

  lemma LineSeparatorReads(c: char, rest: string)
    requires c == '\U{2028}' || c == '\U{2029}'
    ensures UnicodeEscape((if c == '\U{2028}' then "2028" else "2029") + rest) == Parsed(c, rest)
  {
    var s := (if c == '\U{2028}' then "2028" else "2029") + rest;
    assert s[4..] == rest;
    assert s[..4] == if c == '\U{2028}' then "2028" else "2029";
    assert Hex4(s) == c as int;
  }

  lemma ShortEscapeReads(c: char, rest: string)
    requires |EncodeChar(c)| == 2
    ensures Escape(EncodeChar(c)[1..] + rest) == Parsed(c, rest)
  {
    hide UnicodeEscape, HexDigit;
    var letter := EncodeChar(c)[1];
    var s := [letter] + rest;
    assert EncodeChar(c)[1..] == [letter];
    assert s[1..] == rest && s[0] == letter;
  }

  /** Reading an escaped character gives the character. */
  lemma EscapeReads(c: char, rest: string)
    requires EncodeChar(c)[0] == '\\'
    ensures Escape(EncodeChar(c)[1..] + rest) == Parsed(c, rest)
  {
    hide UnicodeEscape, HexDigit;
    if |EncodeChar(c)| == 2 {
      ShortEscapeReads(c, rest);
    } else {
      var hex := EncodeChar(c)[2..];
      LongEscapeReads(c, rest);
      var s := EncodeChar(c)[1..] + rest;
      assert s[0] == 'u' && s[1..] == hex + rest;
    }
  }

  lemma LongEscapeReads(c: char, rest: string)
    requires EncodeChar(c)[0] == '\\' && |EncodeChar(c)| != 2
    ensures |EncodeChar(c)| == 6 && EncodeChar(c)[1] == 'u'
    ensures UnicodeEscape(EncodeChar(c)[2..] + rest) == Parsed(c, rest)
  {
    hide UnicodeEscape, HexDigit;
    if c == '\U{2028}' || c == '\U{2029}' {
      LineSeparatorReads(c, rest);
      assert EncodeChar(c)[2..] == if c == '\U{2028}' then "2028" else "2029";
    } else {
      HexEscapeReads(c, rest);
      var hex := "00" + [HexDigit(c as int / 16), HexDigit(c as int % 16)];
      assert EncodeChar(c) == "\\u" + hex;
      assert EncodeChar(c)[2..] == hex;
    }
  }

  lemma PlainReads(c: char)
    requires EncodeChar(c)[0] != '\\'
    ensures EncodeChar(c) == [c] && c >= ' ' && c != '"' && c != '\\'
  {
  }

  /** Reading an escaped string gives the string. */
  lemma {:induction false} TextReads(s: string, rest: string)
    ensures ParseText(EncodeChars(s) + "\"" + rest) == Parsed(s, rest)
  {
    hide EncodeChar, Escape;
    if s != "" {
      var e, tail := EncodeChar(s[0]), EncodeChars(s[1..]) + "\"" + rest;
      assert EncodeChars(s) + "\"" + rest == e + tail;
      assert (e + tail)[1..] == e[1..] + tail;
      CharReads(s[0], tail);
      TextReads(s[1..], rest);
      assert [s[0]] + s[1..] == s;
    }
  }

  lemma CharReads(c: char, tail: string)
    ensures var e := EncodeChar(c);
            (if e[0] == '\\' then Escape(e[1..] + tail) else Parsed(e[0], e[1..] + tail)) == Parsed(c, tail)
  {
    hide Escape;
    if EncodeChar(c)[0] == '\\' {
      EscapeReads(c, tail);
    } else {
      PlainReads(c);
      assert [c][1..] + tail == tail;
    }
  }

  // ---------------------------------------------------------------- one line

  function Compact(v: Json): string
    decreases v
  {
    match v
    case Null => "null"
    case Bool(value) => if value then "true" else "false"
    case Number(digits) => digits
    case Text(text) => EncodeString(text)
    case Array(items) => "[" + Strings.Join(CompactItems(items), ", ") + "]"
    case Object(members) => "{" + Strings.Join(CompactMembers(members), ", ") + "}"
  }

  function CompactItems(items: seq<Json>): (parts: seq<string>)
    ensures |parts| == |items|
    decreases items
  {
    if items == [] then [] else [Compact(items[0])] + CompactItems(items[1..])
  }

  function CompactMembers(members: seq<Member>): (parts: seq<string>)
    ensures |parts| == |members|
    decreases members
  {
    if members == [] then []
        else [EncodeString(members[0].key) + ": " + Compact(members[0].value)] + CompactMembers(members[1..])
  }

  // ---------------------------------------------------------------- many lines

  /** The number of bytes of a text in UTF-8. */
  function Width(s: string): nat {
    if s == "" then 0 else CharWidth(s[0]) + Width(s[1..])
  }

  function CharWidth(c: char): nat {
    if c < '\U{0080}' then 1 else if c < '\U{0800}' then 2 else if c < '\U{10000}' then 3 else 4
  }

  predicate IsContainer(v: Json) {
    v.Array? || v.Object?
  }

  predicate OneLine(v: Json, indent: nat) {
    indent + Width(Compact(v)) <= FORMAT_WIDTH || !IsContainer(v)
  }

  function Pad(n: nat): (s: string)
    ensures |s| == n && forall c | c in s :: c == ' '
  {
    seq(n, _ => ' ')
  }

  /** Elements one a line, with a comma behind all but the last. */
  function Lines(parts: seq<string>, indent: nat): string {
    if parts == [] then ""
    else Pad(indent) + "  " + parts[0] + (if |parts| > 1 then "," else "") + "\n" + Lines(parts[1..], indent)
  }

  function Layout(v: Json, indent: nat): string
    decreases v
  {
    if OneLine(v, indent) then Compact(v)
    else
      match v
      case Array(items) => "[\n" + Lines(LayoutItems(items, indent + 2), indent) + Pad(indent) + "]"
      case Object(members) => "{\n" + Lines(LayoutMembers(members, indent + 2), indent) + Pad(indent) + "}"
  }

  function LayoutItems(items: seq<Json>, indent: nat): (parts: seq<string>)
    ensures |parts| == |items|
    decreases items
  {
    if items == [] then [] else [Layout(items[0], indent)] + LayoutItems(items[1..], indent)
  }

  function LayoutMembers(members: seq<Member>, indent: nat): (parts: seq<string>)
    ensures |parts| == |members|
    decreases members
  {
    if members == [] then []
    else [EncodeString(members[0].key) + ": " + Layout(members[0].value, indent)] + LayoutMembers(members[1..], indent)
  }

  // ---------------------------------------------------------------- elements between gaps

  ghost predicate IsGap(s: string) {
    forall c | c in s :: IsBlank(c)
  }

  lemma {:induction false} GapIsSkipped(gap: string, s: string)
    requires IsGap(gap)
    ensures SkipSpace(gap + s) == SkipSpace(s)
  {
    if gap == "" {
      assert gap + s == s;
    } else {
      assert gap[0] in gap;
      assert (gap + s)[1..] == gap[1..] + s;
      GapIsSkipped(gap[1..], s);
    }
  }

  /** Elements behind the first, each behind a comma and a gap, and the gap before the closing bracket. */
  function Tail(parts: seq<string>, gap: string, end: string): string {
    if parts == [] then end else "," + gap + parts[0] + Tail(parts[1..], gap, end)
  }

  function Body(parts: seq<string>, first: string, gap: string, end: string): string {
    if parts == [] then end else first + parts[0] + Tail(parts[1..], gap, end)
  }

  /** One line is elements with single spaces between them. */
  lemma {:induction false} JoinIsBody(parts: seq<string>)
    ensures Strings.Join(parts, ", ") == Body(parts, "", " ", "")
  {
    if |parts| == 1 {
      assert Body(parts, "", " ", "") == "" + parts[0] + Tail([], " ", "");
    } else if |parts| > 1 {
      JoinIsBody(parts[1..]);
      assert ", " == "," + " ";
      assert Tail(parts[1..], " ", "") == "," + " " + (parts[1] + Tail(parts[1..][1..], " ", ""));
    }
  }

  lemma Associates(a: string, b: string, c: string)
    ensures a + b + c == a + (b + c)
  {
  }

  lemma Regroup(n: string, head: string, comma: string, more: string, pad: string)
    ensures n + (head + comma + n + more) + pad == n + head + (comma + (n + more + pad))
  {
    Associates(head + comma, n, more);
    Associates(head, comma, n + more);
    Associates(n, head, comma + (n + more));
    Associates(n + head, comma + (n + more), pad);
    Associates(comma, n + more, pad);
  }

  lemma LinesUnfold(parts: seq<string>, indent: nat)
    requires parts != []
    ensures "\n" + Lines(parts, indent) + Pad(indent) ==
            "\n" + Pad(indent) + "  " + parts[0] +
            ((if |parts| > 1 then "," else "") + ("\n" + Lines(parts[1..], indent) + Pad(indent)))
  {
    hide Lines, Pad;
    var newline, pad := "\n", Pad(indent);
    LinesOfFirst(parts, indent);
    Regroup(newline, pad + "  " + parts[0], if |parts| > 1 then "," else "", Lines(parts[1..], indent), pad);
    Associates(newline, pad + "  ", parts[0]);
    Associates(newline, pad, "  ");
  }

  lemma LinesOfFirst(parts: seq<string>, indent: nat)
    requires parts != []
    ensures Lines(parts, indent) ==
            Pad(indent) + "  " + parts[0] + (if |parts| > 1 then "," else "") + "\n" + Lines(parts[1..], indent)
  {
  }

  /** Many lines are elements with line breaks and indentation between them. */
  lemma {:induction false} LinesAreBody(parts: seq<string>, indent: nat)
    ensures "\n" + Lines(parts, indent) + Pad(indent) ==
            Body(parts, "\n" + Pad(indent) + "  ", "\n" + Pad(indent) + "  ", "\n" + Pad(indent))
  {
    hide Pad;
    var gap, end := "\n" + Pad(indent) + "  ", "\n" + Pad(indent);
    if parts == [] {
      assert "\n" + "" + Pad(indent) == end;
    } else {
      LinesAreBody(parts[1..], indent);
      LinesUnfold(parts, indent);
      BodyBehindComma(parts[1..], gap, end);
    }
  }

  lemma BodyBehindComma(parts: seq<string>, gap: string, end: string)
    ensures Tail(parts, gap, end) == (if parts == [] then "" else ",") + Body(parts, gap, gap, end)
  {
    if parts == [] {
      assert "" + end == end;
    } else {
      assert "," + gap + parts[0] + Tail(parts[1..], gap, end) == "," + (gap + parts[0] + Tail(parts[1..], gap, end));
    }
  }

  // ---------------------------------------------------------------- reading back

  /** A text that is read as a value wherever a document continues behind it. */
  ghost predicate Reads(text: string, v: Json) {
    forall rest | Stops(rest) :: ParseValue(text + rest) == Parsed(v, rest)
  }

  ghost predicate ItemsRead(parts: seq<string>, items: seq<Json>) {
    |parts| == |items| && forall i | 0 <= i < |items| :: Reads(parts[i], items[i])
  }

  ghost predicate MemberReads(text: string, m: Member) {
    exists value :: text == EncodeString(m.key) + ": " + value && Reads(value, m.value)
  }

  ghost predicate MembersRead(parts: seq<string>, members: seq<Member>) {
    |parts| == |members| && forall i | 0 <= i < |members| :: MemberReads(parts[i], members[i])
  }

  lemma TailStops(parts: seq<string>, gap: string, end: string, bracket: char, rest: string)
    requires IsGap(end) && bracket in {']', '}'}
    ensures Stops(Tail(parts, gap, end) + [bracket] + rest)
  {
    if parts == [] && end != "" {
      assert end[0] in end;
    }
  }

  /** What is read as a value does not start like a closing bracket or a comma. */
  lemma ValueStarts(s: string)
    requires ParseValue(s).Parsed?
    ensures !Closes(s, ']') && !Closes(s, ',')
  {
  }

  lemma EndCloses(end: string, bracket: char, rest: string)
    requires IsGap(end) && !IsBlank(bracket)
    ensures Closes(end + [bracket] + rest, bracket) && SkipSpace(end + [bracket] + rest)[1..] == rest
  {
    GapIsSkipped(end, [bracket] + rest);
    assert end + [bracket] + rest == end + ([bracket] + rest);
    assert ([bracket] + rest)[1..] == rest;
  }

  lemma ValueBehindGap(gap: string, s: string)
    requires IsGap(gap)
    ensures ParseValue(gap + s) == ParseValue(s)
  {
    hide ParseScalar, ParseItems, ParseMembers;
    GapIsSkipped(gap, s);
  }

  /** One item behind a gap, with what ParseItems goes on with. */
  lemma ItemBehindGap(gap: string, text: string, item: Json, rest: string)
    requires IsGap(gap) && Reads(text, item) && Stops(rest)
    ensures ParseValue(SkipSpace(gap + text + rest)) == ParseValue(gap + text + rest) == Parsed(item, rest)
  {
    hide ParseScalar, ParseItems, ParseMembers;
    assert gap + text + rest == gap + (text + rest);
    ValueBehindGap(gap, text + rest);
  }

  lemma CommaOpens(text: string, bracket: char)
    requires bracket in {']', '}'}
    ensures !Closes("," + text, bracket) && NextElement("," + text, false) == Some(text)
  {
    assert SkipSpace("," + text) == "," + text;
    assert ("," + text)[1..] == text;
  }

  lemma {:induction false} TailItemsRead(parts: seq<string>, items: seq<Json>, gap: string, end: string, rest: string)
    requires ItemsRead(parts, items) && IsGap(gap) && IsGap(end)
    ensures ParseItems(Tail(parts, gap, end) + "]" + rest, false) == Parsed(items, rest)
    decreases |parts|
  {
    hide ParseValue, Stops, Reads, IsGap, NextElement, Closes;
    if parts == [] {
      EndCloses(end, ']', rest);
    } else {
      var more := Tail(parts[1..], gap, end) + "]" + rest;
      var text := gap + parts[0] + more;
      assert Tail(parts, gap, end) + "]" + rest == "," + text;
      CommaOpens(text, ']');
      TailStops(parts[1..], gap, end, ']', rest);
      ItemBehindGap(gap, parts[0], items[0], more);
      TailItemsRead(parts[1..], items[1..], gap, end, rest);
      assert [items[0]] + items[1..] == items;
    }
  }

  lemma BodyItemsRead(parts: seq<string>, items: seq<Json>, first: string, gap: string, end: string, rest: string)
    requires ItemsRead(parts, items) && IsGap(first) && IsGap(gap) && IsGap(end)
    ensures ParseItems(Body(parts, first, gap, end) + "]" + rest, true) == Parsed(items, rest)
  {
    hide ParseValue, Stops, Reads;
    if parts == [] {
      EndCloses(end, ']', rest);
    } else {
      var more := Tail(parts[1..], gap, end) + "]" + rest;
      assert Body(parts, first, gap, end) + "]" + rest == first + parts[0] + more;
      TailStops(parts[1..], gap, end, ']', rest);
      ItemBehindGap(first, parts[0], items[0], more);
      ValueStarts(first + parts[0] + more);
      TailItemsRead(parts[1..], items[1..], gap, end, rest);
      assert [items[0]] + items[1..] == items;
    }
  }

  lemma KeyReads(key: string, rest: string)
    ensures ParseKey(EncodeString(key) + ": " + rest) == Parsed(key, " " + rest)
  {
    hide ParseText, EncodeChars;
    var quoted := EncodeChars(key) + "\"" + (": " + rest);
    assert EncodeString(key) + ": " + rest == "\"" + quoted;
    TextReads(key, ": " + rest);
    assert (": " + rest)[1..] == " " + rest;
  }

  lemma KeyBehindGap(gap: string, s: string)
    requires IsGap(gap)
    ensures ParseKey(gap + s) == ParseKey(s)
    ensures ParseKey(SkipSpace(s)) == ParseKey(s)
    ensures ParseKey(s).Parsed? ==> !Closes(gap + s, '}')
  {
    hide ParseText;
    GapIsSkipped(gap, s);
    assert SkipSpace(SkipSpace(s)) == SkipSpace(s);
  }

  lemma MemberBehindGap(gap: string, text: string, m: Member, rest: string)
    requires IsGap(gap) && MemberReads(text, m) && Stops(rest)
    ensures ParseMember(SkipSpace(gap + text + rest)) == ParseMember(gap + text + rest) == Parsed(m, rest)
    ensures !Closes(gap + text + rest, '}')
  {
    hide ParseKey, ParseValue, EncodeString, Closes, Stops;
    var value :| text == EncodeString(m.key) + ": " + value && Reads(value, m.value);
    assert gap + text + rest == gap + (EncodeString(m.key) + ": " + (value + rest));
    KeyReads(m.key, value + rest);
    KeyBehindGap(gap, EncodeString(m.key) + ": " + (value + rest));
    KeyBehindGap("", gap + text + rest);
    ValueBehindGap(" ", value + rest);
  }

  lemma {:induction false} TailMembersRead(parts: seq<string>, members: seq<Member>, gap: string, end: string,
                                           rest: string)
    requires MembersRead(parts, members) && IsGap(gap) && IsGap(end)
    ensures ParseMembers(Tail(parts, gap, end) + "}" + rest, false) == Parsed(members, rest)
    decreases |parts|
  {
    hide ParseMember, Stops, MemberReads, IsGap, NextElement, Closes;
    if parts == [] {
      EndCloses(end, '}', rest);
    } else {
      var more := Tail(parts[1..], gap, end) + "}" + rest;
      var text := gap + parts[0] + more;
      assert Tail(parts, gap, end) + "}" + rest == "," + text;
      CommaOpens(text, '}');
      TailStops(parts[1..], gap, end, '}', rest);
      MemberBehindGap(gap, parts[0], members[0], more);
      TailMembersRead(parts[1..], members[1..], gap, end, rest);
      assert [members[0]] + members[1..] == members;
    }
  }

  lemma BodyMembersRead(parts: seq<string>, members: seq<Member>, first: string, gap: string, end: string, rest: string)
    requires MembersRead(parts, members) && IsGap(first) && IsGap(gap) && IsGap(end)
    ensures ParseMembers(Body(parts, first, gap, end) + "}" + rest, true) == Parsed(members, rest)
  {
    hide ParseMember, Stops, MemberReads;
    if parts == [] {
      EndCloses(end, '}', rest);
    } else {
      var more := Tail(parts[1..], gap, end) + "}" + rest;
      assert Body(parts, first, gap, end) + "}" + rest == first + parts[0] + more;
      TailStops(parts[1..], gap, end, '}', rest);
      MemberBehindGap(first, parts[0], members[0], more);
      TailMembersRead(parts[1..], members[1..], gap, end, rest);
      assert [members[0]] + members[1..] == members;
    }
  }

  /** An array of texts that are read as items is read as the array of the items. */
  lemma ArrayReads(parts: seq<string>, items: seq<Json>, first: string, gap: string, end: string)
    requires ItemsRead(parts, items) && IsGap(first) && IsGap(gap) && IsGap(end)
    ensures Reads("[" + Body(parts, first, gap, end) + "]", Array(items))
  {
    hide ParseItems, Body, ItemsRead, ParseScalar, IsGap;
    forall rest | Stops(rest)
      ensures ParseValue("[" + Body(parts, first, gap, end) + "]" + rest) == Parsed(Array(items), rest)
    {
      BodyItemsRead(parts, items, first, gap, end, rest);
      var inner := Body(parts, first, gap, end) + "]" + rest;
      assert "[" + Body(parts, first, gap, end) + "]" + rest == "[" + inner;
      assert ("[" + inner)[1..] == inner;
    }
  }

  lemma ObjectReads(parts: seq<string>, members: seq<Member>, first: string, gap: string, end: string)
    requires MembersRead(parts, members) && DistinctKeys(members) && IsGap(first) && IsGap(gap) && IsGap(end)
    ensures Reads("{" + Body(parts, first, gap, end) + "}", Object(members))
  {
    hide ParseMembers, Body, MembersRead, ParseScalar, IsGap, DistinctKeys, Collect;
    assert [] + members == members;
    DistinctIsCollected([], members);
    forall rest | Stops(rest)
      ensures ParseValue("{" + Body(parts, first, gap, end) + "}" + rest) == Parsed(Object(members), rest)
    {
      BodyMembersRead(parts, members, first, gap, end, rest);
      var inner := Body(parts, first, gap, end) + "}" + rest;
      assert "{" + Body(parts, first, gap, end) + "}" + rest == "{" + inner;
      assert ("{" + inner)[1..] == inner;
    }
  }

  lemma TextValueReads(text: string)
    ensures Reads(EncodeString(text), Text(text))
  {
    hide ParseText, EncodeChars, ParseItems, ParseMembers;
    forall rest | Stops(rest) ensures ParseValue(EncodeString(text) + rest) == Parsed(Text(text), rest) {
      var s := EncodeChars(text) + "\"" + rest;
      assert EncodeString(text) + rest == "\"" + s;
      assert ("\"" + s)[1..] == s;
      TextReads(text, rest);
    }
  }

  lemma NumberStarts(digits: string)
    requires IsNumber(digits)
    ensures digits != "" && (digits[0] == '-' || Strings.IsDigit(digits[0]))
  {
    hide FractionLength, ExponentLength;
  }

  lemma NumberIsScalar(digits: string, rest: string)
    requires IsNumber(digits) && Stops(rest)
    ensures ParseScalar(digits + rest) == Parsed(Number(digits), rest)
  {
    hide NumberLength, Stops;
    NumberStops(digits, rest);
    NumberStarts(digits);
    assert (digits + rest)[0] == digits[0];
    assert (digits + rest)[..|digits|] == digits && (digits + rest)[|digits|..] == rest;
  }

  lemma NumberReads(digits: string)
    requires IsNumber(digits)
    ensures Reads(digits, Number(digits))
  {
    hide ParseItems, ParseMembers, ParseScalar, IsNumber, Stops;
    NumberStarts(digits);
    forall rest | Stops(rest) ensures ParseValue(digits + rest) == Parsed(Number(digits), rest) {
      NumberIsScalar(digits, rest);
      assert (digits + rest)[0] == digits[0];
    }
  }

  lemma WordReads(v: Json)
    requires v.Null? || v.Bool?
    ensures Reads(Compact(v), v)
  {
    hide ParseItems, ParseMembers, NumberLength;
    var word := Compact(v);
    forall rest | Stops(rest) ensures ParseValue(word + rest) == Parsed(v, rest) {
      assert word <= word + rest && (word + rest)[|word|..] == rest;
      assert word[0] == (word + rest)[0];
    }
  }

  /** A well-formed value is read back from its one-line form. */
  lemma {:induction false} CompactReads(v: Json)
    requires WellFormed(v)
    ensures Reads(Compact(v), v)
    decreases v
  {
    hide Reads, Body, IsNumber, DistinctKeys;
    match v
    case Array(items) =>
      CompactItemsRead(items);
      ArrayReads(CompactItems(items), items, "", " ", "");
      JoinIsBody(CompactItems(items));
    case Object(members) =>
      CompactMembersRead(members);
      ObjectReads(CompactMembers(members), members, "", " ", "");
      JoinIsBody(CompactMembers(members));
    case Text(text) => TextValueReads(text);
    case Number(digits) => NumberReads(digits);
    case _ => WordReads(v);
  }

  lemma {:induction false} CompactItemsRead(items: seq<Json>)
    requires forall item | item in items :: WellFormed(item)
    ensures ItemsRead(CompactItems(items), items)
    decreases items
  {
    hide Reads, Compact, WellFormed;
    if items != [] {
      CompactReads(items[0]);
      CompactItemsRead(items[1..]);
    }
  }

  lemma {:induction false} CompactMembersRead(members: seq<Member>)
    requires forall m | m in members :: WellFormed(m.value)
    ensures MembersRead(CompactMembers(members), members)
    decreases members
  {
    hide Reads, Compact, WellFormed, EncodeString;
    if members != [] {
      CompactReads(members[0].value);
      CompactMembersRead(members[1..]);
    }
  }

  /** A well-formed value is read back from its layout, at every depth and indentation. */
  lemma {:induction false} LayoutReads(v: Json, indent: nat)
    requires WellFormed(v)
    ensures Reads(Layout(v, indent), v)
    decreases v
  {
    hide Reads, Body, IsNumber, DistinctKeys, Compact, Lines, Pad, Width;
    if OneLine(v, indent) {
      CompactReads(v);
    } else {
      var gap, end := "\n" + Pad(indent) + "  ", "\n" + Pad(indent);
      match v
      case Array(items) =>
        LayoutItemsRead(items, indent + 2);
        var parts := LayoutItems(items, indent + 2);
        ArrayReads(parts, items, gap, gap, end);
        LinesAreBody(parts, indent);
        assert "[\n" + Lines(parts, indent) + Pad(indent) + "]" ==
               "[" + ("\n" + Lines(parts, indent) + Pad(indent)) + "]";
      case Object(members) =>
        LayoutMembersRead(members, indent + 2);
        var parts := LayoutMembers(members, indent + 2);
        ObjectReads(parts, members, gap, gap, end);
        LinesAreBody(parts, indent);
        assert "{\n" + Lines(parts, indent) + Pad(indent) + "}" ==
               "{" + ("\n" + Lines(parts, indent) + Pad(indent)) + "}";
    }
  }

  lemma {:induction false} LayoutItemsRead(items: seq<Json>, indent: nat)
    requires forall item | item in items :: WellFormed(item)
    ensures ItemsRead(LayoutItems(items, indent), items)
    decreases items
  {
    hide Reads, Layout, WellFormed;
    if items != [] {
      LayoutReads(items[0], indent);
      LayoutItemsRead(items[1..], indent);
    }
  }

  lemma {:induction false} LayoutMembersRead(members: seq<Member>, indent: nat)
    requires forall m | m in members :: WellFormed(m.value)
    ensures MembersRead(LayoutMembers(members, indent), members)
    decreases members
  {
    hide Reads, Layout, WellFormed, EncodeString;
    if members != [] {
      LayoutReads(members[0].value, indent);
      LayoutMembersRead(members[1..], indent);
    }
  }
}
