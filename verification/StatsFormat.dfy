/**
 The stats formatter: reads a document through decoder tokens into a tree, and
 writes the tree laid out. What it writes denotes what it read.
 */
module StatsFormat {
  import opened Wrappers
  import opened JsonGrammar
  import opened JsonDecoder
  import opened JsonLayout

  // ---------------------------------------------------------------- what the formatter promises

  function Format(raw: string): Option<string> {
    match ParseValue(raw)
    case Failed => None
    case Parsed(v, _) => Some(Layout(v, 0) + "\n")
  }

  /** Formatting fails on what is not JSON and keeps the tree of what is, key order and number text included. */
  lemma FormatPreserves(raw: string)
    ensures Format(raw).Some? <==> ParseValue(raw).Parsed?
    ensures Format(raw).Some? ==> ParseValue(Format(raw).value) == Parsed(ParseValue(raw).value, "\n")
  {
    hide ParseValue, Layout, Stops;
    if ParseValue(raw).Parsed? {
      var v := ParseValue(raw).value;
      ParsedIsWellFormed(raw);
      LayoutReads(v, 0);
      NewlineStops();
      assert ParseValue(Layout(v, 0) + "\n") == Parsed(v, "\n");
    }
  }

  lemma NewlineStops()
    ensures Stops("\n")
  {
  }

  /** Formatting twice is formatting once. */
  lemma FormatIsIdempotent(raw: string)
    requires Format(raw).Some?
    ensures Format(Format(raw).value) == Format(raw)
  {
    hide ParseValue, Layout;
    FormatPreserves(raw);
  }

  /** Two documents are formatted alike exactly when they denote one tree. */
  lemma FormatSeparates(one: string, two: string)
    requires ParseValue(one).Parsed? && ParseValue(two).Parsed?
    ensures Format(one) == Format(two) <==> ParseValue(one).value == ParseValue(two).value
  {
    hide ParseValue, Layout;
    FormatPreserves(one);
    FormatPreserves(two);
  }

  // ---------------------------------------------------------------- one line or many

  lemma {:induction false} JoinKeepsLine(parts: seq<string>)
    requires forall p | p in parts :: '\n' !in p
    ensures '\n' !in Strings.Join(parts, ", ")
  {
    if |parts| > 1 {
      JoinKeepsLine(parts[1..]);
    }
  }

  lemma {:induction false} DigitsAreDigits(s: string, k: nat)
    requires k < Digits(s)
    ensures Strings.IsDigit(s[k])
  {
    if k > 0 {
      DigitsAreDigits(s[1..], k - 1);
    }
  }

  lemma IntegerIsOneLine(s: string, k: nat)
    requires k < IntegerLength(s)
    ensures s[k] != '\n'
  {
    if s[0] != '0' {
      DigitsAreDigits(s, k);
    }
  }

  lemma FractionIsOneLine(s: string, k: nat)
    requires FractionLength(s).Some? && k < FractionLength(s).value
    ensures s[k] != '\n'
  {
    if k > 0 {
      DigitsAreDigits(s[1..], k - 1);
    }
  }

  lemma ExponentIsOneLine(s: string, k: nat)
    requires ExponentLength(s).Some? && k < ExponentLength(s).value
    ensures s[k] != '\n'
  {
    var from := if |s| > 1 && s[1] in {'+', '-'} then 2 else 1;
    if k >= from {
      DigitsAreDigits(s[from..], k - from);
    }
  }

  lemma NumberIsOneLine(s: string)
    requires IsNumber(s)
    ensures '\n' !in s
  {
    hide IntegerLength, FractionLength, ExponentLength;
    var sign := SignLength(s);
    var whole := sign + IntegerLength(s[sign..]);
    var fraction := whole + FractionLength(s[whole..]).value;
    forall k | 0 <= k < |s| ensures s[k] != '\n' {
      if sign <= k < whole {
        IntegerIsOneLine(s[sign..], k - sign);
      } else if whole <= k < fraction {
        FractionIsOneLine(s[whole..], k - whole);
      } else if fraction <= k {
        ExponentIsOneLine(s[fraction..], k - fraction);
      }
    }
  }

  lemma {:induction false} CompactIsOneLine(v: Json)
    requires WellFormed(v)
    ensures '\n' !in Compact(v)
    decreases v
  {
    hide IsNumber, DistinctKeys, EncodeString, Strings.Join;
    match v
    case Array(items) =>
      forall p | p in CompactItems(items) ensures '\n' !in p {
        var i :| 0 <= i < |items| && CompactItems(items)[i] == p;
        CompactItemAt(items, i);
        CompactIsOneLine(items[i]);
      }
      JoinKeepsLine(CompactItems(items));
    case Object(members) =>
      forall p | p in CompactMembers(members) ensures '\n' !in p {
        var i :| 0 <= i < |members| && CompactMembers(members)[i] == p;
        CompactMemberAt(members, i);
        CompactIsOneLine(members[i].value);
      }
      JoinKeepsLine(CompactMembers(members));
    case Number(digits) => NumberIsOneLine(digits);
    case _ =>
  }

  lemma {:induction false} CompactItemAt(items: seq<Json>, i: nat)
    requires i < |items|
    ensures CompactItems(items)[i] == Compact(items[i])
    decreases items
  {
    if i > 0 {
      CompactItemAt(items[1..], i - 1);
    }
  }

  lemma {:induction false} CompactMemberAt(members: seq<Member>, i: nat)
    requires i < |members|
    ensures CompactMembers(members)[i] == EncodeString(members[i].key) + ": " + Compact(members[i].value)
    decreases members
  {
    hide EncodeString;
    if i > 0 {
      CompactMemberAt(members[1..], i - 1);
    }
  }

  /** A value is written on one line exactly when that line fits the width or there is nothing to expand. */
  lemma OneLineWhenItFits(v: Json, indent: nat)
    requires WellFormed(v)
    ensures '\n' !in Layout(v, indent) <==> (!v.Array? && !v.Object?) || indent + Width(Compact(v)) <= 110
  {
    hide Compact, Lines, Width, Pad;
    CompactIsOneLine(v);
    if !OneLine(v, indent) {
      assert Layout(v, indent)[1] == '\n';
    }
  }

  lemma {:induction false} LayoutItemAt(items: seq<Json>, indent: nat, i: nat)
    requires i < |items|
    ensures LayoutItems(items, indent)[i] == Layout(items[i], indent)
    decreases items
  {
    if i > 0 {
      LayoutItemAt(items[1..], indent, i - 1);
    }
  }

  lemma {:induction false} LayoutMemberAt(members: seq<Member>, indent: nat, i: nat)
    requires i < |members|
    ensures LayoutMembers(members, indent)[i] == EncodeString(members[i].key) + ": " + Layout(members[i].value, indent)
    decreases members
  {
    hide EncodeString;
    if i > 0 {
      LayoutMemberAt(members[1..], indent, i - 1);
    }
  }

  // ---------------------------------------------------------------- reading

  /** Elements in front of those a parse adds, if it succeeds. */
  function Prefixed<T>(first: seq<T>, p: Parsed<seq<T>>): Parsed<seq<T>> {
    match p
    case Failed => Failed
    case Parsed(others, rest) => Parsed(first + others, rest)
  }

  lemma PrefixedTwice<T>(a: seq<T>, b: seq<T>, p: Parsed<seq<T>>)
    ensures Prefixed(a, Prefixed(b, p)) == Prefixed(a + b, p)
    ensures Prefixed([], p) == p
  {
    if p.Parsed? {
      assert a + (b + p.value) == a + b + p.value;
      assert [] + p.value == p.value;
    }
  }

  predicate InArray(state: TokenState, first: bool) {
    state == if first then ArrayStart else ArrayComma
  }

  predicate InObject(state: TokenState, first: bool) {
    state == if first then ObjectStart else ObjectComma
  }

  lemma ItemToken(c: Cursor, first: bool)
    requires InArray(c.state, first) && More(c)
    ensures match ValueAt(c)
            case Failed => ParseItems(c.rest, first).Failed?
            case Parsed(item, rest) => ParseItems(c.rest, first) == Prefixed([item], ParseItems(rest, false))
  {
    hide ParseValue;
    if first {
      SkippedValue(c.rest);
    }
  }

  lemma SkippedValue(s: string)
    ensures ParseValue(SkipSpace(s)) == ParseValue(s)
  {
    hide ParseScalar, ParseItems, ParseMembers;
    assert SkipSpace(SkipSpace(s)) == SkipSpace(s);
  }

  lemma ArrayEnd(c: Cursor, first: bool)
    requires InArray(c.state, first) && !More(c) && c.stack != []
    ensures match NextToken(c)
            case None => ParseItems(c.rest, first).Failed?
            case Some(read) =>
              && ParseItems(c.rest, first) == Parsed([], read.next.rest)
              && read.next == Cursor(read.next.rest, ValueEnd(c.stack[|c.stack| - 1]), c.stack[..|c.stack| - 1])
  {
    hide ParseScalar, ParseMembers;
    var s := SkipSpace(c.rest);
    assert SkipSpace(s) == s;
    if s != "" && s[0] == '}' {
      NotAScalar(s);
    }
  }

  /** The token in a key's place is the key, if the grammar reads one there. */
  lemma KeyIsRead(c: Cursor, first: bool)
    requires InObject(c.state, first) && More(c)
    ensures match NextElement(c.rest, first)
            case None => NextToken(c).None?
            case Some(start) =>
              var t := SkipSpace(start);
              if t == "" || t[0] != '"' || ParseText(t[1..]).Failed? then NextToken(c).None?
              else
                var key := ParseText(t[1..]);
                NextToken(c) == Some(Read(Scalar(Text(key.value)), Cursor(key.rest, ObjectColon, c.stack)))
  {
    hide ParseText, ParseScalar, IsBlank;
    var s := SkipSpace(c.rest);
    assert SkipSpace(s) == s;
  }

  lemma KeyToken(c: Cursor, first: bool)
    requires InObject(c.state, first) && More(c)
    ensures match NextToken(c)
            case None => ParseMembers(c.rest, first).Failed?
            case Some(read) =>
              && read.token.Scalar? && read.token.value.Text?
              && read.next == Cursor(read.next.rest, ObjectColon, c.stack)
              && (match ValueAt(read.next)
                  case Failed => ParseMembers(c.rest, first).Failed?
                  case Parsed(value, rest) =>
                    ParseMembers(c.rest, first) ==
                    Prefixed([Member(read.token.value.text, value)], ParseMembers(rest, false)))
  {
    hide ParseValue, ParseText, ParseScalar, Collect, ParseItems, IsBlank, NextToken, NextElement;
    KeyIsRead(c, first);
  }

  lemma ObjectEnd(c: Cursor, first: bool)
    requires InObject(c.state, first) && !More(c) && c.stack != []
    ensures match NextToken(c)
            case None => ParseMembers(c.rest, first).Failed?
            case Some(read) =>
              && ParseMembers(c.rest, first) == Parsed([], read.next.rest)
              && read.next == Cursor(read.next.rest, ValueEnd(c.stack[|c.stack| - 1]), c.stack[..|c.stack| - 1])
  {
    hide ParseScalar, ParseText;
    var s := SkipSpace(c.rest);
    assert SkipSpace(s) == s;
  }

  /** The members of an object kept as its keys in order and its values by key. */
  function Members(keys: seq<string>, values: map<string, Json>): seq<Member>
    requires forall k | k in keys :: k in values
  {
    seq(|keys|, i requires 0 <= i < |keys| => Member(keys[i], values[keys[i]]))
  }

  ghost predicate IsOrdered(keys: seq<string>, values: map<string, Json>) {
    (forall k :: k in keys <==> k in values) && forall i, j | 0 <= i < j < |keys| :: keys[i] != keys[j]
  }

  lemma StoringNewKeepsOrder(keys: seq<string>, values: map<string, Json>, key: string, value: Json)
    requires IsOrdered(keys, values) && key !in values
    ensures IsOrdered(keys + [key], values[key := value])
  {
  }

  lemma MembersMore(keys: seq<string>, values: map<string, Json>, key: string, value: Json)
    requires IsOrdered(keys, values) && key !in values
    requires IsOrdered(keys + [key], values[key := value])
    ensures Members(keys + [key], values[key := value]) == Members(keys, values) + [Member(key, value)]
  {
    var members, stored := Members(keys, values), Members(keys + [key], values[key := value]);
    forall j | 0 <= j < |keys| ensures stored[j] == members[j] {
      assert keys[j] in keys && (keys + [key])[j] == keys[j];
    }
  }

  lemma PutNew(members: seq<Member>, m: Member)
    requires forall j | 0 <= j < |members| :: members[j].key != m.key
    ensures Put(members, m) == members + [m]
  {
  }

  lemma StoringNewPuts(keys: seq<string>, values: map<string, Json>, key: string, value: Json)
    requires IsOrdered(keys, values) && key !in values
    requires IsOrdered(keys + [key], values[key := value])
    ensures Members(keys + [key], values[key := value]) == Put(Members(keys, values), Member(key, value))
  {
    hide Put;
    MembersMore(keys, values, key, value);
    forall j | 0 <= j < |keys| ensures Members(keys, values)[j].key != key {
      assert keys[j] in keys;
    }
    PutNew(Members(keys, values), Member(key, value));
  }

  lemma StoringAgainPuts(keys: seq<string>, values: map<string, Json>, key: string, value: Json)
    requires IsOrdered(keys, values) && key in values && IsOrdered(keys, values[key := value])
    ensures Members(keys, values[key := value]) == Put(Members(keys, values), Member(key, value))
  {
    var members, stored := Members(keys, values), Members(keys, values[key := value]);
    var k :| 0 <= k < |keys| && keys[k] == key;
    assert members[k].key == key;
    var i := IndexOf(members, key);
    assert i == k;
    assert forall j | 0 <= j < |keys| && j != k :: stored[j] == members[j];
  }

  /** Storing a value under a key, and appending the key if it is new, puts the member. */
  lemma StoringPuts(keys: seq<string>, values: map<string, Json>, key: string, value: Json)
    requires IsOrdered(keys, values)
    ensures var keys' := if key in values then keys else keys + [key];
            && IsOrdered(keys', values[key := value])
            && Members(keys', values[key := value]) == Put(Members(keys, values), Member(key, value))
  {
    hide Members, Put;
    if key in values {
      StoringAgainPuts(keys, values, key, value);
    } else {
      StoringNewKeepsOrder(keys, values, key, value);
      StoringNewPuts(keys, values, key, value);
    }
  }

  lemma {:induction false} CollectOneMore(members: seq<Member>, added: seq<Member>, m: Member)
    ensures Collect(members, added + [m]) == Put(Collect(members, added), m)
    decreases |added|
  {
    if added == [] {
      assert [] + [m] == [m] && [m][1..] == [];
      assert Collect(Put(members, m), []) == Put(members, m);
    } else {
      assert (added + [m])[1..] == added[1..] + [m];
      CollectOneMore(Put(members, added[0]), added[1..], m);
    }
  }

  /** Reads one value through tokens: what it returns, and where it leaves the decoder, is what the grammar says. */
  method DecodeOrderedValue(dec: Decoder) returns (v: Option<Json>)
    requires BeforeValue(dec.at.state)
    modifies dec
    ensures match ValueAt(old(dec.at))
            case Failed => v.None?
            case Parsed(value, rest) =>
              v == Some(value) && dec.at == Cursor(rest, ValueEnd(ValueState(old(dec.at.state))), old(dec.at.stack))
    decreases |dec.at.rest|, 1
  {
    hide ParseItems, ParseMembers, ParseScalar, ParseValue, NextToken, ValueText, Collect;
    TokenOfValue(dec.at);
    var token := dec.Token();
    if token.None? {
      return None;
    }
    if token.value.Scalar? {
      return Some(token.value.value);
    }
    match token.value.bracket
    case '{' => v := DecodeMembers(dec);
    case '[' => v := DecodeItems(dec);
    case _ => v := None;
  }

  /** The members behind an opening brace. */
  method DecodeMembers(dec: Decoder) returns (v: Option<Json>)
    requires dec.at.state == ObjectStart && dec.at.stack != []
    modifies dec
    ensures match ParseMembers(old(dec.at.rest), true)
            case Failed => v.None?
            case Parsed(members, rest) =>
              && v == Some(Object(Collect([], members)))
              && dec.at == Popped(old(dec.at), rest)
    decreases |dec.at.rest|, 2
  {
    hide ParseMembers, ParseValue, NextToken, ValueText, Collect, Put, More, Members, IsOrdered;
    var keys: seq<string>, values: map<string, Json> := [], map[];
    ghost var raw: seq<Member>, first := [], true;
    ghost var all := ParseMembers(dec.at.rest, true);
    NoMembers(all);
    while More(dec.at)
      invariant IsOrdered(keys, values) && (forall k | k in keys :: k in values)
      invariant Members(keys, values) == Collect([], raw)
      invariant InObject(dec.at.state, first) && dec.at.stack == old(dec.at.stack)
      invariant all == Prefixed(raw, ParseMembers(dec.at.rest, first))
      invariant |dec.at.rest| <= |old(dec.at.rest)|
      decreases |dec.at.rest|
    {
      KeyToken(dec.at, first);
      NextIsShorter(dec.at);
      var keyToken := dec.Token();
      if keyToken.None? {
        return None;
      }
      if !keyToken.value.Scalar? || !keyToken.value.value.Text? {
        return None;
      }
      var key := keyToken.value.value.text;
      ValueIsShorter(dec.at);
      var value := DecodeOrderedValue(dec);
      if value.None? {
        return None;
      }
      StoringPuts(keys, values, key, value.value);
      CollectOneMore([], raw, Member(key, value.value));
      PrefixedTwice(raw, [Member(key, value.value)], ParseMembers(dec.at.rest, false));
      if key !in values {
        keys := keys + [key];
      }
      values := values[key := value.value];
      IsOrderedKeys(keys, values);
      raw, first := raw + [Member(key, value.value)], false;
    }
    ObjectEnd(dec.at, first);
    var closing := dec.Token();
    if closing.None? {
      return None;
    }
    assert raw + [] == raw;
    v := Some(Object(Members(keys, values)));
  }

  lemma IsOrderedKeys(keys: seq<string>, values: map<string, Json>)
    requires IsOrdered(keys, values)
    ensures forall k | k in keys :: k in values
  {
  }

  lemma NoMembers(all: Parsed<seq<Member>>)
    ensures IsOrdered([], map[]) && Members([], map[]) == Collect([], [])
    ensures all == Prefixed([], all)
  {
    PrefixedTwice([], [], all);
  }

  lemma NextIsShorter(c: Cursor)
    ensures NextToken(c).Some? ==> |NextToken(c).value.next.rest| < |c.rest|
  {
  }

  lemma ValueIsShorter(c: Cursor)
    ensures ValueAt(c).Parsed? ==> |ValueAt(c).rest| < |c.rest|
  {
  }

  /** Where a decoder stands behind the container whose inside a cursor is in. */
  function Popped(c: Cursor, rest: string): Cursor
    requires c.stack != []
  {
    Cursor(rest, ValueEnd(c.stack[|c.stack| - 1]), c.stack[..|c.stack| - 1])
  }

  /** The items behind an opening bracket. */
  method DecodeItems(dec: Decoder) returns (v: Option<Json>)
    requires dec.at.state == ArrayStart && dec.at.stack != []
    modifies dec
    ensures match ParseItems(old(dec.at.rest), true)
            case Failed => v.None?
            case Parsed(items, rest) => v == Some(Array(items)) && dec.at == Popped(old(dec.at), rest)
    decreases |dec.at.rest|, 2
  {
    hide ParseItems, ParseValue, NextToken, ValueText, More;
    var items: seq<Json> := [];
    ghost var first, all := true, ParseItems(dec.at.rest, true);
    PrefixedTwice([], [], all);
    while More(dec.at)
      invariant InArray(dec.at.state, first) && dec.at.stack == old(dec.at.stack)
      invariant all == Prefixed(items, ParseItems(dec.at.rest, first))
      invariant |dec.at.rest| <= |old(dec.at.rest)|
      decreases |dec.at.rest|
    {
      ItemToken(dec.at, first);
      ValueIsShorter(dec.at);
      var item := DecodeOrderedValue(dec);
      if item.None? {
        return None;
      }
      PrefixedTwice(items, [item.value], ParseItems(dec.at.rest, false));
      items, first := items + [item.value], false;
    }
    ArrayEnd(dec.at, first);
    var closing := dec.Token();
    if closing.None? {
      return None;
    }
    assert items + [] == items;
    v := Some(Array(items));
  }

  // ---------------------------------------------------------------- writing

  class Builder {
    var text: string

    constructor ()
      ensures text == ""
    {
      text := "";
    }

    method WriteString(s: string)
      modifies this
      ensures text == old(text) + s
    {
      text := text + s;
    }
  }

  /** The one-line form. */
  method CompactValue(v: Json) returns (s: string)
    ensures s == Compact(v)
    decreases v, 1
  {
    hide CompactItems, CompactMembers, Strings.Join, EncodeString;
    match v
    case Object(members) =>
      var parts := CompactMemberParts(members);
      s := "{" + Strings.Join(parts, ", ") + "}";
    case Array(items) =>
      var parts := CompactItemParts(items);
      s := "[" + Strings.Join(parts, ", ") + "]";
    case _ => s := Compact(v);
  }

  method CompactMemberParts(members: seq<Member>) returns (parts: seq<string>)
    ensures parts == CompactMembers(members)
    decreases members
  {
    hide Compact, CompactMembers, EncodeString;
    parts := [];
    for i := 0 to |members|
      invariant parts == CompactMembers(members)[..i]
    {
      CompactMemberAt(members, i);
      var inner := CompactValue(members[i].value);
      parts := parts + [EncodeString(members[i].key) + ": " + inner];
    }
    assert CompactMembers(members)[..|members|] == CompactMembers(members);
  }

  method CompactItemParts(items: seq<Json>) returns (parts: seq<string>)
    ensures parts == CompactItems(items)
    decreases items
  {
    hide Compact, CompactItems;
    parts := [];
    for i := 0 to |items|
      invariant parts == CompactItems(items)[..i]
    {
      CompactItemAt(items, i);
      var inner := CompactValue(items[i]);
      parts := parts + [inner];
    }
    assert CompactItems(items)[..|items|] == CompactItems(items);
  }

  /** Appends the layout of a value. */
  method WriteValue(b: Builder, v: Json, indent: nat)
    modifies b
    ensures b.text == old(b.text) + Layout(v, indent)
    decreases v, 1
  {
    hide Compact, Lines, Width, Pad, LayoutItems, LayoutMembers;
    var compact := CompactValue(v);
    if indent + Width(compact) <= FORMAT_WIDTH || !IsContainer(v) {
      b.WriteString(compact);
      return;
    }
    var pad := Pad(indent);
    ghost var start := b.text;
    match v
    case Object(members) =>
      b.WriteString("{\n");
      WriteMembers(b, members, indent);
      b.WriteString(pad + "}");
      ghost var lines := Lines(LayoutMembers(members, indent + 2), indent);
      assert start + "{\n" + lines + (pad + "}") == start + ("{\n" + lines + pad + "}");
    case Array(items) =>
      b.WriteString("[\n");
      WriteItems(b, items, indent);
      b.WriteString(pad + "]");
      ghost var lines := Lines(LayoutItems(items, indent + 2), indent);
      assert start + "[\n" + lines + (pad + "]") == start + ("[\n" + lines + pad + "]");
  }

  lemma LineWritten(text: string, parts: seq<string>, i: nat, indent: nat)
    requires i < |parts|
    ensures text + Lines(parts[i..], indent) ==
            text + (Pad(indent) + "  ") + parts[i] + (if i < |parts| - 1 then "," else "") + "\n" +
            Lines(parts[i + 1..], indent)
  {
    hide Lines, Pad;
    assert parts[i..][1..] == parts[i + 1..];
    LinesOfFirst(parts[i..], indent);
    var pad, part, more := Pad(indent) + "  ", parts[i], Lines(parts[i + 1..], indent);
    var comma := if i < |parts| - 1 then "," else "";
    Associates(text, pad, part);
    Associates(text, pad + part, comma);
    Associates(text, pad + part + comma, "\n");
    Associates(text, pad + part + comma + "\n", more);
  }

  method WriteItems(b: Builder, items: seq<Json>, indent: nat)
    modifies b
    ensures b.text == old(b.text) + Lines(LayoutItems(items, indent + 2), indent)
    decreases items
  {
    hide Layout, Lines, Pad, LayoutItems;
    ghost var parts := LayoutItems(items, indent + 2);
    for i := 0 to |items|
      invariant b.text + Lines(parts[i..], indent) == old(b.text) + Lines(parts, indent)
    {
      LineWritten(b.text, parts, i, indent);
      LayoutItemAt(items, indent + 2, i);
      b.WriteString(Pad(indent) + "  ");
      WriteValue(b, items[i], indent + 2);
      if i < |items| - 1 {
        b.WriteString(",");
      }
      b.WriteString("\n");
    }
    LinesOfNone(indent);
    assert parts[|items|..] == [] && b.text + "" == b.text;
  }

  lemma LinesOfNone(indent: nat)
    ensures Lines([], indent) == ""
  {
  }

  method WriteMembers(b: Builder, members: seq<Member>, indent: nat)
    modifies b
    ensures b.text == old(b.text) + Lines(LayoutMembers(members, indent + 2), indent)
    decreases members
  {
    hide Layout, Lines, Pad, LayoutMembers, EncodeString;
    ghost var parts := LayoutMembers(members, indent + 2);
    for i := 0 to |members|
      invariant b.text + Lines(parts[i..], indent) == old(b.text) + Lines(parts, indent)
    {
      LineWritten(b.text, parts, i, indent);
      LayoutMemberAt(members, indent + 2, i);
      b.WriteString(Pad(indent) + "  ");
      ghost var before := b.text;
      b.WriteString(EncodeString(members[i].key));
      b.WriteString(": ");
      WriteValue(b, members[i].value, indent + 2);
      KeyThenValue(before, EncodeString(members[i].key), Layout(members[i].value, indent + 2));
      if i < |members| - 1 {
        b.WriteString(",");
      }
      b.WriteString("\n");
    }
    LinesOfNone(indent);
    assert parts[|members|..] == [] && b.text + "" == b.text;
  }

  lemma KeyThenValue(text: string, key: string, value: string)
    ensures text + key + ": " + value == text + (key + ": " + value)
  {
  }

  /** Reads a document and writes it laid out, or fails if it is not JSON. */
  method FormatJson(raw: string) returns (out: Option<string>)
    ensures out == Format(raw)
  {
    hide ParseValue, Layout;
    var dec := new Decoder(raw);
    var v := DecodeOrderedValue(dec);
    if v.None? {
      return None;
    }
    var b := new Builder();
    WriteValue(b, v.value, 0);
    b.WriteString("\n");
    assert "" + Layout(v.value, 0) == Layout(v.value, 0);
    out := Some(b.text);
  }
}
