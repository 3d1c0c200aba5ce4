/**
 JSON text (RFC 8259) as the stats targets read it: a tree that keeps the order
 of object members and the text of numbers, and the parser of its grammar.
 */
module JsonGrammar {
  import opened Wrappers
  import opened Strings

  datatype Member = Member(key: string, value: Json)

  datatype Json =
    | Null
    | Bool(value: bool)
    | Number(digits: string)
    | Text(text: string)
    | Array(items: seq<Json>)
    | Object(members: seq<Member>)

  /** A prefix of the text that was read, and what follows it. */
  datatype Parsed<+T> = Failed | Parsed(value: T, rest: string)

  predicate IsBlank(c: char) {
    c in {' ', '\t', '\r', '\n'}
  }

  function SkipSpace(s: string): (r: string)
    ensures |r| <= |s|
    ensures r != "" ==> !IsBlank(r[0])
  {
    if s != "" && IsBlank(s[0]) then SkipSpace(s[1..]) else s
  }

  // ---------------------------------------------------------------- numbers (section 6)

  function Digits(s: string): (n: nat)
    ensures n <= |s|
  {
    if s != "" && IsDigit(s[0]) then 1 + Digits(s[1..]) else 0
  }

  function SignLength(s: string): (n: nat)
    ensures n <= |s|
  {
    if s != "" && s[0] == '-' then 1 else 0
  }

  /** No digits, a lone zero, or digits that do not start with zero. */
  function IntegerLength(s: string): (n: nat)
    ensures n <= |s|
  {
    if s != "" && s[0] == '0' then 1 else Digits(s)
  }

  function FractionLength(s: string): (n: Option<nat>)
    ensures n.Some? ==> n.value <= |s|
  {
    if s == "" || s[0] != '.' then Some(0)
    else if Digits(s[1..]) == 0 then None
    else Some(1 + Digits(s[1..]))
  }

  function ExponentLength(s: string): (n: Option<nat>)
    ensures n.Some? ==> n.value <= |s|
  {
    if s == "" || s[0] !in {'e', 'E'} then Some(0)
    else
      var sign := if |s| > 1 && s[1] in {'+', '-'} then 1 else 0;
      if Digits(s[1 + sign..]) == 0 then None else Some(1 + sign + Digits(s[1 + sign..]))
  }

  /** The length of the longest number at the start of the text. */
  function NumberLength(s: string): (n: Option<nat>)
    ensures n.Some? ==> 0 < n.value <= |s|
  {
    var sign := SignLength(s);
    var whole := IntegerLength(s[sign..]);
    if whole == 0 then None
    else
      match FractionLength(s[sign + whole..])
      case None => None
      case Some(fraction) =>
        match ExponentLength(s[sign + whole + fraction..])
        case None => None
        case Some(exponent) => Some(sign + whole + fraction + exponent)
  }

  predicate IsNumber(s: string) {
    NumberLength(s) == Some(|s|)
  }

  /** What follows a number or literal in a document. */
  predicate Stops(rest: string) {
    rest == "" || rest[0] in {',', ']', '}'} || IsBlank(rest[0])
  }

  lemma {:induction false} DigitsStop(s: string, rest: string)
    requires Stops(rest)
    ensures Digits(s + rest) == Digits(s)
  {
    if s == "" {
      assert s + rest == rest;
    } else {
      assert (s + rest)[1..] == s[1..] + rest;
      DigitsStop(s[1..], rest);
    }
  }

  lemma IntegerStops(s: string, rest: string)
    requires Stops(rest)
    ensures SignLength(s + rest) == SignLength(s) && IntegerLength(s + rest) == IntegerLength(s)
  {
    DigitsStop(s, rest);
    if s == "" {
      assert s + rest == rest;
    }
  }

  lemma FractionStops(s: string, rest: string)
    requires Stops(rest)
    ensures FractionLength(s + rest) == FractionLength(s)
  {
    if s == "" {
      assert s + rest == rest;
    } else {
      assert (s + rest)[1..] == s[1..] + rest;
      DigitsStop(s[1..], rest);
    }
  }

  lemma ExponentStops(s: string, rest: string)
    requires Stops(rest)
    ensures ExponentLength(s + rest) == ExponentLength(s)
  {
    if s == "" {
      assert s + rest == rest;
    } else {
      assert (s + rest)[1..] == s[1..] + rest;
      DigitsStop(s[1..], rest);
      if |s| > 1 {
        assert (s + rest)[2..] == s[2..] + rest;
        DigitsStop(s[2..], rest);
      } else {
        LoneExponent(s, rest);
      }
    }
  }

  /** An exponent mark without digits is one with or without more text that stops. */
  lemma LoneExponent(s: string, rest: string)
    requires |s| == 1 && Stops(rest)
    ensures ExponentLength(s + rest) == ExponentLength(s)
  {
    assert (s + rest)[1..] == rest;
    assert Digits(rest) == 0;
  }

  lemma PartsStop(s: string, rest: string)
    requires Stops(rest)
    ensures SignLength(s + rest) == SignLength(s)
    ensures IntegerLength(s + rest) == IntegerLength(s)
    ensures FractionLength(s + rest) == FractionLength(s)
    ensures ExponentLength(s + rest) == ExponentLength(s)
  {
    hide Stops;
    IntegerStops(s, rest);
    FractionStops(s, rest);
    ExponentStops(s, rest);
  }

  /** Text that cannot continue a number leaves its length as it is. */
  lemma NumberStops(s: string, rest: string)
    requires Stops(rest)
    ensures NumberLength(s + rest) == NumberLength(s)
  {
    hide SignLength, IntegerLength, FractionLength, ExponentLength, Stops;
    var sign := SignLength(s);
    PartsStop(s, rest);
    assert (s + rest)[sign..] == s[sign..] + rest;
    PartsStop(s[sign..], rest);
    var whole := sign + IntegerLength(s[sign..]);
    assert (s + rest)[whole..] == s[whole..] + rest;
    PartsStop(s[whole..], rest);
    if FractionLength(s[whole..]).Some? {
      var fraction := whole + FractionLength(s[whole..]).value;
      assert (s + rest)[fraction..] == s[fraction..] + rest;
      PartsStop(s[fraction..], rest);
    }
  }

  lemma {:induction false} DigitsOfPrefix(s: string, k: nat)
    requires Digits(s) <= k <= |s|
    ensures Digits(s[..k]) == Digits(s)
  {
    if k > 0 && IsDigit(s[0]) {
      assert s[..k][1..] == s[1..][..k - 1];
      DigitsOfPrefix(s[1..], k - 1);
    }
  }

  lemma SignOfPrefix(s: string, k: nat)
    requires SignLength(s) <= k <= |s|
    ensures SignLength(s[..k]) == SignLength(s)
  {
  }

  lemma IntegerOfPrefix(s: string, k: nat)
    requires IntegerLength(s) <= k <= |s|
    ensures IntegerLength(s[..k]) == IntegerLength(s)
  {
    if k > 0 && s[0] != '0' {
      DigitsOfPrefix(s, k);
    }
  }

  lemma FractionOfPrefix(s: string, k: nat)
    requires FractionLength(s).Some? && FractionLength(s).value <= k <= |s|
    ensures FractionLength(s[..k]) == FractionLength(s)
  {
    if k > 0 && s[0] == '.' {
      assert s[..k][1..] == s[1..][..k - 1];
      DigitsOfPrefix(s[1..], k - 1);
    }
  }

  lemma ExponentOfPrefix(s: string, k: nat)
    requires ExponentLength(s).Some? && ExponentLength(s).value <= k <= |s|
    ensures ExponentLength(s[..k]) == ExponentLength(s)
  {
    if k > 0 && s[0] in {'e', 'E'} {
      var sign := if |s| > 1 && s[1] in {'+', '-'} then 1 else 0;
      assert s[..k][1 + sign..] == s[1 + sign..][..k - 1 - sign];
      DigitsOfPrefix(s[1 + sign..], k - 1 - sign);
    }
  }

  /** What is taken for a number is one by itself. */
  lemma NumberTaken(s: string)
    requires NumberLength(s).Some?
    ensures IsNumber(s[..NumberLength(s).value])
  {
    hide SignLength, IntegerLength, FractionLength, ExponentLength;
    var n := NumberLength(s).value;
    var sign := SignLength(s);
    SignOfPrefix(s, n);
    assert s[..n][sign..] == s[sign..][..n - sign];
    IntegerOfPrefix(s[sign..], n - sign);
    var whole := sign + IntegerLength(s[sign..]);
    assert s[..n][whole..] == s[whole..][..n - whole];
    FractionOfPrefix(s[whole..], n - whole);
    var fraction := whole + FractionLength(s[whole..]).value;
    assert s[..n][fraction..] == s[fraction..][..n - fraction];
    ExponentOfPrefix(s[fraction..], n - fraction);
  }

  // ---------------------------------------------------------------- strings (section 7)

  function HexDigitValue(c: char): (n: int)
    ensures -1 <= n < 16
  {
    if '0' <= c <= '9' then c as int - '0' as int
    else if 'a' <= c <= 'f' then c as int - 'a' as int + 10
    else if 'A' <= c <= 'F' then c as int - 'A' as int + 10
    else -1
  }

  /** Four hexadecimal digits at the start of the text, or -1. */
  function Hex4(s: string): (n: int)
    ensures n == -1 || (0 <= n < 0x10000 && |s| >= 4)
  {
    if |s| < 4 then -1
    else
      var a, b, c, d := HexDigitValue(s[0]), HexDigitValue(s[1]), HexDigitValue(s[2]), HexDigitValue(s[3]);
      if a < 0 || b < 0 || c < 0 || d < 0 then -1 else 4096 * a + 256 * b + 16 * c + d
  }

  predicate IsSurrogate(n: int) {
    0xD800 <= n < 0xE000
  }

  /** The low surrogate escaped at the start of the text, or -1. */
  function LowSurrogate(s: string): (n: int)
    ensures n == -1 || (0xDC00 <= n < 0xE000 && |s| >= 6)
  {
    if |s| < 6 || s[0] != '\\' || s[1] != 'u' then -1
    else
      var n := Hex4(s[2..]);
      if 0xDC00 <= n < 0xE000 then n else -1
  }

  /** The character an escape stands for, from behind its backslash; a lone surrogate is replaced. */
  function Escape(s: string): (p: Parsed<char>)
    ensures p.Parsed? ==> |p.rest| < |s|
  {
    if s == "" then Failed
    else match s[0]
      case '"' => Parsed('"', s[1..])
      case '\\' => Parsed('\\', s[1..])
      case '/' => Parsed('/', s[1..])
      case 'b' => Parsed('\U{0008}', s[1..])
      case 'f' => Parsed('\U{000C}', s[1..])
      case 'n' => Parsed('\n', s[1..])
      case 'r' => Parsed('\r', s[1..])
      case 't' => Parsed('\t', s[1..])
      case 'u' => UnicodeEscape(s[1..])
      case _ => Failed
  }

  function UnicodeEscape(s: string): (p: Parsed<char>)
    ensures p.Parsed? ==> |p.rest| < |s|
  {
    var n := Hex4(s);
    if n < 0 then Failed
    else if !IsSurrogate(n) then Parsed(n as char, s[4..])
    else
      var low := LowSurrogate(s[4..]);
      if n >= 0xDC00 || low < 0 then Parsed('\U{FFFD}', s[4..])
      else Parsed((0x10000 + (n - 0xD800) * 0x400 + (low - 0xDC00)) as char, s[10..])
  }

  /** A string from behind its opening quote. */
  function ParseText(s: string): (p: Parsed<string>)
    ensures p.Parsed? ==> |p.rest| < |s|
  {
    if s == "" || s[0] < ' ' then Failed
    else if s[0] == '"' then Parsed("", s[1..])
    else
      var first := if s[0] == '\\' then Escape(s[1..]) else Parsed(s[0], s[1..]);
      if first.Failed? then Failed
      else
        var others := ParseText(first.rest);
        if others.Failed? then Failed else Parsed([first.value] + others.value, others.rest)
  }

  // ---------------------------------------------------------------- values (sections 2 to 5)

  function ParseValue(text: string): (p: Parsed<Json>)
    ensures p.Parsed? ==> |p.rest| < |text|
    decreases |text|, 0
  {
    var s := SkipSpace(text);
    if s == "" then Failed
    else if s[0] == '{' then
      var members := ParseMembers(s[1..], true);
      if members.Failed? then Failed else Parsed(Object(Collect([], members.value)), members.rest)
    else if s[0] == '[' then
      var items := ParseItems(s[1..], true);
      if items.Failed? then Failed else Parsed(Array(items.value), items.rest)
    else ParseScalar(s)
  }

  function ParseScalar(s: string): (p: Parsed<Json>)
    requires s != ""
    ensures p.Parsed? ==> |p.rest| < |s|
  {
    if s[0] == '"' then
      var text := ParseText(s[1..]);
      if text.Failed? then Failed else Parsed(Text(text.value), text.rest)
    else if "true" <= s then Parsed(Bool(true), s[4..])
    else if "false" <= s then Parsed(Bool(false), s[5..])
    else if "null" <= s then Parsed(Null, s[4..])
    else
      match NumberLength(s)
      case None => Failed
      case Some(n) => Parsed(Number(s[..n]), s[n..])
  }

  /** Where the next element of a container starts; a comma precedes all but the first. */
  function NextElement(s: string, first: bool): (start: Option<string>)
    ensures start.Some? ==> |start.value| <= |s|
  {
    var t := SkipSpace(s);
    if first then Some(t)
    else if t != "" && t[0] == ',' then Some(t[1..])
    else None
  }

  predicate Closes(s: string, bracket: char) {
    var t := SkipSpace(s);
    t != "" && t[0] == bracket
  }

  /** The items of an array up to its closing bracket. */
  function ParseItems(s: string, first: bool): (p: Parsed<seq<Json>>)
    ensures p.Parsed? ==> |p.rest| < |s|
    decreases |s|, 1
  {
    if Closes(s, ']') then Parsed([], SkipSpace(s)[1..])
    else
      match NextElement(s, first)
      case None => Failed
      case Some(start) =>
        var item := ParseValue(start);
        if item.Failed? then Failed
        else
          var others := ParseItems(item.rest, false);
          if others.Failed? then Failed else Parsed([item.value] + others.value, others.rest)
  }

  /** The members of an object, repeated keys included, up to its closing bracket. */
  function ParseMembers(s: string, first: bool): (p: Parsed<seq<Member>>)
    ensures p.Parsed? ==> |p.rest| < |s|
    decreases |s|, 1
  {
    if Closes(s, '}') then Parsed([], SkipSpace(s)[1..])
    else
      match NextElement(s, first)
      case None => Failed
      case Some(start) =>
        var member := ParseMember(start);
        if member.Failed? then Failed
        else
          var others := ParseMembers(member.rest, false);
          if others.Failed? then Failed else Parsed([member.value] + others.value, others.rest)
  }

  /** A key with its closing colon. */
  function ParseKey(s: string): (p: Parsed<string>)
    ensures p.Parsed? ==> |p.rest| < |s|
  {
    var t := SkipSpace(s);
    if t == "" || t[0] != '"' then Failed
    else
      var key := ParseText(t[1..]);
      if key.Failed? || !Closes(key.rest, ':') then Failed
      else Parsed(key.value, SkipSpace(key.rest)[1..])
  }

  function ParseMember(s: string): (p: Parsed<Member>)
    ensures p.Parsed? ==> |p.rest| < |s|
    decreases |s|, 0
  {
    var key := ParseKey(s);
    if key.Failed? then Failed
    else
      var value := ParseValue(key.rest);
      if value.Failed? then Failed else Parsed(Member(key.value, value.value), value.rest)
  }

  // ---------------------------------------------------------------- repeated keys

  function IndexOf(members: seq<Member>, key: string): (i: nat)
    ensures i <= |members|
    ensures i < |members| ==> members[i].key == key
    ensures forall k | 0 <= k < i :: members[k].key != key
  {
    if members == [] || members[0].key == key then 0 else 1 + IndexOf(members[1..], key)
  }

  /** A repeated key keeps its place and takes the new value. */
  function Put(members: seq<Member>, m: Member): seq<Member> {
    var i := IndexOf(members, m.key);
    if i < |members| then members[i := m] else members + [m]
  }

  function Collect(members: seq<Member>, added: seq<Member>): seq<Member>
    decreases |added|
  {
    if added == [] then members else Collect(Put(members, added[0]), added[1..])
  }

  ghost predicate DistinctKeys(members: seq<Member>) {
    forall i, j | 0 <= i < j < |members| :: members[i].key != members[j].key
  }

  lemma PutKeepsDistinct(members: seq<Member>, m: Member)
    requires DistinctKeys(members)
    ensures DistinctKeys(Put(members, m))
    ensures forall x | x in Put(members, m) :: x in members || x == m
  {
  }

  lemma {:induction false} CollectIsDistinct(members: seq<Member>, added: seq<Member>)
    requires DistinctKeys(members)
    ensures DistinctKeys(Collect(members, added))
    ensures forall x | x in Collect(members, added) :: x in members || x in added
    decreases |added|
  {
    if added != [] {
      PutKeepsDistinct(members, added[0]);
      CollectIsDistinct(Put(members, added[0]), added[1..]);
    }
  }

  lemma {:induction false} DistinctIsCollected(members: seq<Member>, added: seq<Member>)
    requires DistinctKeys(members + added)
    ensures Collect(members, added) == members + added
    decreases |added|
  {
    if added == [] {
      assert members + added == members;
    } else {
      var all := members + added;
      forall k | 0 <= k < |members| ensures members[k].key != added[0].key {
        assert all[k] == members[k] && all[|members|] == added[0];
      }
      assert Put(members, added[0]) == members + [added[0]];
      assert members + [added[0]] + added[1..] == members + added;
      DistinctIsCollected(members + [added[0]], added[1..]);
    }
  }

  // ---------------------------------------------------------------- the trees that texts denote

  ghost predicate WellFormed(v: Json) {
    match v
    case Number(digits) => IsNumber(digits)
    case Array(items) => forall item | item in items :: WellFormed(item)
    case Object(members) => DistinctKeys(members) && forall m | m in members :: WellFormed(m.value)
    case _ => true
  }

  lemma {:induction false} ParsedIsWellFormed(text: string)
    requires ParseValue(text).Parsed?
    ensures WellFormed(ParseValue(text).value)
    decreases |text|, 0
  {
    var s := SkipSpace(text);
    if s[0] == '{' {
      var members := ParseMembers(s[1..], true);
      MembersAreWellFormed(s[1..], true);
      CollectIsDistinct([], members.value);
    } else if s[0] == '[' {
      ItemsAreWellFormed(s[1..], true);
    } else if ParseValue(text).value.Number? {
      NumberTaken(s);
    }
  }

  lemma {:induction false} ItemsAreWellFormed(s: string, first: bool)
    requires ParseItems(s, first).Parsed?
    ensures forall item | item in ParseItems(s, first).value :: WellFormed(item)
    decreases |s|, 1
  {
    if !Closes(s, ']') {
      var start := NextElement(s, first).value;
      ParsedIsWellFormed(start);
      ItemsAreWellFormed(ParseValue(start).rest, false);
    }
  }

  lemma {:induction false} MembersAreWellFormed(s: string, first: bool)
    requires ParseMembers(s, first).Parsed?
    ensures forall m | m in ParseMembers(s, first).value :: WellFormed(m.value)
    decreases |s|, 1
  {
    if !Closes(s, '}') {
      var start := NextElement(s, first).value;
      ParsedIsWellFormed(ParseKey(start).rest);
      MembersAreWellFormed(ParseMember(start).rest, false);
    }
  }
}
