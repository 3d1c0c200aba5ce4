/**
 The JSON texts of sections 2 to 7 of RFC 8259 put together from their parts:
 numbers, characters of strings, blanks and brackets. The parser accepts exactly
 these texts and gives back what they are put together from.
 */
module JsonSyntax {
  import opened Wrappers
  import opened Strings
  import opened JsonGrammar

  // ---------------------------------------------------------------- numbers

  datatype Exponent = Exponent(mark: char, sign: string, digits: string)

  datatype NumberParts = NumberParts(minus: string, whole: string, fraction: Option<string>, exponent: Option<Exponent>)

  predicate AllDigits(s: string) {
    s != "" && forall c | c in s :: '0' <= c <= '9'
  }

  function FractionText(fraction: Option<string>): string {
    match fraction
    case None => ""
    case Some(digits) => "." + digits
  }

  function ExponentText(exponent: Option<Exponent>): string {
    match exponent
    case None => ""
    case Some(e) => [e.mark] + e.sign + e.digits
  }

  function NumberText(p: NumberParts): string {
    p.minus + (p.whole + (FractionText(p.fraction) + ExponentText(p.exponent)))
  }

  predicate ValidExponent(e: Exponent) {
    e.mark in {'e', 'E'} && e.sign in {"", "+", "-"} && AllDigits(e.digits)
  }

  /** A zero or digits that do not start with one, any digits behind a point, any digits in an exponent. */
  predicate ValidNumber(p: NumberParts) {
    && p.minus in {"", "-"}
    && (p.whole == "0" || (AllDigits(p.whole) && p.whole[0] != '0'))
    && (p.fraction.Some? ==> AllDigits(p.fraction.value))
    && (p.exponent.Some? ==> ValidExponent(p.exponent.value))
  }

  predicate NoDigitFirst(rest: string) {
    rest == "" || !('0' <= rest[0] <= '9')
  }

  lemma {:induction false} DigitsRead(digits: string, rest: string)
    requires (forall c | c in digits :: '0' <= c <= '9') && NoDigitFirst(rest)
    ensures Digits(digits + rest) == |digits|
  {
    if digits == "" {
      assert digits + rest == rest;
    } else {
      assert (digits + rest)[1..] == digits[1..] + rest;
      assert forall c | c in digits[1..] :: c in digits;
      DigitsRead(digits[1..], rest);
      assert digits[0] in digits;
    }
  }

  lemma WholeReads(p: NumberParts, rest: string)
    requires ValidNumber(p) && NoDigitFirst(rest)
    ensures IntegerLength(p.whole + rest) == |p.whole|
  {
    hide Digits;
    if p.whole != "0" {
      DigitsRead(p.whole, rest);
    }
  }

  lemma FractionReads(p: NumberParts, rest: string)
    requires ValidNumber(p) && NoDigitFirst(rest) && (rest != "" ==> rest[0] != '.')
    ensures FractionLength(FractionText(p.fraction) + rest) == Some(|FractionText(p.fraction)|)
  {
    hide Digits;
    match p.fraction
    case None => assert FractionText(p.fraction) + rest == rest;
    case Some(digits) =>
      DigitsRead(digits, rest);
      assert ("." + digits + rest)[1..] == digits + rest;
  }

  lemma ExponentReads(p: NumberParts)
    requires ValidNumber(p)
    ensures ExponentLength(ExponentText(p.exponent)) == Some(|ExponentText(p.exponent)|)
  {
    hide Digits;
    if p.exponent.Some? {
      var e := p.exponent.value;
      var s := ExponentText(p.exponent);
      DigitsRead(e.digits, "");
      assert e.digits + "" == e.digits && e.digits[0] in e.digits;
      assert s[1 + |e.sign|..] == e.digits;
      if e.sign != "" {
        assert s[1] == e.sign[0];
      }
    }
  }

  lemma NumberOfLengths(s: string, sign: nat, whole: nat, fraction: nat, exponent: nat)
    requires SignLength(s) == sign <= |s| && IntegerLength(s[sign..]) == whole > 0 && sign + whole <= |s|
    requires FractionLength(s[sign + whole..]) == Some(fraction) && sign + whole + fraction <= |s|
    requires ExponentLength(s[sign + whole + fraction..]) == Some(exponent)
    ensures NumberLength(s) == Some(sign + whole + fraction + exponent)
  {
    hide SignLength, IntegerLength, FractionLength, ExponentLength;
  }

  lemma DropsOfFour(a: string, b: string, c: string, d: string)
    ensures var s := a + (b + (c + d));
            && |s| == |a| + |b| + |c| + |d| && s[|a|..] == b + (c + d)
            && s[|a| + |b|..] == c + d && s[|a| + |b| + |c|..] == d
  {
  }

  lemma NumberDrops(p: NumberParts)
    ensures var s, fraction, exponent := NumberText(p), FractionText(p.fraction), ExponentText(p.exponent);
            && |s| == |p.minus| + |p.whole| + |fraction| + |exponent|
            && s[|p.minus|..] == p.whole + (fraction + exponent)
            && s[|p.minus| + |p.whole|..] == fraction + exponent
            && s[|p.minus| + |p.whole| + |fraction|..] == exponent
  {
    hide FractionText, ExponentText;
    DropsOfFour(p.minus, p.whole, FractionText(p.fraction), ExponentText(p.exponent));
  }

  lemma SignReads(p: NumberParts)
    requires ValidNumber(p)
    ensures SignLength(NumberText(p)) == |p.minus| && p.whole != ""
  {
    hide FractionText, ExponentText;
    assert p.whole[0] in p.whole;
    assert NumberText(p)[0] == if p.minus == "" then p.whole[0] else '-';
  }

  lemma MarksFirst(p: NumberParts)
    requires ValidNumber(p)
    ensures var exponent := ExponentText(p.exponent);
            && NoDigitFirst(exponent) && (exponent != "" ==> exponent[0] != '.')
            && NoDigitFirst(FractionText(p.fraction) + exponent)
  {
    var fraction, exponent := FractionText(p.fraction), ExponentText(p.exponent);
    assert exponent != "" ==> exponent[0] == p.exponent.value.mark;
    if fraction == "" {
      assert fraction + exponent == exponent;
    } else {
      assert (fraction + exponent)[0] == '.';
    }
  }

  /** Every number put together is one, whole. */
  lemma NumberReads(p: NumberParts)
    requires ValidNumber(p)
    ensures IsNumber(NumberText(p))
  {
    hide SignLength, IntegerLength, FractionLength, ExponentLength, NumberLength, ValidNumber, FractionText,
         ExponentText;
    hide NoDigitFirst, NumberText;
    var fraction, exponent := FractionText(p.fraction), ExponentText(p.exponent);
    NumberDrops(p);
    SignReads(p);
    MarksFirst(p);
    WholeReads(p, fraction + exponent);
    FractionReads(p, exponent);
    ExponentReads(p);
    NumberOfLengths(NumberText(p), |p.minus|, |p.whole|, |fraction|, |exponent|);
  }

  lemma {:induction false} DigitsAre(s: string)
    ensures forall c | c in s[..Digits(s)] :: '0' <= c <= '9'
  {
    if Digits(s) > 0 {
      DigitsAre(s[1..]);
      assert s[..Digits(s)] == [s[0]] + s[1..][..Digits(s[1..])];
    }
  }

  lemma WholeParts(s: string)
    requires IntegerLength(s) > 0
    ensures var whole := s[..IntegerLength(s)]; whole == "0" || (AllDigits(whole) && whole[0] != '0')
  {
    if s[0] != '0' {
      DigitsAre(s);
    }
  }

  lemma FractionParts(s: string) returns (fraction: Option<string>)
    requires FractionLength(s).Some?
    ensures s[..FractionLength(s).value] == FractionText(fraction) && (fraction.Some? ==> AllDigits(fraction.value))
  {
    if s == "" || s[0] != '.' {
      fraction := None;
    } else {
      DigitsAre(s[1..]);
      fraction := Some(s[1..][..Digits(s[1..])]);
      assert s[..1 + Digits(s[1..])] == "." + fraction.value;
    }
  }

  lemma ExponentParts(s: string) returns (exponent: Option<Exponent>)
    requires ExponentLength(s).Some?
    ensures s[..ExponentLength(s).value] == ExponentText(exponent)
    ensures exponent.Some? ==> ValidExponent(exponent.value)
  {
    if s == "" || s[0] !in {'e', 'E'} {
      exponent := None;
    } else {
      var sign := if |s| > 1 && s[1] in {'+', '-'} then 1 else 0;
      var digits := s[1 + sign..];
      DigitsAre(digits);
      exponent := Some(Exponent(s[0], s[1..1 + sign], digits[..Digits(digits)]));
      assert s[..1 + sign + Digits(digits)] == [s[0]] + s[1..1 + sign] + digits[..Digits(digits)];
      assert s[1..1 + sign] == if sign == 0 then "" else [s[1]];
    }
  }

  lemma CutInFour(s: string, a: nat, b: nat, c: nat)
    requires a <= b <= c <= |s|
    ensures s == s[..a] + (s[a..][..b - a] + (s[b..][..c - b] + s[c..][..|s| - c]))
  {
    assert s[a..][..b - a] == s[a..b] && s[b..][..c - b] == s[b..c] && s[c..][..|s| - c] == s[c..];
  }

  lemma SignParts(s: string)
    ensures s[..SignLength(s)] in {"", "-"}
  {
    assert SignLength(s) == 1 ==> s[..1] == "-";
  }

  /** Every number has such parts. */
  lemma NumberHasParts(s: string) returns (p: NumberParts)
    requires IsNumber(s)
    ensures ValidNumber(p) && NumberText(p) == s
  {
    hide SignLength, IntegerLength, FractionLength, ExponentLength, AllDigits, FractionText, ExponentText;
    var sign := SignLength(s);
    var whole := sign + IntegerLength(s[sign..]);
    var fraction := whole + FractionLength(s[whole..]).value;
    SignParts(s);
    WholeParts(s[sign..]);
    var f := FractionParts(s[whole..]);
    var e := ExponentParts(s[fraction..]);
    p := NumberParts(s[..sign], s[sign..][..whole - sign], f, e);
    CutInFour(s, sign, whole, fraction);
  }

  // ---------------------------------------------------------------- strings

  /**
   A character of a string: itself, behind a backslash by its letter, by the four
   hexadecimal digits of its number, or by those of the two halves of its number.
   */
  datatype Glyph = Plain(c: char) | Short(letter: char) | Unit(n: int, digits: string) | Pair(high: Glyph, low: Glyph)

  /** The escapes of one letter. */
  const SHORT_ESCAPES: map<char, char> := map[
    '"' := '"', '\\' := '\\', '/' := '/', 'b' := '\U{0008}', 'f' := '\U{000C}', 'n' := '\n', 'r' := '\r', 't' := '\t'
  ]

  predicate IsHexOf(c: char, n: int) {
    0 <= n < 16 && (c == "0123456789abcdef"[n] || c == "0123456789ABCDEF"[n])
  }

  /** Four hexadecimal digits and the number they denote. */
  predicate IsUnit(g: Glyph) {
    && g.Unit? && 0 <= g.n < 0x10000 && |g.digits| == 4
    && IsHexOf(g.digits[0], g.n / 0x1000) && IsHexOf(g.digits[1], g.n / 0x100 % 0x10)
    && IsHexOf(g.digits[2], g.n / 0x10 % 0x10) && IsHexOf(g.digits[3], g.n % 0x10)
  }

  predicate IsHigh(g: Glyph) {
    g.Unit? && 0xD800 <= g.n < 0xDC00
  }

  predicate IsLow(g: Glyph) {
    g.Unit? && 0xDC00 <= g.n < 0xE000
  }

  predicate ValidGlyph(g: Glyph) {
    match g
    case Plain(c) => c >= ' ' && c != '"' && c != '\\'
    case Short(letter) => letter in SHORT_ESCAPES
    case Unit(_, _) => IsUnit(g)
    case Pair(high, low) => IsUnit(high) && IsHigh(high) && IsUnit(low) && IsLow(low)
  }

  function GlyphText(g: Glyph): (r: string)
    ensures r != ""
  {
    match g
    case Plain(c) => [c]
    case Short(letter) => "\\" + [letter]
    case Unit(_, digits) => "\\u" + digits
    case Pair(high, low) => GlyphText(high) + GlyphText(low)
  }

  /** The character meant; half a number alone is replaced. */
  function Meaning(g: Glyph): char
    requires ValidGlyph(g)
  {
    match g
    case Plain(c) => c
    case Short(letter) => SHORT_ESCAPES[letter]
    case Unit(n, _) => if IsHigh(g) || IsLow(g) then '\U{FFFD}' else n as char
    case Pair(high, low) => (0x10000 + (high.n - 0xD800) * 0x400 + (low.n - 0xDC00)) as char
  }

  predicate EachValid(gs: seq<Glyph>) {
    forall g | g in gs :: ValidGlyph(g)
  }

  /** Two halves in a row are one pair. */
  predicate ValidGlyphs(gs: seq<Glyph>) {
    && EachValid(gs)
    && (forall i | 0 <= i < |gs| - 1 :: !(IsHigh(gs[i]) && IsLow(gs[i + 1])))
  }

  function GlyphsText(gs: seq<Glyph>): string {
    if gs == [] then "" else GlyphText(gs[0]) + GlyphsText(gs[1..])
  }

  function Meanings(gs: seq<Glyph>): string
    requires EachValid(gs)
  {
    if gs == [] then "" else [Meaning(gs[0])] + Meanings(gs[1..])
  }

  lemma HexValue(c: char, n: int)
    ensures IsHexOf(c, n) <==> 0 <= n && HexDigitValue(c) == n
  {
    var low, high := "0123456789abcdef", "0123456789ABCDEF";
    if 0 <= n < 10 {
      assert low[n] == high[n] == ('0' as int + n) as char;
    } else if n < 16 && 0 <= n {
      assert low[n] == ('a' as int + n - 10) as char && high[n] == ('A' as int + n - 10) as char;
    }
  }

  lemma HexPlaces(n: int)
    requires 0 <= n < 0x10000
    ensures 4096 * (n / 0x1000) + 256 * (n / 0x100 % 0x10) + 16 * (n / 0x10 % 0x10) + n % 0x10 == n
  {
    assert n / 0x1000 == n / 0x100 / 0x10;
    assert n / 0x100 == n / 0x10 / 0x10;
  }

  lemma UnitReads(g: Glyph, rest: string)
    requires IsUnit(g)
    ensures Hex4(g.digits + rest) == g.n
  {
    hide HexDigitValue, IsHexOf;
    HexPlaces(g.n);
    HexValue(g.digits[0], g.n / 0x1000);
    HexValue(g.digits[1], g.n / 0x100 % 0x10);
    HexValue(g.digits[2], g.n / 0x10 % 0x10);
    HexValue(g.digits[3], g.n % 0x10);
    var s := g.digits + rest;
    assert s[0] == g.digits[0] && s[1] == g.digits[1] && s[2] == g.digits[2] && s[3] == g.digits[3];
  }

  lemma UnitIsNoLowHalf(g: Glyph, tail: string)
    requires IsUnit(g) && !IsLow(g)
    ensures LowSurrogate(GlyphText(g) + tail) == -1
  {
    hide Hex4, IsHexOf;
    var s := GlyphText(g) + tail;
    assert s[2..] == g.digits + tail;
    UnitReads(g, tail);
  }

  lemma GlyphIsNoLowHalf(g: Glyph, tail: string)
    requires ValidGlyph(g) && !IsLow(g)
    ensures LowSurrogate(GlyphText(g) + tail) == -1
  {
    hide Hex4, IsUnit;
    var s := GlyphText(g) + tail;
    match g
    case Plain(c) => assert s[0] == c;
    case Short(letter) => assert |s| > 1 ==> s[1] == letter;
    case Unit(_, _) => UnitIsNoLowHalf(g, tail);
    case Pair(high, low) =>
      UnitIsNoLowHalf(high, GlyphText(low) + tail);
      assert s == GlyphText(high) + (GlyphText(low) + tail);
  }

  /** Nothing but a low half is read as one. */
  lemma NoLowHalf(gs: seq<Glyph>, rest: string)
    requires ValidGlyphs(gs) && (gs != [] ==> !IsLow(gs[0]))
    ensures LowSurrogate(GlyphsText(gs) + "\"" + rest) == -1
  {
    hide Hex4, GlyphText, ValidGlyph, IsLow;
    var s := GlyphsText(gs) + "\"" + rest;
    if gs == [] {
      assert s[0] == '"';
    } else {
      assert s == GlyphText(gs[0]) + (GlyphsText(gs[1..]) + "\"" + rest);
      GlyphIsNoLowHalf(gs[0], GlyphsText(gs[1..]) + "\"" + rest);
    }
  }

  lemma ShortReads(letter: char, tail: string)
    requires letter in SHORT_ESCAPES
    ensures Escape([letter] + tail) == Parsed(SHORT_ESCAPES[letter], tail)
  {
    var s := [letter] + tail;
    assert s[0] == letter && s[1..] == tail;
  }

  lemma UnitEscapeReads(g: Glyph, tail: string)
    requires ValidGlyph(g) && g.Unit? && (IsHigh(g) ==> LowSurrogate(tail) == -1)
    ensures UnicodeEscape(g.digits + tail) == Parsed(Meaning(g), tail)
  {
    hide Hex4, LowSurrogate, IsHexOf;
    UnitReads(g, tail);
    assert (g.digits + tail)[4..] == tail;
  }

  lemma PairEscapeReads(g: Glyph, tail: string)
    requires ValidGlyph(g) && g.Pair?
    ensures UnicodeEscape(g.high.digits + GlyphText(g.low) + tail) == Parsed(Meaning(g), tail)
  {
    hide Hex4, IsHexOf;
    var s := g.high.digits + (GlyphText(g.low) + tail);
    assert s == g.high.digits + GlyphText(g.low) + tail;
    UnitReads(g.high, GlyphText(g.low) + tail);
    assert s[4..] == GlyphText(g.low) + tail;
    assert (GlyphText(g.low) + tail)[2..] == g.low.digits + tail;
    UnitReads(g.low, tail);
    assert s[10..] == tail;
  }

  /** A character is read in front of whatever does not complete it to a pair. */
  lemma GlyphReads(g: Glyph, tail: string)
    requires ValidGlyph(g) && (IsHigh(g) ==> LowSurrogate(tail) == -1)
    ensures var s := GlyphText(g) + tail;
            && s[0] >= ' ' && s[0] != '"'
            && (if s[0] == '\\' then Escape(s[1..]) else Parsed(s[0], s[1..])) == Parsed(Meaning(g), tail)
  {
    hide UnicodeEscape, LowSurrogate, IsUnit, Escape;
    var s := GlyphText(g) + tail;
    match g
    case Plain(c) => assert s[1..] == tail;
    case Short(letter) =>
      BehindBackslash([letter] + tail);
      assert s == "\\" + ([letter] + tail);
      ShortReads(letter, tail);
    case Unit(n, digits) =>
      UnitEscapeReads(g, tail);
      BehindBackslash("u" + (digits + tail));
      assert s == "\\" + ("u" + (digits + tail));
      EscapeOfUnicode(digits + tail);
    case Pair(high, low) =>
      PairEscapeReads(g, tail);
      BehindBackslash("u" + (high.digits + GlyphText(low) + tail));
      PairText(g, tail);
      EscapeOfUnicode(high.digits + GlyphText(low) + tail);
  }

  lemma PairText(g: Glyph, tail: string)
    requires g.Pair? && g.high.Unit?
    ensures GlyphText(g) + tail == "\\" + ("u" + (g.high.digits + GlyphText(g.low) + tail))
    ensures GlyphText(g) + tail == "\\u" + (g.high.digits + (GlyphText(g.low) + tail))
  {
    var low := GlyphText(g.low);
    assert GlyphText(g) + tail == "\\u" + g.high.digits + low + tail;
  }

  lemma BehindBackslash(s: string)
    ensures ("\\" + s)[0] == '\\' && ("\\" + s)[1..] == s
  {
  }

  lemma EscapeOfUnicode(s: string)
    ensures Escape("u" + s) == UnicodeEscape(s)
  {
    hide UnicodeEscape;
    assert ("u" + s)[0] == 'u' && ("u" + s)[1..] == s;
  }

  lemma GlyphsTextOf(gs: seq<Glyph>, rest: string)
    requires gs != []
    ensures GlyphsText(gs) + "\"" + rest == GlyphText(gs[0]) + (GlyphsText(gs[1..]) + "\"" + rest)
  {
    hide GlyphText;
  }

  /** A character in front of a text that is read. */
  lemma GlyphInFront(g: Glyph, tail: string, others: string, rest: string)
    requires ValidGlyph(g) && (IsHigh(g) ==> LowSurrogate(tail) == -1) && ParseText(tail) == Parsed(others, rest)
    ensures ParseText(GlyphText(g) + tail) == Parsed([Meaning(g)] + others, rest)
  {
    hide GlyphText, Meaning, Escape, ValidGlyph, LowSurrogate, IsHigh;
    GlyphReads(g, tail);
  }

  /** A string put together from characters is read back as what they mean. */
  lemma {:induction false} GlyphsRead(gs: seq<Glyph>, rest: string)
    requires ValidGlyphs(gs)
    ensures ParseText(GlyphsText(gs) + "\"" + rest) == Parsed(Meanings(gs), rest)
  {
    hide GlyphText, Meaning, Escape, ValidGlyph, LowSurrogate, IsHigh, IsLow;
    if gs == [] {
      assert GlyphsText(gs) + "\"" + rest == "\"" + rest;
    } else {
      hide ParseText;
      GlyphsTextOf(gs, rest);
      if IsHigh(gs[0]) {
        NoLowHalf(gs[1..], rest);
      }
      GlyphsRead(gs[1..], rest);
      assert gs[0] in gs;
      GlyphInFront(gs[0], GlyphsText(gs[1..]) + "\"" + rest, Meanings(gs[1..]), rest);
    }
  }

  lemma HexHasDigits(s: string) returns (g: Glyph)
    requires Hex4(s) >= 0
    ensures IsUnit(g) && g.Unit? && g.n == Hex4(s) && s == g.digits + s[4..]
  {
    hide HexDigitValue, IsHexOf;
    var a, b, c, d := HexDigitValue(s[0]), HexDigitValue(s[1]), HexDigitValue(s[2]), HexDigitValue(s[3]);
    g := Unit(Hex4(s), s[..4]);
    PlacesOfHex(a, b, c, d);
    HexValue(s[0], a);
    HexValue(s[1], b);
    HexValue(s[2], c);
    HexValue(s[3], d);
  }

  lemma PlacesOfHex(a: int, b: int, c: int, d: int)
    requires 0 <= a < 16 && 0 <= b < 16 && 0 <= c < 16 && 0 <= d < 16
    ensures var n := 4096 * a + 256 * b + 16 * c + d;
            && 0 <= n < 0x10000 && n / 0x1000 == a && n / 0x100 % 0x10 == b && n / 0x10 % 0x10 == c && n % 0x10 == d
  {
    var n := 4096 * a + 256 * b + 16 * c + d;
    assert n / 0x100 == 16 * a + b;
    assert n / 0x10 == 16 * (16 * a + b) + c;
  }

  lemma ShortIsEscape(s: string)
    requires Escape(s).Parsed? && s[0] != 'u'
    ensures s[0] in SHORT_ESCAPES && Escape(s) == Parsed(SHORT_ESCAPES[s[0]], s[1..])
  {
    hide UnicodeEscape;
  }

  /** An escape that is read is one of these. */
  lemma EscapeHasGlyph(s: string) returns (g: Glyph)
    requires Escape(s).Parsed?
    ensures ValidGlyph(g) && "\\" + s == GlyphText(g) + Escape(s).rest && Meaning(g) == Escape(s).value
    ensures IsHigh(g) ==> LowSurrogate(Escape(s).rest) == -1
  {
    hide UnicodeEscape, LowSurrogate, IsUnit;
    if s[0] == 'u' {
      g := UnicodeHasGlyph(s[1..]);
      assert "\\" + s == "\\u" + s[1..];
    } else {
      hide Escape;
      ShortIsEscape(s);
      g := Short(s[0]);
      assert "\\" + s == "\\" + [s[0]] + s[1..];
    }
  }

  lemma UnicodeHasGlyph(s: string) returns (g: Glyph)
    requires UnicodeEscape(s).Parsed?
    ensures ValidGlyph(g) && "\\u" + s == GlyphText(g) + UnicodeEscape(s).rest && Meaning(g) == UnicodeEscape(s).value
    ensures IsHigh(g) ==> LowSurrogate(UnicodeEscape(s).rest) == -1
  {
    hide Hex4, IsUnit, LowSurrogate, GlyphText;
    var unit := HexHasDigits(s);
    if IsHigh(unit) && LowSurrogate(s[4..]) >= 0 {
      var low := LowHasDigits(s[4..]);
      assert s[4..][6..] == s[10..];
      g := Pair(unit, low);
      PairText(g, s[10..]);
    } else {
      g := unit;
      UnitText(g, s[4..]);
    }
  }

  lemma UnitText(g: Glyph, tail: string)
    requires g.Unit?
    ensures GlyphText(g) + tail == "\\u" + (g.digits + tail)
  {
    assert GlyphText(g) + tail == "\\u" + g.digits + tail;
  }

  lemma LowHasDigits(s: string) returns (low: Glyph)
    requires LowSurrogate(s) >= 0
    ensures IsUnit(low) && IsLow(low) && low.n == LowSurrogate(s) && s == GlyphText(low) + s[6..]
  {
    hide Hex4, IsHexOf;
    low := HexHasDigits(s[2..]);
    assert s == "\\u" + s[2..] && s[2..][4..] == s[6..];
  }

  lemma PlainGlyph(c: char)
    requires c >= ' ' && c != '"' && c != '\\'
    ensures ValidGlyph(Plain(c)) && Meaning(Plain(c)) == c && GlyphText(Plain(c)) == [c]
    ensures !IsHigh(Plain(c)) && !IsLow(Plain(c))
  {
  }

  lemma LowIsRead(g: Glyph, tail: string)
    requires ValidGlyph(g)
    ensures IsLow(g) ==> LowSurrogate(GlyphText(g) + tail) >= 0
  {
    hide Hex4, IsHexOf;
    if IsLow(g) {
      var s := GlyphText(g) + tail;
      assert s[2..] == g.digits + tail;
      UnitReads(g, tail);
    }
  }

  /** The first character of a string that is read. */
  lemma FirstGlyph(s: string) returns (g: Glyph, tail: string)
    requires ParseText(s).Parsed? && s[0] != '"'
    ensures ValidGlyph(g) && s == GlyphText(g) + tail && ParseText(tail).Parsed?
    ensures ParseText(s) == Parsed([Meaning(g)] + ParseText(tail).value, ParseText(tail).rest)
    ensures IsHigh(g) ==> LowSurrogate(tail) == -1
  {
    hide GlyphText, Meaning, Escape, ValidGlyph, LowSurrogate, IsLow, IsHigh;
    if s[0] == '\\' {
      g := EscapeHasGlyph(s[1..]);
      tail := Escape(s[1..]).rest;
      assert s == "\\" + s[1..];
    } else {
      g, tail := Plain(s[0]), s[1..];
      PlainGlyph(s[0]);
      assert s == [s[0]] + s[1..];
    }
  }

  lemma OneMoreGlyph(g: Glyph, gs: seq<Glyph>, rest: string)
    requires ValidGlyph(g) && ValidGlyphs(gs) && !(IsHigh(g) && gs != [] && IsLow(gs[0]))
    ensures ValidGlyphs([g] + gs) && Meanings([g] + gs) == [Meaning(g)] + Meanings(gs)
    ensures GlyphsText([g] + gs) + "\"" + rest == GlyphText(g) + (GlyphsText(gs) + "\"" + rest)
  {
    hide GlyphText, Meaning, ValidGlyph, IsLow, IsHigh;
    var all := [g] + gs;
    assert all[1..] == gs;
    forall i | 0 <= i < |all| - 1 ensures !(IsHigh(all[i]) && IsLow(all[i + 1])) {
      if i > 0 {
        assert all[i] == gs[i - 1] && all[i + 1] == gs[i];
      }
    }
  }

  /** A string that is read is put together from such characters. */
  lemma {:induction false} TextHasGlyphs(s: string) returns (gs: seq<Glyph>)
    requires ParseText(s).Parsed?
    ensures ValidGlyphs(gs) && s == GlyphsText(gs) + "\"" + ParseText(s).rest && Meanings(gs) == ParseText(s).value
    ensures gs != [] && IsLow(gs[0]) ==> LowSurrogate(s) >= 0
    decreases |s|
  {
    hide GlyphText, Meaning, Escape, ValidGlyph, LowSurrogate, IsLow, IsHigh;
    if s[0] == '"' {
      gs := [];
      assert s == "\"" + s[1..];
    } else {
      hide ParseText;
      var g, tail := FirstGlyph(s);
      var others := TextHasGlyphs(tail);
      gs := [g] + others;
      LowIsRead(g, tail);
      OneMoreGlyph(g, others, ParseText(tail).rest);
    }
  }
}
