/** The formatter on documents put together from their parts, and how it writes the characters of strings. */
module StatsDocuments {
  import opened Wrappers
  import opened JsonGrammar
  import opened JsonSyntax
  import opened JsonDocuments
  import opened JsonLayout
  import opened StatsFormat

  /** Every document is formatted, whatever follows it, to a text that denotes the document's tree. */
  lemma DocumentIsFormatted(doc: Doc, rest: string)
    requires Valid(doc) && (doc.Numeral? ==> Stops(rest))
    ensures Format(DocText(doc) + rest).Some?
    ensures ParseValue(Format(DocText(doc) + rest).value) == Parsed(Tree(doc), "\n")
  {
    hide ParseValue, Format, Valid, DocText, Tree, Stops;
    DocReads(doc, rest);
    FormatPreserves(DocText(doc) + rest);
  }

  /** What is formatted starts with a document, whose tree the text denotes. */
  lemma FormattedIsDocument(raw: string) returns (doc: Doc, rest: string)
    requires Format(raw).Some?
    ensures Valid(doc) && raw == DocText(doc) + rest
    ensures ParseValue(Format(raw).value) == Parsed(Tree(doc), "\n")
  {
    hide ParseValue, Format, Valid, DocText, Tree;
    FormatPreserves(raw);
    doc := ValueHasDoc(raw);
    rest := ParseValue(raw).rest;
  }

  /**
   A character of a string is written as itself, but for controls, quotes and
   backslashes, the characters that matter to HTML, and the two separators that
   are line ends to JavaScript; the escapes of one letter are used where there is
   one, but none for the slash, and digits are small ones.
   */
  lemma EncodedAs(c: char) returns (g: Glyph)
    ensures ValidGlyph(g) && EncodeChar(c) == GlyphText(g) && Meaning(g) == c && !g.Pair?
    ensures g.Plain? <==> c >= ' ' && c !in {'"', '\\', '<', '>', '&', '\U{2028}', '\U{2029}'}
    ensures g.Short? <==> c in {'"', '\\', '\U{0008}', '\U{000C}', '\n', '\r', '\t'}
    ensures g.Unit? ==> forall d | d in g.digits :: !('A' <= d <= 'F')
  {
    if |EncodeChar(c)| == 1 {
      g := Plain(c);
    } else if |EncodeChar(c)| == 2 {
      g := Short(EncodeChar(c)[1]);
    } else {
      g := LongEncodedAs(c);
    }
  }

  lemma LongEncodedAs(c: char) returns (g: Glyph)
    requires |EncodeChar(c)| > 2
    ensures ValidGlyph(g) && EncodeChar(c) == GlyphText(g) && Meaning(g) == c && g.Unit?
    ensures (c < ' ' && c !in {'\U{0008}', '\U{000C}', '\n', '\r', '\t'})
            || c in {'<', '>', '&', '\U{2028}', '\U{2029}'}
    ensures forall d | d in g.digits :: !('A' <= d <= 'F')
  {
    hide IsHexOf, HexDigit;
    var n := c as int;
    if c == '\U{2028}' || c == '\U{2029}' {
      g := Unit(n, if c == '\U{2028}' then "2028" else "2029");
      SeparatorDigits();
    } else {
      g := Unit(n, "00" + [HexDigit(n / 16), HexDigit(n % 16)]);
      SmallDigits(n);
    }
  }

  lemma SmallDigits(n: int)
    requires 0 <= n < 0x100
    ensures IsUnit(Unit(n, "00" + [HexDigit(n / 16), HexDigit(n % 16)]))
    ensures forall d | d in "00" + [HexDigit(n / 16), HexDigit(n % 16)] :: !('A' <= d <= 'F')
  {
    hide IsHexOf;
    HexValue(HexDigit(n / 16), n / 16);
    HexValue(HexDigit(n % 16), n % 16);
    HexValue('0', 0);
  }

  lemma SeparatorDigits()
    ensures IsHexOf('2', 2) && IsHexOf('0', 0) && IsHexOf('8', 8) && IsHexOf('9', 9)
  {
    HexValue('2', 2);
    HexValue('0', 0);
    HexValue('8', 8);
    HexValue('9', 9);
  }

  // ---------------------------------------------------------------- widths

  /** The bytes of a character in UTF-8, as section 3 of RFC 3629 gives them. */
  function Utf8(c: char): seq<int> {
    var n := c as int;
    if n <= 0x7F then [n]
    else if n <= 0x7FF then [0xC0 + n / 0x40, 0x80 + n % 0x40]
    else if n <= 0xFFFF then [0xE0 + n / 0x1000, 0x80 + n / 0x40 % 0x40, 0x80 + n % 0x40]
    else [0xF0 + n / 0x40000, 0x80 + n / 0x1000 % 0x40, 0x80 + n / 0x40 % 0x40, 0x80 + n % 0x40]
  }

  function Bytes(s: string): seq<int> {
    if s == "" then [] else Utf8(s[0]) + Bytes(s[1..])
  }

  /** A width is a number of bytes. */
  lemma {:induction false} WidthCountsBytes(s: string)
    ensures Width(s) == |Bytes(s)|
  {
    if s != "" {
      WidthCountsBytes(s[1..]);
    }
  }
}
