/** The string operations the modelled code calls, on sequences of Unicode characters. */
module Strings {
  import opened Wrappers

  /** Unicode white space. */
  predicate IsSpace(c: char) {
    || c in {' ', '\U{0085}', '\U{00A0}', '\U{1680}', '\U{2028}', '\U{2029}', '\U{202F}', '\U{205F}', '\U{3000}'}
    || '\t' <= c <= '\r'
    || '\U{2000}' <= c <= '\U{200A}'
  }

  function TrimLeft(s: string): (r: string)
    ensures r != "" ==> !IsSpace(r[0])
    ensures forall c | c in r :: c in s
  {
    if s != "" && IsSpace(s[0]) then TrimLeft(s[1..]) else s
  }

  function TrimRight(s: string): (r: string)
    ensures r <= s
    ensures r != "" ==> !IsSpace(r[|r| - 1])
  {
    if s != "" && IsSpace(s[|s| - 1]) then TrimRight(s[..|s| - 1]) else s
  }

  function TrimSpace(s: string): (r: string)
    ensures forall c | c in r :: c in s
    ensures r != "" ==> !IsSpace(r[0]) && !IsSpace(r[|r| - 1])
  {
    TrimRight(TrimLeft(s))
  }

  /** A string without white space at its ends is its own trimming. */
  lemma TrimmedIsFixed(s: string)
    requires s != "" ==> !IsSpace(s[0]) && !IsSpace(s[|s| - 1])
    ensures TrimSpace(s) == s
  {
  }

  lemma {:induction false} TrimRightKeepsFirst(s: string)
    requires s != "" && !IsSpace(s[0])
    ensures TrimRight(s) != "" && TrimRight(s)[0] == s[0]
  {
    if IsSpace(s[|s| - 1]) {
      TrimRightKeepsFirst(s[..|s| - 1]);
    }
  }

  lemma {:induction false} TrimLeftKeepsLast(s: string)
    requires s != "" && !IsSpace(s[|s| - 1])
    ensures TrimLeft(s) != "" && TrimLeft(s)[|TrimLeft(s)| - 1] == s[|s| - 1]
  {
    if IsSpace(s[0]) {
      TrimLeftKeepsLast(s[1..]);
    }
  }

  lemma TrimKeepsFirst(s: string)
    requires s != "" && !IsSpace(s[0])
    ensures TrimSpace(s) != "" && TrimSpace(s)[0] == s[0]
  {
    hide IsSpace;
    TrimRightKeepsFirst(s);
  }

  lemma TrimKeepsLast(s: string)
    requires s != "" && !IsSpace(s[|s| - 1])
    ensures TrimSpace(s) != "" && TrimSpace(s)[|TrimSpace(s)| - 1] == s[|s| - 1]
  {
    hide IsSpace;
    TrimLeftKeepsLast(s);
  }

  /** The white space characters by their numbers. */
  lemma SpaceExactly(c: char)
    ensures IsSpace(c) <==>
            c as int in {9, 10, 11, 12, 13, 32, 133, 160, 5760, 8192, 8193, 8194, 8195, 8196, 8197, 8198, 8199,
                         8200, 8201, 8202, 8232, 8233, 8239, 8287, 12288}
  {
  }

  predicate AllSpace(s: string) {
    forall c | c in s :: IsSpace(c)
  }

  lemma {:induction false} TrimLeftSplits(s: string) returns (before: string)
    ensures AllSpace(before) && s == before + TrimLeft(s)
  {
    before := "";
    if s != "" && IsSpace(s[0]) {
      var more := TrimLeftSplits(s[1..]);
      before := [s[0]] + more;
    }
  }

  lemma {:induction false} TrimRightSplits(s: string) returns (after: string)
    ensures AllSpace(after) && s == TrimRight(s) + after
  {
    after := "";
    if s != "" && IsSpace(s[|s| - 1]) {
      var more := TrimRightSplits(s[..|s| - 1]);
      after := more + [s[|s| - 1]];
    }
  }

  /** Trimming takes the white space off both ends, and nothing else. */
  lemma TrimSplits(s: string) returns (before: string, after: string)
    ensures AllSpace(before) && AllSpace(after) && s == before + TrimSpace(s) + after
  {
    hide AllSpace;
    before := TrimLeftSplits(s);
    after := TrimRightSplits(TrimLeft(s));
  }

  predicate HasPrefix(s: string, prefix: string) {
    prefix <= s
  }

  predicate HasSuffix(s: string, suffix: string) {
    |suffix| <= |s| && s[|s| - |suffix|..] == suffix
  }

  lemma SuffixIsEnd(s: string, suffix: string)
    ensures HasSuffix(s, suffix) <==> exists stem :: s == stem + suffix
  {
    if HasSuffix(s, suffix) {
      assert s == s[..|s| - |suffix|] + suffix;
    }
  }

  // ---------------------------------------------------------------- lines

  function Split(s: string, sep: char): (parts: seq<string>)
    ensures parts != []
    ensures forall p | p in parts :: sep !in p
  {
    if s == "" then [""]
    else if s[0] == sep then [""] + Split(s[1..], sep)
    else
      var rest := Split(s[1..], sep);
      [[s[0]] + rest[0]] + rest[1..]
  }

  function Join(parts: seq<string>, sep: string): string {
    if parts == [] then ""
    else if |parts| == 1 then parts[0]
    else parts[0] + sep + Join(parts[1..], sep)
  }

  lemma {:induction false} SplitFirst(part: string, rest: string, sep: char)
    requires sep !in part
    ensures Split(part + [sep] + rest, sep) == [part] + Split(rest, sep)
    ensures Split(part, sep) == [part]
  {
    var all := part + [sep] + rest;
    if part == "" {
      assert all[1..] == rest;
    } else {
      SplitFirst(part[1..], rest, sep);
      assert all[1..] == part[1..] + [sep] + rest;
      assert all[0] == part[0] && part[0] in part;
      assert [part[0]] + part[1..] == part;
      assert Split(all[1..], sep)[1..] == Split(rest, sep);
    }
  }

  /** Joining parts that do not contain the separator loses nothing. */
  lemma {:induction false} SplitJoin(parts: seq<string>, sep: char)
    requires parts != [] && forall p | p in parts :: sep !in p
    ensures Split(Join(parts, [sep]), sep) == parts
  {
    if |parts| == 1 {
      SplitFirst(parts[0], "", sep);
    } else {
      SplitJoin(parts[1..], sep);
      SplitFirst(parts[0], Join(parts[1..], [sep]), sep);
      assert [parts[0]] + parts[1..] == parts;
    }
  }

  // ---------------------------------------------------------------- decimal numbers

  predicate IsDigit(c: char) { '0' <= c <= '9' }

  predicate IsDigits(s: string) {
    s != "" && forall c | c in s :: IsDigit(c)
  }

  function Digit(c: char): (d: nat)
    requires IsDigit(c)
    ensures d <= 9
  {
    c as int - '0' as int
  }

  /** The number a digit string denotes. */
  function Value(s: string): nat
    requires forall c | c in s :: IsDigit(c)
  {
    if s == "" then 0 else Value(s[..|s| - 1]) * 10 + Digit(s[|s| - 1])
  }

  function FormatNat(n: nat): (s: string)
    ensures IsDigits(s)
  {
    if n < 10 then [('0' as int + n) as char] else FormatNat(n / 10) + [('0' as int + n % 10) as char]
  }

  lemma {:induction false} ValueOfFormat(n: nat)
    ensures Value(FormatNat(n)) == n
  {
    if n >= 10 {
      ValueOfFormat(n / 10);
      assert FormatNat(n)[..|FormatNat(n)| - 1] == FormatNat(n / 10);
    } else {
      assert FormatNat(n)[..0] == "";
    }
  }

  function Power10(n: nat): nat {
    if n == 0 then 1 else 10 * Power10(n - 1)
  }

  lemma {:induction false} ValueBound(s: string)
    requires forall c | c in s :: IsDigit(c)
    ensures Value(s) < Power10(|s|)
  {
    if s != "" {
      ValueBound(s[..|s| - 1]);
    }
  }

  /** Byte-wise order of two strings. */
  predicate Less(a: string, b: string) {
    b != "" && (a == "" || a[0] < b[0] || (a[0] == b[0] && Less(a[1..], b[1..])))
  }

  /** A string is less than its proper extensions, and where the first difference is less. */
  lemma {:induction false} LessExactly(a: string, b: string)
    ensures Less(a, b) <==> a < b || exists i :: 0 <= i < |a| && i < |b| && a[..i] == b[..i] && a[i] < b[i]
  {
    if a != "" && b != "" && a[0] == b[0] {
      LessExactly(a[1..], b[1..]);
      forall i | 0 < i <= |a| && i <= |b| ensures a[..i] == b[..i] <==> a[1..][..i - 1] == b[1..][..i - 1] {
        assert a[..i] == [a[0]] + a[1..][..i - 1] && b[..i] == [b[0]] + b[1..][..i - 1];
      }
      assert a < b <==> a[1..] < b[1..] by {
        assert a == [a[0]] + a[1..] && b == [b[0]] + b[1..];
      }
      DifferenceMoves(a, b);
    } else if a != "" && b != "" {
      assert a[..0] == b[..0];
    }
  }

  lemma DifferenceMoves(a: string, b: string)
    requires a != "" && b != "" && a[0] == b[0]
    ensures (exists i :: 0 <= i < |a| && i < |b| && a[..i] == b[..i] && a[i] < b[i]) <==>
            exists i :: 0 <= i < |a[1..]| && i < |b[1..]| && a[1..][..i] == b[1..][..i] && a[1..][i] < b[1..][i]
  {
    if i :| 0 <= i < |a| && i < |b| && a[..i] == b[..i] && a[i] < b[i] {
      assert a[1..][..i - 1] == a[..i][1..] && b[1..][..i - 1] == b[..i][1..];
      assert a[1..][i - 1] < b[1..][i - 1];
    }
    if i :| 0 <= i < |a[1..]| && i < |b[1..]| && a[1..][..i] == b[1..][..i] && a[1..][i] < b[1..][i] {
      assert a[..i + 1] == [a[0]] + a[1..][..i] && b[..i + 1] == [b[0]] + b[1..][..i];
      assert a[i + 1] < b[i + 1];
    }
  }

  lemma {:induction false} LessTransitive(a: string, b: string, c: string)
    requires Less(a, b) && Less(b, c)
    ensures Less(a, c)
  {
    if a != "" && a[0] == b[0] && b[0] == c[0] {
      LessTransitive(a[1..], b[1..], c[1..]);
    }
  }

  lemma {:induction false} LessIrreflexive(a: string)
    ensures !Less(a, a)
  {
    if a != "" {
      LessIrreflexive(a[1..]);
    }
  }

  lemma {:induction false} LessTotal(a: string, b: string)
    ensures Less(a, b) || Less(b, a) || a == b
  {
    if a != "" && b != "" && a[0] == b[0] {
      LessTotal(a[1..], b[1..]);
      assert a == [a[0]] + a[1..] && b == [b[0]] + b[1..];
    }
  }

  lemma LessAsymmetric(a: string, b: string)
    ensures !(Less(a, b) && Less(b, a))
  {
    if Less(a, b) && Less(b, a) {
      LessTransitive(a, b, a);
      LessIrreflexive(a);
    }
  }

  lemma NotLessTransitive(a: string, b: string, c: string)
    ensures !Less(b, a) && !Less(c, b) ==> !Less(c, a)
  {
    LessTotal(a, b);
    LessTotal(b, c);
    if Less(a, b) && Less(b, c) {
      LessTransitive(a, b, c);
    }
    LessAsymmetric(c, a);
  }

  lemma {:induction false} LessByLast(a: string, x: char, b: string, y: char)
    requires |a| == |b|
    ensures Less(a + [x], b + [y]) <==> Less(a, b) || (a == b && x < y)
  {
    if a != "" {
      assert (a + [x])[1..] == a[1..] + [x] && (b + [y])[1..] == b[1..] + [y];
      assert a == [a[0]] + a[1..] && b == [b[0]] + b[1..];
      LessByLast(a[1..], x, b[1..], y);
    } else {
      assert (a + [x])[1..] == "" && (b + [y])[1..] == "";
    }
  }

  /** On digit strings of equal length the order of strings is the order of numbers. */
  lemma {:induction false} LessIsNumeric(a: string, b: string)
    requires |a| == |b| && (forall c | c in a :: IsDigit(c)) && (forall c | c in b :: IsDigit(c))
    ensures Less(a, b) <==> Value(a) < Value(b)
    ensures a == b <==> Value(a) == Value(b)
  {
    if a != "" {
      var i, j, x, y := a[..|a| - 1], b[..|b| - 1], a[|a| - 1], b[|b| - 1];
      assert a == i + [x] && b == j + [y];
      LessIsNumeric(i, j);
      LessByLast(i, x, j, y);
    }
  }

  // ---------------------------------------------------------------- searching

  datatype Pieces = Pieces(before: string, after: string, found: bool)

  /** Around the first occurrence of a separator. */
  function Cut(s: string, sep: string): (p: Pieces)
    ensures if p.found then s == p.before + sep + p.after else p.before == s && p.after == ""
  {
    if sep <= s then Pieces("", s[|sep|..], true)
    else if s == "" then Pieces("", "", false)
    else
      var rest := Cut(s[1..], sep);
      if rest.found then Pieces([s[0]] + rest.before, rest.after, true) else Pieces(s, "", false)
  }

  predicate Contains(s: string, sub: string) {
    Cut(s, sub).found
  }

  lemma CutAtOnce(s: string, sep: string)
    requires sep <= s
    ensures Cut(s, sep) == Pieces("", s[|sep|..], true)
  {
  }

  lemma {:induction false} CharIsCut(s: string, c: char)
    requires c in s
    ensures Contains(s, [c])
  {
    if s[0] != c {
      CharIsCut(s[1..], c);
    }
  }

  /** `sub` occurs in `s` at position i. */
  predicate OccursAt(s: string, sub: string, i: nat) {
    i <= |s| && sub <= s[i..]
  }

  /** Cut finds the first occurrence. */
  lemma {:induction false} CutFirst(s: string, sep: string, at: nat)
    requires OccursAt(s, sep, at) && forall i: nat | i < at :: !OccursAt(s, sep, i)
    ensures Cut(s, sep) == Pieces(s[..at], s[at + |sep|..], true)
  {
    if at > 0 {
      assert !OccursAt(s, sep, 0) && s[0..] == s;
      assert s[1..][at - 1..] == s[at..];
      forall i: nat | i < at - 1 ensures !OccursAt(s[1..], sep, i) {
        assert s[1..][i..] == s[i + 1..];
        assert !OccursAt(s, sep, i + 1);
      }
      CutFirst(s[1..], sep, at - 1);
    } else {
      assert s[0..] == s;
    }
  }

  /** Before what Cut finds there is no occurrence, and none at all if it finds nothing. */
  lemma {:induction false} CutMissesNone(s: string, sep: string, i: nat)
    requires i <= |s| && (Cut(s, sep).found ==> i < |Cut(s, sep).before|)
    ensures !OccursAt(s, sep, i)
  {
    assert s[0..] == s;
    if i > 0 {
      assert s[1..][i - 1..] == s[i..];
      CutMissesNone(s[1..], sep, i - 1);
    }
  }

  lemma CutBetween(before: string, sep: string, after: string)
    requires forall i: nat | i < |before| :: !OccursAt(before + sep + after, sep, i)
    ensures Cut(before + sep + after, sep) == Pieces(before, after, true)
  {
    hide Cut;
    var s := before + sep + after;
    assert s[|before|..] == sep + after;
    CutFirst(s, sep, |before|);
    assert s[..|before|] == before && s[|before| + |sep|..] == after;
  }

  /** Cutting at a character that the first part does not contain. */
  lemma CutChar(before: string, sep: char, after: string)
    requires sep !in before
    ensures Cut(before + [sep] + after, [sep]) == Pieces(before, after, true)
  {
    hide Cut;
    var s := before + [sep] + after;
    forall i: nat | i < |before| ensures !OccursAt(s, [sep], i) {
      assert s[i..][0] == before[i] && before[i] in before;
    }
    CutBetween(before, [sep], after);
  }

  lemma NoCharNoCut(s: string, c: char)
    requires c !in s
    ensures !Contains(s, [c])
  {
    var p := Cut(s, [c]);
    assert c in p.before + [c] + p.after;
  }

  /** The last position of a character, or -1. */
  function LastIndex(s: string, c: char): (i: int)
    ensures -1 <= i < |s|
    ensures i >= 0 ==> s[i] == c
    ensures forall k | i < k < |s| :: s[k] != c
  {
    if s == "" then -1
    else if s[|s| - 1] == c then |s| - 1
    else LastIndex(s[..|s| - 1], c)
  }

  lemma LastIndexBetween(before: string, c: char, after: string)
    requires c !in after
    ensures LastIndex(before + [c] + after, c) == |before|
  {
    var s := before + [c] + after;
    assert s[|before|] == c;
    assert forall k | |before| < k < |s| :: s[k] in after;
  }

  lemma LastIndexIn(before: string, c: char, after: string)
    requires c !in after
    ensures LastIndex(before + after, c) < |before|
  {
    var s := before + after;
    assert forall k | |before| <= k < |s| :: s[k] in after;
  }

  /**
   Lower case, character by character. Of the characters outside ASCII only the
   two whose lower case is an ASCII letter are mapped; the others stay outside
   ASCII either way.
   */
  function Lower(c: char): char {
    if 'A' <= c <= 'Z' then (c as int + 32) as char
    else if c == '\U{0130}' then 'i'
    else if c == '\U{212A}' then 'k'
    else c
  }

  lemma LowerExactly(c: char)
    ensures Lower(c) as int == if 65 <= c as int <= 90 then c as int + 32
                               else if c as int == 304 then 105 else if c as int == 8490 then 107 else c as int
  {
  }

  function ToLower(s: string): (r: string)
    ensures |r| == |s| && forall i | 0 <= i < |s| :: r[i] == Lower(s[i])
  {
    seq(|s|, i requires 0 <= i < |s| => Lower(s[i]))
  }

  lemma LowerConcat(a: string, b: string)
    ensures ToLower(a + b) == ToLower(a) + ToLower(b)
  {
  }

  lemma LowerIsFixed(s: string)
    requires forall c | c in s :: Lower(c) == c
    ensures ToLower(s) == s
  {
    forall i | 0 <= i < |s| ensures ToLower(s)[i] == s[i] {
      assert s[i] in s;
    }
  }
}
