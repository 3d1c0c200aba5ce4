/** The tag lines that name a release or list a revision, put together from their parts. */
module ReleaseTagParts {
  import opened Wrappers
  import opened Strings
  import opened ReleaseTags

  predicate AllDigits(s: string) {
    s != "" && forall c | c in s :: '0' <= c <= '9'
  }

  /** Module path segments with a slash behind each. */
  function Slashed(segments: seq<string>): string {
    if segments == [] then "" else segments[0] + "/" + Slashed(segments[1..])
  }

  predicate AreSegments(segments: seq<string>) {
    forall s | s in segments :: s != "" && '/' !in s
  }

  /**
   A line is a release of this date and revision: the version, eight digits and digits that
   fit an int, and no more.
   */
  lemma ReleaseIs(line: string, date: nat, revision: nat)
    ensures IsRelease(line) && Date(line) == date && Revision(line) == revision <==>
            exists day, digits ::
              && TrimSpace(line) == "v0." + day + "." + digits && AllDigits(day) && |day| == 8 && AllDigits(digits)
              && Value(day) == date && Value(digits) == revision <= 0x7fff_ffff_ffff_ffff
  {
    hide TrimSpace, Value;
    var tag := TrimSpace(line);
    if IsRelease(line) {
      var m := MatchRelease(tag).value;
      assert tag == "v0." + m.date + "." + m.revision && AllDigits(m.date) && AllDigits(m.revision);
    }
    forall day, digits | tag == "v0." + day + "." + digits && AllDigits(day) && |day| == 8 && AllDigits(digits)
      ensures MatchRelease(tag) == Some(Parts(day, digits))
    {
      assert tag[..3] == "v0." && tag[3..11] == day && tag[11] == '.' && tag[12..] == digits;
    }
  }

  lemma {:induction false} SlashedIsPath(segments: seq<string>)
    requires AreSegments(segments)
    ensures IsModulePath(Slashed(segments))
  {
    if segments != [] {
      var first, rest := segments[0], Slashed(segments[1..]);
      assert first in segments && forall s | s in segments[1..] :: s in segments;
      SlashedIsPath(segments[1..]);
      var s := Slashed(segments);
      assert s == first + ("/" + rest);
      assert forall k | 0 <= k < |first| :: first[k] in first;
      forall i | 0 <= i < |s| && s[i] == '/' ensures i > 0 && s[i - 1] != '/' {
        if i > |first| {
          assert s[i] == rest[i - |first| - 1];
          assert i > |first| + 1 ==> s[i - 1] == rest[i - |first| - 2];
        }
      }
      assert rest != "" ==> s[|s| - 1] == rest[|rest| - 1];
    }
  }

  lemma {:induction false} PathIsSlashed(s: string) returns (segments: seq<string>)
    requires IsModulePath(s)
    ensures AreSegments(segments) && s == Slashed(segments)
    decreases |s|
  {
    if s == "" {
      segments := [];
    } else {
      var i := FirstSlash(s, 0);
      assert i < |s| && i > 0;
      var rest := s[i + 1..];
      forall k | 0 <= k < |rest| && rest[k] == '/' ensures k > 0 && rest[k - 1] != '/' {
        assert s[i + 1 + k] == '/';
      }
      var others := PathIsSlashed(rest);
      segments := [s[..i]] + others;
      assert segments[1..] == others;
      assert s == s[..i] + "/" + rest;
    }
  }

  lemma {:induction false} FirstSlash(s: string, k: nat) returns (i: nat)
    requires k <= |s|
    ensures k <= i <= |s| && (i < |s| ==> s[i] == '/') && forall j | k <= j < i :: s[j] != '/'
    decreases |s| - k
  {
    i := k;
    if k < |s| && s[k] != '/' {
      i := FirstSlash(s, k + 1);
    }
  }

  lemma DigitsBehind(head: string, digits: string)
    requires head != "" && !IsDigit(head[|head| - 1]) && AllDigits(digits)
    ensures DigitsStart(head + digits) == |head|
  {
    var s := head + digits;
    assert s[|head| - 1] == head[|head| - 1];
    assert forall k | |head| <= k < |s| :: s[k] in digits;
  }

  lemma MatchOfParts(date: string, segments: seq<string>, digits: string)
    requires AreSegments(segments) && AllDigits(digits)
    ensures MatchRevision(date, Slashed(segments) + "v0." + date + "." + digits) == Some(digits)
  {
    hide Slashed, IsModulePath;
    var path, middle := Slashed(segments), "v0." + date + ".";
    var head := path + middle;
    var tag := path + "v0." + date + "." + digits;
    assert tag == head + digits;
    assert head[|head| - 1] == '.';
    DigitsBehind(head, digits);
    SlashedIsPath(segments);
    assert tag[..|head|] == head && tag[|head|..] == digits;
    assert head[|head| - |middle|..] == middle && head[..|head| - |middle|] == path;
  }

  /**
   A line lists revision n of a date exactly when it is any number of path
   segments, the version, the date and digits of n.
   */
  lemma LineListsExactly(date: string, line: string, n: nat)
    ensures LineLists(date, line, n) <==>
            exists segments, digits ::
              && TrimSpace(line) == Slashed(segments) + "v0." + date + "." + digits
              && AreSegments(segments) && AllDigits(digits) && Value(digits) == n
  {
    hide TrimSpace, Value, MatchRevision, Slashed, AreSegments, AllDigits;
    if LineLists(date, line, n) {
      var segments, digits := PartsOfMatch(date, TrimSpace(line));
    }
    forall segments, digits | AreSegments(segments) && AllDigits(digits) {
      MatchOfParts(date, segments, digits);
    }
  }

  lemma PartsOfMatch(date: string, tag: string) returns (segments: seq<string>, digits: string)
    requires MatchRevision(date, tag).Some?
    ensures AreSegments(segments) && AllDigits(digits) && MatchRevision(date, tag) == Some(digits)
    ensures tag == Slashed(segments) + "v0." + date + "." + digits
  {
    hide IsModulePath, Slashed, AreSegments;
    var head, middle := tag[..DigitsStart(tag)], TAG_PREFIX + date + ".";
    digits := tag[DigitsStart(tag)..];
    segments := PathIsSlashed(head[..|head| - |middle|]);
    assert tag == head + digits && head == head[..|head| - |middle|] + middle;
  }
}
