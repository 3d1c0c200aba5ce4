/**
 Printing an argument list as a shell command, and splitting such a command
 into words again by the quoting rules of the POSIX Shell Command Language
 (sections 2.2.1 Escape Character, 2.2.2 Single-Quotes and 2.3 Token Recognition).
 */
module ShellWords {
  import opened Strings
  import opened Wrappers

  /** Characters printed without quotes. */
  predicate IsPlain(c: char) {
    'a' <= c <= 'z' || 'A' <= c <= 'Z' || '0' <= c <= '9' || c in {'@', '%', '_', '+', '=', ':', ',', '.', '/', '-'}
  }

  function ReplaceQuotes(arg: string): string {
    if arg == "" then ""
    else (if arg[0] == '\'' then "'\\''" else [arg[0]]) + ReplaceQuotes(arg[1..])
  }

  function ShellQuote(arg: string): string {
    if arg == "" then "''"
    else if forall c | c in arg :: IsPlain(c) then arg
    else "'" + ReplaceQuotes(arg) + "'"
  }

  /**
   An argument is printed as it is exactly when it is ASCII letters, digits and ten marks;
   else it is put in quotes.
   */
  lemma PrintedPlainly(arg: string)
    ensures ShellQuote(arg) == arg <==>
            && arg != ""
            && forall c | c in arg ::
                 || 97 <= c as int < 97 + 26 || 65 <= c as int < 65 + 26 || 48 <= c as int < 48 + 10
                 || c in {'@', '%', '_', '+', '=', ':', ',', '.', '/', '-'}
    ensures ShellQuote(arg) != arg ==> |ShellQuote(arg)| >= 2 && ShellQuote(arg)[0] == '\''
  {
    LongerQuoted(arg);
  }

  lemma {:induction false} LongerQuoted(arg: string)
    ensures |ReplaceQuotes(arg)| >= |arg|
  {
    if arg != "" {
      LongerQuoted(arg[1..]);
    }
  }

  function Quoted(args: seq<string>): seq<string> {
    if args == [] then [] else [ShellQuote(args[0])] + Quoted(args[1..])
  }

  method ShellCommand(args: seq<string>) returns (command: string)
    ensures command == Join(Quoted(args), " ")
    ensures SplitWords(command) == Some(args)
  {
    var quoted: seq<string> := [];
    for i := 0 to |args|
      invariant quoted == Quoted(args[..i])
    {
      QuotedAppend(args[..i], args[i]);
      assert args[..i + 1] == args[..i] + [args[i]];
      quoted := quoted + [ShellQuote(args[i])];
    }
    assert args[..|args|] == args;
    command := Join(quoted, " ");
    CommandSplitsBack(args);
  }

  lemma {:induction false} QuotedAppend(args: seq<string>, arg: string)
    ensures Quoted(args + [arg]) == Quoted(args) + [ShellQuote(arg)]
  {
    if args != [] {
      assert (args + [arg])[1..] == args[1..] + [arg];
      QuotedAppend(args[1..], arg);
    } else {
      assert (args + [arg])[1..] == [];
    }
  }

  // ---------------------------------------------------------------- the shell's side

  /** Where the shell stands: between words, in the unquoted part of a word, or inside single quotes. */
  datatype Mode = Between | Word(text: string) | SingleQuoted(text: string)

  /**
   Unquoted characters the shell may treat otherwise than as part of a word:
   operators, expansions, double quotes, patterns, comments, tildes, line breaks.
   A command that shows one of them is not judged.
   */
  predicate IsSpecial(c: char) {
    c in "|&;<>()$`\"*?[#~{}!\n"
  }

  /** The text of the current word so far. */
  function Text(mode: Mode): string {
    match mode
    case Between => ""
    case Word(text) => text
    case SingleQuoted(text) => text
  }

  /** The current word, if there is one, before the words that follow. */
  function WithCurrent(mode: Mode, rest: Option<seq<string>>): Option<seq<string>> {
    match (mode, rest)
    case (Word(text), Some(words)) => Some([text] + words)
    case _ => rest
  }

  /** The words of the rest of a command; None if it is not judged or ends inside quotes. */
  function Scan(s: string, mode: Mode): Option<seq<string>>
    decreases |s|
  {
    if s == "" then
      if mode.SingleQuoted? then None else WithCurrent(mode, Some([]))
    else if mode.SingleQuoted? then
      Scan(s[1..], if s[0] == '\'' then Word(mode.text) else SingleQuoted(mode.text + [s[0]]))
    else if s[0] == ' ' || s[0] == '\t' then WithCurrent(mode, Scan(s[1..], Between))
    else if s[0] == '\'' then Scan(s[1..], SingleQuoted(Text(mode)))
    else if s[0] == '\\' then
      if |s| == 1 || s[1] == '\n' then None else Scan(s[2..], Word(Text(mode) + [s[1]]))
    else if IsSpecial(s[0]) then None
    else Scan(s[1..], Word(Text(mode) + [s[0]]))
  }

  function SplitWords(command: string): Option<seq<string>> {
    Scan(command, Between)
  }

  lemma PlainIsOrdinary(c: char)
    requires IsPlain(c)
    ensures !IsSpecial(c) && c != ' ' && c != '\t' && c != '\'' && c != '\\'
  {
  }

  lemma {:induction false} ScanPlain(arg: string, rest: string, mode: Mode)
    requires arg != "" && !mode.SingleQuoted? && forall c | c in arg :: IsPlain(c)
    ensures Scan(arg + rest, mode) == Scan(rest, Word(Text(mode) + arg))
    decreases |arg|
  {
    hide IsPlain, IsSpecial;
    var all := arg + rest;
    assert arg[0] in arg;
    PlainIsOrdinary(arg[0]);
    assert all[1..] == arg[1..] + rest;
    var next := Word(Text(mode) + [arg[0]]);
    assert Scan(all, mode) == Scan(all[1..], next);
    if |arg| > 1 {
      ScanPlain(arg[1..], rest, next);
      assert Text(mode) + [arg[0]] + arg[1..] == Text(mode) + arg;
    } else {
      assert arg == [arg[0]] && arg[1..] + rest == rest;
    }
  }

  /** The replacement of a quote leaves the quotes, adds the quote, and enters them again. */
  lemma ScanEscapedQuote(tail: string, text: string)
    ensures Scan("'\\''" + tail, SingleQuoted(text)) == Scan(tail, SingleQuoted(text + "'"))
  {
    hide IsSpecial;
    var all := "'\\''" + tail;
    assert all[1..] == "\\''" + tail;
    assert all[1..][2..] == "'" + tail;
    assert all[1..][2..][1..] == tail;
    assert Scan(all[1..][2..], Word(text + "'")) == Scan(tail, SingleQuoted(text + "'"));
    assert text + [all[1..][1]] == text + "'";
    assert Scan(all[1..], Word(text)) == Scan(all[1..][2..], Word(text + "'"));
  }

  lemma ScanInside(c: char, tail: string, text: string)
    requires c != '\''
    ensures Scan([c] + tail, SingleQuoted(text)) == Scan(tail, SingleQuoted(text + [c]))
  {
    assert ([c] + tail)[1..] == tail;
  }

  lemma ReplacedSplits(arg: string, rest: string)
    requires arg != ""
    ensures ReplaceQuotes(arg) + rest ==
            (if arg[0] == '\'' then "'\\''" else [arg[0]]) + (ReplaceQuotes(arg[1..]) + rest)
  {
  }

  lemma {:induction false} ScanReplaced(arg: string, rest: string, text: string)
    ensures Scan(ReplaceQuotes(arg) + rest, SingleQuoted(text)) == Scan(rest, SingleQuoted(text + arg))
    decreases |arg|
  {
    hide Scan, ReplaceQuotes;
    if arg == "" {
      NothingReplaced(rest);
      assert text + arg == text;
    } else {
      var tail := ReplaceQuotes(arg[1..]) + rest;
      ReplacedSplits(arg, rest);
      if arg[0] == '\'' {
        ScanEscapedQuote(tail, text);
        assert text + "'" == text + [arg[0]];
      } else {
        ScanInside(arg[0], tail, text);
      }
      ScanReplaced(arg[1..], rest, text + [arg[0]]);
      assert text + [arg[0]] + arg[1..] == text + arg;
    }
  }

  lemma NothingReplaced(rest: string)
    ensures ReplaceQuotes("") + rest == rest
  {
  }

  lemma ScanQuotedBody(arg: string, rest: string)
    ensures Scan("'" + ReplaceQuotes(arg) + "'" + rest, Between) == Scan(rest, Word(arg))
  {
    hide IsSpecial, ReplaceQuotes;
    var all := "'" + ReplaceQuotes(arg) + "'" + rest;
    assert all[1..] == ReplaceQuotes(arg) + ("'" + rest);
    ScanReplaced(arg, "'" + rest, "");
    assert "" + arg == arg;
    assert ("'" + rest)[1..] == rest;
  }

  /** Scanning a quoted argument yields the argument as one word. */
  lemma ScanQuoted(arg: string, rest: string)
    ensures Scan(ShellQuote(arg) + rest, Between) == Scan(rest, Word(arg))
  {
    hide IsPlain, IsSpecial, Scan;
    if arg == "" {
      ScanQuotedBody("", rest);
      assert "'" + ReplaceQuotes("") + "'" == "''";
    } else if forall c | c in arg :: IsPlain(c) {
      ScanPlain(arg, rest, Between);
      assert "" + arg == arg;
    } else {
      ScanQuotedBody(arg, rest);
    }
  }

  lemma LastWord(arg: string)
    ensures SplitWords(ShellQuote(arg)) == Some([arg])
  {
    hide ShellQuote, IsSpecial;
    ScanQuoted(arg, "");
    assert ShellQuote(arg) + "" == ShellQuote(arg);
    var none: seq<string> := [];
    assert Scan("", Word(arg)) == Some([arg] + none);
    assert [arg] + none == [arg];
  }

  lemma FirstWord(arg: string, tail: string)
    ensures SplitWords(ShellQuote(arg) + " " + tail) ==
            (match SplitWords(tail) case None => None case Some(words) => Some([arg] + words))
  {
    hide ShellQuote, IsSpecial;
    ScanQuoted(arg, " " + tail);
    assert ShellQuote(arg) + " " + tail == ShellQuote(arg) + (" " + tail);
    assert (" " + tail)[1..] == tail;
  }

  /** Splitting a printed command gives back the argument list it was printed from. */
  lemma {:induction false} CommandSplitsBack(args: seq<string>)
    ensures SplitWords(Join(Quoted(args), " ")) == Some(args)
  {
    hide ShellQuote, SplitWords;
    if args == [] {
      NoWords();
    } else {
      var rest := args[1..];
      assert [args[0]] + rest == args;
      if rest == [] {
        LastWord(args[0]);
        assert args == [args[0]];
        assert Quoted(args) == [ShellQuote(args[0])];
      } else {
        CommandSplitsBack(rest);
        FirstWord(args[0], Join(Quoted(rest), " "));
        assert Quoted(args)[1..] == Quoted(rest);
      }
    }
  }

  lemma NoWords()
    ensures SplitWords("") == Some([])
  {
  }

  /** Two argument lists that print alike are the same list. */
  lemma CommandsDiffer(a: seq<string>, b: seq<string>)
    requires Join(Quoted(a), " ") == Join(Quoted(b), " ")
    ensures a == b
  {
    CommandSplitsBack(a);
    CommandSplitsBack(b);
  }
}
