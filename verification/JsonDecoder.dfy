/**
 The token reader of the JSON decoder: where it stands in the text, and the
 state that says which tokens may come next.
 */
module JsonDecoder {
  import opened Wrappers
  import opened JsonGrammar

  datatype TokenState =
    | TopValue
    | ArrayStart | ArrayValue | ArrayComma
    | ObjectStart | ObjectKey | ObjectColon | ObjectValue | ObjectComma

  datatype Token = Delim(bracket: char) | Scalar(value: Json)

  /** The unread text, the state, and the states of the enclosing containers. */
  datatype Cursor = Cursor(rest: string, state: TokenState, stack: seq<TokenState>)

  datatype Read = Read(token: Token, next: Cursor)

  predicate ValueAllowed(state: TokenState) {
    state.TopValue? || state.ArrayStart? || state.ArrayValue? || state.ObjectValue?
  }

  /** The state behind a value. */
  function ValueEnd(state: TokenState): TokenState {
    match state
    case ArrayStart | ArrayValue => ArrayComma
    case ObjectValue => ObjectComma
    case other => other
  }

  /** Another element may follow: the next character is not a closing bracket. */
  predicate More(c: Cursor) {
    var s := SkipSpace(c.rest);
    s != "" && s[0] != ']' && s[0] != '}'
  }

  /** The next token; a comma or colon in front of it is stepped over where the state allows one. */
  function NextToken(c: Cursor): (r: Option<Read>)
    ensures r.Some? ==> |r.value.next.rest| < |c.rest|
  {
    var s := SkipSpace(c.rest);
    if s == "" then None
    else if s[0] == ':' then
      if c.state.ObjectColon? then BareToken(c.(rest := s[1..], state := ObjectValue)) else None
    else if s[0] == ',' then
      if c.state.ArrayComma? then BareToken(c.(rest := s[1..], state := ArrayValue))
      else if c.state.ObjectComma? then BareToken(c.(rest := s[1..], state := ObjectKey))
      else None
    else BareToken(c)
  }

  function BareToken(c: Cursor): (r: Option<Read>)
    ensures r.Some? ==> |r.value.next.rest| < |c.rest|
  {
    var s := SkipSpace(c.rest);
    if s == "" then None
    else match s[0]
      case '[' => if ValueAllowed(c.state) then
          Some(Read(Delim('['), Cursor(s[1..], ArrayStart, c.stack + [c.state]))) else None
      case '{' => if ValueAllowed(c.state) then
          Some(Read(Delim('{'), Cursor(s[1..], ObjectStart, c.stack + [c.state]))) else None
      case ']' => if c.state.ArrayStart? || c.state.ArrayComma? then Close(c, s) else None
      case '}' => if c.state.ObjectStart? || c.state.ObjectComma? then Close(c, s) else None
      case _ =>
        if s[0] == '"' && (c.state.ObjectStart? || c.state.ObjectKey?) then
          var key := ParseText(s[1..]);
          if key.Failed? then None else Some(Read(Scalar(Text(key.value)), Cursor(key.rest, ObjectColon, c.stack)))
        else if !ValueAllowed(c.state) then None
        else
          var value := ParseScalar(s);
          if value.Failed? then None
              else Some(Read(Scalar(value.value), Cursor(value.rest, ValueEnd(c.state), c.stack)))
  }

  /** A closing bracket; inside a container the stack is not empty. */
  function Close(c: Cursor, s: string): (r: Option<Read>)
    requires s != ""
    ensures r.Some? ==> |r.value.next.rest| < |s|
  {
    if c.stack == [] then None
    else
      var outer := c.stack[|c.stack| - 1];
      Some(Read(Delim(s[0]), Cursor(s[1..], ValueEnd(outer), c.stack[..|c.stack| - 1])))
  }

  class Decoder {
    var at: Cursor

    constructor (text: string)
      ensures at == Cursor(text, TopValue, [])
    {
      at := Cursor(text, TopValue, []);
    }

    method Token() returns (token: Option<Token>)
      modifies this
      ensures match NextToken(old(at))
              case None => token.None? && at == old(at)
              case Some(read) => token == Some(read.token) && at == read.next
    {
      var read := NextToken(at);
      if read.None? {
        return None;
      }
      token, at := Some(read.value.token), read.value.next;
    }
  }

  // ---------------------------------------------------------------- tokens and the grammar

  /** The text of the value a cursor stands in front of. */
  function ValueText(c: Cursor): Option<string> {
    match c.state
    case ArrayComma => NextElement(c.rest, false)
    case ObjectColon => if Closes(c.rest, ':') then Some(SkipSpace(c.rest)[1..]) else None
    case _ => Some(c.rest)
  }

  predicate BeforeValue(state: TokenState) {
    state.TopValue? || state.ArrayStart? || state.ArrayComma? || state.ObjectColon?
  }

  /** The state a value in front of the cursor is read in. */
  function ValueState(state: TokenState): TokenState {
    match state
    case ArrayComma => ArrayValue
    case ObjectColon => ObjectValue
    case other => other
  }

  function ValueAt(c: Cursor): Parsed<Json> {
    match ValueText(c)
    case None => Failed
    case Some(text) => ParseValue(text)
  }

  /** In front of a value, the token says what the grammar says. */
  lemma TokenOfValue(c: Cursor)
    requires BeforeValue(c.state)
    ensures match NextToken(c)
            case None => ValueAt(c).Failed?
            case Some(Read(Scalar(value), next)) =>
              && ValueAt(c) == Parsed(value, next.rest)
              && next == Cursor(next.rest, ValueEnd(ValueState(c.state)), c.stack)
            case Some(Read(Delim(bracket), next)) =>
              && (bracket in {']', '}'} ==> ValueAt(c).Failed?)
              && (bracket !in {']', '}'} ==> OpensContainer(c, bracket, next))
  {
    hide NumberLength, ParseText;
    if ValueText(c).Some? {
      var text := ValueText(c).value;
      assert SkipSpace(SkipSpace(text)) == SkipSpace(text);
      BareTokenOfValue(Cursor(text, ValueState(c.state), c.stack));
      var s := SkipSpace(c.rest);
      if s != "" && s[0] in {',', ':'} {
        NotAScalar(s);
      }
    }
  }

  ghost predicate OpensContainer(c: Cursor, bracket: char, next: Cursor) {
    && ValueText(c).Some?
    && (if bracket == '[' then ParsesArray(ValueText(c).value, next.rest)
        else ParsesObject(ValueText(c).value, next.rest))
    && bracket in {'[', '{'}
    && next == Cursor(next.rest, if bracket == '[' then ArrayStart else ObjectStart, c.stack + [ValueState(c.state)])
  }

  ghost predicate ParsesArray(text: string, inner: string) {
    ParseValue(text) == (var items := ParseItems(inner, true);
                         if items.Failed? then Failed else Parsed(Array(items.value), items.rest))
  }

  ghost predicate ParsesObject(text: string, inner: string) {
    ParseValue(text) == (var members := ParseMembers(inner, true);
                         if members.Failed? then Failed else Parsed(Object(Collect([], members.value)), members.rest))
  }

  lemma BareTokenOfValue(c: Cursor)
    requires ValueAllowed(c.state)
    ensures match BareToken(c)
            case None => ParseValue(c.rest).Failed?
            case Some(Read(Scalar(value), next)) =>
              ParseValue(c.rest) == Parsed(value, next.rest) && next == Cursor(next.rest, ValueEnd(c.state), c.stack)
            case Some(Read(Delim(bracket), next)) =>
              && (bracket in {']', '}'} ==> ParseValue(c.rest).Failed?)
              && (bracket !in {']', '}'} ==>
                    && bracket in {'[', '{'}
                    && (if bracket == '[' then ParsesArray(c.rest, next.rest) else ParsesObject(c.rest, next.rest))
                    && next == Cursor(next.rest, if bracket == '[' then ArrayStart else ObjectStart,
                                      c.stack + [c.state]))
  {
    hide NumberLength, ParseText, ParseItems, ParseMembers, Collect;
    var s := SkipSpace(c.rest);
    if s != "" && s[0] in {',', ':', ']', '}'} {
      NotAScalar(s);
    }
  }

  lemma NotAScalar(s: string)
    requires s != "" && s[0] in {',', ':', ']', '}'}
    ensures ParseScalar(s).Failed?
  {
  }
}
