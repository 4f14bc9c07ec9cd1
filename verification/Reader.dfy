/**
 * A reader for the part of GraphQL that the planner prints: lexing as in
 * sections 2.1 and 2.9, and operations, selection sets, fields, arguments,
 * fragments, values and types as in sections 2.3 to 2.11 of the October 2021
 * specification. It knows nothing of the printers, and it refuses what they
 * never print: block strings, `\u` escapes, directives, fragment definitions,
 * and documents of more than one operation or of an unlabelled selection set.
 */
module Reader {
  import opened Common
  import opened Ast

  datatype Token =
    | Punctuator(c: char)
    | Ellipsis
    | NameToken(name: string)
    | IntToken(text: string)
    | FloatToken(text: string)
    | StringToken(content: string)

  datatype Tokens = End | Next(head: Token, tail: Tokens)

  function Length(ts: Tokens): nat {
    match ts case End => 0 case Next(_, tail) => 1 + Length(tail)
  }

  // ---- lexer ---------------------------------------------------------------

  /** White space, line terminators, commas and the byte order mark, section 2.1. */
  predicate IsIgnored(c: char) { c in " \t\n\r," || c == '\U{FEFF}' }

  predicate IsPunctuator(c: char) { c in "!$&():=@[]{|}" }

  function NameRun(s: string): (n: nat)
    ensures n <= |s|
    ensures s != [] && IsNameContinue(s[0]) ==> n > 0
  {
    if s == [] || !IsNameContinue(s[0]) then 0 else 1 + NameRun(s[1..])
  }

  function CommentRun(s: string): (n: nat)
    ensures n <= |s|
  {
    if s == [] || IsLineTerminator(s[0]) || !IsSourceCharacter(s[0]) then 0 else 1 + CommentRun(s[1..])
  }

  datatype StringScan = StringScan(content: string, rest: string)

  function EscapedCharacter(c: char): Option<char> {
    match c
    case '"' => Some('"')
    case '\\' => Some('\\')
    case '/' => Some('/')
    case 'b' => Some('\U{0008}')
    case 'f' => Some('\U{000C}')
    case 'n' => Some('\n')
    case 'r' => Some('\r')
    case 't' => Some('\t')
    case _ => None
  }

  /** The string literal whose opening quote has just been read, section 2.9.4, but for `\u` escapes. */
  function ScanString(s: string): (r: Option<StringScan>)
    ensures r.Some? ==> |r.value.rest| < |s|
  {
    if s == [] || IsLineTerminator(s[0]) || !IsSourceCharacter(s[0]) then None
    else if s[0] == '"' then Some(StringScan("", s[1..]))
    else if s[0] == '\\' then
      if |s| == 1 then None else
      match EscapedCharacter(s[1])
      case None => None
      case Some(c) =>
        match ScanString(s[2..])
        case None => None
        case Some(r) => Some(StringScan([c] + r.content, r.rest))
    else
      match ScanString(s[1..])
      case None => None
      case Some(r) => Some(StringScan([s[0]] + r.content, r.rest))
  }

  function Prepend(t: Token, r: Option<Tokens>): Option<Tokens> {
    match r case None => None case Some(ts) => Some(Next(t, ts))
  }

  datatype Lexeme = Invalid | Skip(rest: string) | Lexeme(token: Token, rest: string)

  /** One step of longest-match lexing. */
  function NextLexeme(s: string): (r: Lexeme)
    requires s != []
    ensures !r.Invalid? ==> |r.rest| < |s|
  {
    var c := s[0];
    if IsIgnored(c) then Skip(s[1..])
    else if c == '#' then Skip(s[1 + CommentRun(s[1..])..])
    else if IsPunctuator(c) then Lexeme(Punctuator(c), s[1..])
    else if c == '.' then
      if "..." <= s then Lexeme(Ellipsis, s[3..]) else Invalid
    else if IsNameStart(c) then
      var n := NameRun(s);
      Lexeme(NameToken(s[..n]), s[n..])
    else if c == '"' then
      if "\"\"\"" <= s then Invalid  // a block string
      else
        match ScanString(s[1..])
        case None => Invalid
        case Some(r) => Lexeme(StringToken(r.content), r.rest)
    else
      match ScanNumber(s)
      case None => Invalid
      case Some(Number(end, isFloat)) =>
        Lexeme(if isFloat then FloatToken(s[..end]) else IntToken(s[..end]), s[end..])
  }

  /** `None` is a lexical error or a construct outside this reader. */
  function Lex(s: string): Option<Tokens>
    decreases |s|
  {
    if s == [] then Some(End)
    else
      match NextLexeme(s)
      case Invalid => None
      case Skip(rest) => Lex(rest)
      case Lexeme(t, rest) => Prepend(t, Lex(rest))
  }

  // ---- parser --------------------------------------------------------------

  datatype Parsed<+T> = Error | Read(value: T, rest: Tokens)

  predicate Starts(ts: Tokens, c: char) { ts.Next? && ts.head == Punctuator(c) }

  function ParseValue(ts: Tokens): (r: Parsed<Value>)
    ensures r.Read? ==> Length(r.rest) < Length(ts)
    decreases Length(ts), 0
  {
    match ts
    case End => Error
    case Next(IntToken(t), tail) => Read(IntLit(t), tail)
    case Next(FloatToken(t), tail) => Read(FloatLit(t), tail)
    case Next(StringToken(s), tail) => Read(StringLit(s), tail)
    case Next(NameToken(n), tail) =>
      if n == "true" then Read(BoolLit(true), tail)
      else if n == "false" then Read(BoolLit(false), tail)
      else if n == "null" then Read(NullLit, tail)
      else Read(EnumLit(n), tail)
    case Next(Punctuator(c), tail) =>
      if c == '$' then
        if tail.Next? && tail.head.NameToken? then Read(Variable(tail.head.name), tail.tail) else Error
      else if c == '[' then
        match ParseValues(tail)
        case Error => Error
        case Read(items, rest) => Read(ListLit(items), rest)
      else if c == '{' then
        match ParseEntries(tail, '}')
        case Error => Error
        case Read(entries, rest) => Read(ObjectLit(entries), rest)
      else Error
    case Next(Ellipsis, _) => Error
  }

  function ParseValues(ts: Tokens): (r: Parsed<seq<Value>>)
    ensures r.Read? ==> Length(r.rest) < Length(ts)
    decreases Length(ts), 1
  {
    if Starts(ts, ']') then Read([], ts.tail)
    else
      match ParseValue(ts)
      case Error => Error
      case Read(v, rest) =>
        match ParseValues(rest)
        case Error => Error
        case Read(vs, rest') => Read([v] + vs, rest')
  }

  /** Name-value pairs up to and including the closing punctuator. */
  function ParseEntries(ts: Tokens, close: char): (r: Parsed<seq<Argument>>)
    ensures r.Read? ==> Length(r.rest) < Length(ts)
    decreases Length(ts), 1
  {
    if Starts(ts, close) then Read([], ts.tail)
    else if ts.Next? && ts.head.NameToken? && Starts(ts.tail, ':') then
      assert Length(ts.tail.tail) < Length(ts.tail) < Length(ts);
      match ParseValue(ts.tail.tail)
      case Error => Error
      case Read(v, rest) =>
        match ParseEntries(rest, close)
        case Error => Error
        case Read(vs, rest') => Read([Argument(ts.head.name, v)] + vs, rest')
    else Error
  }

  /** Arguments are optional, but the parentheses may not be empty. */
  function ParseArguments(ts: Tokens): (r: Parsed<seq<Argument>>)
    ensures r.Read? ==> Length(r.rest) <= Length(ts)
  {
    if Starts(ts, '(') then
      match ParseEntries(ts.tail, ')')
      case Error => Error
      case Read(args, rest) => if args == [] then Error else Read(args, rest)
    else Read([], ts)
  }

  function ParseField(ts: Tokens): (r: Parsed<Field>)
    ensures r.Read? ==> Length(r.rest) < Length(ts)
    decreases Length(ts), 0
  {
    if !(ts.Next? && ts.head.NameToken?) then Error
    else if Starts(ts.tail, ':') then
      var ts' := ts.tail.tail;
      assert Length(ts') < Length(ts.tail) < Length(ts);
      if ts'.Next? && ts'.head.NameToken? then ParseFieldBody(Some(ts.head.name), ts'.head.name, ts'.tail) else Error
    else ParseFieldBody(None, ts.head.name, ts.tail)
  }

  function ParseFieldBody(alias: Option<string>, name: string, ts: Tokens): (r: Parsed<Field>)
    ensures r.Read? ==> Length(r.rest) <= Length(ts)
    decreases Length(ts), 3
  {
    match ParseArguments(ts)
    case Error => Error
    case Read(args, rest) =>
      if Starts(rest, '{') then
        match ParseSelections(rest.tail)
        case Error => Error
        case Read(sels, rest') =>
          if sels == [] then Error else Read(Field(alias, name, args, [], sels), rest')
      else Read(Field(alias, name, args, [], []), rest)
  }

  function ParseSelection(ts: Tokens): (r: Parsed<Selection>)
    ensures r.Read? ==> Length(r.rest) < Length(ts)
    decreases Length(ts), 1
  {
    if ts.Next? && ts.head == Ellipsis then
      var ts' := ts.tail;
      if ts'.Next? && ts'.head.NameToken? && ts'.head.name != "on" then
        Read(FragmentSpread(ts'.head.name, []), ts'.tail)
      else
        var cond := if ts'.Next? && ts'.head.NameToken? && ts'.tail.Next? && ts'.tail.head.NameToken?
                    then Some(ts'.tail.head.name) else None;
        var body := if cond.Some? then ts'.tail.tail else ts';
        assert Length(body) < Length(ts) by {
          if cond.Some? { assert Length(body) < Length(ts'.tail) < Length(ts'); }
        }
        if !Starts(body, '{') then Error
        else
          match ParseSelections(body.tail)
          case Error => Error
          case Read(sels, rest) => if sels == [] then Error else Read(InlineFragment(cond, [], sels), rest)
    else
      match ParseField(ts)
      case Error => Error
      case Read(f, rest) => Read(FieldSel(f), rest)
  }

  /** Selections up to and including the closing brace. */
  function ParseSelections(ts: Tokens): (r: Parsed<seq<Selection>>)
    ensures r.Read? ==> Length(r.rest) < Length(ts)
    decreases Length(ts), 2
  {
    if Starts(ts, '}') then Read([], ts.tail)
    else
      match ParseSelection(ts)
      case Error => Error
      case Read(s, rest) =>
        match ParseSelections(rest)
        case Error => Error
        case Read(ss, rest') => Read([s] + ss, rest')
  }

  function ParseType(ts: Tokens): (r: Parsed<Ty>)
    ensures r.Read? ==> Length(r.rest) < Length(ts)
  {
    if ts.Next? && ts.head.NameToken? then ParseBang(Named(ts.head.name), ts.tail)
    else if Starts(ts, '[') then
      match ParseType(ts.tail)
      case Error => Error
      case Read(t, rest) => if Starts(rest, ']') then ParseBang(ListOf(t), rest.tail) else Error
    else Error
  }

  function ParseBang(t: Ty, ts: Tokens): (r: Parsed<Ty>)
    ensures r.Read? && Length(r.rest) <= Length(ts)
  {
    if Starts(ts, '!') then Read(NonNull(t), ts.tail) else Read(t, ts)
  }

  /** Variable definitions up to and including the closing parenthesis. */
  function ParseVariables(ts: Tokens): (r: Parsed<seq<VariableDefinition>>)
    ensures r.Read? ==> Length(r.rest) < Length(ts)
    decreases Length(ts)
  {
    if Starts(ts, ')') then Read([], ts.tail)
    else if !(Starts(ts, '$') && ts.tail.Next? && ts.tail.head.NameToken? && Starts(ts.tail.tail, ':')) then Error
    else
      assert Length(ts.tail.tail.tail) < Length(ts.tail.tail) < Length(ts.tail) < Length(ts);
      match ParseType(ts.tail.tail.tail)
      case Error => Error
      case Read(ty, rest) =>
        match ParseDefault(rest)
        case Error => Error
        case Read(default, rest') =>
          match ParseVariables(rest')
          case Error => Error
          case Read(ds, rest'') => Read([VariableDefinition(ts.tail.head.name, ty, default)] + ds, rest'')
  }

  function ParseDefault(ts: Tokens): (r: Parsed<Option<Value>>)
    ensures r.Read? ==> Length(r.rest) <= Length(ts)
  {
    if !Starts(ts, '=') then Read(None, ts)
    else
      match ParseValue(ts.tail)
      case Error => Error
      case Read(v, rest) => Read(Some(v), rest)
  }

  function ParseVariableList(ts: Tokens): Parsed<seq<VariableDefinition>> {
    if Starts(ts, '(') then
      match ParseVariables(ts.tail)
      case Error => Error
      case Read(ds, rest) => if ds == [] then Error else Read(ds, rest)
    else Read([], ts)
  }

  function ParseOperation(ts: Tokens): Parsed<Operation> {
    if !(ts.Next? && ts.head.NameToken?) then Error
    else
      var kind := match ts.head.name
        case "query" => Some(Query)
        case "mutation" => Some(Mutation)
        case "subscription" => Some(Subscription)
        case _ => None;
      if kind.None? then Error
      else
        var named := ts.tail.Next? && ts.tail.head.NameToken?;
        var name := if named then Some(ts.tail.head.name) else None;
        match ParseVariableList(if named then ts.tail.tail else ts.tail)
        case Error => Error
        case Read(ds, rest) =>
          if !Starts(rest, '{') then Error
          else
            match ParseSelections(rest.tail)
            case Error => Error
            case Read(sels, rest') =>
              if sels == [] then Error else Read(Operation(kind.value, name, ds, sels), rest')
  }

  // ---- whole texts -----------------------------------------------------------

  function Finish<T>(p: Parsed<T>): Option<T> {
    if p.Read? && p.rest == End then Some(p.value) else None
  }

  function ReadField(text: string): Option<Field> {
    match Lex(text) case None => None case Some(ts) => Finish(ParseField(ts))
  }

  function ReadOperation(text: string): Option<Operation> {
    match Lex(text) case None => None case Some(ts) => Finish(ParseOperation(ts))
  }
}
