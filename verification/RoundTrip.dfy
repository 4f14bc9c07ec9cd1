/** Printing is reversible: the reader recovers every well-formed tree from its text, up to directives. */
module RoundTrip {
  import opened Common
  import opened Ast
  import opened Render
  import opened Reader

  // ---- the tokens of a tree, followed by the tokens `k` ---------------------

  ghost function ValueTokens(v: Value, k: Tokens): Tokens {
    match v
    case Variable(n) => Next(Punctuator('$'), Next(NameToken(n), k))
    case IntLit(t) => Next(IntToken(t), k)
    case FloatLit(t) => Next(FloatToken(t), k)
    case StringLit(t) => Next(StringToken(t), k)
    case BoolLit(b) => Next(NameToken(if b then "true" else "false"), k)
    case NullLit => Next(NameToken("null"), k)
    case EnumLit(n) => Next(NameToken(n), k)
    case ListLit(items) => Next(Punctuator('['), ValuesTokens(items, Next(Punctuator(']'), k)))
    case ObjectLit(entries) => Next(Punctuator('{'), EntriesTokens(entries, Next(Punctuator('}'), k)))
  }

  ghost function ValuesTokens(items: seq<Value>, k: Tokens): Tokens {
    if items == [] then k else ValueTokens(items[0], ValuesTokens(items[1..], k))
  }

  ghost function EntriesTokens(args: seq<Argument>, k: Tokens): Tokens {
    if args == [] then k
    else
      Next(NameToken(args[0].name), Next(Punctuator(':'), ValueTokens(args[0].value, EntriesTokens(args[1..], k))))
  }

  ghost function ArgumentsTokens(args: seq<Argument>, k: Tokens): Tokens {
    if args == [] then k else Next(Punctuator('('), EntriesTokens(args, Next(Punctuator(')'), k)))
  }

  ghost function FieldTokens(f: Field, k: Tokens): Tokens {
    var named := Next(NameToken(f.name), ArgumentsTokens(f.arguments, BodyTokens(f.selections, k)));
    match f.alias
    case Some(a) => Next(NameToken(a), Next(Punctuator(':'), named))
    case None => named
  }

  ghost function BodyTokens(sels: seq<Selection>, k: Tokens): Tokens
    decreases sels, 1
  {
    if sels == [] then k else Next(Punctuator('{'), SelectionsTokens(sels, Next(Punctuator('}'), k)))
  }

  ghost function SelectionTokens(s: Selection, k: Tokens): Tokens {
    match s
    case FieldSel(f) => FieldTokens(f, k)
    case FragmentSpread(n, _) => Next(Ellipsis, Next(NameToken(n), k))
    case InlineFragment(c, _, body) =>
      Next(Ellipsis, Next(NameToken("on"), Next(NameToken(c.GetOr("")), BodyTokens(body, k))))
  }

  ghost function SelectionsTokens(sels: seq<Selection>, k: Tokens): Tokens
    decreases sels, 0
  {
    if sels == [] then k else SelectionTokens(sels[0], SelectionsTokens(sels[1..], k))
  }

  ghost function TypeTokens(t: Ty, k: Tokens): Tokens {
    match t
    case Named(n) => Next(NameToken(n), k)
    case ListOf(item) => Next(Punctuator('['), TypeTokens(item, Next(Punctuator(']'), k)))
    case NonNull(inner) => TypeTokens(inner, Next(Punctuator('!'), k))
  }

  ghost function VariableTokens(d: VariableDefinition, k: Tokens): Tokens {
    var k' := match d.defaultValue case Some(v) => Next(Punctuator('='), ValueTokens(v, k)) case None => k;
    Next(Punctuator('$'), Next(NameToken(d.name), Next(Punctuator(':'), TypeTokens(d.ty, k'))))
  }

  ghost function VariablesTokens(ds: seq<VariableDefinition>, k: Tokens): Tokens {
    if ds == [] then k else VariableTokens(ds[0], VariablesTokens(ds[1..], k))
  }

  ghost function VariableListTokens(ds: seq<VariableDefinition>, k: Tokens): Tokens {
    if ds == [] then k else Next(Punctuator('('), VariablesTokens(ds, Next(Punctuator(')'), k)))
  }

  // ---- lexing one token -------------------------------------------------------

  /** No token that ends before `s` can be continued by it. */
  predicate Delimits(s: string) {
    s == [] || !(IsNameContinue(s[0]) || s[0] == '.' || s[0] == '"')
  }

  lemma {:induction false} NameRunStops(n: string, rest: string)
    requires forall i :: 0 <= i < |n| ==> IsNameContinue(n[i])
    requires Delimits(rest)
    ensures NameRun(n + rest) == |n|
  {
    if n == [] {
      assert n + rest == rest;
    } else {
      assert (n + rest)[1..] == n[1..] + rest;
      NameRunStops(n[1..], rest);
    }
  }

  lemma LexToken(s: string, t: Token, rest: string)
    requires s != [] && NextLexeme(s) == Lexeme(t, rest)
    ensures Lex(s) == Prepend(t, Lex(rest))
  {
    hide NextLexeme;
  }

  lemma LexName(n: string, rest: string)
    requires IsName(n) && Delimits(rest)
    ensures Lex(n + rest) == Prepend(NameToken(n), Lex(rest))
  {
    hide Lex;
    NextIsName(n, rest);
    LexToken(n + rest, NameToken(n), rest);
  }

  lemma StartsToken(c: char)
    requires IsNameContinue(c) || c == '-'
    ensures !IsIgnored(c) && !IsPunctuator(c)
  {
  }

  lemma NextIsName(n: string, rest: string)
    requires IsName(n) && Delimits(rest)
    ensures NextLexeme(n + rest) == Lexeme(NameToken(n), rest)
  {
    hide ScanString, ScanNumber, CommentRun, NameRun, IsIgnored, IsPunctuator;
    NameRunStops(n, rest);
    StartsToken(n[0]);
    assert (n + rest)[0] == n[0] && IsNameStart(n[0]);
    assert (n + rest)[..|n|] == n && (n + rest)[|n|..] == rest;
  }

  lemma {:induction false} DigitRunStops(s: string, rest: string)
    requires Delimits(rest)
    ensures DigitRun(s + rest) == DigitRun(s)
  {
    if s == [] {
      assert s + rest == rest;
    } else {
      assert (s + rest)[1..] == s[1..] + rest;
      DigitRunStops(s[1..], rest);
    }
  }

  lemma ScanNumberStops(s: string, rest: string)
    requires ScanNumber(s).Some? && ScanNumber(s).value.end == |s|
    requires Delimits(rest)
    ensures ScanNumber(s + rest) == ScanNumber(s)
  {
    hide IntegerPart, FractionPart, ExponentPart;
    var t := s + rest;
    IntegerStops(s, rest);
    var i := IntegerPart(s).value;
    assert t[i..] == s[i..] + rest;
    FractionStops(s[i..], rest);
    var f := FractionPart(s[i..]).value;
    assert t[i + f..] == s[i + f..] + rest;
    ExponentStops(s[i + f..], rest);
  }

  lemma IntegerStops(s: string, rest: string)
    requires Delimits(rest) && IntegerPart(s).Some?
    ensures IntegerPart(s + rest) == IntegerPart(s)
  {
    hide DigitRun;
    var sign := if s[0] == '-' then 1 else 0;
    assert (s + rest)[sign..] == s[sign..] + rest;
    DigitRunStops(s[sign..], rest);
  }

  lemma FractionStops(s: string, rest: string)
    requires Delimits(rest)
    ensures FractionPart(s + rest) == FractionPart(s)
  {
    if s != [] {
      assert (s + rest)[1..] == s[1..] + rest;
      DigitRunStops(s[1..], rest);
    } else {
      assert s + rest == rest;
    }
  }

  lemma ExponentStops(s: string, rest: string)
    requires Delimits(rest) && ExponentPart(s).Some?
    ensures ExponentPart(s + rest) == ExponentPart(s)
  {
    if s == [] {
      assert s + rest == rest;
    } else if s[0] in "eE" {
      var sign := if |s| > 1 && s[1] in "+-" then 2 else 1;
      assert (s + rest)[sign..] == s[sign..] + rest;
      assert |s| > 1;
      DigitRunStops(s[sign..], rest);
    }
  }

  lemma NumberStart(s: string)
    requires ScanNumber(s).Some?
    ensures s[0] == '-' || IsDigit(s[0])
  {
    hide FractionPart, ExponentPart;
  }

  lemma LexNumber(s: string, isFloat: bool, rest: string)
    requires ScanNumber(s) == Some(Number(|s|, isFloat)) && Delimits(rest)
    ensures Lex(s + rest) == Prepend(if isFloat then FloatToken(s) else IntToken(s), Lex(rest))
  {
    hide Lex, ScanNumber;
    NextIsNumber(s, isFloat, rest);
    LexToken(s + rest, if isFloat then FloatToken(s) else IntToken(s), rest);
  }

  lemma NextIsNumber(s: string, isFloat: bool, rest: string)
    requires ScanNumber(s) == Some(Number(|s|, isFloat)) && Delimits(rest)
    ensures s + rest != [] && NextLexeme(s + rest) == Lexeme(if isFloat then FloatToken(s) else IntToken(s), rest)
  {
    ScanNumberStops(s, rest);
    NumberStart(s);
    StartsToken(s[0]);
    hide ScanNumber, ScanString, CommentRun, NameRun, IsIgnored, IsPunctuator;
    assert (s + rest)[0] == s[0];
    assert (s + rest)[..|s|] == s && (s + rest)[|s|..] == rest;
  }

  lemma EscapeUnfolds(s: string, rest: string)
    requires s != []
    ensures EscapeQuotes(s) + "\"" + rest
         == (if s[0] == '"' then ['\\', '"'] else [s[0]]) + (EscapeQuotes(s[1..]) + "\"" + rest)
  {
  }

  lemma {:induction false} ScanEscaped(s: string, rest: string)
    requires PlainString(s)
    ensures ScanString(EscapeQuotes(s) + "\"" + rest) == Some(StringScan(s, rest))
  {
    var t := EscapeQuotes(s) + "\"" + rest;
    if s == [] {
      assert t[0] == '"' && t[1..] == rest;
    } else {
      var t' := EscapeQuotes(s[1..]) + "\"" + rest;
      EscapeUnfolds(s, rest);
      hide EscapeQuotes;
      ScanEscaped(s[1..], rest);
      if s[0] == '"' {
        assert t[0] == '\\' && t[1] == '"' && t[2..] == t';
      } else {
        assert t[0] == s[0] && t[1..] == t';
      }
      assert [s[0]] + s[1..] == s;
    }
  }

  /** Whatever is read up to exactly `rest` is shorter than the string, unless the string is plain. */
  lemma {:induction false} ScanShortens(s: string, rest: string)
    ensures var r := ScanString(EscapeQuotes(s) + "\"" + rest);
      r.Some? && r.value.rest == rest ==> |r.value.content| <= |s| && (|r.value.content| == |s| ==> PlainString(s))
    decreases |s|
  {
    var t := EscapeQuotes(s) + "\"" + rest;
    if s != [] && !IsLineTerminator(s[0]) {
      EscapeUnfolds(s, rest);
      if s[0] != '\\' {
        ScanShortens(s[1..], rest);
      } else if |s| == 1 {
        assert t == ['\\', '"'] + rest;
      } else {
        EscapeUnfolds(s[1..], rest);
        hide EscapeQuotes;
        assert s[1..][1..] == s[2..];
        var t' := EscapeQuotes(s[2..]) + "\"" + rest;
        assert t == (if s[1] == '"' then ['\\', '\\', '"'] else ['\\', s[1]]) + t';
        if s[1] != '"' {
          ScanShortens(s[2..], rest);
        }
      }
    }
  }

  /** A printed string is read back, and the reader stops at its end, exactly when it needs no other escape. */
  lemma ScansBackExactly(s: string, rest: string)
    ensures ScanString(EscapeQuotes(s) + "\"" + rest) == Some(StringScan(s, rest)) <==> PlainString(s)
  {
    hide ScanString, EscapeQuotes, PlainString;
    ScanShortens(s, rest);
    if PlainString(s) {
      ScanEscaped(s, rest);
    }
  }

  lemma LexString(s: string, rest: string)
    requires PlainString(s) && Delimits(rest)
    ensures Lex("\"" + EscapeQuotes(s) + "\"" + rest) == Prepend(StringToken(s), Lex(rest))
  {
    hide Lex, ScanString, EscapeQuotes;
    NoBlockString(s, rest);
    ScanEscaped(s, rest);
    var t := "\"" + EscapeQuotes(s) + "\"" + rest;
    assert t[0] == '"' && t[1..] == EscapeQuotes(s) + "\"" + rest;
    LexToken(t, StringToken(s), rest);
  }

  lemma NoBlockString(s: string, rest: string)
    requires Delimits(rest)
    ensures !("\"\"\"" <= "\"" + EscapeQuotes(s) + "\"" + rest)
  {
    var t := "\"" + EscapeQuotes(s) + "\"" + rest;
    if s == [] {
      assert t[2..] == rest;
    } else {
      assert t[1] == EscapeQuotes(s)[0];
    }
  }

  lemma LexPunctuator(c: char, rest: string)
    requires IsPunctuator(c)
    ensures Lex([c] + rest) == Prepend(Punctuator(c), Lex(rest))
  {
    hide Lex;
    assert ([c] + rest)[1..] == rest;
    LexToken([c] + rest, Punctuator(c), rest);
  }

  lemma LexIgnored(c: char, rest: string)
    requires IsIgnored(c)
    ensures Lex([c] + rest) == Lex(rest)
  {
    assert ([c] + rest)[1..] == rest;
  }

  lemma LexEllipsis(rest: string)
    ensures Lex("..." + rest) == Prepend(Ellipsis, Lex(rest))
  {
    hide Lex;
    assert ("..." + rest)[3..] == rest;
    LexToken("..." + rest, Ellipsis, rest);
  }

  /** `name: ` in front of `rest`. */
  lemma LexLabel(n: string, rest: string)
    requires IsName(n)
    ensures Lex(n + ": " + rest) == Prepend(NameToken(n), Prepend(Punctuator(':'), Lex(rest)))
  {
    hide Lex;
    LexIgnored(' ', rest);
    LexPunctuator(':', " " + rest);
    LexName(n, ": " + rest);
    assert n + ": " + rest == n + (": " + rest);
    assert ": " + rest == ":" + (" " + rest);
  }

  lemma LexCommaSpace(rest: string)
    ensures Lex(", " + rest) == Lex(rest)
  {
    hide Lex;
    LexIgnored(' ', rest);
    LexIgnored(',', " " + rest);
    assert ", " + rest == "," + (" " + rest);
  }

  lemma Glue(a: string, b: string, c: string, rest: string)
    ensures a + b + c + rest == a + (b + (c + rest))
  {
  }

  lemma Associate(a: string, b: string, c: string)
    ensures a + b + c == a + (b + c)
  {
  }

  lemma DelimitedBy(c: char, rest: string)
    requires c in " ,)]}!:("
    ensures Delimits([c] + rest)
  {
  }

  lemma DelimitedByComma(rest: string)
    ensures Delimits(", " + rest)
  {
  }

  // ---- lexing the text of a tree ------------------------------------------------

  lemma LexKeyword(n: string, rest: string)
    requires n in {"true", "false", "null"} && Delimits(rest)
    ensures Lex(n + rest) == Prepend(NameToken(n), Lex(rest))
  {
    hide Lex;
    LexName(n, rest);
  }

  lemma {:induction false} LexValue(v: Value, rest: string, k: Tokens)
    requires WellFormedValue(v) && Delimits(rest) && Lex(rest) == Some(k)
    ensures Lex(RenderValue(v) + rest) == Some(ValueTokens(v, k))
    decreases v
  {
    hide Lex, ScanNumber, PlainString, EscapeQuotes, RenderValues, RenderEntries, ValuesTokens, EntriesTokens;
    match v
    case Variable(n) =>
      LexName(n, rest);
      LexPunctuator('$', n + rest);
      assert RenderValue(v) + rest == "$" + (n + rest);
    case IntLit(t) => LexNumber(t, false, rest);
    case FloatLit(t) => LexNumber(t, true, rest);
    case StringLit(t) =>
      LexString(t, rest);
      assert RenderValue(v) + rest == "\"" + EscapeQuotes(t) + "\"" + rest;
    case BoolLit(b) => LexKeyword(RenderValue(v), rest);
    case NullLit => LexKeyword("null", rest);
    case EnumLit(n) => LexName(n, rest);
    case ListLit(items) =>
      LexPunctuator(']', rest);
      LexValues(items, "]" + rest, Next(Punctuator(']'), k));
      LexPunctuator('[', RenderValues(items) + ("]" + rest));
      assert RenderValue(v) + rest == "[" + (RenderValues(items) + ("]" + rest));
    case ObjectLit(entries) =>
      LexPunctuator('}', rest);
      LexEntries(entries, "}" + rest, Next(Punctuator('}'), k));
      LexPunctuator('{', RenderEntries(entries) + ("}" + rest));
      assert RenderValue(v) + rest == "{" + (RenderEntries(entries) + ("}" + rest));
  }

  lemma {:induction false} LexValues(items: seq<Value>, rest: string, k: Tokens)
    requires forall i :: 0 <= i < |items| ==> WellFormedValue(items[i])
    requires Delimits(rest) && Lex(rest) == Some(k)
    ensures Lex(RenderValues(items) + rest) == Some(ValuesTokens(items, k))
    decreases items
  {
    hide Lex, Delimits, RenderValue, ValueTokens, WellFormedValue;
    if items == [] {
      assert RenderValues(items) + rest == rest;
    } else {
      LexValues(items[1..], rest, k);
      if |items| == 1 {
        LexValue(items[0], rest, k);
      } else {
        var rest' := RenderValues(items[1..]) + rest;
        LexCommaSpace(rest');
        DelimitedByComma(rest');
        LexValue(items[0], ", " + rest', ValuesTokens(items[1..], k));
        Glue(RenderValue(items[0]), ", ", RenderValues(items[1..]), rest);
      }
    }
  }

  lemma {:induction false} LexEntries(args: seq<Argument>, rest: string, k: Tokens)
    requires WellFormedArguments(args)
    requires Delimits(rest) && Lex(rest) == Some(k)
    ensures Lex(RenderEntries(args) + rest) == Some(EntriesTokens(args, k))
    decreases args
  {
    hide Lex, Delimits, RenderValue, ValueTokens, WellFormedValue, IsName;
    if args == [] {
      assert RenderEntries(args) + rest == rest;
    } else {
      LexEntries(args[1..], rest, k);
      var n, v := args[0].name, RenderValue(args[0].value);
      if |args| == 1 {
        LexValue(args[0].value, rest, k);
        LexLabel(n, v + rest);
        assert RenderEntries(args) + rest == n + ": " + (v + rest);
      } else {
        var rest' := RenderEntries(args[1..]) + rest;
        LexCommaSpace(rest');
        DelimitedByComma(rest');
        LexValue(args[0].value, ", " + rest', EntriesTokens(args[1..], k));
        LexLabel(n, v + (", " + rest'));
        Glue(n + ": " + v, ", ", RenderEntries(args[1..]), rest);
        Associate(n + ": ", v, ", " + rest');
      }
    }
  }

  lemma LexArguments(args: seq<Argument>, rest: string, k: Tokens)
    requires WellFormedArguments(args)
    requires Delimits(rest) && Lex(rest) == Some(k)
    ensures Lex(RenderArguments(args) + rest) == Some(ArgumentsTokens(args, k))
    ensures Delimits(RenderArguments(args) + rest)
  {
    hide Lex, EntriesTokens, RenderEntries, WellFormedArguments;
    if args == [] {
      assert RenderArguments(args) + rest == rest;
    } else {
      LexPunctuator(')', rest);
      LexEntries(args, ")" + rest, Next(Punctuator(')'), k));
      LexPunctuator('(', RenderEntries(args) + (")" + rest));
      assert RenderArguments(args) + rest == "(" + (RenderEntries(args) + (")" + rest));
    }
  }

  lemma {:induction false} LexField(f: Field, rest: string, k: Tokens)
    requires WellFormedField(f) && Delimits(rest) && Lex(rest) == Some(k)
    ensures Lex(RenderField(f) + rest) == Some(FieldTokens(f, k))
    decreases f
  {
    hide Lex;
    var body := if f.selections == [] then "" else " { " + RenderSelections(f.selections) + " }";
    LexBody(f.selections, rest, k);
    LexHead(f, body + rest, BodyTokens(f.selections, k));
    assert RenderField(f) + rest == RenderHead(f) + (body + rest);
  }

  lemma LexHead(f: Field, rest: string, k: Tokens)
    requires WellFormedField(f) && Delimits(rest) && Lex(rest) == Some(k)
    ensures Lex(RenderHead(f) + rest) == Some(FieldTokens(f.(selections := []), k))
  {
    hide Lex, ArgumentsTokens, RenderArguments, WellFormedArguments, IsName, WellFormedSelections;
    var args := RenderArguments(f.arguments);
    LexArguments(f.arguments, rest, k);
    LexName(f.name, args + rest);
    match f.alias
    case None => assert RenderHead(f) + rest == f.name + (args + rest);
    case Some(a) =>
      LexLabel(a, f.name + (args + rest));
      assert RenderHead(f) + rest == a + ": " + (f.name + (args + rest));
  }

  lemma {:induction false} LexBody(sels: seq<Selection>, rest: string, k: Tokens)
    requires WellFormedSelections(sels) && Delimits(rest) && Lex(rest) == Some(k)
    ensures var body := if sels == [] then "" else " { " + RenderSelections(sels) + " }";
            Delimits(body + rest) && Lex(body + rest) == Some(BodyTokens(sels, k))
    decreases sels, 2
  {
    hide Lex;
    if sels == [] {
      assert "" + rest == rest;
    } else {
      LexBraces(sels, rest, k);
      LexIgnored(' ', "{ " + RenderSelections(sels) + " }" + rest);
      assert " { " + RenderSelections(sels) + " }" + rest == " " + ("{ " + RenderSelections(sels) + " }" + rest);
    }
  }

  lemma {:induction false} LexBraces(sels: seq<Selection>, rest: string, k: Tokens)
    requires sels != [] && WellFormedSelections(sels) && Delimits(rest) && Lex(rest) == Some(k)
    ensures Lex("{ " + RenderSelections(sels) + " }" + rest) == Some(BodyTokens(sels, k))
    decreases sels, 1
  {
    hide Lex;
    LexPunctuator('}', rest);
    LexIgnored(' ', "}" + rest);
    assert " }" + rest == " " + ("}" + rest);
    LexSelections(sels, " }" + rest, Next(Punctuator('}'), k));
    var inner := RenderSelections(sels) + (" }" + rest);
    LexIgnored(' ', inner);
    LexPunctuator('{', " " + inner);
    assert "{ " + RenderSelections(sels) + " }" + rest == "{" + (" " + inner);
  }

  lemma {:induction false} LexSelections(sels: seq<Selection>, rest: string, k: Tokens)
    requires WellFormedSelections(sels) && Delimits(rest) && Lex(rest) == Some(k)
    ensures Lex(RenderSelections(sels) + rest) == Some(SelectionsTokens(sels, k))
    decreases sels, 0
  {
    hide Lex, Delimits, RenderSelection, SelectionTokens, WellFormedSelection;
    if sels == [] {
      assert RenderSelections(sels) + rest == rest;
    } else {
      LexSelections(sels[1..], rest, k);
      if |sels| == 1 {
        LexSelection(sels[0], rest, k);
      } else {
        var rest' := RenderSelections(sels[1..]) + rest;
        LexIgnored(' ', rest');
        DelimitedBy(' ', rest');
        LexSelection(sels[0], " " + rest', SelectionsTokens(sels[1..], k));
        Glue(RenderSelection(sels[0]), " ", RenderSelections(sels[1..]), rest);
      }
    }
  }

  lemma {:induction false} LexSelection(s: Selection, rest: string, k: Tokens)
    requires WellFormedSelection(s) && Delimits(rest) && Lex(rest) == Some(k)
    ensures Lex(RenderSelection(s) + rest) == Some(SelectionTokens(s, k))
    decreases s
  {
    hide Lex;
    match s
    case FieldSel(f) => LexField(f, rest, k);
    case FragmentSpread(n, _) =>
      LexName(n, rest);
      LexEllipsis(n + rest);
      assert RenderSelection(s) + rest == "..." + (n + rest);
    case InlineFragment(c, _, body) =>
      LexBraces(body, rest, k);
      LexCondition(c.value, "{ " + RenderSelections(body) + " }" + rest, BodyTokens(body, k));
      assert RenderSelection(s) + rest == "... on " + c.value + " " + ("{ " + RenderSelections(body) + " }" + rest);
  }

  lemma LexCondition(n: string, rest: string, k: Tokens)
    requires IsName(n) && Lex(rest) == Some(k)
    ensures Lex("... on " + n + " " + rest) == Some(Next(Ellipsis, Next(NameToken("on"), Next(NameToken(n), k))))
  {
    hide Lex;
    LexIgnored(' ', rest);
    LexName(n, " " + rest);
    LexIgnored(' ', n + (" " + rest));
    LexName("on", " " + (n + (" " + rest)));
    var rest' := "on" + (" " + (n + (" " + rest)));
    LexIgnored(' ', rest');
    LexEllipsis(" " + rest');
    assert "... on " + n + " " + rest == "..." + (" " + rest');
  }

  /**
   * An inline fragment without a type condition is printed as its bare braces: these are no
   * selection, and after a field without selections they become that field's.
   */
  lemma BareBracesAreNoFragment(ds: seq<Directive>, body: seq<Selection>, f: Field, rest: string)
    ensures var ts := Lex(RenderSelection(InlineFragment(None, ds, body)) + rest);
            ts.Some? ==> ParseSelection(ts.value) == Error
    ensures f.selections == [] && body != [] ==>
            RenderSelections([FieldSel(f), InlineFragment(None, ds, body)]) == RenderField(f.(selections := body))
  {
    hide Lex, RenderHead;
    var s, inner := InlineFragment(None, ds, body), " " + RenderSelections(body) + " }";
    LexPunctuator('{', inner + rest);
    assert RenderSelection(s) == "" + "{ " + RenderSelections(body) + " }";
    assert RenderSelection(s) + rest == "{" + (inner + rest);
    var sels := [FieldSel(f), s];
    assert sels[1..] == [s] && RenderSelections([s]) == RenderSelection(s);
    assert RenderSelections(sels) == RenderSelection(sels[0]) + " " + RenderSelections(sels[1..]);
    if f.selections == [] {
      assert RenderField(f) == RenderHead(f) + "" == RenderHead(f);
      HeadIgnoresSelections(f, body);
    }
  }

  lemma HeadIgnoresSelections(f: Field, sels: seq<Selection>)
    ensures RenderHead(f.(selections := sels)) == RenderHead(f)
  {
  }

  lemma {:induction false} LexType(t: Ty, rest: string, k: Tokens)
    requires WellFormedType(t) && Delimits(rest) && Lex(rest) == Some(k)
    ensures Lex(RenderType(t) + rest) == Some(TypeTokens(t, k))
    decreases t
  {
    hide Lex;
    match t
    case Named(n) => LexName(n, rest);
    case ListOf(item) =>
      LexPunctuator(']', rest);
      LexType(item, "]" + rest, Next(Punctuator(']'), k));
      LexPunctuator('[', RenderType(item) + ("]" + rest));
      assert RenderType(t) + rest == "[" + (RenderType(item) + ("]" + rest));
    case NonNull(inner) =>
      LexPunctuator('!', rest);
      LexType(inner, "!" + rest, Next(Punctuator('!'), k));
      assert RenderType(t) + rest == RenderType(inner) + ("!" + rest);
  }

  lemma LexVariable(d: VariableDefinition, rest: string, k: Tokens)
    requires WellFormedVariable(d) && Delimits(rest) && Lex(rest) == Some(k)
    ensures Lex(RenderVariable(d) + rest) == Some(VariableTokens(d, k))
  {
    hide Lex, RenderType, TypeTokens, RenderValue, ValueTokens, WellFormedValue, WellFormedType, IsName;
    var default := match d.defaultValue case Some(v) => " = " + RenderValue(v) case None => "";
    var k' := match d.defaultValue case Some(v) => Next(Punctuator('='), ValueTokens(v, k)) case None => k;
    match d.defaultValue {
      case None => assert default + rest == rest;
      case Some(v) =>
        var t := RenderValue(v) + rest;
        LexValue(v, rest, k);
        LexIgnored(' ', t);
        LexPunctuator('=', " " + t);
        LexIgnored(' ', "=" + (" " + t));
        assert default + rest == " " + ("=" + (" " + t));
    }
    LexType(d.ty, default + rest, k');
    LexLabel(d.name, RenderType(d.ty) + (default + rest));
    LexPunctuator('$', d.name + ": " + (RenderType(d.ty) + (default + rest)));
    assert RenderVariable(d) + rest == "$" + (d.name + ": " + (RenderType(d.ty) + (default + rest)));
  }

  lemma {:induction false} LexVariables(ds: seq<VariableDefinition>, rest: string, k: Tokens)
    requires WellFormedVariables(ds) && Delimits(rest) && Lex(rest) == Some(k)
    ensures Lex(RenderVariables(ds) + rest) == Some(VariablesTokens(ds, k))
  {
    hide Lex, Delimits, RenderVariable, VariableTokens, WellFormedVariable;
    if ds == [] {
      assert RenderVariables(ds) + rest == rest;
    } else {
      LexVariables(ds[1..], rest, k);
      if |ds| == 1 {
        LexVariable(ds[0], rest, k);
      } else {
        var rest' := RenderVariables(ds[1..]) + rest;
        LexCommaSpace(rest');
        DelimitedByComma(rest');
        LexVariable(ds[0], ", " + rest', VariablesTokens(ds[1..], k));
        Glue(RenderVariable(ds[0]), ", ", RenderVariables(ds[1..]), rest);
      }
    }
  }

  lemma LexVariableList(ds: seq<VariableDefinition>, rest: string, k: Tokens)
    requires WellFormedVariables(ds) && Delimits(rest) && Lex(rest) == Some(k)
    ensures Lex(RenderVariableList(ds) + rest) == Some(VariableListTokens(ds, k))
    ensures Delimits(RenderVariableList(ds) + rest)
  {
    hide Lex, VariablesTokens, RenderVariables, WellFormedVariables;
    if ds == [] {
      assert RenderVariableList(ds) + rest == rest;
    } else {
      LexPunctuator(')', rest);
      LexVariables(ds, ")" + rest, Next(Punctuator(')'), k));
      LexPunctuator('(', RenderVariables(ds) + (")" + rest));
      assert RenderVariableList(ds) + rest == "(" + (RenderVariables(ds) + (")" + rest));
    }
  }

  // ---- parsing the tokens of a tree -----------------------------------------------

  lemma {:induction false} ParsesValue(v: Value, k: Tokens)
    requires WellFormedValue(v)
    ensures ParseValue(ValueTokens(v, k)) == Read(v, k)
    decreases v
  {
    hide ScanNumber, PlainString;
    match v
    case ListLit(items) => ParsesValues(items, k);
    case ObjectLit(entries) => ParsesEntries(entries, '}', k);
    case _ =>
  }

  lemma {:induction false} ParsesValues(items: seq<Value>, k: Tokens)
    requires forall i :: 0 <= i < |items| ==> WellFormedValue(items[i])
    ensures ParseValues(ValuesTokens(items, Next(Punctuator(']'), k))) == Read(items, k)
    decreases items
  {
    if items != [] {
      ParsesValues(items[1..], k);
      ParsesValue(items[0], ValuesTokens(items[1..], Next(Punctuator(']'), k)));
      assert [items[0]] + items[1..] == items;
    }
  }

  lemma {:induction false} ParsesEntries(args: seq<Argument>, close: char, k: Tokens)
    requires WellFormedArguments(args)
    ensures ParseEntries(EntriesTokens(args, Next(Punctuator(close), k)), close) == Read(args, k)
    decreases args
  {
    if args != [] {
      ParsesEntries(args[1..], close, k);
      ParsesValue(args[0].value, EntriesTokens(args[1..], Next(Punctuator(close), k)));
      assert [args[0]] + args[1..] == args;
    }
  }

  lemma ParsesArguments(args: seq<Argument>, k: Tokens)
    requires WellFormedArguments(args) && !Starts(k, '(')
    ensures ParseArguments(ArgumentsTokens(args, k)) == Read(args, k)
  {
    ParsesEntries(args, ')', k);
  }

  /** What may follow a field without being taken for a part of it. */
  predicate FollowsField(k: Tokens) { !Starts(k, ':') && !Starts(k, '(') && !Starts(k, '{') }

  lemma {:induction false} ParsesField(f: Field, k: Tokens)
    requires WellFormedField(f) && FollowsField(k)
    ensures ParseField(FieldTokens(f, k)) == Read(EraseField(f), k)
    decreases f
  {
    ParsesArguments(f.arguments, BodyTokens(f.selections, k));
    if f.selections != [] {
      ParsesSelections(f.selections, k);
    }
  }

  lemma {:induction false} ParsesSelection(s: Selection, k: Tokens)
    requires WellFormedSelection(s) && FollowsField(k)
    ensures ParseSelection(SelectionTokens(s, k)) == Read(EraseSelection(s), k)
    decreases s
  {
    match s
    case FieldSel(f) => ParsesField(f, k);
    case FragmentSpread(_, _) =>
    case InlineFragment(_, _, body) => ParsesSelections(body, k);
  }

  lemma {:induction false} ParsesSelections(sels: seq<Selection>, k: Tokens)
    requires WellFormedSelections(sels)
    ensures ParseSelections(SelectionsTokens(sels, Next(Punctuator('}'), k))) == Read(EraseSelections(sels), k)
    ensures FollowsField(SelectionsTokens(sels, Next(Punctuator('}'), k)))
    decreases sels
  {
    if sels != [] {
      ParsesSelections(sels[1..], k);
      ParsesSelection(sels[0], SelectionsTokens(sels[1..], Next(Punctuator('}'), k)));
    }
  }

  lemma {:induction false} ParsesType(t: Ty, k: Tokens)
    requires WellFormedType(t) && (!t.NonNull? ==> !Starts(k, '!'))
    ensures ParseType(TypeTokens(t, k)) == Read(t, k)
    decreases t
  {
    match t
    case Named(_) =>
    case ListOf(item) => ParsesType(item, Next(Punctuator(']'), k));
    case NonNull(inner) => ParsesBang(inner, k);
  }

  lemma {:induction false} ParsesBang(t: Ty, k: Tokens)
    requires WellFormedType(t) && !t.NonNull?
    ensures ParseType(TypeTokens(t, Next(Punctuator('!'), k))) == Read(NonNull(t), k)
    decreases t
  {
    match t
    case Named(_) =>
    case ListOf(item) => ParsesType(item, Next(Punctuator(']'), Next(Punctuator('!'), k)));
  }

  lemma {:induction false} ParsesVariables(ds: seq<VariableDefinition>, k: Tokens)
    requires WellFormedVariables(ds)
    ensures ParseVariables(VariablesTokens(ds, Next(Punctuator(')'), k))) == Read(ds, k)
  {
    if ds != [] {
      ParsesVariables(ds[1..], k);
      var d, rest := ds[0], VariablesTokens(ds[1..], Next(Punctuator(')'), k));
      match d.defaultValue {
        case None => ParsesType(d.ty, rest);
        case Some(v) =>
          ParsesValue(v, rest);
          ParsesType(d.ty, Next(Punctuator('='), ValueTokens(v, rest)));
      }
      assert [ds[0]] + ds[1..] == ds;
    }
  }

  // ---- main results ---------------------------------------------------------------

  /** Reading a printed field gives the field back, without its directives. */
  lemma ReadsRenderedField(f: Field)
    requires WellFormedField(f)
    ensures ReadField(RenderField(f)) == Some(EraseField(f))
  {
    hide Lex;
    assert RenderField(f) + "" == RenderField(f);
    LexEnd();
    LexField(f, "", End);
    ParsesField(f, End);
  }

  /** What closes an operation: a brace, after any number of spaces. */
  ghost predicate Closes(end: string) { Delimits(end) && Lex(end) == Some(Next(Punctuator('}'), End)) }

  lemma LexOperation(kind: OperationType, ds: seq<VariableDefinition>, f: Field, end: string)
    requires WellFormedVariables(ds) && WellFormedField(f) && Closes(end)
    ensures Lex(Keyword(kind) + (RenderVariableList(ds) + (" { " + RenderField(f) + end)))
         == Some(OperationTokens(kind, ds, f))
  {
    hide Lex, Delimits, Closes, WellFormedVariables, WellFormedField, RenderVariableList, RenderField,
         VariableListTokens, FieldTokens;
    var rest := " { " + RenderField(f) + end;
    LexBracedField(f, end);
    LexVariableList(ds, rest, Next(Punctuator('{'), FieldTokens(f, Next(Punctuator('}'), End))));
    LexName(Keyword(kind), RenderVariableList(ds) + rest);
  }

  lemma OperationText(kind: OperationType, ds: seq<VariableDefinition>, f: Field)
    ensures RenderOperation(kind, ds, f)
         == Keyword(kind) + (RenderVariableList(ds) + (" { " + RenderField(f) + " }"))
  {
    hide Keyword, RenderVariableList, RenderField;
  }

  lemma LexBracedField(f: Field, end: string)
    requires WellFormedField(f) && Closes(end)
    ensures var rest := " { " + RenderField(f) + end;
            Delimits(rest) && Lex(rest) == Some(Next(Punctuator('{'), FieldTokens(f, Next(Punctuator('}'), End))))
  {
    hide Lex, WellFormedField, RenderField, FieldTokens;
    LexField(f, end, Next(Punctuator('}'), End));
    var t := RenderField(f) + end;
    LexIgnored(' ', t);
    LexPunctuator('{', " " + t);
    LexIgnored(' ', "{" + (" " + t));
    assert " { " + RenderField(f) + end == " " + ("{" + (" " + t));
  }

  ghost function OperationTokens(kind: OperationType, ds: seq<VariableDefinition>, f: Field): Tokens {
    Next(NameToken(Keyword(kind)),
      VariableListTokens(ds, Next(Punctuator('{'), FieldTokens(f, Next(Punctuator('}'), End)))))
  }

  lemma LexEnd()
    ensures Lex("") == Some(End)
  {
  }

  lemma ClosingBrace()
    ensures Closes(" }") && Closes("  }")
  {
    hide Lex;
    LexEnd();
    LexPunctuator('}', "");
    LexIgnored(' ', "}");
    LexIgnored(' ', " }");
    assert "}" + "" == "}" && " " + "}" == " }" && " " + " }" == "  }";
  }

  lemma ParsesOperation(kind: OperationType, ds: seq<VariableDefinition>, f: Field)
    requires WellFormedVariables(ds) && WellFormedField(f)
    ensures ParseOperation(OperationTokens(kind, ds, f))
         == Read(Operation(kind, None, ds, [FieldSel(EraseField(f))]), End)
  {
    var brace := Next(Punctuator('}'), End);
    ParsesVariables(ds, Next(Punctuator('{'), FieldTokens(f, brace)));
    ParsesField(f, brace);
    hide ParseField, ParseVariables, FieldTokens, EraseField, WellFormedField;
    ParsesOneField(f);
  }

  lemma ParsesOneField(f: Field)
    requires WellFormedField(f)
    ensures ParseSelections(FieldTokens(f, Next(Punctuator('}'), End))) == Read([FieldSel(EraseField(f))], End)
  {
    hide WellFormedField, FieldTokens, EraseField;
    ParsesSelections([FieldSel(f)], End);
    assert SelectionsTokens([FieldSel(f)], Next(Punctuator('}'), End)) == FieldTokens(f, Next(Punctuator('}'), End));
    assert EraseSelections([FieldSel(f)]) == [FieldSel(EraseField(f))];
  }

  lemma ReadsClosedOperation(kind: OperationType, ds: seq<VariableDefinition>, f: Field, end: string)
    requires WellFormedVariables(ds) && WellFormedField(f) && Closes(end)
    ensures ReadOperation(Keyword(kind) + (RenderVariableList(ds) + (" { " + RenderField(f) + end)))
         == Some(Operation(kind, None, ds, [FieldSel(EraseField(f))]))
  {
    hide Lex, Closes, ParseOperation;
    LexOperation(kind, ds, f, end);
    ParsesOperation(kind, ds, f);
  }

  /** The same for the one-root-field operations that the router sends to subgraphs. */
  lemma ReadsRenderedOperation(kind: OperationType, ds: seq<VariableDefinition>, f: Field)
    requires WellFormedVariables(ds) && WellFormedField(f)
    ensures ReadOperation(RenderOperation(kind, ds, f))
         == Some(Operation(kind, None, ds, [FieldSel(EraseField(f))]))
  {
    hide ReadOperation, Closes;
    ClosingBrace();
    OperationText(kind, ds, f);
    ReadsClosedOperation(kind, ds, f, " }");
  }

  lemma {:induction false} ErasesNothing(f: Field)
    ensures EraseField(f) == f <==> DirectiveFree(f)
    decreases f
  {
    ErasesNoSelections(f.selections);
  }

  lemma {:induction false} ErasesNoSelection(s: Selection)
    ensures EraseSelection(s) == s <==> DirectiveFreeSelection(s)
    decreases s
  {
    match s
    case FieldSel(f) => ErasesNothing(f);
    case FragmentSpread(_, _) =>
    case InlineFragment(_, _, body) => ErasesNoSelections(body);
  }

  lemma {:induction false} ErasesNoSelections(sels: seq<Selection>)
    ensures EraseSelections(sels) == sels
       <==> forall i :: 0 <= i < |sels| ==> DirectiveFreeSelection(sels[i])
    decreases sels
  {
    if sels != [] {
      ErasesNoSelections(sels[1..]);
      ErasesNoSelection(sels[0]);
      assert sels == [sels[0]] + sels[1..];
      assert forall i :: 1 <= i < |sels| ==> sels[i] == sels[1..][i - 1];
      assert EraseSelections(sels)[0] == EraseSelection(sels[0])
             && EraseSelections(sels)[1..] == EraseSelections(sels[1..]);
    }
  }

  /** The printer loses exactly the directives: `@include` and `@skip` do not reach a subgraph. */
  lemma RoundTripsExactlyWhenDirectiveFree(f: Field)
    requires WellFormedField(f)
    ensures ReadField(RenderField(f)) == Some(f) <==> DirectiveFree(f)
  {
    ReadsRenderedField(f);
    ErasesNothing(f);
  }
}
