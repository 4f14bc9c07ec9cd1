/** Braces inside string literals: exactly when stripping the selection set still finds it (plan/planner.rs). */
module Braces {
  import opened Common
  import opened Ast
  import opened Render
  import opened Scanners
  import opened Synthesis

  // ---- counting braces ---------------------------------------------------------------------------

  /** Opening braces less closing ones. */
  function Balance(t: string): int {
    if t == [] then 0 else Balance(t[..|t| - 1]) + if t[|t| - 1] == '{' then 1 else if t[|t| - 1] == '}' then -1 else 0
  }

  lemma {:induction false} BalanceAppends(a: string, b: string)
    ensures Balance(a + b) == Balance(a) + Balance(b)
    decreases |b|
  {
    if b == [] {
      assert a + b == a;
    } else {
      assert (a + b)[..|a + b| - 1] == a + b[..|b| - 1];
      BalanceAppends(a, b[..|b| - 1]);
    }
  }

  /** A top-level opening brace stands at `k`. */
  predicate OpensAt(t: string, k: nat) { k < |t| && t[k] == '{' && Balance(t[..k]) == 0 }

  /** The scanner's depth is the balance, and it remembers the last top-level opening brace. */
  lemma {:induction false} ScanCounts(t: string)
    ensures var st := ScanBraces(t, 0, Scan(0, None));
      && st.depth == Balance(t)
      && match st.start {
           case None => forall k :: !OpensAt(t, k)
           case Some(s) => OpensAt(t, s) && forall k :: k > s ==> !OpensAt(t, k)
         }
  {
    if t != [] {
      var init, n := t[..|t| - 1], |t| - 1;
      ScanCounts(init);
      ScanExtends(init, t[n], 0, Scan(0, None));
      assert init + [t[n]] == t;
      forall k: nat ensures OpensAt(t, k) <==> OpensAt(init, k) || (k == n && t[n] == '{' && Balance(init) == 0) {
        assert k < n ==> t[..k] == init[..k];
      }
    }
  }

  // ---- stripping, exactly -------------------------------------------------------------------------

  lemma HeadEnds(f: Field)
    requires IsName(f.name)
    ensures var head := RenderHead(f); head != "" && !IsSpace(head[|head| - 1]) && head[|head| - 1] != '{'
  {
    hide RenderEntries;
    var head := RenderHead(f);
    assert head[|head| - 1] == if f.arguments == [] then f.name[|f.name| - 1] else ')';
  }

  /**
   * Stripping leaves exactly alias, name and arguments if and only if the selection set's own brace is
   * the last one that stands at the top level; where there is no selection set, if no brace does.
   */
  lemma StripsToHeadExactly(f: Field)
    requires IsName(f.name)
    ensures var text, n := RenderField(f), |RenderHead(f)| + 1;
      Stripped(text) == RenderHead(f) <==>
        if f.selections == [] then forall k :: !OpensAt(text, k)
        else OpensAt(text, n) && forall k :: k > n ==> !OpensAt(text, k)
  {
    hide RenderHead, RenderSelections;
    var text, head := RenderField(f), RenderHead(f);
    var st := ScanBraces(text, 0, Scan(0, None));
    ScanCounts(text);
    HeadEnds(f);
    if f.selections == [] {
      assert text == head + "" == head;
    } else {
      assert text == head + (" { " + RenderSelections(f.selections) + " }");
      assert text[..|head|] == head && text[|head|] == ' ' && text[|head| + 1] == '{';
      if st.start.Some? {
        CutAt(text, head, st.start.value);
      }
    }
    hide OpensAt, ScanBraces;
  }

  /** Cutting at a brace leaves the head exactly when it is the brace after the head. */
  lemma CutAt(text: string, head: string, k: nat)
    requires |head| + 1 < |text| && text[..|head|] == head && text[|head|] == ' ' && text[|head| + 1] == '{'
    requires head != "" && !IsSpace(head[|head| - 1]) && k < |text| && text[k] == '{'
    ensures TrimEnd(text[..k]) == head <==> k == |head| + 1
  {
    var cut := TrimEnd(text[..k]);
    if k == |head| + 1 {
      assert text[..k][..|head|] == head;
      assert text[..k] == head + " " && (head + " ")[..|head|] == head;
      assert TrimEnd(head) == head;
    } else if k > |head| + 1 {
      assert text[..k][|head| + 1] == '{';
    } else {
      assert |cut| <= k <= |head| && text[|head|] != '{';
    }
  }

  // ---- in terms of the literals ---------------------------------------------------------------------

  /** The balance of the braces inside the string literals. */
  function LiteralBalance(v: Value): int {
    match v
    case StringLit(t) => Balance(t)
    case ListLit(items) => ItemsBalance(items)
    case ObjectLit(entries) => ArgumentsBalance(entries)
    case _ => 0
  }

  function ItemsBalance(items: seq<Value>): int {
    if items == [] then 0 else LiteralBalance(items[0]) + ItemsBalance(items[1..])
  }

  function ArgumentsBalance(args: seq<Argument>): int {
    if args == [] then 0 else LiteralBalance(args[0].value) + ArgumentsBalance(args[1..])
  }

  lemma {:induction false} QuietBalance(t: string)
    requires Quiet(t)
    ensures Balance(t) == 0
  {
    if t != [] {
      QuietBalance(t[..|t| - 1]);
    }
  }

  lemma {:induction false} EscapedBalance(t: string)
    ensures Balance(EscapeQuotes(t)) == Balance(t)
  {
    if t != [] {
      EscapedBalance(t[1..]);
      var first := if t[0] == '"' then "\\\"" else [t[0]];
      BalanceAppends(first, EscapeQuotes(t[1..]));
      BalanceAppends([t[0]], t[1..]);
      assert t == [t[0]] + t[1..];
      if t[0] == '"' {
        QuietBalance(first);
        QuietBalance([t[0]]);
      }
    }
  }

  lemma Enclosed(open: string, t: string, close: string)
    ensures Balance(open + t + close) == Balance(open) + Balance(t) + Balance(close)
  {
    BalanceAppends(open + t, close);
    BalanceAppends(open, t);
  }

  lemma BraceBalance()
    ensures Balance("{") == 1 && Balance("}") == -1
  {
    assert "{"[..0] == "" && "}"[..0] == "";
  }

  lemma {:induction false} ValueBalance(v: Value)
    requires WellFormedValue(v)
    ensures Balance(RenderValue(v)) == LiteralBalance(v)
    decreases v
  {
    hide Balance, ScanNumber, IsName, PlainString, EscapeQuotes, Quiet;
    match v
    case Variable(n) => QuietIsName(n); Pair("$", n);
    case IntLit(t) => QuietNumber(t); QuietBalance(t);
    case FloatLit(t) => QuietNumber(t); QuietBalance(t);
    case StringLit(t) =>
      EscapedBalance(t);
      QuietMark();
      Enclosed("\"", EscapeQuotes(t), "\"");
    case BoolLit(_) => QuietWord(RenderValue(v));
    case NullLit => QuietWord("null");
    case EnumLit(n) => QuietIsName(n);
    case ListLit(items) =>
      ValuesBalance(items);
      QuietMark();
      Enclosed("[", RenderValues(items), "]");
    case ObjectLit(entries) =>
      EntriesBalance(entries);
      BraceBalance();
      Enclosed("{", RenderEntries(entries), "}");
  }

  lemma QuietIsName(n: string)
    requires IsName(n)
    ensures Balance(n) == 0
  {
    QuietName(n);
    QuietBalance(n);
  }

  lemma QuietWord(t: string)
    requires t in {"true", "false", "null"}
    ensures Balance(t) == 0
  {
    QuietBalance(t);
  }

  lemma QuietMark()
    ensures Balance("\"") == 0 && Balance("[") == 0 && Balance("]") == 0 && Balance(", ") == 0 && Balance(": ") == 0
    ensures Balance("(") == 0 && Balance(")") == 0 && Balance("$") == 0 && Balance("") == 0
  {
    QuietBalance("\"");
    QuietBalance("[");
    QuietBalance("]");
    QuietBalance(", ");
    QuietBalance(": ");
    QuietBalance("(");
    QuietBalance(")");
    assert "$"[..0] == "";
  }

  lemma Pair(a: string, b: string)
    requires a == "$"
    ensures Balance(a + b) == Balance(b)
  {
    QuietMark();
    BalanceAppends(a, b);
  }

  lemma {:induction false} ValuesBalance(items: seq<Value>)
    requires forall i :: 0 <= i < |items| ==> WellFormedValue(items[i])
    ensures Balance(RenderValues(items)) == ItemsBalance(items)
    decreases items
  {
    hide Balance, WellFormedValue, RenderValue, LiteralBalance;
    QuietMark();
    if items != [] {
      ValueBalance(items[0]);
      ValuesBalance(items[1..]);
      Enclosed(RenderValue(items[0]), ", ", RenderValues(items[1..]));
      assert |items| == 1 ==> ItemsBalance(items[1..]) == 0;
    }
  }

  lemma {:induction false} EntriesBalance(args: seq<Argument>)
    requires WellFormedArguments(args)
    ensures Balance(RenderEntries(args)) == ArgumentsBalance(args)
    decreases args
  {
    hide Balance, WellFormedValue, RenderValue, LiteralBalance, IsName;
    QuietMark();
    if args != [] {
      ValueBalance(args[0].value);
      EntriesBalance(args[1..]);
      QuietIsName(args[0].name);
      Enclosed(args[0].name, ": ", RenderValue(args[0].value));
      Enclosed(args[0].name + ": " + RenderValue(args[0].value), ", ", RenderEntries(args[1..]));
      assert |args| == 1 ==> ArgumentsBalance(args[1..]) == 0;
    }
  }

  lemma HeadBalance(f: Field)
    requires (f.alias.Some? ==> IsName(f.alias.value)) && IsName(f.name) && WellFormedArguments(f.arguments)
    ensures Balance(RenderHead(f)) == ArgumentsBalance(f.arguments)
  {
    assert f.arguments == [] ==> RenderEntries(f.arguments) == "";
    hide Balance, RenderEntries, ArgumentsBalance, WellFormedArguments, IsName;
    QuietMark();
    var alias := match f.alias case Some(a) => a + ": " case None => "";
    assert Balance(alias) == 0 by {
      if f.alias.Some? {
        QuietIsName(f.alias.value);
        BalanceAppends(f.alias.value, ": ");
      }
    }
    QuietIsName(f.name);
    EntriesBalance(f.arguments);
    Enclosed("(", RenderEntries(f.arguments), ")");
    Enclosed(alias, f.name, RenderArguments(f.arguments));
  }

  /**
   * Where the literals below the field hold no brace, stripping leaves the head exactly when the
   * braces inside the string literals of its own arguments balance, whatever their order.
   */
  lemma StripsToHeadWhenBalanced(f: Field)
    requires WellFormedField(f) && f.selections != [] && QuietSelections(f.selections)
    ensures Stripped(RenderField(f)) == RenderHead(f) <==> ArgumentsBalance(f.arguments) == 0
  {
    var head, inner := RenderHead(f), RenderSelections(f.selections);
    StripsToHeadExactly(f);
    HeadBalance(f);
    SeesSelections(f.selections);
    hide RenderHead, RenderSelections, WellFormedArguments, QuietSelections, WellFormedSelections, ArgumentsBalance;
    SelectionSetIsLast(head, inner);
    assert RenderField(f) == head + (" { " + inner + " }");
  }

  /** The selection set's own brace is the last top-level one exactly when the head's braces balance. */
  lemma SelectionSetIsLast(head: string, inner: string)
    requires exists vs, b :: Sees(inner, vs, b)
    ensures var text := head + (" { " + inner + " }");
      OpensAt(text, |head| + 1) && (forall k :: k > |head| + 1 ==> !OpensAt(text, k)) <==> Balance(head) == 0
  {
    var text := head + (" { " + inner + " }");
    OpensAfterHead(head, " " + inner + " }");
    TextSplits(head, inner);
    if Balance(head) == 0 {
      ScanCounts(head);
      LastBrace(head, inner);
      ScanCounts(text);
    }
    hide OpensAt, Balance, Sees, ScanBraces;
  }

  lemma TextSplits(head: string, inner: string)
    ensures head + (" { " + inner + " }") == head + (" {" + (" " + inner + " }"))
  {
  }

  lemma OpensAfterHead(head: string, rest: string)
    ensures OpensAt(head + (" {" + rest), |head| + 1) <==> Balance(head) == 0
  {
    var text := head + (" {" + rest);
    assert text[|head| + 1] == '{' && text[..|head| + 1] == head + " ";
    BalanceAppends(head, " ");
    QuietBalance(" ");
    hide Balance;
  }
}
