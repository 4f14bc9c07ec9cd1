/** The text scanners agree with the syntax tree, so the synthesised operation is the printed tree. */
module Synthesis {
  import opened Common
  import opened Ast
  import opened Render
  import opened Scanners

  /** Free of the characters that the scanners react to. */
  predicate Quiet(s: string) { forall i :: 0 <= i < |s| ==> s[i] !in "{}$" }

  predicate QuietValue(v: Value) {
    match v
    case StringLit(t) => Quiet(t)
    case ListLit(items) => forall i :: 0 <= i < |items| ==> QuietValue(items[i])
    case ObjectLit(entries) => QuietArguments(entries)
    case _ => true
  }

  predicate QuietArguments(args: seq<Argument>) {
    forall i :: 0 <= i < |args| ==> QuietValue(args[i].value)
  }

  /** No string literal in the field holds a brace or a dollar sign. */
  predicate QuietField(f: Field) { QuietArguments(f.arguments) && QuietSelections(f.selections) }

  predicate QuietSelections(sels: seq<Selection>) {
    forall i :: 0 <= i < |sels| ==> QuietSelection(sels[i])
  }

  predicate QuietSelection(s: Selection) {
    match s
    case FieldSel(f) => QuietField(f)
    case FragmentSpread(_, _) => true
    case InlineFragment(_, _, body) => QuietSelections(body)
  }

  predicate HasObject(v: Value) {
    match v
    case ListLit(items) => exists i :: 0 <= i < |items| && HasObject(items[i])
    case ObjectLit(_) => true
    case _ => false
  }

  predicate HasObjectArgument(args: seq<Argument>) {
    exists i :: 0 <= i < |args| && HasObject(args[i].value)
  }

  // ---- what the scanners see in a piece of text -----------------------------------

  /**
   * Braces in `t` are balanced, so an enclosing depth and start survive it; at depth zero it
   * sets a start exactly when `braced`; and the variables in it are `vs`.
   */
  ghost predicate Sees(t: string, vs: set<string>, braced: bool) {
    && VariablesIn(t) == vs
    && forall i: nat, st: Scan :: st.depth >= 0 ==>
         var r := ScanBraces(t, i, st);
         && r.depth == st.depth
         && (st.depth > 0 ==> r == st)
         && (st.depth == 0 ==> (r.start.Some? <==> st.start.Some? || braced))
  }

  predicate Separate(t: string) { t == [] || !IsNameContinue(t[0]) }

  lemma {:induction false} ScanAppend(a: string, b: string, i: nat, st: Scan)
    ensures ScanBraces(a + b, i, st) == ScanBraces(b, i + |a|, ScanBraces(a, i, st))
  {
    if a == [] {
      assert a + b == b;
    } else {
      assert (a + b)[1..] == a[1..] + b;
      ScanAppend(a[1..], b, i + 1, ScanStep(a[0], i, st));
    }
  }

  lemma NameLengthAppend(a: string, b: string)
    requires Separate(b)
    ensures var n := NameLength(a);
      NameLength(a + b) == n && (a + b)[..n] == a[..n] && (a + b)[n..] == a[n..] + b
  {
    NameLengthUnique(a + b, NameLength(a));
  }

  lemma {:induction false} VariablesAppend(a: string, b: string)
    requires Separate(b)
    ensures VariablesIn(a + b) == VariablesIn(a) + VariablesIn(b)
    decreases |a|
  {
    if a == [] {
      assert a + b == b;
    } else if a[0] == '$' {
      var n, t := NameLength(a[1..]), a[1..] + b;
      assert (a + b)[1..] == t;
      NameLengthAppend(a[1..], b);
      hide NameLength, IsNameContinue;
      VariablesAppend(a[1..][n..], b);
    } else {
      assert (a + b)[1..] == a[1..] + b;
      VariablesAppend(a[1..], b);
    }
  }

  lemma SeesAppend(a: string, va: set<string>, ba: bool, b: string, vb: set<string>, bb: bool)
    requires Sees(a, va, ba) && Sees(b, vb, bb) && Separate(b)
    ensures Sees(a + b, va + vb, ba || bb)
  {
    VariablesAppend(a, b);
    hide VariablesIn, ScanBraces;
    forall i: nat, st: Scan | st.depth >= 0
      ensures var r := ScanBraces(a + b, i, st);
        && r.depth == st.depth && (st.depth > 0 ==> r == st)
        && (st.depth == 0 ==> (r.start.Some? <==> st.start.Some? || ba || bb))
    {
      ScanAppend(a, b, i, st);
    }
  }

  lemma {:induction false} QuietSees(t: string)
    requires Quiet(t)
    ensures Sees(t, {}, false)
  {
    forall i: nat, st: Scan
      ensures ScanBraces(t, i, st) == st
    {
      QuietScan(t, i, st);
    }
    QuietVariables(t);
  }

  lemma {:induction false} QuietScan(t: string, i: nat, st: Scan)
    requires Quiet(t)
    ensures ScanBraces(t, i, st) == st
  {
    if t != [] {
      QuietScan(t[1..], i + 1, st);
    }
  }

  lemma {:induction false} QuietVariables(t: string)
    requires '$' !in t
    ensures VariablesIn(t) == {}
  {
    if t != [] {
      QuietVariables(t[1..]);
    }
  }

  /** A text in braces; it must not run into a name, as `{` and `}` never do. */
  lemma SeesBraces(t: string, vs: set<string>, braced: bool)
    requires Sees(t, vs, braced)
    ensures Sees("{" + t + "}", vs, true)
  {
    VariablesAppend("{" + t, "}");
    assert ("{" + t)[1..] == t;
    assert VariablesIn("}") == {};
    forall i: nat, st: Scan | st.depth >= 0
      ensures var r := ScanBraces("{" + t + "}", i, st);
        r.depth == st.depth && (st.depth > 0 ==> r == st) && (st.depth == 0 ==> r.start.Some?)
    {
      ScanAppend("{" + t, "}", i, st);
      var st' := ScanStep('{', i, st);
      assert ScanBraces("{" + t, i, st) == ScanBraces(t, i + 1, st') == st';
      assert ScanBraces("}", i + |t| + 1, st') == ScanStep('}', i + |t| + 1, st');
    }
  }

  lemma SeesDollar(n: string)
    requires IsName(n)
    ensures Sees("$" + n, {n}, false)
  {
    var t := "$" + n;
    assert t[1..] == n;
    NameLengthUnique(n, |n|);
    assert n[..|n|] == n;
    assert VariablesIn(t) == {n};
    forall i: nat, st: Scan
      ensures ScanBraces(t, i, st) == st
    {
      QuietScan(n, i + 1, st);
    }
  }

  lemma QuietNumber(s: string)
    requires ScanNumber(s).Some? && ScanNumber(s).value.end == |s|
    ensures Quiet(s)
  {
    hide Quiet, IntegerPart, FractionPart, ExponentPart;
    var i := IntegerPart(s).value;
    var f := FractionPart(s[i..]).value;
    var e := ExponentPart(s[i + f..]).value;
    QuietInteger(s);
    QuietFraction(s[i..]);
    QuietExponent(s[i + f..]);
    QuietAppend(s[..i], s[i..][..f]);
    QuietAppend(s[..i] + s[i..][..f], s[i + f..][..e]);
    assert s == s[..i] + s[i..][..f] + s[i + f..][..e];
  }

  lemma QuietAppend(a: string, b: string)
    requires Quiet(a) && Quiet(b)
    ensures Quiet(a + b)
  {
  }

  lemma QuietInteger(s: string)
    requires IntegerPart(s).Some?
    ensures Quiet(s[..IntegerPart(s).value])
  {
    var sign := if s[0] == '-' then 1 else 0;
    forall k | 0 <= k < IntegerPart(s).value ensures s[k] !in "{}$" {
      assert k >= sign ==> s[k] == s[sign..][k - sign];
    }
  }

  lemma QuietFraction(s: string)
    requires FractionPart(s).Some?
    ensures Quiet(s[..FractionPart(s).value])
  {
    forall k | 0 <= k < FractionPart(s).value ensures s[k] !in "{}$" {
      assert k >= 1 ==> s[k] == s[1..][k - 1];
    }
  }

  lemma QuietExponent(s: string)
    requires ExponentPart(s).Some?
    ensures Quiet(s[..ExponentPart(s).value])
  {
    var sign := if |s| > 1 && s[1] in "+-" then 2 else 1;
    forall k | 0 <= k < ExponentPart(s).value ensures s[k] !in "{}$" {
      assert k >= sign ==> s[k] == s[sign..][k - sign];
    }
  }

  lemma {:induction false} QuietEscape(s: string)
    requires Quiet(s)
    ensures Quiet(EscapeQuotes(s))
  {
    if s != [] {
      QuietEscape(s[1..]);
    }
  }

  lemma SeesPrefix(a: string, b: string, vs: set<string>, braced: bool)
    requires Quiet(a) && Sees(b, vs, braced)
    ensures Sees(a + b, vs, braced)
  {
    QuietPrefixVariables(a, b);
    forall i: nat, st: Scan
      ensures ScanBraces(a + b, i, st) == ScanBraces(b, i + |a|, st)
    {
      ScanAppend(a, b, i, st);
      QuietScan(a, i, st);
    }
  }

  lemma SeesSuffix(a: string, vs: set<string>, braced: bool, b: string)
    requires Quiet(b) && Separate(b) && Sees(a, vs, braced)
    ensures Sees(a + b, vs, braced)
  {
    hide Sees;
    QuietSees(b);
    SeesAppend(a, vs, braced, b, {}, false);
    assert vs + {} == vs;
  }

  lemma {:induction false} QuietPrefixVariables(a: string, b: string)
    requires '$' !in a
    ensures VariablesIn(a + b) == VariablesIn(b)
  {
    if a == [] {
      assert a + b == b;
    } else {
      assert (a + b)[1..] == a[1..] + b;
      QuietPrefixVariables(a[1..], b);
    }
  }

  // ---- what the scanners see in a printed tree --------------------------------------

  lemma {:induction false} SeesValue(v: Value)
    requires WellFormedValue(v) && QuietValue(v)
    ensures Sees(RenderValue(v), ValueVariables(v), HasObject(v))
    decreases v
  {
    hide Sees, ScanNumber, IsName, PlainString;
    match v
    case Variable(n) => SeesDollar(n);
    case IntLit(t) => QuietNumber(t); QuietSees(t);
    case FloatLit(t) => QuietNumber(t); QuietSees(t);
    case StringLit(t) =>
      QuietEscape(t);
      QuietSees("\"" + EscapeQuotes(t) + "\"");
    case BoolLit(_) => QuietSees(RenderValue(v));
    case NullLit => QuietSees("null");
    case EnumLit(n) => QuietName(n); QuietSees(n);
    case ListLit(items) =>
      SeesValues(items);
      var braced := exists i :: 0 <= i < |items| && HasObject(items[i]);
      SeesPrefix("[", RenderValues(items), ValuesVariables(items), braced);
      SeesSuffix("[" + RenderValues(items), ValuesVariables(items), braced, "]");
    case ObjectLit(entries) =>
      SeesEntries(entries);
      SeesBraces(RenderEntries(entries), ArgumentsVariables(entries), HasObjectArgument(entries));
  }

  lemma QuietName(n: string)
    requires IsName(n)
    ensures Quiet(n)
  {
  }

  lemma {:induction false} SeesValues(items: seq<Value>)
    requires forall i :: 0 <= i < |items| ==> WellFormedValue(items[i]) && QuietValue(items[i])
    ensures Sees(RenderValues(items), ValuesVariables(items), exists i :: 0 <= i < |items| && HasObject(items[i]))
    decreases items
  {
    hide Sees, WellFormedValue, QuietValue, HasObject, RenderValue, ValueVariables;
    if items == [] {
      QuietSees("");
    } else {
      var braced := exists i :: 0 <= i < |items[1..]| && HasObject(items[1..][i]);
      assert (exists i :: 0 <= i < |items| && HasObject(items[i])) <==> HasObject(items[0]) || braced by {
        assert forall i :: 1 <= i < |items| ==> items[i] == items[1..][i - 1];
      }
      SeesValue(items[0]);
      SeesValues(items[1..]);
      SeesPrefix(", ", RenderValues(items[1..]), ValuesVariables(items[1..]), braced);
      SeesAppend(RenderValue(items[0]), ValueVariables(items[0]), HasObject(items[0]),
                 ", " + RenderValues(items[1..]), ValuesVariables(items[1..]), braced);
      assert RenderValue(items[0]) + ", " + RenderValues(items[1..])
          == RenderValue(items[0]) + (", " + RenderValues(items[1..]));
      if |items| == 1 {
        assert ValuesVariables(items) == ValueVariables(items[0]);
      }
    }
  }

  lemma {:induction false} SeesEntries(args: seq<Argument>)
    requires WellFormedArguments(args) && QuietArguments(args)
    ensures Sees(RenderEntries(args), ArgumentsVariables(args), HasObjectArgument(args))
    decreases args
  {
    hide Sees, WellFormedValue, QuietValue, HasObject, RenderValue, ValueVariables, IsName;
    if args == [] {
      QuietSees("");
    } else {
      var v := args[0].value;
      var first := args[0].name + ": " + RenderValue(v);
      var braced := HasObjectArgument(args[1..]);
      assert HasObjectArgument(args) <==> HasObject(v) || braced by {
        assert forall i :: 1 <= i < |args| ==> args[i] == args[1..][i - 1];
      }
      SeesValue(v);
      QuietName(args[0].name);
      SeesPrefix(args[0].name + ": ", RenderValue(v), ValueVariables(v), HasObject(v));
      SeesEntries(args[1..]);
      SeesPrefix(", ", RenderEntries(args[1..]), ArgumentsVariables(args[1..]), braced);
      SeesAppend(first, ValueVariables(v), HasObject(v),
                 ", " + RenderEntries(args[1..]), ArgumentsVariables(args[1..]), braced);
      assert first + ", " + RenderEntries(args[1..]) == first + (", " + RenderEntries(args[1..]));
      if |args| == 1 {
        assert ArgumentsVariables(args) == ValueVariables(v);
      }
    }
  }

  lemma SeesArguments(args: seq<Argument>)
    requires WellFormedArguments(args) && QuietArguments(args)
    ensures Sees(RenderArguments(args), ArgumentsVariables(args), HasObjectArgument(args))
  {
    hide Sees;
    if args == [] {
      QuietSees("");
    } else {
      SeesEntries(args);
      SeesPrefix("(", RenderEntries(args), ArgumentsVariables(args), HasObjectArgument(args));
      SeesSuffix("(" + RenderEntries(args), ArgumentsVariables(args), HasObjectArgument(args), ")");
    }
  }

  lemma SeesHead(f: Field)
    requires WellFormedField(f) && QuietField(f)
    ensures Sees(RenderHead(f), ArgumentsVariables(f.arguments), HasObjectArgument(f.arguments))
  {
    hide Sees, RenderArguments, HasObjectArgument, ArgumentsVariables;
    var alias := match f.alias case Some(a) => a + ": " case None => "";
    var args := RenderArguments(f.arguments);
    QuietName(f.name);
    assert Quiet(alias) by {
      if f.alias.Some? { QuietName(f.alias.value); }
    }
    SeesArguments(f.arguments);
    SeesPrefix(alias + f.name, args, ArgumentsVariables(f.arguments), HasObjectArgument(f.arguments));
  }

  lemma {:induction false} SeesField(f: Field)
    requires WellFormedField(f) && QuietField(f)
    ensures Sees(RenderField(f), FieldVariables(f), f.selections != [] || HasObjectArgument(f.arguments))
    decreases f
  {
    hide Sees, RenderHead, HasObjectArgument, ArgumentsVariables;
    SeesHead(f);
    var head, vs, braced := RenderHead(f), ArgumentsVariables(f.arguments), HasObjectArgument(f.arguments);
    if f.selections == [] {
      assert head + "" == head && FieldVariables(f) == vs;
    } else {
      SeesSelections(f.selections);
      SeesSelectionSet(f.selections);
      var inner := RenderSelections(f.selections);
      SeesPrefix(" ", "{ " + inner + " }", SelectionsVariables(f.selections), true);
      assert " " + ("{ " + inner + " }") == " { " + inner + " }";
      SeesAppend(head, vs, braced, " { " + inner + " }", SelectionsVariables(f.selections), true);
    }
  }

  lemma SeesSelectionSet(sels: seq<Selection>)
    requires exists braced :: Sees(RenderSelections(sels), SelectionsVariables(sels), braced)
    ensures Sees("{ " + RenderSelections(sels) + " }", SelectionsVariables(sels), true)
  {
    var inner, vs := RenderSelections(sels), SelectionsVariables(sels);
    var braced :| Sees(inner, vs, braced);
    hide Sees;
    SeesPrefix(" ", inner, vs, braced);
    SeesSuffix(" " + inner, vs, braced, " ");
    SeesBraces(" " + inner + " ", vs, braced);
    assert "{" + (" " + inner + " ") + "}" == "{ " + inner + " }";
  }

  lemma {:induction false} SeesSelection(s: Selection) returns (braced: bool)
    requires WellFormedSelection(s) && QuietSelection(s)
    ensures Sees(RenderSelection(s), SelectionVariables(s), braced)
    decreases s
  {
    hide Sees;
    match s
    case FieldSel(f) =>
      SeesField(f);
      braced := f.selections != [] || HasObjectArgument(f.arguments);
    case FragmentSpread(n, _) =>
      QuietName(n);
      QuietSees("..." + n);
      braced := false;
    case InlineFragment(c, _, body) =>
      SeesSelections(body);
      SeesSelectionSet(body);
      QuietName(c.value);
      SeesPrefix("... on " + c.value + " ", "{ " + RenderSelections(body) + " }", SelectionsVariables(body), true);
      assert RenderSelection(s) == "... on " + c.value + " " + ("{ " + RenderSelections(body) + " }");
      braced := true;
  }

  lemma {:induction false} SeesSelections(sels: seq<Selection>)
    requires WellFormedSelections(sels) && QuietSelections(sels)
    ensures exists braced :: Sees(RenderSelections(sels), SelectionsVariables(sels), braced)
    decreases sels
  {
    hide Sees, RenderSelection, SelectionVariables, WellFormedSelection, QuietSelection;
    if sels == [] {
      QuietSees("");
      assert Sees(RenderSelections(sels), SelectionsVariables(sels), false);
    } else {
      var b0 := SeesSelection(sels[0]);
      SeesSelections(sels[1..]);
      var tail, vs := RenderSelections(sels[1..]), SelectionsVariables(sels[1..]);
      var b1 :| Sees(tail, vs, b1);
      SeesPrefix(" ", tail, vs, b1);
      SeesAppend(RenderSelection(sels[0]), SelectionVariables(sels[0]), b0, " " + tail, vs, b1);
      assert RenderSelection(sels[0]) + " " + tail == RenderSelection(sels[0]) + (" " + tail);
      if |sels| == 1 {
        assert SelectionsVariables(sels) == SelectionVariables(sels[0]);
        assert Sees(RenderSelections(sels), SelectionsVariables(sels), b0);
      } else {
        assert Sees(RenderSelections(sels), SelectionsVariables(sels), b0 || b1);
      }
    }
  }

  // ---- main results -----------------------------------------------------------------

  /**
   * Stripping leaves exactly alias, name and arguments, however deeply object arguments nest,
   * unless the field has an object argument and no selection set: then it cuts the argument.
   */
  lemma StripLeavesTheHead(f: Field)
    requires WellFormedField(f) && QuietField(f)
    ensures Stripped(RenderField(f)) == RenderHead(f)
       <==> f.selections != [] || !HasObjectArgument(f.arguments)
  {
    hide Sees, RenderHead;
    var head := RenderHead(f);
    SeesHead(f);
    if f.selections != [] {
      var inner := RenderSelections(f.selections);
      SeesSelections(f.selections);
      SeesDepth(head, ArgumentsVariables(f.arguments), HasObjectArgument(f.arguments), 0, Scan(0, None));
      LastBrace(head, inner);
      assert RenderField(f) == head + (" { " + inner + " }");
      assert RenderField(f)[..|head| + 1] == head + " ";
      HeadEndsTight(f);
      assert (head + " ")[..|head|] == head;
    } else {
      assert RenderField(f) == head;
      SeesStart(head, ArgumentsVariables(f.arguments), HasObjectArgument(f.arguments));
    }
  }

  lemma LastBrace(head: string, inner: string)
    requires ScanBraces(head, 0, Scan(0, None)).depth == 0
    requires exists vs, b :: Sees(inner, vs, b)
    ensures ScanBraces(head + (" { " + inner + " }"), 0, Scan(0, None)).start == Some(|head| + 1)
  {
    hide Sees, ScanBraces;
    var n, st := |head|, ScanBraces(head, 0, Scan(0, None));
    PaddedScan(inner, n + 2, Scan(1, Some(n + 1)));
    BracedText(inner);
    var t := " { " + inner + " }";
    ScanAppend(head, t, 0, Scan(0, None));
    BracedScan(" " + inner + " ", n, st);
  }

  lemma PaddedScan(inner: string, i: nat, st: Scan)
    requires exists vs, b :: Sees(inner, vs, b)
    requires st.depth > 0
    ensures ScanBraces(" " + inner + " ", i, st) == st
  {
    hide Sees, ScanBraces;
    var vs, b :| Sees(inner, vs, b);
    SeesPrefix(" ", inner, vs, b);
    SeesSuffix(" " + inner, vs, b, " ");
    SeesDepth(" " + inner + " ", vs, b, i, st);
  }

  lemma BracedText(inner: string)
    ensures " { " + inner + " }" == " " + ("{" + (" " + inner + " " + "}"))
  {
  }

  lemma SeesStart(t: string, vs: set<string>, braced: bool)
    requires Sees(t, vs, braced)
    ensures Stripped(t) == t <==> !braced
  {
    var st := ScanBraces(t, 0, Scan(0, None));
    assert st.start.Some? <==> braced;
  }

  lemma SeesDepth(t: string, vs: set<string>, braced: bool, i: nat, st: Scan)
    requires Sees(t, vs, braced) && st.depth >= 0
    ensures ScanBraces(t, i, st).depth == st.depth
    ensures st.depth > 0 ==> ScanBraces(t, i, st) == st
  {
    hide ScanBraces;
  }

  lemma BracedScan(body: string, n: nat, st: Scan)
    requires st.depth == 0
    requires ScanBraces(body, n + 2, Scan(1, Some(n + 1))) == Scan(1, Some(n + 1))
    ensures ScanBraces(" " + ("{" + (body + "}")), n, st) == Scan(0, Some(n + 1))
  {
    hide ScanBraces;
    ScanCons(' ', "{" + (body + "}"), n, st);
    ScanCons('{', body + "}", n + 1, st);
    ScanAppend(body, "}", n + 2, Scan(1, Some(n + 1)));
    ScanCons('}', "", n + 2 + |body|, Scan(1, Some(n + 1)));
    ScanNothing(n + 3 + |body|, Scan(0, Some(n + 1)));
    assert "}" + "" == "}";
  }

  lemma ScanCons(c: char, t: string, i: nat, st: Scan)
    ensures ScanBraces([c] + t, i, st) == ScanBraces(t, i + 1, ScanStep(c, i, st))
  {
    assert ([c] + t)[1..] == t;
  }

  lemma ScanNothing(i: nat, st: Scan)
    ensures ScanBraces("", i, st) == st
  {
  }

  lemma HeadEndsTight(f: Field)
    requires WellFormedField(f)
    ensures TrimEnd(RenderHead(f) + " ") == RenderHead(f)
  {
    hide RenderEntries;
    var head := RenderHead(f);
    var last := head[|head| - 1];
    assert last == if f.arguments == [] then f.name[|f.name| - 1] else ')';
    assert (head + " ")[..|head|] == head;
    assert TrimEnd(head) == head;
  }

  /** The variables scanned from a field's text are exactly those in its tree. */
  lemma ScannedVariables(f: Field)
    requires WellFormedField(f) && QuietField(f)
    ensures VariablesIn(RenderField(f)) == FieldVariables(f)
  {
    SeesField(f);
  }

  /** Replacing the selection set in the text is the same as replacing it in the tree. */
  lemma SynthesizedOperation(kind: OperationType, ds: seq<VariableDefinition>, f: Field, sels: seq<Selection>)
    requires WellFormedField(f) && QuietField(f) && f.selections != []
    requires sels != [] && WellFormedSelections(sels) && QuietSelections(sels)
    ensures SynthesizeRootOperation(kind, ds, f, "{ " + RenderSelections(sels) + " }")
         == RenderOperation(kind, KeptVariables(ds, FieldVariables(f.(selections := sels))), f.(selections := sels))
  {
    hide Sees, RenderHead, VariablesIn, Stripped;
    var f' := f.(selections := sels);
    StripLeavesTheHead(f);
    ScannedVariables(f');
    SameHead(f, f');
    assert RenderField(f') == RenderHead(f) + " " + ("{ " + RenderSelections(sels) + " }");
  }

  /** A field that keeps its selection set is sent as it is printed; without one, an extra space follows. */
  lemma PassedThroughText(kind: OperationType, ds: seq<VariableDefinition>, f: Field)
    requires WellFormedField(f) && QuietField(f)
    requires f.selections != [] || !HasObjectArgument(f.arguments)
    ensures SynthesizeRootOperation(kind, ds, f, SelectionSetText(f))
         == Keyword(kind) + (RenderVariableList(KeptVariables(ds, FieldVariables(f)))
                             + (" { " + RenderField(f) + if f.selections == [] then "  }" else " }"))
  {
    hide Sees, RenderHead, VariablesIn, Stripped, RenderVariableList, FieldVariables, WellFormedField, QuietField;
    var head := RenderHead(f);
    StripLeavesTheHead(f);
    ScannedVariables(f);
    if f.selections == [] {
      assert RenderField(f) == head + "" == head;
      assert head + " " + "" == head + " ";
      QuietVariables(" ");
      VariablesAppend(head, " ");
      assert VariablesIn(head + " ") == FieldVariables(f);
      assert " { " + (head + " ") + " }" == " { " + head + "  }";
    } else {
      assert RenderField(f) == head + " " + SelectionSetText(f);
    }
  }

  lemma SameHead(f: Field, f': Field)
    requires f' == f.(selections := f'.selections)
    ensures RenderHead(f') == RenderHead(f)
  {
  }

  /** A default value is a constant: section 2.10 of the GraphQL specification has no variables in it. */
  predicate ConstantDefaults(ds: seq<VariableDefinition>) {
    forall i :: 0 <= i < |ds| && ds[i].defaultValue.Some? ==>
      QuietValue(ds[i].defaultValue.value) && ValueVariables(ds[i].defaultValue.value) == {}
  }

  lemma {:induction false} SeesType(t: Ty)
    requires WellFormedType(t)
    ensures Quiet(RenderType(t))
    decreases t
  {
    match t
    case Named(_) =>
    case ListOf(item) => SeesType(item);
    case NonNull(inner) => SeesType(inner);
  }

  lemma SeesVariable(d: VariableDefinition) returns (braced: bool)
    requires WellFormedVariable(d) && ConstantDefaults([d])
    ensures Sees(RenderVariable(d), {d.name}, braced)
  {
    hide Sees, RenderType, RenderValue, WellFormedValue, WellFormedType, QuietValue, IsName;
    assert ConstantDefaults([d]) && [d][0] == d;
    SeesDollar(d.name);
    SeesType(d.ty);
    var ty := ": " + RenderType(d.ty);
    match d.defaultValue
    case None =>
      QuietSees(ty);
      braced := false;
      SeesAppend("$" + d.name, {d.name}, false, ty, {}, false);
      assert RenderVariable(d) == "$" + d.name + ty;
      assert {d.name} + {} == {d.name};
    case Some(v) =>
      SeesValue(v);
      SeesPrefix(ty + " = ", RenderValue(v), {}, HasObject(v));
      braced := HasObject(v);
      SeesAppend("$" + d.name, {d.name}, false, ty + " = " + RenderValue(v), {}, braced);
      assert RenderVariable(d) == "$" + d.name + (ty + " = " + RenderValue(v));
      assert {d.name} + {} == {d.name};
  }

  lemma {:induction false} SeesVariables(ds: seq<VariableDefinition>)
    requires WellFormedVariables(ds) && ConstantDefaults(ds)
    ensures exists braced :: Sees(RenderVariables(ds), DeclaredNames(ds), braced)
  {
    hide Sees, RenderVariable, WellFormedVariable;
    if ds == [] {
      QuietSees("");
      assert Sees(RenderVariables(ds), DeclaredNames(ds), false);
    } else {
      assert ConstantDefaults([ds[0]]);
      var b0 := SeesVariable(ds[0]);
      SeesVariables(ds[1..]);
      var tail, vs := RenderVariables(ds[1..]), DeclaredNames(ds[1..]);
      var b1 :| Sees(tail, vs, b1);
      SeesPrefix(", ", tail, vs, b1);
      SeesAppend(RenderVariable(ds[0]), {ds[0].name}, b0, ", " + tail, vs, b1);
      assert RenderVariable(ds[0]) + ", " + tail == RenderVariable(ds[0]) + (", " + tail);
      if |ds| == 1 {
        assert DeclaredNames(ds) == {ds[0].name};
        assert Sees(RenderVariables(ds), DeclaredNames(ds), b0);
      } else {
        assert Sees(RenderVariables(ds), DeclaredNames(ds), b0 || b1);
      }
    }
  }

  lemma ClosedVariables(kind: OperationType, ds: seq<VariableDefinition>, f: Field, end: string)
    requires WellFormedField(f) && QuietField(f) && Separate(end) && '$' !in end
    requires WellFormedVariables(ds) && ConstantDefaults(ds)
    ensures VariablesIn(Keyword(kind) + (RenderVariableList(ds) + (" { " + RenderField(f) + end)))
         == DeclaredNames(ds) + FieldVariables(f)
  {
    hide RenderField, FieldVariables, WellFormedVariables, ConstantDefaults, HasObjectArgument, VariablesIn,
         DeclaredNames;
    var t, list := RenderField(f), RenderVariableList(ds);
    ScannedVariables(f);
    SeesVariableList(ds);
    QuietVariables(end);
    VariablesAppend(t, end);
    QuietPrefixVariables(" { ", t + end);
    assert " { " + t + end == " { " + (t + end);
    VariablesAppend(list, " { " + t + end);
    QuietPrefixVariables(Keyword(kind), list + (" { " + t + end));
  }

  /** The names scanned from the whole operation, which decide what is forwarded. */
  lemma OperationVariables(kind: OperationType, ds: seq<VariableDefinition>, f: Field)
    requires WellFormedField(f) && QuietField(f)
    requires WellFormedVariables(ds) && ConstantDefaults(ds)
    ensures VariablesIn(RenderOperation(kind, ds, f)) == DeclaredNames(ds) + FieldVariables(f)
  {
    hide RenderField, FieldVariables, WellFormedVariables, ConstantDefaults, VariablesIn, DeclaredNames,
         RenderVariableList;
    ClosedVariables(kind, ds, f, " }");
    assert RenderOperation(kind, ds, f) == Keyword(kind) + (RenderVariableList(ds) + (" { " + RenderField(f) + " }"));
  }

  lemma SeesVariableList(ds: seq<VariableDefinition>)
    requires WellFormedVariables(ds) && ConstantDefaults(ds)
    ensures VariablesIn(RenderVariableList(ds)) == DeclaredNames(ds)
  {
    if ds != [] {
      hide WellFormedVariables, ConstantDefaults, RenderVariables, VariablesIn;
      SeesVariables(ds);
      var t := RenderVariables(ds);
      QuietPrefixVariables("(", t);
      QuietVariables(")");
      VariablesAppend("(" + t, ")");
    }
  }
}
