/** The planner's two text scanners and the synthesised operation (plan/planner.rs). */
module Scanners {
  import opened Common
  import opened Ast
  import opened Render

  // ---- strip_selection_set ------------------------------------------------------

  /** Brace depth, and the index of the last opening brace seen at depth zero. */
  datatype Scan = Scan(depth: int, start: Option<nat>)

  function ScanStep(c: char, i: nat, st: Scan): Scan {
    if c == '{' then Scan(st.depth + 1, if st.depth == 0 then Some(i) else st.start)
    else if c == '}' then Scan(st.depth - 1, st.start)
    else st
  }

  /** The scan of `text`, which stands at index `i` of the whole. */
  function ScanBraces(text: string, i: nat, st: Scan): (r: Scan)
    ensures (st.start.Some? ==> st.start.value < i) && r.start.Some? ==> r.start.value < i + |text|
    ensures st.start.Some? ==> r.start.Some?
  {
    if text == [] then st else ScanBraces(text[1..], i + 1, ScanStep(text[0], i, st))
  }

  predicate IsSpace(c: char) { c in " \t\n\r" || c == '\U{000B}' || c == '\U{000C}' }

  function TrimEnd(s: string): (r: string)
    ensures r <= s
    ensures r != [] ==> !IsSpace(r[|r| - 1])
    ensures forall i :: |r| <= i < |s| ==> IsSpace(s[i])
  {
    if s != [] && IsSpace(s[|s| - 1]) then TrimEnd(s[..|s| - 1]) else s
  }

  /** The text before the last top-level opening brace, or the whole text if there is none. */
  function Stripped(text: string): string {
    match ScanBraces(text, 0, Scan(0, None)).start
    case Some(i) => TrimEnd(text[..i])
    case None => text
  }

  lemma {:induction false} ScanExtends(text: string, c: char, i: nat, st: Scan)
    ensures ScanBraces(text + [c], i, st) == ScanStep(c, i + |text|, ScanBraces(text, i, st))
  {
    if text == [] {
      assert text + [c] == [c];
    } else {
      assert (text + [c])[1..] == text[1..] + [c];
      ScanExtends(text[1..], c, i + 1, ScanStep(text[0], i, st));
    }
  }

  method StripSelectionSet(text: string) returns (r: string)
    ensures r == Stripped(text)
  {
    var depth := 0;
    var start: Option<nat> := None;
    for i := 0 to |text|
      invariant Scan(depth, start) == ScanBraces(text[..i], 0, Scan(0, None))
      invariant start.Some? ==> start.value < i
    {
      ScanExtends(text[..i], text[i], 0, Scan(0, None));
      assert text[..i] + [text[i]] == text[..i + 1];
      if text[i] == '{' {
        if depth == 0 {
          start := Some(i);
        }
        depth := depth + 1;
      } else if text[i] == '}' {
        depth := depth - 1;
      }
    }
    assert text[..|text|] == text;
    match start {
      case Some(s) => r := TrimEnd(text[..s]);
      case None => r := text;
    }
  }

  // ---- collect_variable_uses_in_str ---------------------------------------------

  function NameLength(s: string): (n: nat)
    ensures n <= |s|
    ensures forall i :: 0 <= i < n ==> IsNameContinue(s[i])
    ensures n < |s| ==> !IsNameContinue(s[n])
  {
    if s == [] || !IsNameContinue(s[0]) then 0 else 1 + NameLength(s[1..])
  }

  /** Every `$` followed by at least one name character introduces a variable. */
  function VariablesIn(text: string): set<string>
    decreases |text|
  {
    if text == [] then {}
    else if text[0] == '$' then
      var n := NameLength(text[1..]);
      (if n > 0 then {text[1..][..n]} else {}) + VariablesIn(text[1..][n..])
    else VariablesIn(text[1..])
  }

  lemma NameLengthUnique(s: string, n: nat)
    requires n <= |s| && forall i :: 0 <= i < n ==> IsNameContinue(s[i])
    requires n < |s| ==> !IsNameContinue(s[n])
    ensures NameLength(s) == n
  {
    var m := NameLength(s);
    assert m < |s| ==> !IsNameContinue(s[m]);
  }

  /** A `$` at `i`, and the name characters after it up to `j`. */
  lemma OneVariable(text: string, i: nat, j: nat)
    requires i < j <= |text| && text[i] == '$'
    requires (forall k :: i + 1 <= k < j ==> IsNameContinue(text[k])) && (j < |text| ==> !IsNameContinue(text[j]))
    ensures VariablesIn(text[i..]) == (if j > i + 1 then {text[i + 1..j]} else {}) + VariablesIn(text[j..])
  {
    var rest := text[i + 1..];
    assert text[i..][1..] == rest;
    NameLengthUnique(rest, j - (i + 1));
    assert rest[j - (i + 1)..] == text[j..] && rest[..j - (i + 1)] == text[i + 1..j];
  }

  method CollectVariableUses(text: string) returns (out: set<string>)
    ensures out == VariablesIn(text)
  {
    out := {};
    var i := 0;
    assert text[0..] == text;
    while i < |text|
      invariant i <= |text|
      invariant out + VariablesIn(text[i..]) == VariablesIn(text)
    {
      assert text[i] != '$' ==> text[i..][1..] == text[i + 1..];
      if text[i] == '$' {
        var j := i + 1;
        while j < |text| && IsNameContinue(text[j])
          invariant i + 1 <= j <= |text|
          invariant forall k :: i + 1 <= k < j ==> IsNameContinue(text[k])
        {
          j := j + 1;
        }
        OneVariable(text, i, j);
        if j > i + 1 {
          out := out + {text[i + 1..j]};
        }
        i := j;
      } else {
        i := i + 1;
      }
    }
  }

  // ---- variables of a tree -------------------------------------------------------

  function ValueVariables(v: Value): set<string> {
    match v
    case Variable(n) => {n}
    case ListLit(items) => ValuesVariables(items)
    case ObjectLit(entries) => ArgumentsVariables(entries)
    case _ => {}
  }

  function ValuesVariables(items: seq<Value>): set<string> {
    if items == [] then {} else ValueVariables(items[0]) + ValuesVariables(items[1..])
  }

  function ArgumentsVariables(args: seq<Argument>): set<string> {
    if args == [] then {} else ValueVariables(args[0].value) + ArgumentsVariables(args[1..])
  }

  function FieldVariables(f: Field): set<string> {
    ArgumentsVariables(f.arguments) + SelectionsVariables(f.selections)
  }

  function SelectionVariables(s: Selection): set<string> {
    match s
    case FieldSel(f) => FieldVariables(f)
    case FragmentSpread(_, _) => {}
    case InlineFragment(_, _, body) => SelectionsVariables(body)
  }

  function SelectionsVariables(sels: seq<Selection>): set<string> {
    if sels == [] then {} else SelectionVariables(sels[0]) + SelectionsVariables(sels[1..])
  }

  function DeclaredNames(ds: seq<VariableDefinition>): set<string> {
    if ds == [] then {} else {ds[0].name} + DeclaredNames(ds[1..])
  }

  // ---- synthesize_root_operation --------------------------------------------------

  function KeptVariables(ds: seq<VariableDefinition>, used: set<string>): (r: seq<VariableDefinition>)
    ensures forall d :: d in r <==> d in ds && d.name in used
  {
    if ds == [] then []
    else (if ds[0].name in used then [ds[0]] else []) + KeptVariables(ds[1..], used)
  }

  /** The initial operation: the root field's head with `initialText` for its selection set. */
  function SynthesizeRootOperation(kind: OperationType, ds: seq<VariableDefinition>, f: Field,
                                   initialText: string): string {
    var withInitial := Stripped(RenderField(f)) + " " + initialText;
    Keyword(kind) + RenderVariableList(KeptVariables(ds, VariablesIn(withInitial))) + " { " + withInitial + " }"
  }
}
