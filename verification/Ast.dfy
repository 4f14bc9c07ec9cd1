/** The executable GraphQL syntax tree that the router receives from its parser. */
module Ast {
  import opened Common

  datatype Argument = Argument(name: string, value: Value)

  /** `IntLit` and `FloatLit` keep the source text of the number, as the router's parser does. */
  datatype Value =
    | Variable(name: string)
    | IntLit(text: string)
    | FloatLit(text: string)
    | StringLit(text: string)
    | BoolLit(b: bool)
    | NullLit
    | EnumLit(name: string)
    | ListLit(items: seq<Value>)
    | ObjectLit(entries: seq<Argument>)

  datatype Directive = Directive(name: string, arguments: seq<Argument>)

  /** An empty `selections` means that the field has no selection set. */
  datatype Field = Field(
    alias: Option<string>,
    name: string,
    arguments: seq<Argument>,
    directives: seq<Directive>,
    selections: seq<Selection>)

  datatype Selection =
    | FieldSel(field: Field)
    | FragmentSpread(fragment: string, spreadDirectives: seq<Directive>)
    | InlineFragment(condition: Option<string>, inlineDirectives: seq<Directive>, body: seq<Selection>)

  datatype Ty = Named(name: string) | ListOf(item: Ty) | NonNull(inner: Ty)

  datatype VariableDefinition = VariableDefinition(name: string, ty: Ty, defaultValue: Option<Value>)

  datatype OperationType = Query | Mutation | Subscription

  datatype Operation = Operation(
    operationType: OperationType,
    name: Option<string>,
    variables: seq<VariableDefinition>,
    selections: seq<Selection>)

  datatype Definition = OperationDefinition(op: Operation) | OtherDefinition

  datatype Document = Document(definitions: seq<Definition>)

  /** The key under which a field's value appears in the response. */
  function ResponseKey(f: Field): string {
    match f.alias
    case Some(a) => a
    case None => f.name
  }

  // ---- characters --------------------------------------------------------

  predicate IsDigit(c: char) { '0' <= c <= '9' }

  predicate IsNameStart(c: char) { 'a' <= c <= 'z' || 'A' <= c <= 'Z' || c == '_' }

  predicate IsNameContinue(c: char) { IsNameStart(c) || IsDigit(c) }

  /** A Name token, section 2.1.9 of the GraphQL October 2021 specification. */
  predicate IsName(s: string) {
    s != [] && IsNameStart(s[0]) && forall i :: 0 <= i < |s| ==> IsNameContinue(s[i])
  }

  predicate IsLineTerminator(c: char) { c == '\n' || c == '\r' }

  /** What a document may hold, section 2.1.1. */
  predicate IsSourceCharacter(c: char) { c == '\t' || IsLineTerminator(c) || ' ' <= c <= '\U{FFFF}' }

  // ---- numbers, sections 2.9.1 and 2.9.2 of the specification -------------

  function DigitRun(s: string): (n: nat)
    ensures n <= |s|
    ensures forall i :: 0 <= i < n ==> IsDigit(s[i])
    ensures n < |s| ==> !IsDigit(s[n])
  {
    if s == [] || !IsDigit(s[0]) then 0 else 1 + DigitRun(s[1..])
  }

  /** Length of the integer part at the front of `s`, if there is one. */
  function IntegerPart(s: string): (r: Option<nat>)
    ensures r.Some? ==> 0 < r.value <= |s|
  {
    var sign := if s != [] && s[0] == '-' then 1 else 0;
    var n := DigitRun(s[sign..]);
    if n == 0 || (n > 1 && s[sign] == '0') then None else Some(sign + n)
  }

  function FractionPart(s: string): (r: Option<nat>)
    ensures r.Some? ==> r.value <= |s|
  {
    if s == [] || s[0] != '.' then Some(0)
    else
      var n := DigitRun(s[1..]);
      if n == 0 then None else Some(1 + n)
  }

  function ExponentPart(s: string): (r: Option<nat>)
    ensures r.Some? ==> r.value <= |s|
  {
    if s == [] || s[0] !in "eE" then Some(0)
    else
      var sign := if |s| > 1 && s[1] in "+-" then 2 else 1;
      var n := DigitRun(s[sign..]);
      if n == 0 then None else Some(sign + n)
  }

  datatype Number = Number(end: nat, isFloat: bool)

  /** The number token at the front of `s`; it may not run into a name, a digit or a dot. */
  function ScanNumber(s: string): (r: Option<Number>)
    ensures r.Some? ==> 0 < r.value.end <= |s|
  {
    match IntegerPart(s)
    case None => None
    case Some(i) =>
      match FractionPart(s[i..])
      case None => None
      case Some(f) =>
        match ExponentPart(s[i + f..])
        case None => None
        case Some(e) =>
          var end := i + f + e;
          if end < |s| && (IsNameContinue(s[end]) || s[end] == '.') then None
          else Some(Number(end, f + e > 0))
  }

  predicate IsIntText(s: string) { ScanNumber(s) == Some(Number(|s|, false)) }

  predicate IsFloatText(s: string) { ScanNumber(s) == Some(Number(|s|, true)) }

  // ---- well-formed trees ---------------------------------------------------

  /** String contents that need no escape other than the one for a quote, section 2.9.4. */
  predicate PlainString(s: string) {
    forall i :: 0 <= i < |s| ==> s[i] != '\\' && !IsLineTerminator(s[i]) && IsSourceCharacter(s[i])
  }

  predicate WellFormedArguments(args: seq<Argument>) {
    forall i :: 0 <= i < |args| ==> IsName(args[i].name) && WellFormedValue(args[i].value)
  }

  /** What every parsed value satisfies, plus `PlainString` for its strings. */
  predicate WellFormedValue(v: Value) {
    match v
    case Variable(n) => IsName(n)
    case IntLit(t) => IsIntText(t)
    case FloatLit(t) => IsFloatText(t)
    case StringLit(t) => PlainString(t)
    case EnumLit(n) => IsName(n) && n !in {"true", "false", "null"}
    case ListLit(items) => forall i :: 0 <= i < |items| ==> WellFormedValue(items[i])
    case ObjectLit(entries) => WellFormedArguments(entries)
    case _ => true
  }

  predicate WellFormedField(f: Field) {
    && (f.alias.Some? ==> IsName(f.alias.value))
    && IsName(f.name)
    && WellFormedArguments(f.arguments)
    && WellFormedSelections(f.selections)
  }

  predicate WellFormedSelections(sels: seq<Selection>) {
    forall i :: 0 <= i < |sels| ==> WellFormedSelection(sels[i])
  }

  /** Inline fragments have a type condition and a body; no fragment is called `on`. */
  predicate WellFormedSelection(s: Selection) {
    match s
    case FieldSel(f) => WellFormedField(f)
    case FragmentSpread(n, _) => IsName(n) && n != "on"
    case InlineFragment(c, _, body) => c.Some? && IsName(c.value) && body != [] && WellFormedSelections(body)
  }

  predicate WellFormedType(t: Ty) {
    match t
    case Named(n) => IsName(n)
    case ListOf(item) => WellFormedType(item)
    case NonNull(inner) => !inner.NonNull? && WellFormedType(inner)
  }

  predicate WellFormedVariable(d: VariableDefinition) {
    && IsName(d.name)
    && WellFormedType(d.ty)
    && (d.defaultValue.Some? ==> WellFormedValue(d.defaultValue.value))
  }

  predicate WellFormedVariables(ds: seq<VariableDefinition>) {
    forall i :: 0 <= i < |ds| ==> WellFormedVariable(ds[i])
  }

  // ---- directives ----------------------------------------------------------

  function EraseField(f: Field): Field {
    f.(directives := [], selections := EraseSelections(f.selections))
  }

  function EraseSelection(s: Selection): Selection {
    match s
    case FieldSel(f) => FieldSel(EraseField(f))
    case FragmentSpread(n, _) => FragmentSpread(n, [])
    case InlineFragment(c, _, body) => InlineFragment(c, [], EraseSelections(body))
  }

  function EraseSelections(sels: seq<Selection>): (r: seq<Selection>)
    ensures |r| == |sels|
  {
    if sels == [] then [] else [EraseSelection(sels[0])] + EraseSelections(sels[1..])
  }

  /** No directive anywhere in the field or below it. */
  predicate DirectiveFree(f: Field) {
    f.directives == [] && forall i :: 0 <= i < |f.selections| ==> DirectiveFreeSelection(f.selections[i])
  }

  predicate DirectiveFreeSelection(s: Selection) {
    match s
    case FieldSel(f) => DirectiveFree(f)
    case FragmentSpread(_, ds) => ds == []
    case InlineFragment(_, ds, body) =>
      ds == [] && forall i :: 0 <= i < |body| ==> DirectiveFreeSelection(body[i])
  }

  // ---- fragment spreads ------------------------------------------------------

  /** No fragment spread anywhere in the selections or below them. */
  predicate SpreadFree(sels: seq<Selection>) {
    forall i :: 0 <= i < |sels| ==> SpreadFreeSelection(sels[i])
  }

  predicate SpreadFreeSelection(s: Selection) {
    match s
    case FieldSel(f) => SpreadFree(f.selections)
    case FragmentSpread(_, _) => false
    case InlineFragment(_, _, body) => SpreadFree(body)
  }
}
