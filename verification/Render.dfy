/** The planner's printers: syntax tree to GraphQL text (plan/planner.rs). */
module Render {
  import opened Ast

  function RenderSelections(sels: seq<Selection>): string {
    if sels == [] then ""
    else if |sels| == 1 then RenderSelection(sels[0])
    else RenderSelection(sels[0]) + " " + RenderSelections(sels[1..])
  }

  function RenderSelection(s: Selection): string {
    match s
    case FieldSel(f) => RenderField(f)
    case FragmentSpread(n, _) => "..." + n
    case InlineFragment(c, _, body) =>
      var cond := match c case Some(t) => "... on " + t + " " case None => "";
      cond + "{ " + RenderSelections(body) + " }"
  }

  function RenderField(f: Field): string {
    var body := if f.selections == [] then "" else " { " + RenderSelections(f.selections) + " }";
    RenderHead(f) + body
  }

  /** Alias, name and arguments: the part of a field that precedes its selection set. */
  function RenderHead(f: Field): string {
    var alias := match f.alias case Some(a) => a + ": " case None => "";
    alias + f.name + RenderArguments(f.arguments)
  }

  function RenderArguments(args: seq<Argument>): string {
    if args == [] then "" else "(" + RenderEntries(args) + ")"
  }

  function RenderEntries(args: seq<Argument>): string {
    if args == [] then ""
    else
      var first := args[0].name + ": " + RenderValue(args[0].value);
      if |args| == 1 then first else first + ", " + RenderEntries(args[1..])
  }

  function RenderValues(items: seq<Value>): string {
    if items == [] then ""
    else if |items| == 1 then RenderValue(items[0])
    else RenderValue(items[0]) + ", " + RenderValues(items[1..])
  }

  function RenderValue(v: Value): string {
    match v
    case Variable(n) => "$" + n
    case IntLit(t) => t
    case FloatLit(t) => t
    case StringLit(t) => "\"" + EscapeQuotes(t) + "\""
    case BoolLit(b) => if b then "true" else "false"
    case NullLit => "null"
    case EnumLit(n) => n
    case ListLit(items) => "[" + RenderValues(items) + "]"
    case ObjectLit(entries) => "{" + RenderEntries(entries) + "}"
  }

  function EscapeQuotes(s: string): string {
    if s == [] then [] else (if s[0] == '"' then "\\\"" else [s[0]]) + EscapeQuotes(s[1..])
  }

  /** The braces-wrapped selection set that a field without a known entity type is fetched with. */
  function SelectionSetText(f: Field): string {
    if f.selections == [] then "" else "{ " + RenderSelections(f.selections) + " }"
  }

  function RenderType(t: Ty): string {
    match t
    case Named(n) => n
    case ListOf(item) => "[" + RenderType(item) + "]"
    case NonNull(inner) => RenderType(inner) + "!"
  }

  function RenderVariable(d: VariableDefinition): string {
    var default := match d.defaultValue case Some(v) => " = " + RenderValue(v) case None => "";
    "$" + d.name + ": " + RenderType(d.ty) + default
  }

  function RenderVariables(ds: seq<VariableDefinition>): string {
    if ds == [] then ""
    else if |ds| == 1 then RenderVariable(ds[0])
    else RenderVariable(ds[0]) + ", " + RenderVariables(ds[1..])
  }

  function RenderVariableList(ds: seq<VariableDefinition>): string {
    if ds == [] then "" else "(" + RenderVariables(ds) + ")"
  }

  function Keyword(t: OperationType): string {
    match t case Query => "query" case Mutation => "mutation" case Subscription => "subscription"
  }

  /** The text of an operation with one root field, as the planner and the executor write it. */
  function RenderOperation(kind: OperationType, ds: seq<VariableDefinition>, f: Field): string {
    Keyword(kind) + RenderVariableList(ds) + " { " + RenderField(f) + " }"
  }
}
