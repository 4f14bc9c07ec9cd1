/**
 * Execution as in section 6 of the GraphQL October 2021 specification, for the operations that
 * the router sends: what a conforming subgraph answers, over an abstract graph of objects.
 */
module Evaluation {
  import opened Common
  import opened Ast
  import opened Responses
  import opened Reader
  import opened Scanners

  /** The result of a resolver: nothing, a scalar, a list, or an object. */
  datatype Resolved = Absent | Scalar(atom: Atom) | Many(items: seq<Resolved>) | Entity(id: int)

  /**
   * `resolve(subgraph, object, field, arguments)`; `applies(object, type)` says whether a type
   * condition holds.
   */
  datatype World = World(
    resolve: (string, int, string, map<string, Json>) -> Resolved,
    typename: int -> string,
    applies: (int, string) -> bool)

  const QUERY_ROOT: int := 0
  const MUTATION_ROOT: int := 1

  function Root(kind: OperationType): int { if kind.Mutation? then MUTATION_ROOT else QUERY_ROOT }

  // ---- argument values, section 6.4.1 ------------------------------------------------

  /** `None` is an undefined variable: its argument or input field is left out, a list entry is null. */
  function Constant(v: Value, vars: map<string, Json>): Option<Json> {
    match v
    case Variable(n) => if n in vars then Some(vars[n]) else None
    case IntLit(t) => Some(Leaf(Atom.Number(t)))
    case FloatLit(t) => Some(Leaf(Atom.Number(t)))
    case StringLit(t) => Some(Leaf(Text(t)))
    case BoolLit(b) => Some(Leaf(Bool(b)))
    case NullLit => Some(Null)
    case EnumLit(n) => Some(Leaf(Text(n)))
    case ListLit(items) => Some(Array(Constants(items, vars)))
    case ObjectLit(entries) => Some(Object(Arguments(entries, vars)))
  }

  function Constants(items: seq<Value>, vars: map<string, Json>): seq<Json> {
    if items == [] then [] else [Constant(items[0], vars).GetOr(Null)] + Constants(items[1..], vars)
  }

  function Arguments(args: seq<Argument>, vars: map<string, Json>): map<string, Json> {
    if args == [] then map[]
    else
      var rest := Arguments(args[1..], vars);
      match Constant(args[0].value, vars)
      case Some(v) => rest[args[0].name := v]
      case None => rest
  }

  /** Variable values, section 6.1.2: a provided value, or else the declared default. */
  function Coerce(ds: seq<VariableDefinition>, provided: map<string, Json>): map<string, Json> {
    if ds == [] then map[]
    else
      var rest, d := Coerce(ds[1..], provided), ds[0];
      if d.name in provided then rest[d.name := provided[d.name]]
      else
        match d.defaultValue
        case Some(v) => rest[d.name := Constant(v, map[]).GetOr(Null)]
        case None => rest
  }

  // ---- collecting fields, sections 6.3.2 and 6.4.3 ----------------------------------------

  /** The fields that a selection set gives an object, in order; fragments that apply are opened up. */
  function Collected(w: World, id: int, sels: seq<Selection>): seq<Field>
    decreases sels, 0
  {
    if sels == [] then [] else CollectedFrom(w, id, sels[0]) + Collected(w, id, sels[1..])
  }

  /** Fragment spreads do not come up: an operation that holds one is refused. */
  function CollectedFrom(w: World, id: int, s: Selection): seq<Field>
    decreases s
  {
    match s
    case FieldSel(f) => [f]
    case InlineFragment(c, _, body) => if c.None? || w.applies(id, c.value) then Collected(w, id, body) else []
    case FragmentSpread(_, _) => []
  }

  function ResponseKeys(fields: seq<Field>): set<string> { set f | f in fields :: ResponseKey(f) }

  /** The fields that are to be answered under one response key. */
  function Under(fields: seq<Field>, key: string): seq<Field> {
    if fields == [] then []
    else (if ResponseKey(fields[0]) == key then [fields[0]] else []) + Under(fields[1..], key)
  }

  function MergedSelections(fields: seq<Field>): seq<Selection> {
    if fields == [] then [] else fields[0].selections + MergedSelections(fields[1..])
  }

  /** Fields under one response key are executed as the first of them with all their selection sets. */
  function Joined(group: seq<Field>): Field
    requires group != []
  {
    group[0].(selections := MergedSelections(group))
  }

  function Size(sels: seq<Selection>): nat
    decreases sels, 0
  {
    if sels == [] then 0 else SelectionSize(sels[0]) + Size(sels[1..])
  }

  function SelectionSize(s: Selection): nat
    decreases s
  {
    match s
    case FieldSel(f) => 1 + Size(f.selections)
    case InlineFragment(_, _, body) => 1 + Size(body)
    case FragmentSpread(_, _) => 1
  }

  function FieldsSize(fields: seq<Field>): nat {
    if fields == [] then 0 else 1 + Size(fields[0].selections) + FieldsSize(fields[1..])
  }

  lemma {:induction false} SizeAppends(a: seq<Selection>, b: seq<Selection>)
    ensures Size(a + b) == Size(a) + Size(b)
  {
    hide SelectionSize;
    if a == [] {
      assert a + b == b;
    } else {
      assert (a + b)[0] == a[0] && (a + b)[1..] == a[1..] + b;
      SizeAppends(a[1..], b);
    }
  }

  lemma {:induction false} FieldsSizeAppends(a: seq<Field>, b: seq<Field>)
    ensures FieldsSize(a + b) == FieldsSize(a) + FieldsSize(b)
  {
    hide Size;
    if a == [] {
      assert a + b == b;
    } else {
      assert (a + b)[0] == a[0] && (a + b)[1..] == a[1..] + b;
      FieldsSizeAppends(a[1..], b);
    }
  }

  lemma {:induction false} CollectedIsNoLarger(w: World, id: int, sels: seq<Selection>)
    ensures FieldsSize(Collected(w, id, sels)) <= Size(sels)
    decreases sels
  {
    if sels != [] {
      match sels[0] {
        case FieldSel(f) => assert [f][1..] == [];
        case InlineFragment(_, _, body) => CollectedIsNoLarger(w, id, body);
        case FragmentSpread(_, _) =>
      }
      CollectedIsNoLarger(w, id, sels[1..]);
      FieldsSizeAppends(CollectedFrom(w, id, sels[0]), Collected(w, id, sels[1..]));
    }
  }

  lemma {:induction false} UnderIsNoLarger(fields: seq<Field>, key: string)
    ensures Size(MergedSelections(Under(fields, key))) + |Under(fields, key)| <= FieldsSize(fields)
  {
    if fields != [] {
      UnderIsNoLarger(fields[1..], key);
      var rest := Under(fields[1..], key);
      if ResponseKey(fields[0]) == key {
        assert Under(fields, key) == [fields[0]] + rest;
        assert ([fields[0]] + rest)[1..] == rest;
        hide Size;
        SizeAppends(fields[0].selections, MergedSelections(rest));
      } else {
        assert Under(fields, key) == rest;
      }
    }
  }

  lemma {:induction false} UnderIsThere(fields: seq<Field>, key: string)
    ensures key in ResponseKeys(fields) <==> Under(fields, key) != []
    ensures forall f :: f in Under(fields, key) ==> f in fields && ResponseKey(f) == key
  {
    if fields != [] {
      UnderIsThere(fields[1..], key);
      assert fields == [fields[0]] + fields[1..];
      if key in ResponseKeys(fields) && ResponseKey(fields[0]) != key {
        var f :| f in fields && ResponseKey(f) == key;
        assert f in fields[1..];
      }
    }
  }

  lemma GroupIsSmaller(w: World, id: int, sels: seq<Selection>, key: string)
    requires key in ResponseKeys(Collected(w, id, sels))
    ensures Under(Collected(w, id, sels), key) != []
    ensures Size(Joined(Under(Collected(w, id, sels), key)).selections) < Size(sels)
  {
    hide Collected, Under, Size, FieldsSize, MergedSelections, ResponseKeys;
    UnderIsThere(Collected(w, id, sels), key);
    UnderIsNoLarger(Collected(w, id, sels), key);
    CollectedIsNoLarger(w, id, sels);
  }

  // ---- execution, sections 6.3 and 6.4 ------------------------------------------------------

  function ExecuteSelections(w: World, sg: string, vars: map<string, Json>, id: int,
                             sels: seq<Selection>): map<string, Json>
    decreases Size(sels), 0
  {
    var fields := Collected(w, id, sels);
    map key | key in ResponseKeys(fields) ::
      GroupIsSmaller(w, id, sels, key); ExecuteField(w, sg, vars, id, Joined(Under(fields, key)))
  }

  function ExecuteField(w: World, sg: string, vars: map<string, Json>, id: int, f: Field): Json
    decreases Size(f.selections), 2
  {
    if f.name == "__typename" then Leaf(Text(w.typename(id)))
    else Complete(w, sg, vars, w.resolve(sg, id, f.name, Arguments(f.arguments, vars)), f.selections)
  }

  function Complete(w: World, sg: string, vars: map<string, Json>, r: Resolved, sels: seq<Selection>): Json
    decreases Size(sels), 1, r
  {
    match r
    case Absent => Null
    case Scalar(a) => Leaf(a)
    case Many(items) => Array(CompleteAll(w, sg, vars, items, sels))
    case Entity(id) => Object(ExecuteSelections(w, sg, vars, id, sels))
  }

  function CompleteAll(w: World, sg: string, vars: map<string, Json>, rs: seq<Resolved>,
                       sels: seq<Selection>): seq<Json>
    decreases Size(sels), 1, rs
  {
    if rs == [] then [] else [Complete(w, sg, vars, rs[0], sels)] + CompleteAll(w, sg, vars, rs[1..], sels)
  }

  lemma ExecutedUnder(w: World, sg: string, vars: map<string, Json>, id: int, sels: seq<Selection>, key: string)
    ensures var group := Under(Collected(w, id, sels), key);
      && (key in ExecuteSelections(w, sg, vars, id, sels) <==> group != [])
      && (group != [] ==> ExecuteSelections(w, sg, vars, id, sels)[key] == ExecuteField(w, sg, vars, id, Joined(group)))
  {
    hide ExecuteField, Collected, Under, ResponseKeys, Joined;
    UnderIsThere(Collected(w, id, sels), key);
  }

  /** A selection set is executed by what is collected from it. */
  lemma SameCollected(w: World, sg: string, vars: map<string, Json>, id: int, a: seq<Selection>, b: seq<Selection>)
    requires Collected(w, id, a) == Collected(w, id, b)
    ensures ExecuteSelections(w, sg, vars, id, a) == ExecuteSelections(w, sg, vars, id, b)
  {
    hide ExecuteField, Collected, Under, ResponseKeys, Joined;
  }

  lemma OneOfAKind(f: Field)
    ensures Under([f], ResponseKey(f)) == [f] && Joined([f]) == f && ResponseKeys([f]) == {ResponseKey(f)}
  {
    assert [f][1..] == [];
    assert MergedSelections([f]) == f.selections + [] == f.selections;
  }

  lemma {:induction false} NoneUnder(fields: seq<Field>, key: string)
    requires forall i :: 0 <= i < |fields| ==> ResponseKey(fields[i]) != key
    ensures Under(fields, key) == []
  {
    if fields != [] {
      NoneUnder(fields[1..], key);
    }
  }

  /** Where response keys are distinct, each field is alone under its key. */
  lemma {:induction false} AloneUnder(fields: seq<Field>, i: nat)
    requires i < |fields|
    requires forall j, k :: 0 <= j < k < |fields| ==> ResponseKey(fields[j]) != ResponseKey(fields[k])
    ensures Under(fields, ResponseKey(fields[i])) == [fields[i]]
  {
    if i == 0 {
      NoneUnder(fields[1..], ResponseKey(fields[0]));
    } else {
      AloneUnder(fields[1..], i - 1);
    }
  }

  // ---- requests, sections 6.1 and 7.1 ------------------------------------------------------

  function RequestError(message: string): Outcome {
    Answered(GraphQLResponse(None, [GraphQLError(message, [], [], None)], None))
  }

  /**
   * The rules of validation that sending a part of a document can break: every fragment is defined
   * (section 5.5.2.1; the text defines none), and the variables used are the ones declared
   * (sections 5.8.3 and 5.8.4).
   */
  predicate IsValid(op: Operation) {
    SpreadFree(op.selections) && SelectionsVariables(op.selections) == DeclaredNames(op.variables)
  }

  /** The answer to a request; an operation name must name an operation of the text. */
  function Answer(w: World, sg: string, text: string, provided: map<string, Json>,
                  operationName: Option<string>): Outcome {
    match ReadOperation(text)
    case None => RequestError("syntax error")
    case Some(op) =>
      if !IsValid(op) then RequestError("invalid document")
      else if operationName.Some? && op.name != operationName then RequestError("unknown operation")
      else
        var data := ExecuteSelections(w, sg, Coerce(op.variables, provided), Root(op.operationType), op.selections);
        Answered(GraphQLResponse(Some(Object(data)), [], None))
  }

  // ---- only the used variables matter --------------------------------------------------------

  ghost predicate Agree(a: map<string, Json>, b: map<string, Json>, names: set<string>) {
    forall n :: n in names ==> (n in a <==> n in b) && (n in a ==> a[n] == b[n])
  }

  lemma {:induction false} ConstantsAgree(v: Value, a: map<string, Json>, b: map<string, Json>)
    requires Agree(a, b, ValueVariables(v))
    ensures Constant(v, a) == Constant(v, b)
    decreases v
  {
    match v
    case ListLit(items) => ListsAgree(items, a, b);
    case ObjectLit(entries) => ArgumentsAgree(entries, a, b);
    case _ =>
  }

  lemma {:induction false} ListsAgree(items: seq<Value>, a: map<string, Json>, b: map<string, Json>)
    requires Agree(a, b, ValuesVariables(items))
    ensures Constants(items, a) == Constants(items, b)
    decreases items
  {
    if items != [] {
      ConstantsAgree(items[0], a, b);
      ListsAgree(items[1..], a, b);
    }
  }

  lemma {:induction false} ArgumentsAgree(args: seq<Argument>, a: map<string, Json>, b: map<string, Json>)
    requires Agree(a, b, ArgumentsVariables(args))
    ensures Arguments(args, a) == Arguments(args, b)
    decreases args
  {
    if args != [] {
      ConstantsAgree(args[0].value, a, b);
      ArgumentsAgree(args[1..], a, b);
    }
  }

  /** The variables of what is collected are among those of the selection set. */
  lemma {:induction false} CollectedVariables(w: World, id: int, sels: seq<Selection>)
    ensures forall f :: f in Collected(w, id, sels) ==> FieldVariables(f) <= SelectionsVariables(sels)
    decreases sels
  {
    hide FieldVariables;
    if sels != [] {
      match sels[0] {
        case FieldSel(f) =>
        case InlineFragment(_, _, body) => CollectedVariables(w, id, body);
        case FragmentSpread(_, _) =>
      }
      CollectedVariables(w, id, sels[1..]);
    }
  }

  lemma {:induction false} VariablesAppended(a: seq<Selection>, b: seq<Selection>)
    ensures SelectionsVariables(a + b) == SelectionsVariables(a) + SelectionsVariables(b)
  {
    hide SelectionVariables;
    if a == [] {
      assert a + b == b;
    } else {
      assert (a + b)[0] == a[0] && (a + b)[1..] == a[1..] + b;
      VariablesAppended(a[1..], b);
    }
  }

  lemma {:induction false} MergedVariables(group: seq<Field>, names: set<string>)
    requires forall f :: f in group ==> FieldVariables(f) <= names
    ensures SelectionsVariables(MergedSelections(group)) <= names
  {
    if group != [] {
      assert group[0] in group;
      assert FieldVariables(group[0])
          == ArgumentsVariables(group[0].arguments) + SelectionsVariables(group[0].selections);
      hide FieldVariables, SelectionsVariables, ArgumentsVariables;
      MergedVariables(group[1..], names);
      VariablesAppended(group[0].selections, MergedSelections(group[1..]));
    } else {
      assert SelectionsVariables([]) == {};
    }
  }

  lemma JoinedVariables(w: World, id: int, sels: seq<Selection>, key: string)
    requires Under(Collected(w, id, sels), key) != []
    ensures FieldVariables(Joined(Under(Collected(w, id, sels), key))) <= SelectionsVariables(sels)
  {
    var group := Under(Collected(w, id, sels), key);
    CollectedVariables(w, id, sels);
    UnderIsThere(Collected(w, id, sels), key);
    assert group[0] in group;
    assert ArgumentsVariables(group[0].arguments) <= FieldVariables(group[0]);
    hide Collected, Under, SelectionsVariables, ArgumentsVariables, MergedSelections;
    MergedVariables(group, SelectionsVariables(sels));
  }

  lemma {:induction false} SelectionsAgree(w: World, sg: string, a: map<string, Json>, b: map<string, Json>, id: int,
                                           sels: seq<Selection>)
    requires Agree(a, b, SelectionsVariables(sels))
    ensures ExecuteSelections(w, sg, a, id, sels) == ExecuteSelections(w, sg, b, id, sels)
    decreases Size(sels), 0
  {
    hide ExecuteField, Collected, Under, Size, Joined, SelectionsVariables, FieldVariables, Agree, ResponseKeys;
    var fields := Collected(w, id, sels);
    forall key | key in ResponseKeys(fields)
      ensures Under(fields, key) != []
      ensures ExecuteField(w, sg, a, id, Joined(Under(fields, key)))
           == ExecuteField(w, sg, b, id, Joined(Under(fields, key)))
    {
      GroupIsSmaller(w, id, sels, key);
      JoinedVariables(w, id, sels, key);
      FewerAgree(a, b, FieldVariables(Joined(Under(fields, key))), SelectionsVariables(sels));
      FieldsAgree(w, sg, a, b, id, Joined(Under(fields, key)));
    }
  }

  lemma FewerAgree(a: map<string, Json>, b: map<string, Json>, fewer: set<string>, names: set<string>)
    requires fewer <= names && Agree(a, b, names)
    ensures Agree(a, b, fewer)
  {
  }

  lemma {:induction false} FieldsAgree(w: World, sg: string, a: map<string, Json>, b: map<string, Json>, id: int,
                                       f: Field)
    requires Agree(a, b, FieldVariables(f))
    ensures ExecuteField(w, sg, a, id, f) == ExecuteField(w, sg, b, id, f)
    decreases Size(f.selections), 2
  {
    ArgumentsAgree(f.arguments, a, b);
    CompletionsAgree(w, sg, a, b, w.resolve(sg, id, f.name, Arguments(f.arguments, a)), f.selections);
  }

  lemma {:induction false} CompletionsAgree(w: World, sg: string, a: map<string, Json>, b: map<string, Json>,
                                            r: Resolved, sels: seq<Selection>)
    requires Agree(a, b, SelectionsVariables(sels))
    ensures Complete(w, sg, a, r, sels) == Complete(w, sg, b, r, sels)
    decreases Size(sels), 1, r
  {
    match r
    case Many(items) => ListCompletionsAgree(w, sg, a, b, items, sels);
    case Entity(id) => SelectionsAgree(w, sg, a, b, id, sels);
    case _ =>
  }

  lemma {:induction false} ListCompletionsAgree(w: World, sg: string, a: map<string, Json>, b: map<string, Json>,
                                                rs: seq<Resolved>, sels: seq<Selection>)
    requires Agree(a, b, SelectionsVariables(sels))
    ensures CompleteAll(w, sg, a, rs, sels) == CompleteAll(w, sg, b, rs, sels)
    decreases Size(sels), 1, rs
  {
    if rs != [] {
      CompletionsAgree(w, sg, a, b, rs[0], sels);
      ListCompletionsAgree(w, sg, a, b, rs[1..], sels);
    }
  }

  /** Declaring and forwarding only the used variables leaves their values as they were. */
  lemma {:induction false} KeptVariablesAgree(ds: seq<VariableDefinition>, used: set<string>,
                                              provided: map<string, Json>, sent: map<string, Json>)
    requires Agree(sent, provided, used)
    ensures Agree(Coerce(KeptVariables(ds, used), sent), Coerce(ds, provided), used)
  {
    hide KeptVariables, Coerce;
    if ds == [] {
      NothingDeclared(used, sent);
      NothingDeclared(used, provided);
    } else {
      KeptVariablesAgree(ds[1..], used, provided, sent);
      var d, rest := ds[0], KeptVariables(ds[1..], used);
      OneMoreDeclared(ds, used);
      CoerceOne(ds[0], ds[1..], provided);
      assert ds == [ds[0]] + ds[1..];
      CoerceOne(ds[0], rest, sent);
    }
  }

  lemma NothingDeclared(used: set<string>, m: map<string, Json>)
    ensures KeptVariables([], used) == [] && Coerce([], m) == map[]
  {
  }

  lemma OneMoreDeclared(ds: seq<VariableDefinition>, used: set<string>)
    requires ds != []
    ensures KeptVariables(ds, used)
         == if ds[0].name in used then [ds[0]] + KeptVariables(ds[1..], used) else KeptVariables(ds[1..], used)
  {
  }

  lemma CoerceOne(d: VariableDefinition, rest: seq<VariableDefinition>, m: map<string, Json>)
    ensures Coerce([d] + rest, m) ==
            if d.name in m then Coerce(rest, m)[d.name := m[d.name]]
            else match d.defaultValue
              case Some(v) => Coerce(rest, m)[d.name := Constant(v, map[]).GetOr(Null)]
              case None => Coerce(rest, m)
  {
    assert ([d] + rest)[0] == d && ([d] + rest)[1..] == rest;
  }
}
