/**
 * Plan, fetch, merge: the stitched value of a root field is the value that evaluating its
 * selection directly over the composed graph gives, each field in the subgraph that owns it.
 */
module Federation {
  import opened Common
  import opened Ast
  import opened Render
  import opened Reader
  import opened RoundTrip
  import opened Scanners
  import opened Synthesis
  import opened Responses
  import opened Catalog
  import opened Planner
  import opened PlannerProperties
  import opened Executor
  import opened Evaluation
  import opened Trees
  import Merge

  // ---- direct evaluation ---------------------------------------------------------------

  /** The subgraph that resolves a field of the entity; any one may resolve the key. */
  function Resolver(entity: EntityType, initial: string, f: Field): string {
    if f.name == EntityKey(entity) then initial else OwnerOf(entity, f.name, initial)
  }

  function DirectFields(w: World, entity: EntityType, initial: string, vars: map<string, Json>, id: int,
                        sels: seq<Selection>): map<string, Json> {
    if sels == [] then map[]
    else
      var first := match sels[0]
        case FieldSel(f) => map[ResponseKey(f) := ExecuteField(w, Resolver(entity, initial, f), vars, id, f)]
        case _ => map[];
      first + DirectFields(w, entity, initial, vars, id, sels[1..])
  }

  function RootResult(w: World, kind: OperationType, initial: string, vars: map<string, Json>, f: Field): Resolved {
    w.resolve(initial, Root(kind), f.name, Arguments(f.arguments, vars))
  }

  ghost function DirectValue(w: World, kind: OperationType, entity: EntityType, initial: string,
                             vars: map<string, Json>, f: Field): Json {
    Tree(RootResult(w, kind, initial, vars, f), id => DirectFields(w, entity, initial, vars, id, f.selections))
  }

  // ---- the conditions --------------------------------------------------------------------

  /** No response key below this level is in `drops`. */
  predicate Clean(sels: seq<Selection>, drops: set<string>) {
    forall i :: 0 <= i < |sels| ==> CleanSelection(sels[i], drops)
  }

  predicate CleanSelection(s: Selection, drops: set<string>) {
    match s
    case FieldSel(f) => ResponseKey(f) !in drops && Clean(f.selections, drops)
    case InlineFragment(_, _, body) => Clean(body, drops)
    case FragmentSpread(_, _) => true
  }

  function Drops(sels: seq<Selection>, entity: EntityType): set<string> {
    Merge.SyntheticKeys(EntityKey(entity) !in RequestedKeys(sels, entity), EntityKey(entity))
  }

  /** Plain fields with distinct response keys, no other field under the key's name or under `__typename`. */
  predicate PlainSelections(sels: seq<Selection>, entity: EntityType) {
    && (forall i :: 0 <= i < |sels| ==> sels[i].FieldSel?)
    && (forall i :: 0 <= i < |sels| ==> PlainField(sels[i].field, EntityKey(entity)))
    && (forall i, j :: 0 <= i < j < |sels| ==> ResponseKey(sels[i].field) != ResponseKey(sels[j].field))
  }

  predicate PlainField(f: Field, key: string) {
    && (ResponseKey(f) in {key, "__typename"} ==> f.name == ResponseKey(f))
    && (f.name in {key, "__typename"} ==> f.arguments == [] && f.selections == [])
  }

  /** The key and `__typename`, where they are selected, keep their names. */
  predicate Unaliased(sels: seq<Selection>, entity: EntityType) {
    forall i :: 0 <= i < |sels| && sels[i].FieldSel? && sels[i].field.name in {EntityKey(entity), "__typename"} ==>
      ResponseKey(sels[i].field) == sels[i].field.name
  }

  predicate VariableFreeExtenders(sels: seq<Selection>, entity: EntityType, initial: string) {
    forall i ::
      0 <= i < |sels| && Sent(sels[i], EntityKey(entity)) && OwnerOf(entity, sels[i].field.name, initial) != initial ==>
      FieldVariables(sels[i].field) == {}
  }

  /** What is sent for the field can be read back. */
  predicate Printable(f: Field, entity: EntityType) {
    && WellFormedField(f) && QuietField(f) && DirectiveFree(f)
    && f.name != "__typename" && f.selections != []
    && entity.keyFields != [] && IsName(EntityKey(entity)) && EntityKey(entity) != "__typename"
    && PlainSelections(f.selections, entity)
  }

  /** And it is answered, since no fragment or variable is missing. */
  predicate Stitchable(f: Field, entity: EntityType, initial: string) {
    Printable(f, entity) && SpreadFree(f.selections) && VariableFreeExtenders(f.selections, entity, initial)
  }

  ghost function Entities(ids: seq<int>): (r: seq<Resolved>)
    ensures |r| == |ids| && forall i :: 0 <= i < |r| ==> r[i] == Entity(ids[i])
  {
    if ids == [] then [] else [Entity(ids[0])] + Entities(ids[1..])
  }

  predicate AllOfType(w: World, ids: seq<int>, typeName: string) {
    forall i :: 0 <= i < |ids| ==> w.applies(ids[i], typeName)
  }

  /**
   * Objects of the type have a key in the initial subgraph, and every subgraph resolves a list of
   * representations to the objects with those keys, in order.
   */
  ghost predicate Keyed(w: World, typeName: string, key: string, keyOf: int -> Atom, initial: string) {
    && (forall id :: w.applies(id, typeName) ==> w.resolve(initial, id, key, map[]) == Scalar(keyOf(id)))
    && (forall sg, ids :: AllOfType(w, ids, typeName) ==>
          w.resolve(sg, QUERY_ROOT, "_entities", EntityVariables(Representations(typeName, key, KeysOf(ids, keyOf))))
          == Many(Entities(ids)))
  }

  /** Every call reaches a subgraph that answers it. */
  ghost predicate Conforms(send: Send, w: World) {
    forall sg, text, vars, name :: send(sg, text, vars, name).0 == Answer(w, sg, text, vars, name)
  }

  predicate RoutesNamed(catalog: SupergraphCatalog) {
    forall sg :: sg in catalog.subgraphs ==> catalog.subgraphs[sg].name == sg
  }

  // ---- the texts are printed trees --------------------------------------------------------

  function Bare(name: string): Selection { FieldSel(Field(None, name, [], [], [])) }

  function InitialSelections(sels: seq<Selection>, entity: EntityType, initial: string): seq<Selection> {
    [Bare("__typename"), Bare(EntityKey(entity))] + SentTo(sels, entity, initial, initial)
  }

  lemma {:induction false} RenderedAt(sels: seq<Selection>, i: nat)
    requires i < |sels|
    ensures Rendered(sels)[i] == RenderSelection(sels[i])
  {
    if i < |sels| - 1 {
      RenderedAt(sels[..|sels| - 1], i);
    }
  }

  lemma {:induction false} JoinsSelections(parts: seq<string>, sels: seq<Selection>)
    requires |parts| == |sels| && forall i :: 0 <= i < |sels| ==> parts[i] == RenderSelection(sels[i])
    ensures JoinSpace(parts) == RenderSelections(sels)
  {
    hide RenderSelection;
    if |sels| > 1 {
      JoinsSelections(parts[1..], sels[1..]);
    }
  }

  lemma BodyText(sels: seq<Selection>)
    ensures JoinSpace(Rendered(sels)) == RenderSelections(sels)
  {
    forall i | 0 <= i < |sels| ensures Rendered(sels)[i] == RenderSelection(sels[i]) {
      RenderedAt(sels, i);
    }
    JoinsSelections(Rendered(sels), sels);
  }

  lemma BareText(name: string)
    ensures RenderSelection(Bare(name)) == name
  {
  }

  lemma InitialTextIsPrinted(sels: seq<Selection>, entity: EntityType, initial: string)
    ensures InitialText(sels, entity, initial)
         == "{ " + RenderSelections(InitialSelections(sels, entity, initial)) + " }"
  {
    hide SentTo, Rendered, RenderSelection, JoinSpace;
    var own := SentTo(sels, entity, initial, initial);
    var parts := ["__typename", EntityKey(entity)] + Rendered(own);
    BareText("__typename");
    BareText(EntityKey(entity));
    forall i | 0 <= i < |parts| ensures parts[i] == RenderSelection(InitialSelections(sels, entity, initial)[i]) {
      if i >= 2 {
        RenderedAt(own, i - 2);
      }
    }
    JoinsSelections(parts, InitialSelections(sels, entity, initial));
  }

  const REPRESENTATIONS := [VariableDefinition("representations", NonNull(ListOf(NonNull(Named("_Any")))), None)]

  function EntityField(typeName: string, sels: seq<Selection>): Field {
    Field(None, "_entities", [Argument("representations", Variable("representations"))], [],
      [InlineFragment(Some(typeName), [], sels)])
  }

  lemma EntityQueryIsPrinted(typeName: string, sels: seq<Selection>)
    ensures EntityQueryText(typeName, RenderSelections(sels))
         == RenderOperation(Query, REPRESENTATIONS, EntityField(typeName, sels))
  {
    var inline := InlineFragment(Some(typeName), [], sels);
    RepresentationsText();
    EntityHeadText(typeName, sels);
    assert RenderSelections([inline]) == RenderSelection(inline);
    InlineText(typeName, sels);
    hide RenderSelections, RenderSelection, RenderHead, RenderVariableList;
    EntityTextParts(typeName, RenderSelections(sels));
  }

  lemma InlineText(typeName: string, sels: seq<Selection>)
    ensures RenderSelection(InlineFragment(Some(typeName), [], sels))
         == "... on " + typeName + " { " + RenderSelections(sels) + " }"
  {
    hide RenderSelections;
    assert " " + "{ " == " { ";
  }

  lemma RepresentationsText()
    ensures RenderVariableList(REPRESENTATIONS) == "($representations: [_Any!]!)"
  {
    hide RenderValue;
    AnyListText();
    RepresentationsLiteral();
    hide RenderType;
    assert RenderVariable(REPRESENTATIONS[0]) == "$" + "representations" + ": " + "[_Any!]!" + "";
  }

  lemma AnyListText()
    ensures RenderType(NonNull(ListOf(NonNull(Named("_Any"))))) == "[_Any!]!"
  {
    assert RenderType(NonNull(Named("_Any"))) == "_Any!";
    assert RenderType(ListOf(NonNull(Named("_Any")))) == "[_Any!]";
  }

  lemma RepresentationsLiteral()
    ensures "(" + ("$" + "representations" + ": " + "[_Any!]!" + "") + ")" == "($representations: [_Any!]!)"
  {
    assert "$" + "representations" == "$representations";
    assert "$representations" + ": " == "$representations: ";
    assert "$representations: " + "[_Any!]!" == "$representations: [_Any!]!";
  }

  lemma EntityHeadText(typeName: string, sels: seq<Selection>)
    ensures RenderHead(EntityField(typeName, sels)) == "_entities" + "(representations: $representations)"
  {
    var args := [Argument("representations", Variable("representations"))];
    assert RenderValue(Variable("representations")) == "$" + "representations";
    assert RenderEntries(args) == "representations" + ": " + ("$" + "representations");
    ArgumentLiteral();
    assert RenderArguments(args) == "(" + "representations: $representations" + ")"
        == "(representations: $representations)";
    hide RenderArguments;
    assert RenderHead(EntityField(typeName, sels)) == "" + "_entities" + RenderArguments(args);
    assert "" + "_entities" == "_entities";
  }

  lemma ArgumentLiteral()
    ensures "representations" + ": " + ("$" + "representations") == "representations: $representations"
  {
    assert "$" + "representations" == "$representations";
    assert "representations" + ": " == "representations: ";
  }

  lemma EntityTextParts(typeName: string, body: string)
    ensures EntityQueryText(typeName, body)
         == "query" + "($representations: [_Any!]!)" + " { "
            + ("_entities" + "(representations: $representations)"
               + (" { " + ("... on " + typeName + " { " + body + " }") + " }")) + " }"
  {
    var inline := "... on " + typeName + " { " + body + " }";
    var open := "query" + "($representations: [_Any!]!)" + " { ";
    var args := "(representations: $representations)";
    assert EntityQueryText(typeName, body) == open + "_entities" + args + " { " + inline + " }" + " }";
  }

  // ---- what the selections of one fetch satisfy ----------------------------------------------

  lemma {:induction false} SentToMembers(sels: seq<Selection>, entity: EntityType, initial: string, sg: string,
                                         k: nat) returns (i: nat)
    requires k < |SentTo(sels, entity, initial, sg)|
    ensures i < |sels| && SentTo(sels, entity, initial, sg)[k] == sels[i]
    ensures Sent(sels[i], EntityKey(entity)) && OwnerOf(entity, sels[i].field.name, initial) == sg
  {
    SentToItsOwnerOnly(sels, entity, initial, sg);
    i := SentIndices(sels, entity, initial, sg)[k];
  }

  lemma SentIsWellFormed(f: Field, entity: EntityType, initial: string, sg: string)
    requires Printable(f, entity)
    ensures var sent := SentTo(f.selections, entity, initial, sg);
      && WellFormedSelections(sent) && QuietSelections(sent)
      && (forall i :: 0 <= i < |sent| ==> DirectiveFreeSelection(sent[i]))
  {
    var sent := SentTo(f.selections, entity, initial, sg);
    assert WellFormedSelections(f.selections) && QuietSelections(f.selections);
    hide SentTo, WellFormedSelection, QuietSelection, DirectiveFreeSelection, PlainSelections, FieldVariables;
    forall k | 0 <= k < |sent|
      ensures WellFormedSelection(sent[k]) && QuietSelection(sent[k]) && DirectiveFreeSelection(sent[k])
    {
      var i := SentToMembers(f.selections, entity, initial, sg, k);
    }
  }

  lemma SentIsAnswerable(f: Field, entity: EntityType, initial: string, sg: string)
    requires Stitchable(f, entity, initial)
    ensures var sent := SentTo(f.selections, entity, initial, sg);
      SpreadFree(sent) && (sg != initial ==> SelectionsVariables(sent) == {})
  {
    var sent := SentTo(f.selections, entity, initial, sg);
    hide SentTo, SpreadFreeSelection, Printable, FieldVariables;
    forall k | 0 <= k < |sent|
      ensures SpreadFreeSelection(sent[k]) && (sg != initial ==> SelectionVariables(sent[k]) == {})
    {
      var i := SentToMembers(f.selections, entity, initial, sg, k);
    }
    if sg != initial {
      NoVariables(sent);
    }
  }

  lemma {:induction false} MemberVariables(sels: seq<Selection>, i: nat)
    requires i < |sels|
    ensures SelectionVariables(sels[i]) <= SelectionsVariables(sels)
  {
    hide SelectionVariables;
    if i > 0 {
      MemberVariables(sels[1..], i - 1);
    }
  }

  lemma {:induction false} VariablesWithin(sels: seq<Selection>, names: set<string>)
    requires forall k :: 0 <= k < |sels| ==> SelectionVariables(sels[k]) <= names
    ensures SelectionsVariables(sels) <= names
  {
    hide SelectionVariables;
    if sels != [] {
      VariablesWithin(sels[1..], names);
    }
  }

  /** The initial fetch uses no variable that the field does not. */
  lemma InitialVariables(f: Field, entity: EntityType, initial: string)
    ensures FieldVariables(InitialField(f, entity, initial)) <= FieldVariables(f)
  {
    var sels := InitialSelections(f.selections, entity, initial);
    assert SelectionVariables(Bare("__typename")) == {} && SelectionVariables(Bare(EntityKey(entity))) == {};
    hide SentTo, SelectionVariables, SelectionsVariables, Bare;
    forall k | 0 <= k < |sels| ensures SelectionVariables(sels[k]) <= SelectionsVariables(f.selections) {
      if k >= 2 {
        var i := SentToMembers(f.selections, entity, initial, initial, k - 2);
        MemberVariables(f.selections, i);
      }
    }
    VariablesWithin(sels, SelectionsVariables(f.selections));
  }

  lemma {:induction false} NoVariables(sels: seq<Selection>)
    requires forall k :: 0 <= k < |sels| ==> SelectionVariables(sels[k]) == {}
    ensures SelectionsVariables(sels) == {}
  {
    hide SelectionVariables;
    if sels != [] {
      NoVariables(sels[1..]);
    }
  }

  /** The root field with its selection set replaced by the one of the initial fetch. */
  function InitialField(f: Field, entity: EntityType, initial: string): Field {
    f.(selections := InitialSelections(f.selections, entity, initial))
  }

  lemma InitialFieldIsWellFormed(f: Field, entity: EntityType, initial: string)
    requires Printable(f, entity)
    ensures var f' := InitialField(f, entity, initial);
      WellFormedField(f') && QuietField(f') && DirectiveFree(f')
  {
    hide SentTo, PlainSelections, VariableFreeExtenders, WellFormedArguments, QuietArguments;
    SentIsWellFormed(f, entity, initial, initial);
    BareIsWellFormed("__typename");
    BareIsWellFormed(EntityKey(entity));
    hide WellFormedSelection, QuietSelection, DirectiveFreeSelection;
    var f' := InitialField(f, entity, initial);
    var sent := SentTo(f.selections, entity, initial, initial);
    assert forall i :: 2 <= i < |f'.selections| ==> f'.selections[i] == sent[i - 2];
  }

  lemma BareIsWellFormed(name: string)
    requires IsName(name)
    ensures WellFormedSelection(Bare(name)) && QuietSelection(Bare(name)) && DirectiveFreeSelection(Bare(name))
  {
  }

  // ---- the initial answer ---------------------------------------------------------------------

  lemma {:induction false} KeptNames(ds: seq<VariableDefinition>, used: set<string>)
    ensures DeclaredNames(KeptVariables(ds, used)) == DeclaredNames(ds) * used
  {
    if ds != [] {
      KeptNames(ds[1..], used);
      var rest := KeptVariables(ds[1..], used);
      assert ds[0].name in used ==> ([ds[0]] + rest)[1..] == rest;
      assert ds[0].name !in used ==> [] + rest == rest;
    }
  }

  /** An operation of one field: it is valid exactly when no spread stands in it and what it uses is declared. */
  lemma OneFieldIsValid(kind: OperationType, ds: seq<VariableDefinition>, f: Field)
    ensures IsValid(Operation(kind, None, ds, [FieldSel(f)]))
       <==> SpreadFree(f.selections) && FieldVariables(f) == DeclaredNames(ds)
  {
    var sels := [FieldSel(f)];
    assert sels[1..] == [] && SelectionsVariables(sels) == FieldVariables(f) + {} == FieldVariables(f);
    assert SpreadFree(sels) <==> SpreadFreeSelection(sels[0]);
  }

  lemma {:induction false} ErasedUses(sels: seq<Selection>)
    ensures SelectionsVariables(EraseSelections(sels)) == SelectionsVariables(sels)
    ensures SpreadFree(EraseSelections(sels)) <==> SpreadFree(sels)
    decreases sels
  {
    hide EraseSelection, SpreadFreeSelection, SelectionVariables;
    if sels != [] {
      ErasedSelectionUses(sels[0]);
      ErasedUses(sels[1..]);
      var first, rest := EraseSelection(sels[0]), EraseSelections(sels[1..]);
      assert EraseSelections(sels) == [first] + rest && ([first] + rest)[1..] == rest;
      SpreadFreeSplits(sels);
      SpreadFreeSplits([first] + rest);
    }
  }

  lemma {:induction false} ErasedSelectionUses(s: Selection)
    ensures SelectionVariables(EraseSelection(s)) == SelectionVariables(s)
    ensures SpreadFreeSelection(EraseSelection(s)) <==> SpreadFreeSelection(s)
    decreases s
  {
    match s
    case FieldSel(f) => ErasedFieldUses(f);
    case FragmentSpread(_, _) =>
    case InlineFragment(_, _, body) => ErasedUses(body);
  }

  lemma {:induction false} ErasedFieldUses(f: Field)
    ensures FieldVariables(EraseField(f)) == FieldVariables(f)
    ensures SpreadFree(EraseField(f).selections) <==> SpreadFree(f.selections)
    decreases f
  {
    ErasedUses(f.selections);
  }

  lemma SpreadFreeSplits(sels: seq<Selection>)
    requires sels != []
    ensures SpreadFree(sels) <==> SpreadFreeSelection(sels[0]) && SpreadFree(sels[1..])
  {
    hide SpreadFreeSelection;
    assert forall i :: 1 <= i < |sels| ==> sels[i] == sels[1..][i - 1];
  }

  /**
   * A printed operation is answered without an error exactly when no fragment spread stands in it,
   * whose definition would be missing, and it declares the variables it uses.
   */
  lemma PrintedIsAnsweredExactly(w: World, sg: string, kind: OperationType, ds: seq<VariableDefinition>, f: Field,
                                 given: map<string, Json>)
    requires WellFormedVariables(ds) && WellFormedField(f)
    ensures var outcome := Answer(w, sg, RenderOperation(kind, ds, f), given, None);
      outcome.Answered?
      && (outcome.response.errors == [] <==> SpreadFree(f.selections) && FieldVariables(f) == DeclaredNames(ds))
  {
    var f', text := EraseField(f), RenderOperation(kind, ds, f);
    ReadsRenderedOperation(kind, ds, f);
    ErasedFieldUses(f);
    hide ReadOperation, RenderOperation, ExecuteSelections, Coerce, Answer, IsValid, SpreadFree, DeclaredNames,
         FieldVariables, WellFormedField, WellFormedVariables;
    OneFieldIsValid(kind, ds, f');
    ReadTextIsExecuted(w, sg, text, given, Operation(kind, None, ds, [FieldSel(f')]));
  }

  /** With the unused declarations left out. */
  lemma PrunedIsValid(kind: OperationType, ds: seq<VariableDefinition>, f: Field)
    ensures IsValid(Operation(kind, None, KeptVariables(ds, FieldVariables(f)), [FieldSel(f)]))
       <==> SpreadFree(f.selections) && FieldVariables(f) <= DeclaredNames(ds)
  {
    hide IsValid, KeptVariables, DeclaredNames, FieldVariables, SpreadFree;
    OneFieldIsValid(kind, KeptVariables(ds, FieldVariables(f)), f);
    KeptNames(ds, FieldVariables(f));
  }

  lemma ReadTextIsExecuted(w: World, sg: string, text: string, given: map<string, Json>, op: Operation)
    requires ReadOperation(text) == Some(op) && op.name == None
    ensures Answer(w, sg, text, given, None)
         == if IsValid(op) then
              Answered(GraphQLResponse(
                Some(Object(ExecuteSelections(w, sg, Coerce(op.variables, given), Root(op.operationType),
                                              op.selections))),
                [], None))
            else RequestError("invalid document")
  {
    hide ReadOperation, ExecuteSelections, Coerce, IsValid;
  }

  /** An operation of one field is answered with that field's value; the variables left out play no part. */
  lemma SentFieldIsAnswered(w: World, kind: OperationType, ds: seq<VariableDefinition>, provided: map<string, Json>,
                            sg: string, f: Field, text: string)
    requires ReadOperation(text) == Some(Operation(kind, None, KeptVariables(ds, FieldVariables(f)), [FieldSel(f)]))
    requires FieldVariables(f) <= VariablesIn(text) && FieldVariables(f) <= DeclaredNames(ds)
    ensures Answer(w, sg, text, SubsetVariables(Object(provided), VariablesIn(text)), None)
         == if SpreadFree(f.selections) then
              Answered(GraphQLResponse(
                Some(Object(map[ResponseKey(f) := ExecuteField(w, sg, Coerce(ds, provided), Root(kind), f)])), [],
                    None))
            else RequestError("invalid document")
  {
    hide ReadOperation, VariablesIn, ExecuteField, Coerce, FieldVariables, KeptVariables, ExecuteSelections,
         ResponseKey, IsValid, SpreadFree, DeclaredNames, Answer;
    var kept := KeptVariables(ds, FieldVariables(f));
    var sent := SubsetVariables(Object(provided), VariablesIn(text));
    assert Agree(sent, provided, FieldVariables(f));
    hide Agree, SubsetVariables;
    KeptVariablesAgree(ds, FieldVariables(f), provided, sent);
    RootSelection(w, sg, Coerce(kept, sent), Root(kind), f);
    FieldsAgree(w, sg, Coerce(kept, sent), Coerce(ds, provided), Root(kind), f);
    PrunedIsValid(kind, ds, f);
    ReadTextIsExecuted(w, sg, text, sent, Operation(kind, None, kept, [FieldSel(f)]));
  }

  lemma InitialAnswer(w: World, kind: OperationType, ds: seq<VariableDefinition>, provided: map<string, Json>,
                      f: Field, entity: EntityType, initial: string, text: string)
    requires Printable(f, entity)
    requires WellFormedVariables(ds) && ConstantDefaults(ds) && FieldVariables(f) <= DeclaredNames(ds)
    requires text == SynthesizeRootOperation(kind, ds, f, InitialText(f.selections, entity, initial))
    ensures var vars := Coerce(ds, provided);
      var value := Tree(RootResult(w, kind, initial, vars, f),
                        id => ExecuteSelections(w, initial, vars, id,
                                                InitialSelections(f.selections, entity, initial)));
      Answer(w, initial, text, SubsetVariables(Object(provided), VariablesIn(text)), None)
      == if SpreadFree(SentTo(f.selections, entity, initial, initial)) then
           Answered(GraphQLResponse(Some(Object(map[ResponseKey(f) := value])), [], None))
         else RequestError("invalid document")
  {
    assert f.name != "__typename";
    var f' := InitialField(f, entity, initial);
    InitialSpreads(f.selections, entity, initial);
    InitialVariables(f, entity, initial);
    hide Printable, SynthesizeRootOperation, InitialText, InitialSelections, ReadOperation, VariablesIn,
         WellFormedVariables, ConstantDefaults, ExecuteField, Coerce, FieldVariables, DirectiveFree, Answer,
         SubsetVariables, KeptVariables, Tree, RootResult, ExecuteSelections, SpreadFree, SentTo, DeclaredNames;
    InitialTextReads(kind, ds, f, entity, initial);
    SentFieldIsAnswered(w, kind, ds, provided, initial, f', text);
    InitialCompletion(w, kind, Coerce(ds, provided), f, entity, initial);
  }

  lemma InitialSpreads(sels: seq<Selection>, entity: EntityType, initial: string)
    ensures SpreadFree(InitialSelections(sels, entity, initial)) <==> SpreadFree(SentTo(sels, entity, initial, initial))
  {
    var all, sent := InitialSelections(sels, entity, initial), SentTo(sels, entity, initial, initial);
    assert SpreadFreeSelection(Bare("__typename")) && SpreadFreeSelection(Bare(EntityKey(entity)));
    hide SentTo, Bare, SpreadFreeSelection;
    assert forall i :: 0 <= i < |sent| ==> all[i + 2] == sent[i];
    assert forall i :: 2 <= i < |all| ==> all[i] == sent[i - 2];
  }

  lemma InitialTextReads(kind: OperationType, ds: seq<VariableDefinition>, f: Field, entity: EntityType,
                         initial: string)
    requires Printable(f, entity)
    requires WellFormedVariables(ds) && ConstantDefaults(ds)
    ensures var f' := InitialField(f, entity, initial);
      var kept := KeptVariables(ds, FieldVariables(f'));
      var text := SynthesizeRootOperation(kind, ds, f, InitialText(f.selections, entity, initial));
      && ReadOperation(text) == Some(Operation(kind, None, kept, [FieldSel(f')]))
      && FieldVariables(f') <= VariablesIn(text)
  {
    var f' := InitialField(f, entity, initial);
    var kept := KeptVariables(ds, FieldVariables(f'));
    InitialFieldIsWellFormed(f, entity, initial);
    InitialTextIsPrinted(f.selections, entity, initial);
    assert WellFormedVariables(kept) && ConstantDefaults(kept) by {
      hide WellFormedVariable, QuietValue, ValueVariables, FieldVariables;
      KeptAreDeclared(ds, FieldVariables(f'));
    }
    hide SynthesizeRootOperation, InitialText, RenderOperation, ReadOperation, VariablesIn, WellFormedVariables,
         ConstantDefaults, FieldVariables;
    SynthesizedOperation(kind, ds, f, f'.selections);
    ReadsRenderedOperation(kind, kept, f');
    ErasesNothing(f');
    OperationVariables(kind, kept, f');
  }

  lemma KeptAreDeclared(ds: seq<VariableDefinition>, used: set<string>)
    requires WellFormedVariables(ds) && ConstantDefaults(ds)
    ensures WellFormedVariables(KeptVariables(ds, used)) && ConstantDefaults(KeptVariables(ds, used))
  {
    hide WellFormedVariable, QuietValue, ValueVariables;
    var kept := KeptVariables(ds, used);
    forall i | 0 <= i < |kept| ensures exists j :: 0 <= j < |ds| && ds[j] == kept[i] {
      assert kept[i] in ds;
    }
  }

  lemma RootSelection(w: World, sg: string, vars: map<string, Json>, id: int, f: Field)
    ensures ExecuteSelections(w, sg, vars, id, [FieldSel(f)]) == map[ResponseKey(f) := ExecuteField(w, sg, vars, id, f)]
  {
    assert [FieldSel(f)][1..] == [] && Collected(w, id, []) == [];
    assert Collected(w, id, [FieldSel(f)]) == [f] + [] == [f];
    OneOfAKind(f);
    hide ExecuteField, Collected, Under, Joined;
  }

  lemma InitialCompletion(w: World, kind: OperationType, vars: map<string, Json>, f: Field, entity: EntityType,
                          initial: string)
    requires f.name != "__typename"
    ensures ExecuteField(w, initial, vars, Root(kind), InitialField(f, entity, initial))
         == Tree(RootResult(w, kind, initial, vars, f),
                 id => ExecuteSelections(w, initial, vars, id, InitialSelections(f.selections, entity, initial)))
  {
    hide InitialSelections;
    CompletesToTree(w, initial, vars, RootResult(w, kind, initial, vars, f),
                    InitialSelections(f.selections, entity, initial));
  }

  // ---- the entity answers -----------------------------------------------------------------------

  lemma EntityFieldIsWellFormed(f: Field, entity: EntityType, initial: string, typeName: string, sg: string)
    requires Printable(f, entity) && IsName(typeName)
    requires SentTo(f.selections, entity, initial, sg) != []
    ensures var e := EntityField(typeName, SentTo(f.selections, entity, initial, sg));
      WellFormedField(e) && EraseField(e) == e
  {
    var sent := SentTo(f.selections, entity, initial, sg);
    SentIsWellFormed(f, entity, initial, sg);
    hide SentTo, Printable;
    var inline := InlineFragment(Some(typeName), [], sent);
    assert WellFormedSelections(sent);
    assert WellFormedSelection(inline);
    assert WellFormedValue(Variable("representations"));
    assert EraseSelections(sent) == sent by {
      hide EraseSelection, DirectiveFreeSelection;
      ErasesNoSelections(sent);
    }
    assert [inline][1..] == [];
    assert EraseSelections([inline]) == [EraseSelection(inline)] + EraseSelections([]);
  }

  lemma RepresentationsWellFormed()
    ensures WellFormedVariables(REPRESENTATIONS)
  {
    assert IsName("_Any") && IsName("representations");
  }

  lemma EntityTextReads(f: Field, entity: EntityType, initial: string, typeName: string, sg: string)
    requires Printable(f, entity) && IsName(typeName)
    requires SentTo(f.selections, entity, initial, sg) != []
    ensures var sent := SentTo(f.selections, entity, initial, sg);
      ReadOperation(EntityQueryText(typeName, JoinSpace(Rendered(sent))))
      == Some(Operation(Query, None, REPRESENTATIONS, [FieldSel(EntityField(typeName, sent))]))
  {
    var sent := SentTo(f.selections, entity, initial, sg);
    EntityFieldIsWellFormed(f, entity, initial, typeName, sg);
    RepresentationsWellFormed();
    hide ReadOperation, SentTo, Printable, WellFormedField, WellFormedVariables, EraseField, JoinSpace, Rendered,
         RenderSelections, EntityQueryText, RenderOperation;
    BodyText(sent);
    EntityQueryIsPrinted(typeName, sent);
    ReadsRenderedOperation(Query, REPRESENTATIONS, EntityField(typeName, sent));
  }

  /** The data of an entity call: the selections of `sg` on each object, in order. */
  ghost function EntityObjects(w: World, sg: string, vars: map<string, Json>, ids: seq<int>,
                               sels: seq<Selection>): (r: seq<Json>)
    ensures |r| == |ids| && forall i :: 0 <= i < |ids| ==> r[i] == Object(ExecuteSelections(w, sg, vars, ids[i], sels))
  {
    if ids == [] then []
    else [Object(ExecuteSelections(w, sg, vars, ids[0], sels))] + EntityObjects(w, sg, vars, ids[1..], sels)
  }

  /** The answer to an entity call. */
  ghost function EntityOutcome(w: World, sg: string, vars: map<string, Json>, ids: seq<int>,
                               sels: seq<Selection>): Outcome {
    var data := Object(map["_entities" := Array(EntityObjects(w, sg, vars, ids, sels))]);
    Answered(GraphQLResponse(Some(data), [], None))
  }

  lemma CompletesEntity(w: World, sg: string, vars: map<string, Json>, vars': map<string, Json>, id: int,
                        typeName: string, sels: seq<Selection>)
    requires w.applies(id, typeName) && SelectionsVariables(sels) == {}
    ensures ExecuteSelections(w, sg, vars, id, [InlineFragment(Some(typeName), [], sels)])
         == ExecuteSelections(w, sg, vars', id, sels)
  {
    var inline := InlineFragment(Some(typeName), [], sels);
    assert [inline][1..] == [] && Collected(w, id, []) == [];
    assert Collected(w, id, [inline]) == Collected(w, id, sels) + [] == Collected(w, id, sels);
    hide Collected, SelectionsVariables;
    SameCollected(w, sg, vars, id, [inline], sels);
    SelectionsAgree(w, sg, vars, vars', id, sels);
  }

  lemma {:induction false} CompletesEntities(w: World, sg: string, vars: map<string, Json>, vars': map<string, Json>,
                                             ids: seq<int>, typeName: string, sels: seq<Selection>)
    requires AllOfType(w, ids, typeName)
    requires SelectionsVariables(sels) == {}
    ensures CompleteAll(w, sg, vars, Entities(ids), [InlineFragment(Some(typeName), [], sels)])
         == EntityObjects(w, sg, vars', ids, sels)
  {
    hide ExecuteSelections;
    if ids != [] {
      CompletesEntity(w, sg, vars, vars', ids[0], typeName, sels);
      CompletesEntities(w, sg, vars, vars', ids[1..], typeName, sels);
      assert Entities(ids)[0] == Entity(ids[0]) && Entities(ids)[1..] == Entities(ids[1..]);
    }
  }

  /** What an extender is asked for holds no spread, and no variable but the one that the batched query declares. */
  predicate Answerable(sent: seq<Selection>) { SpreadFree(sent) && SelectionsVariables(sent) <= {"representations"} }

  lemma EntityQueryIsValid(typeName: string, sent: seq<Selection>)
    ensures IsValid(Operation(Query, None, REPRESENTATIONS, [FieldSel(EntityField(typeName, sent))]))
       <==> Answerable(sent)
  {
    var e, inline := EntityField(typeName, sent), InlineFragment(Some(typeName), [], sent);
    OneFieldIsValid(Query, REPRESENTATIONS, e);
    hide IsValid, SelectionsVariables, SpreadFree;
    EntityFieldUses(typeName, sent);
  }

  lemma EntityFieldUses(typeName: string, sent: seq<Selection>)
    ensures FieldVariables(EntityField(typeName, sent)) == {"representations"} + SelectionsVariables(sent)
    ensures SpreadFree(EntityField(typeName, sent).selections) <==> SpreadFree(sent)
    ensures DeclaredNames(REPRESENTATIONS) == {"representations"}
  {
    var inline := InlineFragment(Some(typeName), [], sent);
    assert [inline][1..] == [] && SelectionsVariables([inline]) == SelectionsVariables(sent) + {};
    assert SpreadFree([inline]) <==> SpreadFreeSelection([inline][0]);
    var args := [Argument("representations", Variable("representations"))];
    assert args[1..] == [] && ArgumentsVariables(args) == {"representations"} + {};
    assert REPRESENTATIONS[1..] == [] && DeclaredNames(REPRESENTATIONS) == {"representations"} + {};
  }

  /** An extender answers without an error exactly when it is asked for nothing that its query does not define. */
  lemma EntityErrorsExactly(w: World, f: Field, entity: EntityType, initial: string, typeName: string, sg: string,
                            given: map<string, Json>)
    requires Printable(f, entity) && IsName(typeName) && SentTo(f.selections, entity, initial, sg) != []
    ensures var sent := SentTo(f.selections, entity, initial, sg);
      var outcome := Answer(w, sg, EntityQueryText(typeName, JoinSpace(Rendered(sent))), given, None);
      outcome.Answered? && (outcome.response.errors == [] <==> Answerable(sent))
  {
    var sent := SentTo(f.selections, entity, initial, sg);
    EntityTextReads(f, entity, initial, typeName, sg);
    EntityQueryIsValid(typeName, sent);
    hide SentTo, Printable, ReadOperation, EntityQueryText, ExecuteSelections, Coerce, Answer, Rendered, JoinSpace,
         EntityField, Answerable, IsValid;
    ReadTextIsExecuted(w, sg, EntityQueryText(typeName, JoinSpace(Rendered(sent))), given,
                       Operation(Query, None, REPRESENTATIONS, [FieldSel(EntityField(typeName, sent))]));
  }

  lemma EntityAnswer(w: World, f: Field, entity: EntityType, initial: string, typeName: string, sg: string,
                     vars: map<string, Json>, ids: seq<int>, keyOf: int -> Atom)
    requires Stitchable(f, entity, initial) && IsName(typeName) && sg != initial
    requires SentTo(f.selections, entity, initial, sg) != []
    requires Keyed(w, typeName, EntityKey(entity), keyOf, initial)
    requires AllOfType(w, ids, typeName)
    ensures var sent := SentTo(f.selections, entity, initial, sg);
      var reps := Representations(typeName, EntityKey(entity), KeysOf(ids, keyOf));
      Answer(w, sg, EntityQueryText(typeName, JoinSpace(Rendered(sent))), EntityVariables(reps), None)
      == EntityOutcome(w, sg, vars, ids, sent)
  {
    var sent := SentTo(f.selections, entity, initial, sg);
    var reps := Representations(typeName, EntityKey(entity), KeysOf(ids, keyOf));
    SentIsAnswerable(f, entity, initial, sg);
    EntityTextReads(f, entity, initial, typeName, sg);
    EntityQueryIsValid(typeName, sent);
    hide SentTo, Stitchable, ReadOperation, Keyed, EntityQueryText, ExecuteSelections, EntityVariables, Coerce,
         Answer, SelectionsVariables, Rendered, JoinSpace, EntityField, AllOfType, Representations, KeysOf,
         EntityObjects, IsName, IsValid, SpreadFree;
    EntityGiven(EntityVariables(reps)) by { EntityVariableNames(reps); }
    EntityExecution(w, entity, initial, typeName, sg, vars, ids, keyOf, sent);
    ReadTextIsExecuted(w, sg, EntityQueryText(typeName, JoinSpace(Rendered(sent))), EntityVariables(reps),
                       Operation(Query, None, REPRESENTATIONS, [FieldSel(EntityField(typeName, sent))]));
  }

  lemma EntityVariableNames(reps: seq<Json>)
    ensures EntityVariables(reps).Keys == {"representations"}
  {
  }

  lemma EntityExecution(w: World, entity: EntityType, initial: string, typeName: string, sg: string,
                        vars: map<string, Json>, ids: seq<int>, keyOf: int -> Atom, sent: seq<Selection>)
    requires Keyed(w, typeName, EntityKey(entity), keyOf, initial)
    requires AllOfType(w, ids, typeName)
    requires SelectionsVariables(sent) == {}
    ensures ExecuteSelections(w, sg, EntityVariables(Representations(typeName, EntityKey(entity),
                                                                     KeysOf(ids, keyOf))), QUERY_ROOT,
                              [FieldSel(EntityField(typeName, sent))])
         == map["_entities" := Array(EntityObjects(w, sg, vars, ids, sent))]
  {
    var given := EntityVariables(Representations(typeName, EntityKey(entity), KeysOf(ids, keyOf)));
    var e := EntityField(typeName, sent);
    EntityGiven(given);
    assert w.resolve(sg, QUERY_ROOT, "_entities", given) == Many(Entities(ids));
    hide Keyed, ExecuteSelections, EntityVariables, Representations;
    RootSelection(w, sg, given, QUERY_ROOT, e);
    CompletesEntities(w, sg, given, vars, ids, typeName, sent);
    assert ExecuteField(w, sg, given, QUERY_ROOT, e) == Complete(w, sg, given, Many(Entities(ids)), e.selections);
  }

  lemma EntityGiven(given: map<string, Json>)
    requires given.Keys == {"representations"}
    ensures Coerce(REPRESENTATIONS, given) == given
    ensures Arguments([Argument("representations", Variable("representations"))], given) == given
  {
    assert REPRESENTATIONS[1..] == [];
    var args := [Argument("representations", Variable("representations"))];
    assert args[1..] == [];
    assert Arguments(args[1..], given) == map[];
  }
}
