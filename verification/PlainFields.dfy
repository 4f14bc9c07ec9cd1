/** Root fields for which the planner guesses no entity type: one subgraph answers the whole field. */
module PlainFields {
  import opened Common
  import opened Ast
  import opened Render
  import opened Reader
  import opened RoundTrip
  import opened Scanners
  import opened Synthesis
  import opened Responses
  import opened Fetches
  import opened Catalog
  import opened Planner
  import opened Executor
  import Merge
  import opened Evaluation
  import opened Federation

  /** One such field of a request: the plan that was made for it, and the graph it is executed over. */
  datatype PlainScenario = PlainScenario(
    w: World, send: Send, kind: OperationType, ds: seq<VariableDefinition>, provided: map<string, Json>, f: Field,
    catalog: SupergraphCatalog, order: HashOrder, fetch: FieldFetch, initial: string)
  {
    /** The plan was made for this field, and guessed no type. */
    ghost predicate Planned() {
      && IterationOrder(order, catalog) && RoutesNamed(catalog)
      && PlanField(kind, ds, f, catalog, order) == Plan(fetch) && fetch.entityType == None
      && f.name in RootOwners(kind, catalog) && RootOwners(kind, catalog)[f.name] == initial
    }

    /** Every subgraph conforms, and the text can be read back: no object argument is cut. */
    ghost predicate Readable() {
      && Planned()
      && WellFormedField(f) && QuietField(f) && DirectiveFree(f)
      && (f.selections != [] || !HasObjectArgument(f.arguments))
      && WellFormedVariables(ds) && ConstantDefaults(ds) && FieldVariables(f) <= DeclaredNames(ds)
      && Conforms(send, w)
    }

    /** And no fragment is missing. */
    ghost predicate Sound() { Readable() && SpreadFree(f.selections) }

    function Result(): FieldFetchResult { FieldResult(fetch, Object(provided), None, send) }

    /** The value of the field in its own subgraph. */
    function Direct(): Json { ExecuteField(w, initial, Coerce(ds, provided), Root(kind), f) }
  }

  lemma PlanUnfolds(s: PlainScenario)
    requires s.Planned()
    ensures var text := SynthesizeRootOperation(s.kind, s.ds, s.f, SelectionSetText(s.f));
      && s.fetch.responseKey == ResponseKey(s.f) && s.fetch.initial.route.name == s.initial
      && s.fetch.initial.queryText == text && s.fetch.initial.variableNames == VariablesIn(text)
      && s.fetch.entityFetches == []
  {
    hide SynthesizeRootOperation, SelectionSetText, InitialText, VariablesIn, RequestedKeys, BestType, EntityFetches;
  }

  lemma TextReads(s: PlainScenario)
    requires s.Readable()
    ensures var text, kept := s.fetch.initial.queryText, KeptVariables(s.ds, FieldVariables(s.f));
      && ReadOperation(text) == Some(Operation(s.kind, None, kept, [FieldSel(s.f)]))
      && FieldVariables(s.f) <= VariablesIn(text)
  {
    var kept, end := KeptVariables(s.ds, FieldVariables(s.f)), if s.f.selections == [] then "  }" else " }";
    PlanUnfolds(s);
    hide PlanField, SynthesizeRootOperation, VariablesIn, ReadOperation, FieldVariables, KeptVariables,
         WellFormedField, QuietField, DirectiveFree, WellFormedVariables, ConstantDefaults, Conforms, RenderField,
         RenderVariableList, IterationOrder, Closes, Keyword, SelectionSetText, HasObjectArgument, RoutesNamed,
         RootOwners;
    PassedThroughText(s.kind, s.ds, s.f);
    KeptAreDeclared(s.ds, FieldVariables(s.f));
    ClosingBrace();
    ErasesNothing(s.f);
    ReadsClosedOperation(s.kind, kept, s.f, end);
    ClosedVariables(s.kind, kept, s.f, end);
  }

  lemma OutcomeIs(s: PlainScenario)
    requires s.Readable()
    ensures s.Result().field == s.fetch && s.fetch.responseKey == ResponseKey(s.f) && s.Result().entities == []
    ensures s.Result().initial.outcome
         == if SpreadFree(s.f.selections) then
              Answered(GraphQLResponse(Some(Object(map[ResponseKey(s.f) := s.Direct()])), [], None))
            else RequestError("invalid document")
  {
    PlanUnfolds(s);
    TextReads(s);
    hide PlanField, SynthesizeRootOperation, VariablesIn, ReadOperation, FieldVariables, KeptVariables,
         WellFormedField, QuietField, DirectiveFree, WellFormedVariables, ConstantDefaults, IterationOrder, Answer,
         SubsetVariables, ExecuteField, Coerce, HasObjectArgument, RootOwners, RoutesNamed, SpreadFree, DeclaredNames;
    var text := s.fetch.initial.queryText;
    SentFieldIsAnswered(s.w, s.kind, s.ds, s.provided, s.initial, s.f, text);
    var sent := SubsetVariables(Object(s.provided), s.fetch.initial.variableNames);
    assert s.send(s.initial, text, sent, None).0 == Answer(s.w, s.initial, text, sent, None);
  }

  /** Whatever the field is, its value is the one that its subgraph gives the field itself, and no error is reported. */
  lemma PassedThrough(s: PlainScenario)
    requires s.Sound()
    ensures Merge.FieldValue(s.Result()) == s.Direct() && Merge.FieldErrors(s.Result()) == []
    ensures s.Result().field == s.fetch && s.fetch.responseKey == ResponseKey(s.f)
  {
    OutcomeIs(s);
    hide PlanField, IterationOrder, SpreadFree, FieldVariables, DeclaredNames, PlainScenario.Direct, FieldResult;
    PlannedPlain(s);
  }

  lemma PlannedPlain(s: PlainScenario)
    requires s.Planned()
    ensures s.fetch.entityType == None
  {
    hide PlanField, IterationOrder;
  }

  /** Such a field gets an error exactly when a fragment spread stands in it, and then it is null. */
  lemma SpreadsFailExactly(s: PlainScenario)
    requires s.Readable()
    ensures Merge.FieldErrors(s.Result()) == [] <==> SpreadFree(s.f.selections)
    ensures !SpreadFree(s.f.selections) ==> Merge.FieldValue(s.Result()) == Null
  {
    OutcomeIs(s);
    hide PlanField, IterationOrder, SpreadFree, FieldVariables, DeclaredNames, PlainScenario.Direct, FieldResult;
    PlannedPlain(s);
  }
}
