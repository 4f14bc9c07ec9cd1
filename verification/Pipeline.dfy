/** The main theorem for whole requests: limits, plan, execution and merge give what direct evaluation gives. */
module Pipeline {
  import opened Common
  import opened Ast
  import opened Responses
  import opened Fetches
  import opened Planner
  import opened MergeProperties
  import opened Federation
  import opened Stitching
  import opened Boundary
  import opened PlainFields
  import opened Server
  import Catalog
  import Cost
  import Executor
  import Merge

  predicate AllPlanned(sels: seq<Selection>) { forall i :: 0 <= i < |sels| ==> sels[i].FieldSel? && IsPlanned(sels[i]) }

  ghost predicate PlannedEach(kind: OperationType, vars: seq<VariableDefinition>, sels: seq<Selection>,
                              catalog: Catalog.SupergraphCatalog, orders: nat -> HashOrder, fetches: seq<FieldFetch>)
    requires forall i :: IterationOrder(orders(i), catalog)
  {
    && |fetches| == |sels|
    && forall i :: 0 <= i < |sels| ==>
         sels[i].FieldSel? && PlanField(kind, vars, sels[i].field, catalog, orders(i)) == Plan(fetches[i])
  }

  /** Where every root selection is a field to plan, the plan holds the fetches of these fields, in order. */
  lemma {:induction false} PlannedInOrder(kind: OperationType, vars: seq<VariableDefinition>, sels: seq<Selection>,
                                          catalog: Catalog.SupergraphCatalog, orders: nat -> HashOrder)
    requires forall i :: IterationOrder(orders(i), catalog)
    requires AllPlanned(sels) && PlanSelections(kind, vars, sels, catalog, orders).Plan?
    ensures PlannedEach(kind, vars, sels, catalog, orders, PlanSelections(kind, vars, sels, catalog, orders).value)
  {
    hide PlanField, IterationOrder;
    if sels != [] {
      PlannedInOrder(kind, vars, sels[..|sels| - 1], catalog, orders);
    }
  }

  /** A root field with a guessed entity type, or without one. */
  datatype RootField = Guessed(s: Scenario) | Plain(p: PlainScenario)
  {
    ghost predicate Sound() { if Guessed? then s.Sound() else p.Sound() }

    function Key(): string { if Guessed? then ResponseKey(s.f) else ResponseKey(p.f) }

    function Fetch(): FieldFetch { if Guessed? then s.fetch else p.fetch }

    ghost function Direct(): Json
      requires Sound()
    {
      if Guessed? then DirectValue(s.w, s.kind, s.Entity(), s.initial, s.Vars(), s.f) else p.Direct()
    }

    /** The value comes out as the direct one; a field without a guessed type always does. */
    ghost predicate ComesOut()
      requires Sound()
    {
      Guessed? ==> Stitches(s)
    }

    /** This is the i-th root field of the operation, in this request to this site. */
    ghost predicate Describes(site: Site, op: Operation, provided: map<string, Json>, orders: nat -> HashOrder,
                              send: Executor.Send, i: nat) {
      && i < |op.selections| && op.selections[i].FieldSel?
      && match this
         case Guessed(s) =>
           && s.send == send && s.kind == op.operationType && s.ds == op.variables && s.provided == provided
           && s.f == op.selections[i].field && s.catalog == site.catalog && s.order == orders(i)
         case Plain(p) =>
           && p.send == send && p.kind == op.operationType && p.ds == op.variables && p.provided == provided
           && p.f == op.selections[i].field && p.catalog == site.catalog && p.order == orders(i)
    }
  }

  /** All the root fields, each of them sound, under distinct response keys. */
  ghost predicate DescribeAll(fs: seq<RootField>, site: Site, op: Operation, provided: map<string, Json>,
                              orders: nat -> HashOrder, send: Executor.Send) {
    && AllPlanned(op.selections) && |fs| == |op.selections|
    && (forall i :: 0 <= i < |fs| ==> fs[i].Sound() && fs[i].Describes(site, op, provided, orders, send, i))
    && (forall i, j :: 0 <= i < j < |fs| ==> fs[i].Key() != fs[j].Key())
  }

  /** No error, and a value under each response key and no other. */
  ghost predicate Answers(body: GraphQLResponse, fs: seq<RootField>) {
    && body.errors == [] && body.data.Some? && body.data.value.Object?
    && (forall k :: k in body.data.value.fields ==> exists i :: 0 <= i < |fs| && fs[i].Key() == k)
    && (forall i :: 0 <= i < |fs| ==> fs[i].Key() in body.data.value.fields)
  }

  /** And the value is each time the directly evaluated one. */
  ghost predicate AnswersDirectly(body: GraphQLResponse, fs: seq<RootField>) {
    Answers(body, fs) && forall i :: 0 <= i < |fs| ==>
      fs[i].Sound() && body.data.value.fields[fs[i].Key()] == fs[i].Direct()
  }

  ghost predicate AllComeOut(fs: seq<RootField>) { forall i :: 0 <= i < |fs| ==> fs[i].Sound() && fs[i].ComesOut() }

  lemma {:induction false} NoErrors(rs: seq<FieldFetchResult>)
    requires forall i :: 0 <= i < |rs| ==> Merge.FieldErrors(rs[i]) == []
    ensures Merge.ErrorsOf(rs) == []
  {
    hide Merge.FieldErrors;
    if rs != [] {
      NoErrors(rs[..|rs| - 1]);
    }
  }

  /**
   * A request that names no operation, whose root fields are all sound and have distinct response
   * keys: its response has no error, and under the response key of each root field, and under no
   * other, the directly evaluated value, exactly where that field comes out. So the response is
   * the direct one exactly when all of them come out.
   */
  lemma PipelineEqualsDirect(site: Site, req: Request, document: Document, orders: nat -> HashOrder,
                             send: Executor.Send, op: Operation, provided: map<string, Json>, fs: seq<RootField>)
    requires LawfulOrders(site, orders) && PickOperation(document, None) == Plan(op)
    requires req.operationName == None && req.variables == Object(provided)
    requires Compute(site, req, document, orders, send).Ran?
    requires DescribeAll(fs, site, op, provided, orders, send)
    ensures var body := Compute(site, req, document, orders, send).body;
      && Answers(body, fs)
      && (forall i :: 0 <= i < |fs| ==>
           fs[i].Sound() && (body.data.value.fields[fs[i].Key()] == fs[i].Direct() <==> fs[i].ComesOut()))
      && (AnswersDirectly(body, fs) <==> AllComeOut(fs))
  {
    hide Cost.Analyzed, PlanField, PlanSelections, IterationOrder, Merge.FieldErrors, Merge.FieldValue,
         Executor.FieldResult, AllPlanned, RootField.Direct, RootField.ComesOut, RootField.Sound;
    var plan := PlanOperation(document, None, site.catalog, orders).value;
    PlannedInOrder(op.operationType, op.variables, op.selections, site.catalog, orders);
    var rs := Results(plan, req, send);
    forall i | 0 <= i < |fs| ensures GivesResult(fs[i], rs[i]) {
      FieldComesOut(fs[i], site, op, provided, orders, send, i);
      assert plan.fieldFetches[i] == fs[i].Fetch();
    }
    hide RootField.Describes, Results;
    MergedAnswers(rs, fs);
  }

  /** The field's result, and what the theorem says of it. */
  ghost predicate GivesResult(f: RootField, r: FieldFetchResult) {
    && r.field.responseKey == f.Key() && Merge.FieldErrors(r) == []
    && f.Sound() && (Merge.FieldValue(r) == f.Direct() <==> f.ComesOut())
  }

  lemma MergedAnswers(rs: seq<FieldFetchResult>, fs: seq<RootField>)
    requires |rs| == |fs| && forall i :: 0 <= i < |fs| ==> GivesResult(fs[i], rs[i])
    requires forall i, j :: 0 <= i < j < |fs| ==> fs[i].Key() != fs[j].Key()
    ensures var body := MergedBody(rs);
      && Answers(body, fs)
      && (forall i :: 0 <= i < |fs| ==>
           fs[i].Sound() && (body.data.value.fields[fs[i].Key()] == fs[i].Direct() <==> fs[i].ComesOut()))
      && (AnswersDirectly(body, fs) <==> AllComeOut(fs))
  {
    hide Merge.FieldErrors, Merge.FieldValue, RootField.Direct, RootField.ComesOut, RootField.Sound;
    NoErrors(rs);
    FieldsAreIndependent(rs);
  }

  lemma FieldComesOut(f: RootField, site: Site, op: Operation, provided: map<string, Json>, orders: nat -> HashOrder,
                      send: Executor.Send, i: nat)
    requires LawfulOrders(site, orders) && f.Sound() && f.Describes(site, op, provided, orders, send, i)
    ensures PlanField(op.operationType, op.variables, op.selections[i].field, site.catalog, orders(i))
         == Plan(f.Fetch())
    ensures GivesResult(f, Executor.FieldResult(f.Fetch(), Object(provided), None, send))
  {
    hide PlanField, Executor.FieldResult, Merge.FieldErrors, Merge.FieldValue, DirectValue, Stitches,
         IterationOrder, PlainScenario.Direct;
    match f
    case Guessed(s) =>
      StitchedEqualsDirectExactly(s);
      StitchedWithoutErrors(s);
      PlannedKey(s);
      ResultIs(s);
    case Plain(p) => PassedThrough(p);
  }
}
