/** The query planner (plan/planner.rs). */
module Planner {
  import opened Common
  import opened Ast
  import opened Render
  import opened Scanners
  import opened Fetches
  import opened Catalog

  datatype PlanError =
    | NoOperations
    | UnknownOperation(name: string)
    | AmbiguousOperation
    | UnsupportedSubscription
    | UnknownRootField(field: string)
    | UnknownSubgraph(name: string)

  datatype Planned<+T> = Plan(value: T) | Refused(error: PlanError)

  /** The order in which a hash map yields its keys is not fixed, so it is an input here. */
  datatype HashOrder = HashOrder(types: seq<string>, groups: seq<string>)

  predicate Distinct(s: seq<string>) { forall i, j :: 0 <= i < j < |s| ==> s[i] != s[j] }

  // ---- pick_operation -------------------------------------------------------------------

  function Operations(ds: seq<Definition>): seq<Operation> {
    if ds == [] then []
    else (if ds[0].OperationDefinition? then [ds[0].op] else []) + Operations(ds[1..])
  }

  function FindOperation(ops: seq<Operation>, name: string): Option<Operation> {
    if ops == [] then None
    else if ops[0].name == Some(name) then Some(ops[0])
    else FindOperation(ops[1..], name)
  }

  function PickOperation(document: Document, requested: Option<string>): Planned<Operation> {
    var ops := Operations(document.definitions);
    if ops == [] then Refused(NoOperations)
    else
      match requested
      case Some(name) =>
        (match FindOperation(ops, name)
         case Some(op) => Plan(op)
         case None => Refused(UnknownOperation(name)))
      case None => if |ops| == 1 then Plan(ops[0]) else Refused(AmbiguousOperation)
  }

  // ---- guess_entity_type --------------------------------------------------------------------

  /** How many selected sub-fields the type declares. */
  function Score(sels: seq<Selection>, entity: EntityType): nat {
    if sels == [] then 0
    else (if sels[0].FieldSel? && sels[0].field.name in entity.fieldOwners then 1 else 0) + Score(sels[1..], entity)
  }

  /** The first type, in the map's own order, whose score is positive and not exceeded before it. */
  function BestType(sels: seq<Selection>, catalog: SupergraphCatalog, types: seq<string>): (r: Option<string>)
    requires forall t :: t in types ==> t in catalog.entityTypes
    ensures r.Some? ==> r.value in types
  {
    if types == [] then None
    else
      var best := BestType(sels, catalog, types[..|types| - 1]);
      var last := types[|types| - 1];
      var bestScore := if best.Some? then Score(sels, catalog.entityTypes[best.value]) else 0;
      if Score(sels, catalog.entityTypes[last]) > bestScore then Some(last) else best
  }

  method GuessEntityType(f: Field, catalog: SupergraphCatalog, types: seq<string>) returns (best: Option<string>)
    requires forall t :: t in types ==> t in catalog.entityTypes
    ensures best == BestType(f.selections, catalog, types)
  {
    best := None;
    var bestScore := 0;
    for i := 0 to |types|
      invariant best == BestType(f.selections, catalog, types[..i])
      invariant bestScore == if best.Some? then Score(f.selections, catalog.entityTypes[best.value]) else 0
    {
      assert types[..i + 1][..i] == types[..i];
      var score := Score(f.selections, catalog.entityTypes[types[i]]);
      if score > bestScore {
        best, bestScore := Some(types[i]), score;
      }
    }
    assert types[..|types|] == types;
  }

  // ---- partition_for_entity -------------------------------------------------------------------

  function EntityKey(entity: EntityType): string {
    if entity.keyFields == [] then "id" else entity.keyFields[0]
  }

  function OwnerOf(entity: EntityType, name: string, initial: string): string {
    if name in entity.fieldOwners then entity.fieldOwners[name] else initial
  }

  /** A selection that the planner sends on: the bookkeeping fields and fragments are not. */
  predicate Sent(s: Selection, key: string) {
    s.FieldSel? && s.field.name != "__typename" && s.field.name != key
  }

  /** The selections sent to one subgraph, in selection order. */
  function SentTo(sels: seq<Selection>, entity: EntityType, initial: string, sg: string): seq<Selection> {
    if sels == [] then []
    else
      var last := sels[|sels| - 1];
      SentTo(sels[..|sels| - 1], entity, initial, sg)
      + if Sent(last, EntityKey(entity)) && OwnerOf(entity, last.field.name, initial) == sg then [last] else []
  }

  function Rendered(sels: seq<Selection>): (r: seq<string>)
    ensures |r| == |sels|
  {
    if sels == [] then [] else Rendered(sels[..|sels| - 1]) + [RenderSelection(sels[|sels| - 1])]
  }

  function JoinSpace(parts: seq<string>): string {
    if parts == [] then "" else if |parts| == 1 then parts[0] else parts[0] + " " + JoinSpace(parts[1..])
  }

  /** Fields of the initial fetch, and the fields grouped by extending subgraph, as texts. */
  datatype Partition = Partition(initial: seq<string>, extenders: map<string, seq<string>>)

  ghost predicate Partitions(p: Partition, sels: seq<Selection>, entity: EntityType, initial: string) {
    && p.initial == ["__typename", EntityKey(entity)] + Rendered(SentTo(sels, entity, initial, initial))
    && (forall sg :: sg in p.extenders <==> sg != initial && SentTo(sels, entity, initial, sg) != [])
    && (forall sg :: sg in p.extenders ==> p.extenders[sg] == Rendered(SentTo(sels, entity, initial, sg)))
  }

  method PartitionForEntity(f: Field, entity: EntityType, initialSubgraph: string) returns (p: Partition)
    ensures Partitions(p, f.selections, entity, initialSubgraph)
  {
    var key := EntityKey(entity);
    var initial := ["__typename", key];
    var extenders: map<string, seq<string>> := map[];
    for i := 0 to |f.selections|
      invariant Partitions(Partition(initial, extenders), f.selections[..i], entity, initialSubgraph)
    {
      var s := f.selections[i];
      PartitionStep(Partition(initial, extenders), f.selections[..i], s, entity, initialSubgraph);
      assert f.selections[..i + 1] == f.selections[..i] + [s];
      if s.FieldSel? && s.field.name != "__typename" && s.field.name != key {
        var owner := OwnerOf(entity, s.field.name, initialSubgraph);
        var rendered := RenderField(s.field);
        if owner == initialSubgraph {
          initial := initial + [rendered];
        } else {
          var group := if owner in extenders then extenders[owner] else [];
          extenders := extenders[owner := group + [rendered]];
        }
      }
    }
    assert f.selections[..|f.selections|] == f.selections;
    p := Partition(initial, extenders);
  }

  function Extended(p: Partition, s: Selection, entity: EntityType, initial: string): Partition {
    if !Sent(s, EntityKey(entity)) then p
    else
      var owner := OwnerOf(entity, s.field.name, initial);
      if owner == initial then p.(initial := p.initial + [RenderField(s.field)])
      else
        var group := if owner in p.extenders then p.extenders[owner] else [];
        p.(extenders := p.extenders[owner := group + [RenderField(s.field)]])
  }

  lemma SentToStep(sels: seq<Selection>, s: Selection, entity: EntityType, initial: string, sg: string)
    ensures SentTo(sels + [s], entity, initial, sg)
         == if Sent(s, EntityKey(entity)) && OwnerOf(entity, s.field.name, initial) == sg
            then SentTo(sels, entity, initial, sg) + [s] else SentTo(sels, entity, initial, sg)
  {
    assert (sels + [s])[..|sels|] == sels;
  }

  lemma RenderedStep(sels: seq<Selection>, s: Selection)
    ensures Rendered(sels + [s]) == Rendered(sels) + [RenderSelection(s)]
  {
    assert (sels + [s])[..|sels|] == sels;
  }

  lemma PartitionStep(p: Partition, sels: seq<Selection>, s: Selection, entity: EntityType, initial: string)
    requires Partitions(p, sels, entity, initial)
    ensures Partitions(Extended(p, s, entity, initial), sels + [s], entity, initial)
  {
    hide SentTo, Rendered, RenderField;
    forall sg
      ensures SentTo(sels + [s], entity, initial, sg)
           == if Sent(s, EntityKey(entity)) && OwnerOf(entity, s.field.name, initial) == sg
              then SentTo(sels, entity, initial, sg) + [s] else SentTo(sels, entity, initial, sg)
      ensures Rendered(SentTo(sels, entity, initial, sg) + [s])
           == Rendered(SentTo(sels, entity, initial, sg)) + [RenderSelection(s)]
    {
      SentToStep(sels, s, entity, initial, sg);
      RenderedStep(SentTo(sels, entity, initial, sg), s);
    }
    EmptyRendered();
  }

  lemma EmptyRendered()
    ensures Rendered([]) == []
  {
  }

  // ---- the plan of one root field ------------------------------------------------------------

  predicate StartsWith(s: string, prefix: string) { prefix <= s }

  predicate EndsWith(s: string, suffix: string) { |suffix| <= |s| && s[|s| - |suffix|..] == suffix }

  predicate LooksLikeList(name: string) {
    StartsWith(name, "search") || (EndsWith(name, "s") && !EndsWith(name, "ss"))
  }

  function RequestedKeys(sels: seq<Selection>, entity: EntityType): set<string> {
    set i | 0 <= i < |sels| && sels[i].FieldSel? && sels[i].field.name in entity.keyFields :: sels[i].field.name
  }

  function InitialText(sels: seq<Selection>, entity: EntityType, initial: string): string {
    "{ " + JoinSpace(["__typename", EntityKey(entity)] + Rendered(SentTo(sels, entity, initial, initial))) + " }"
  }

  function RootOwners(kind: OperationType, catalog: SupergraphCatalog): map<string, string> {
    if kind.Query? then catalog.rootQueryFields else catalog.rootMutationFields
  }

  function RootLabel(kind: OperationType): string { if kind.Query? then "Query" else "Mutation" }

  /** One entity fetch for each extending subgraph that has contributing selections. */
  function EntityFetches(sels: seq<Selection>, typeName: string, entity: EntityType, initial: string,
                         catalog: SupergraphCatalog, groups: seq<string>): Planned<seq<EntityFetch>> {
    if groups == [] then Plan([])
    else
      match EntityFetches(sels, typeName, entity, initial, catalog, groups[..|groups| - 1])
      case Refused(e) => Refused(e)
      case Plan(fetches) =>
        var sg := groups[|groups| - 1];
        if sg == initial || SentTo(sels, entity, initial, sg) == [] then Plan(fetches)
        else if sg !in catalog.subgraphs then Refused(UnknownSubgraph(sg))
        else
          var body := JoinSpace(Rendered(SentTo(sels, entity, initial, sg)));
          Plan(fetches + [EntityFetch(catalog.subgraphs[sg], typeName, EntityKey(entity), body)])
  }

  ghost predicate IterationOrder(order: HashOrder, catalog: SupergraphCatalog) {
    && Distinct(order.types) && (forall t :: t in order.types <==> t in catalog.entityTypes)
    && Distinct(order.groups)
    && forall t, n :: t in catalog.entityTypes && n in catalog.entityTypes[t].fieldOwners ==>
         catalog.entityTypes[t].fieldOwners[n] in order.groups
  }

  function PlanField(kind: OperationType, vars: seq<VariableDefinition>, f: Field,
                     catalog: SupergraphCatalog, order: HashOrder): Planned<FieldFetch>
    requires IterationOrder(order, catalog)
  {
    if f.name !in RootOwners(kind, catalog) then Refused(UnknownRootField(RootLabel(kind) + "." + f.name))
    else
      var owner := RootOwners(kind, catalog)[f.name];
      if owner !in catalog.subgraphs then Refused(UnknownSubgraph(owner))
      else
        var guess := BestType(f.selections, catalog, order.types);
        var text :=
          if guess.Some? then InitialText(f.selections, catalog.entityTypes[guess.value], owner)
          else SelectionSetText(f);
        var opText := SynthesizeRootOperation(kind, vars, f, text);
        var initial := InitialFetch(catalog.subgraphs[owner], opText, VariablesIn(opText));
        if guess.None? then
          Plan(FieldFetch(ResponseKey(f), LooksLikeList(f.name), None, initial, [], {}))
        else
          var entity := catalog.entityTypes[guess.value];
          match EntityFetches(f.selections, guess.value, entity, owner, catalog, order.groups)
          case Refused(e) => Refused(e)
          case Plan(fetches) =>
            Plan(FieldFetch(ResponseKey(f), LooksLikeList(f.name), guess, initial, fetches,
                            RequestedKeys(f.selections, entity)))
  }

  // ---- the plan of an operation ---------------------------------------------------------------

  /** Introspection fields and root fragments are passed over. */
  predicate IsPlanned(s: Selection) { s.FieldSel? && s.field.name !in {"__schema", "__type"} }

  function PlanSelections(kind: OperationType, vars: seq<VariableDefinition>, sels: seq<Selection>,
                          catalog: SupergraphCatalog, orders: nat -> HashOrder): Planned<seq<FieldFetch>>
    requires forall i :: IterationOrder(orders(i), catalog)
  {
    if sels == [] then Plan([])
    else
      var n := |sels| - 1;
      match PlanSelections(kind, vars, sels[..n], catalog, orders)
      case Refused(e) => Refused(e)
      case Plan(fetches) =>
        if !IsPlanned(sels[n]) then Plan(fetches)
        else
          match PlanField(kind, vars, sels[n].field, catalog, orders(n))
          case Refused(e) => Refused(e)
          case Plan(fetch) => Plan(fetches + [fetch])
  }

  function PlanOperation(document: Document, requested: Option<string>, catalog: SupergraphCatalog,
                         orders: nat -> HashOrder): Planned<ExecutionPlan>
    requires forall i :: IterationOrder(orders(i), catalog)
  {
    match PickOperation(document, requested)
    case Refused(e) => Refused(e)
    case Plan(op) =>
      if op.operationType.Subscription? then Refused(UnsupportedSubscription)
      else
        match PlanSelections(op.operationType, op.variables, op.selections, catalog, orders)
        case Refused(e) => Refused(e)
        case Plan(fetches) =>
          if fetches == [] then Refused(NoOperations)
          else Plan(ExecutionPlan(op.operationType, op.name, fetches))
  }

  // ---- the loops of plan_operation ----------------------------------------------------------------

  method CollectEntityFetches(p: Partition, f: Field, typeName: string, entity: EntityType, initial: string,
                              catalog: SupergraphCatalog, groups: seq<string>) returns (r: Planned<seq<EntityFetch>>)
    requires Partitions(p, f.selections, entity, initial)
    ensures r == EntityFetches(f.selections, typeName, entity, initial, catalog, groups)
  {
    hide SentTo, Rendered, JoinSpace;
    var fetches: seq<EntityFetch> := [];
    for i := 0 to |groups|
      invariant EntityFetches(f.selections, typeName, entity, initial, catalog, groups[..i]) == Plan(fetches)
    {
      var sg := groups[i];
      assert groups[..i + 1][..i] == groups[..i];
      if sg in p.extenders {
        if sg !in catalog.subgraphs {
          RefusedStays(f.selections, typeName, entity, initial, catalog, groups, i + 1);
          return Refused(UnknownSubgraph(sg));
        }
        fetches := fetches + [EntityFetch(catalog.subgraphs[sg], typeName, EntityKey(entity),
                                          JoinSpace(p.extenders[sg]))];
      }
    }
    assert groups[..|groups|] == groups;
    r := Plan(fetches);
  }

  lemma {:induction false} RefusedStays(sels: seq<Selection>, typeName: string, entity: EntityType, initial: string,
                                        catalog: SupergraphCatalog, groups: seq<string>, n: nat)
    requires n <= |groups|
    requires EntityFetches(sels, typeName, entity, initial, catalog, groups[..n]).Refused?
    ensures EntityFetches(sels, typeName, entity, initial, catalog, groups)
         == EntityFetches(sels, typeName, entity, initial, catalog, groups[..n])
    decreases |groups|
  {
    if n < |groups| {
      var init := groups[..|groups| - 1];
      assert init[..n] == groups[..n];
      RefusedStays(sels, typeName, entity, initial, catalog, init, n);
    } else {
      assert groups[..n] == groups;
    }
  }

  method PlanRootField(kind: OperationType, vars: seq<VariableDefinition>, f: Field,
                       catalog: SupergraphCatalog, order: HashOrder) returns (r: Planned<FieldFetch>)
    requires IterationOrder(order, catalog)
    ensures r == PlanField(kind, vars, f, catalog, order)
  {
    if f.name !in RootOwners(kind, catalog) {
      return Refused(UnknownRootField(RootLabel(kind) + "." + f.name));
    }
    var owner := RootOwners(kind, catalog)[f.name];
    if owner !in catalog.subgraphs {
      return Refused(UnknownSubgraph(owner));
    }
    hide RenderField, SelectionSetText, Stripped, VariablesIn, SentTo, LooksLikeList, RequestedKeys;
    var guess := GuessEntityType(f, catalog, order.types);
    var text;
    var p := Partition([], map[]);
    if guess.Some? {
      p := PartitionForEntity(f, catalog.entityTypes[guess.value], owner);
      text := "{ " + JoinSpace(p.initial) + " }";
    } else {
      text := SelectionSetText(f);
    }
    var stripped := StripSelectionSet(RenderField(f));
    var used := CollectVariableUses(stripped + " " + text);
    var opText := Keyword(kind) + RenderVariableList(KeptVariables(vars, used)) + " { " + (stripped + " " + text)
        + " }";
    assert opText == SynthesizeRootOperation(kind, vars, f, text);
    var names := CollectVariableUses(opText);
    var initial := InitialFetch(catalog.subgraphs[owner], opText, names);
    if guess.None? {
      return Plan(FieldFetch(ResponseKey(f), LooksLikeList(f.name), None, initial, [], {}));
    }
    var entity := catalog.entityTypes[guess.value];
    var fetches := CollectEntityFetches(p, f, guess.value, entity, owner, catalog, order.groups);
    match fetches {
      case Refused(e) => r := Refused(e);
      case Plan(fs) =>
        r := Plan(FieldFetch(ResponseKey(f), LooksLikeList(f.name), guess, initial, fs,
                             RequestedKeys(f.selections, entity)));
    }
  }

  lemma {:induction false} RefusedSelectionsStay(kind: OperationType, vars: seq<VariableDefinition>,
                                                 sels: seq<Selection>, catalog: SupergraphCatalog,
                                                 orders: nat -> HashOrder, n: nat)
    requires forall i :: IterationOrder(orders(i), catalog)
    requires n <= |sels| && PlanSelections(kind, vars, sels[..n], catalog, orders).Refused?
    ensures PlanSelections(kind, vars, sels, catalog, orders) == PlanSelections(kind, vars, sels[..n], catalog, orders)
    decreases |sels|
  {
    if n < |sels| {
      var init := sels[..|sels| - 1];
      assert init[..n] == sels[..n];
      RefusedSelectionsStay(kind, vars, init, catalog, orders, n);
    } else {
      assert sels[..n] == sels;
    }
  }

  method PlanRootFields(kind: OperationType, vars: seq<VariableDefinition>, sels: seq<Selection>,
                        catalog: SupergraphCatalog, orders: nat -> HashOrder) returns (r: Planned<seq<FieldFetch>>)
    requires forall i :: IterationOrder(orders(i), catalog)
    ensures r == PlanSelections(kind, vars, sels, catalog, orders)
  {
    hide PlanField;
    var fetches: seq<FieldFetch> := [];
    for i := 0 to |sels|
      invariant PlanSelections(kind, vars, sels[..i], catalog, orders) == Plan(fetches)
    {
      assert sels[..i + 1][..i] == sels[..i];
      if IsPlanned(sels[i]) {
        var one := PlanRootField(kind, vars, sels[i].field, catalog, orders(i));
        match one {
          case Refused(e) =>
            RefusedSelectionsStay(kind, vars, sels, catalog, orders, i + 1);
            return Refused(e);
          case Plan(fetch) => fetches := fetches + [fetch];
        }
      }
    }
    assert sels[..|sels|] == sels;
    r := Plan(fetches);
  }
}
