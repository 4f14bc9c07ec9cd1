/** Where the planner sends what, told on the catalogue's own maps (plan/planner.rs). */
module Routing {
  import opened Common
  import opened Ast
  import opened Render
  import opened Scanners
  import opened Fetches
  import opened Counting
  import opened Joins
  import opened Catalog
  import opened Planner
  import opened PlannerProperties
  import opened QueryShape

  // ---- the operation ---------------------------------------------------------------------------

  ghost predicate HasNoOperation(ds: seq<Definition>) { forall i :: 0 <= i < |ds| ==> !ds[i].OperationDefinition? }

  /** The i-th definition is the only operation. */
  ghost predicate IsOnlyOperation(ds: seq<Definition>, i: int) {
    0 <= i < |ds| && ds[i].OperationDefinition?
    && forall j :: 0 <= j < |ds| && ds[j].OperationDefinition? ==> j == i
  }

  predicate IsNamed(d: Definition, name: string) { d.OperationDefinition? && d.op.name == Some(name) }

  /** The i-th definition is the first operation of the name. */
  ghost predicate IsFirstNamed(ds: seq<Definition>, name: string, i: int) {
    0 <= i < |ds| && IsNamed(ds[i], name) && forall j :: 0 <= j < i ==> !IsNamed(ds[j], name)
  }

  lemma {:induction false} OperationsListed(ds: seq<Definition>)
    ensures Operations(ds) == [] <==> HasNoOperation(ds)
    ensures forall i :: IsOnlyOperation(ds, i) ==> Operations(ds) == [ds[i].op]
    ensures |Operations(ds)| == 1 ==> exists i :: IsOnlyOperation(ds, i)
  {
    if ds != [] {
      OperationsListed(ds[1..]);
      assert forall i :: 0 < i < |ds| ==> ds[i] == ds[1..][i - 1];
      if ds[0].OperationDefinition? {
        assert HasNoOperation(ds[1..]) ==> IsOnlyOperation(ds, 0);
        assert forall i :: IsOnlyOperation(ds, i) ==> i == 0 && HasNoOperation(ds[1..]);
      } else {
        assert forall i :: IsOnlyOperation(ds[1..], i) ==> IsOnlyOperation(ds, i + 1);
        assert forall i :: IsOnlyOperation(ds, i) ==> IsOnlyOperation(ds[1..], i - 1);
      }
    }
  }

  lemma {:induction false} FirstIsFound(ds: seq<Definition>, name: string)
    ensures match FindOperation(Operations(ds), name)
      case None => forall i :: 0 <= i < |ds| ==> !IsNamed(ds[i], name)
      case Some(op) => exists i :: IsFirstNamed(ds, name, i) && ds[i].op == op
  {
    if ds != [] {
      FirstIsFound(ds[1..], name);
      assert forall i :: 0 < i < |ds| ==> ds[i] == ds[1..][i - 1];
      var ops, more := Operations(ds), Operations(ds[1..]);
      assert ops == (if ds[0].OperationDefinition? then [ds[0].op] + more else more);
      assert ds[0].OperationDefinition? ==> ops[1..] == more;
      if IsNamed(ds[0], name) {
        assert IsFirstNamed(ds, name, 0);
        assert FindOperation(Operations(ds), name) == Some(ds[0].op);
      } else {
        assert FindOperation(ops, name) == FindOperation(more, name);
        assert forall i :: IsFirstNamed(ds[1..], name, i) ==> IsFirstNamed(ds, name, i + 1);
      }
    }
  }

  /**
   * A named request gets the first operation of the name; one without a name gets the only operation,
   * and is refused when there are several.
   */
  lemma PickedExactly(document: Document, requested: Option<string>)
    ensures var (ds, picked) := (document.definitions, PickOperation(document, requested));
      if HasNoOperation(ds) then picked == Refused(NoOperations)
      else match requested
        case Some(name) =>
          if forall i :: 0 <= i < |ds| ==> !IsNamed(ds[i], name) then picked == Refused(UnknownOperation(name))
          else exists i :: IsFirstNamed(ds, name, i) && picked == Plan(ds[i].op)
        case None =>
          if exists i :: IsOnlyOperation(ds, i) then exists i :: IsOnlyOperation(ds, i) && picked == Plan(ds[i].op)
          else picked == Refused(AmbiguousOperation)
  {
    OperationsListed(document.definitions);
    hide Operations, FindOperation, HasNoOperation, IsOnlyOperation;
    if requested.Some? {
      FirstIsFound(document.definitions, requested.value);
    }
  }

  // ---- the type guess --------------------------------------------------------------------------

  function DeclaredBy(entity: EntityType): Selection -> bool {
    (s: Selection) => s.FieldSel? && s.field.name in entity.fieldOwners
  }

  /** The score of a type is the number of selected fields whose name it declares. */
  lemma {:induction false} ScoreCounts(sels: seq<Selection>, entity: EntityType)
    ensures Score(sels, entity) == Count(sels, DeclaredBy(entity))
  {
    if sels == [] {
      CountNothing(DeclaredBy(entity));
    } else {
      ScoreCounts(sels[1..], entity);
      CountFirst(sels[0], sels[1..], DeclaredBy(entity));
      assert sels == [sels[0]] + sels[1..];
    }
  }

  // ---- the selections of an entity ---------------------------------------------------------------------

  /** The first key field of a type, or `id`, is fetched without being asked for, as `__typename` is. */
  predicate IsBookkeeping(name: string, entity: EntityType) {
    || name == "__typename"
    || (if |entity.keyFields| > 0 then name == entity.keyFields[0] else name == "id")
  }

  /** The subgraph that the catalogue lists for the field, or the initial one where it lists none. */
  predicate BelongsTo(name: string, entity: EntityType, initial: string, sg: string) {
    (name in entity.fieldOwners && entity.fieldOwners[name] == sg) || (name !in entity.fieldOwners && sg == initial)
  }

  predicate IsFor(s: Selection, entity: EntityType, initial: string, sg: string) {
    s.FieldSel? && !IsBookkeeping(s.field.name, entity) && BelongsTo(s.field.name, entity, initial, sg)
  }

  /** A subgraph is sent the selections that are for it, in their order, and no others. */
  lemma SentExactly(sels: seq<Selection>, entity: EntityType, initial: string, sg: string) returns (at: seq<nat>)
    ensures |at| == |SentTo(sels, entity, initial, sg)|
    ensures forall k :: 0 <= k < |at| ==> at[k] < |sels| && SentTo(sels, entity, initial, sg)[k] == sels[at[k]]
    ensures forall j, k :: 0 <= j < k < |at| ==> at[j] < at[k]
    ensures forall i :: 0 <= i < |sels| ==> (i in at <==> IsFor(sels[i], entity, initial, sg))
  {
    at := SentIndices(sels, entity, initial, sg);
    SentToItsOwnerOnly(sels, entity, initial, sg);
  }

  lemma SentSomething(sels: seq<Selection>, entity: EntityType, initial: string, sg: string)
    ensures SentTo(sels, entity, initial, sg) != [] <==>
            exists i :: 0 <= i < |sels| && IsFor(sels[i], entity, initial, sg)
  {
    var at := SentExactly(sels, entity, initial, sg);
    hide SentTo, IsFor;
    if at != [] {
      assert at[0] in at;
    }
  }

  /** The other subgraph that some selection is for. */
  ghost predicate IsAsked(sels: seq<Selection>, entity: EntityType, initial: string, sg: string) {
    sg != initial && exists i :: 0 <= i < |sels| && IsFor(sels[i], entity, initial, sg)
  }

  lemma {:induction false} RefusedForUnknownOwner(sels: seq<Selection>, typeName: string, entity: EntityType,
                                                  initial: string, catalog: SupergraphCatalog, groups: seq<string>)
    ensures var r := EntityFetches(sels, typeName, entity, initial, catalog, groups);
      && (r.Refused? <==> exists sg :: sg in groups && IsAsked(sels, entity, initial, sg) && sg !in catalog.subgraphs)
      && (r.Refused? ==>
            && r.error.UnknownSubgraph? && r.error.name in groups && r.error.name !in catalog.subgraphs
            && IsAsked(sels, entity, initial, r.error.name))
  {
    hide IsAsked, SentTo;
    if groups != [] {
      var init, sg := groups[..|groups| - 1], groups[|groups| - 1];
      RefusedForUnknownOwner(sels, typeName, entity, initial, catalog, init);
      assert groups == init + [sg];
      AskedIsSent(sels, entity, initial, sg);
    }
  }

  lemma AskedIsSent(sels: seq<Selection>, entity: EntityType, initial: string, sg: string)
    ensures IsAsked(sels, entity, initial, sg) <==> sg != initial && SentTo(sels, entity, initial, sg) != []
  {
    SentSomething(sels, entity, initial, sg);
  }

  /** Some selection's owner is no declared subgraph. */
  ghost predicate SomeOwnerIsUnknown(sels: seq<Selection>, entity: EntityType, initial: string,
                                     catalog: SupergraphCatalog) {
    exists sg :: IsAsked(sels, entity, initial, sg) && sg !in catalog.subgraphs
  }

  /** Every subgraph that is asked is among those that the planner goes through. */
  lemma AskedIsListed(sels: seq<Selection>, t: string, initial: string, sg: string, catalog: SupergraphCatalog,
                      order: HashOrder)
    requires IterationOrder(order, catalog) && t in catalog.entityTypes
    requires IsAsked(sels, catalog.entityTypes[t], initial, sg)
    ensures sg in order.groups
  {
  }

  // ---- the root field ------------------------------------------------------------------------------

  /** The key fields that are selected by name, whichever of them and under whatever alias. */
  lemma RequestedExactly(sels: seq<Selection>, entity: EntityType)
    ensures forall n :: n in RequestedKeys(sels, entity) <==>
              && n in entity.keyFields
              && exists i :: 0 <= i < |sels| && sels[i].FieldSel? && sels[i].field.name == n
  {
  }

  /**
   * A query field is looked up among the query fields and a mutation field among the mutation fields;
   * it is unknown exactly when it is not listed there, and is planned exactly when its owner and the
   * owners of its selections are declared. Its initial fetch goes to its owner.
   */
  lemma RootFieldIsRouted(kind: OperationType, vars: seq<VariableDefinition>, f: Field, catalog: SupergraphCatalog,
                          order: HashOrder, owners: map<string, string>)
    requires IterationOrder(order, catalog)
    requires (kind.Query? && owners == catalog.rootQueryFields)
             || (kind.Mutation? && owners == catalog.rootMutationFields)
    ensures var r, guess := PlanField(kind, vars, f, catalog, order), BestType(f.selections, catalog, order.types);
      if f.name !in owners then
        r == Refused(UnknownRootField((if kind.Query? then "Query." else "Mutation.") + f.name))
      else if owners[f.name] !in catalog.subgraphs then r == Refused(UnknownSubgraph(owners[f.name]))
      else if guess.Some? && SomeOwnerIsUnknown(f.selections, catalog.entityTypes[guess.value], owners[f.name], catalog)
      then
        r.Refused? && r.error.UnknownSubgraph? && r.error.name !in catalog.subgraphs
        && IsAsked(f.selections, catalog.entityTypes[guess.value], owners[f.name], r.error.name)
      else
        && r.Plan? && r.value.initial.route == catalog.subgraphs[owners[f.name]]
        && r.value.responseKey == (if f.alias.Some? then f.alias.value else f.name) && r.value.entityType == guess
        && (r.value.isList <==> NamesList(f.name))
        && forall n :: n in r.value.clientRequestedIdKeys <==>
             && guess.Some? && n in catalog.entityTypes[guess.value].keyFields
             && exists i :: 0 <= i < |f.selections| && f.selections[i].FieldSel? && f.selections[i].field.name == n
  {
    var guess := BestType(f.selections, catalog, order.types);
    NamesListExactly(f.name);
    if guess.Some? {
      RequestedExactly(f.selections, catalog.entityTypes[guess.value]);
    }
    hide BestType, InitialText, SelectionSetText, Stripped, VariablesIn, LooksLikeList, RequestedKeys, EntityFetches,
         IsAsked, RenderField, IterationOrder;
    assert RootOwners(kind, catalog) == owners;
    assert RootLabel(kind) + "." + f.name == (if kind.Query? then "Query." else "Mutation.") + f.name;
    if guess.Some? && f.name in owners {
      var entity, initial := catalog.entityTypes[guess.value], owners[f.name];
      RefusedForUnknownOwner(f.selections, guess.value, entity, initial, catalog, order.groups);
      forall sg | IsAsked(f.selections, entity, initial, sg) ensures sg in order.groups {
        AskedIsListed(f.selections, guess.value, initial, sg, catalog, order);
      }
    }
  }

  // ---- the whole operation -----------------------------------------------------------------------------

  predicate IsRootField(s: Selection) { s.FieldSel? && s.field.name != "__schema" && s.field.name != "__type" }

  /** The fetch is for this root field and goes to its owner. */
  predicate IsRouted(fetch: FieldFetch, s: Selection, catalog: SupergraphCatalog, owners: map<string, string>) {
    && s.FieldSel? && s.field.name in owners && owners[s.field.name] in catalog.subgraphs
    && fetch.initial.route == catalog.subgraphs[owners[s.field.name]]
    && fetch.responseKey == (if s.field.alias.Some? then s.field.alias.value else s.field.name)
  }

  /** One fetch for each root field but introspection, in order, each to the owner of its field. */
  ghost predicate AllRouted(fetches: seq<FieldFetch>, at: seq<nat>, sels: seq<Selection>, catalog: SupergraphCatalog,
                            owners: map<string, string>) {
    && PositionsWith(at, sels, IsRootField) && |at| == |fetches|
    && forall k :: 0 <= k < |at| ==> at[k] < |sels| && IsRouted(fetches[k], sels[at[k]], catalog, owners)
  }

  lemma PassedOver(fetches: seq<FieldFetch>, at: seq<nat>, sels: seq<Selection>, s: Selection,
                   catalog: SupergraphCatalog, owners: map<string, string>)
    requires AllRouted(fetches, at, sels, catalog, owners) && !IsRootField(s)
    ensures AllRouted(fetches, at, sels + [s], catalog, owners)
  {
    OneMorePosition(at, sels, s, IsRootField);
    hide PositionsWith, IsRouted, IsRootField;
    forall k | 0 <= k < |at| ensures IsRouted(fetches[k], (sels + [s])[at[k]], catalog, owners) {
      assert (sels + [s])[at[k]] == sels[at[k]];
    }
  }

  lemma OneMoreRouted(fetches: seq<FieldFetch>, at: seq<nat>, sels: seq<Selection>, s: Selection, fetch: FieldFetch,
                      catalog: SupergraphCatalog, owners: map<string, string>)
    requires AllRouted(fetches, at, sels, catalog, owners) && IsRootField(s) && IsRouted(fetch, s, catalog, owners)
    ensures AllRouted(fetches + [fetch], at + [|sels|], sels + [s], catalog, owners)
  {
    OneMorePosition(at, sels, s, IsRootField);
    hide PositionsWith, IsRouted, IsRootField;
    var fetches', at' := fetches + [fetch], at + [|sels|];
    forall k | 0 <= k < |at'|
      ensures at'[k] < |sels + [s]| && IsRouted(fetches'[k], (sels + [s])[at'[k]], catalog, owners)
    {
      if k < |at| {
        assert (sels + [s])[at[k]] == sels[at[k]];
      }
    }
  }

  lemma {:induction false} RootFieldsAreRouted(kind: OperationType, vars: seq<VariableDefinition>,
                                               sels: seq<Selection>, catalog: SupergraphCatalog,
                                               orders: nat -> HashOrder, owners: map<string, string>)
    returns (at: seq<nat>)
    requires forall i :: IterationOrder(orders(i), catalog)
    requires (kind.Query? && owners == catalog.rootQueryFields)
             || (kind.Mutation? && owners == catalog.rootMutationFields)
    requires PlanSelections(kind, vars, sels, catalog, orders).Plan?
    ensures AllRouted(PlanSelections(kind, vars, sels, catalog, orders).value, at, sels, catalog, owners)
  {
    hide PlanField, IterationOrder, AllRouted;
    if sels == [] {
      at := [];
      NothingRouted(catalog, owners);
    } else {
      var n := |sels| - 1;
      assert sels == sels[..n] + [sels[n]];
      at := RootFieldsAreRouted(kind, vars, sels[..n], catalog, orders, owners);
      var before := PlanSelections(kind, vars, sels[..n], catalog, orders).value;
      if IsRootField(sels[n]) {
        RootFieldIsRouted(kind, vars, sels[n].field, catalog, orders(n), owners);
        var fetch := PlanField(kind, vars, sels[n].field, catalog, orders(n)).value;
        OneMoreRouted(before, at, sels[..n], sels[n], fetch, catalog, owners);
        at := at + [n];
      } else {
        PassedOver(before, at, sels[..n], sels[n], catalog, owners);
      }
    }
  }

  lemma NothingRouted(catalog: SupergraphCatalog, owners: map<string, string>)
    ensures AllRouted([], [], [], catalog, owners)
  {
  }

  /**
   * The plan of an operation: subscriptions are refused, an operation without a root field to fetch has
   * no plan, and otherwise every fetch goes to the subgraph that owns its root field.
   */
  lemma OperationIsRouted(document: Document, requested: Option<string>, catalog: SupergraphCatalog,
                          orders: nat -> HashOrder, op: Operation)
    requires forall i :: IterationOrder(orders(i), catalog)
    requires PickOperation(document, requested) == Plan(op)
    ensures var r := PlanOperation(document, requested, catalog, orders);
      && (op.operationType.Subscription? ==> r == Refused(UnsupportedSubscription))
      && (!op.operationType.Subscription? && NoneWith(op.selections, IsRootField) ==> r == Refused(NoOperations))
      && (r.Plan? ==>
            var owners := if op.operationType.Query? then catalog.rootQueryFields else catalog.rootMutationFields;
            && r.value.operationType == op.operationType && r.value.operationName == op.name
            && exists at :: AllRouted(r.value.fieldFetches, at, op.selections, catalog, owners))
  {
    hide PickOperation, PlanSelections, AllRouted, IterationOrder, NoneWith, IsRootField;
    if NoneWith(op.selections, IsRootField) {
      NothingToPlan(op.operationType, op.variables, op.selections, catalog, orders);
    }
    var r := PlanOperation(document, requested, catalog, orders);
    if r.Plan? {
      var owners := if op.operationType.Query? then catalog.rootQueryFields else catalog.rootMutationFields;
      var at := RootFieldsAreRouted(op.operationType, op.variables, op.selections, catalog, orders, owners);
    }
  }

  lemma {:induction false} NothingToPlan(kind: OperationType, vars: seq<VariableDefinition>, sels: seq<Selection>,
                                         catalog: SupergraphCatalog, orders: nat -> HashOrder)
    requires forall i :: IterationOrder(orders(i), catalog)
    requires NoneWith(sels, IsRootField)
    ensures PlanSelections(kind, vars, sels, catalog, orders) == Plan([])
  {
    hide PlanField, IterationOrder;
    if sels != [] {
      NothingToPlan(kind, vars, sels[..|sels| - 1], catalog, orders);
    }
  }
}
