/** Requests whose fetches a conforming subgraph refuses: exactly when a field gets an error. */
module Refusals {
  import opened Common
  import opened Ast
  import opened Reader
  import opened Scanners
  import opened Synthesis
  import opened Responses
  import opened Fetches
  import opened Catalog
  import opened Planner
  import opened PlannerProperties
  import opened Executor
  import opened Evaluation
  import opened Trees
  import opened Federation
  import opened Stitching
  import Merge

  // ---- a named operation ---------------------------------------------------------------------------

  /**
   * A request that names its operation: the name is sent along with an unnamed operation, which
   * section 6.1 of the GraphQL specification makes a request error, so the field is null.
   */
  lemma NamedOperationIsRefused(s: Scenario, name: string)
    requires s.Sound()
    ensures var result := FieldResult(s.fetch, Object(s.provided), Some(name), s.send);
      && Merge.FieldValue(result) == Null
      && Merge.FieldErrors(result) == [GraphQLError("unknown operation", [], [], None)]
  {
    var text := s.fetch.initial.queryText;
    TextIsUnnamed(s);
    PlannedKey(s);
    hide PlanField, Stitchable, Keyed, ReadOperation, WellFormedVariables, ConstantDefaults, IterationOrder,
         RoutesNamed, RootOwners, AllOfType, SubsetVariables, ExecuteSelections, Scenario.Found, Scenario.Vars, Refs,
         IsValid;
    var sent := SubsetVariables(Object(s.provided), s.fetch.initial.variableNames);
    assert s.send(s.initial, text, sent, Some(name)).0 == Answer(s.w, s.initial, text, sent, Some(name))
        == RequestError("unknown operation");
  }

  lemma TextIsUnnamed(s: Scenario)
    requires s.Sound()
    ensures s.fetch.initial.route.name == s.initial
    ensures var op := ReadOperation(s.fetch.initial.queryText);
      op.Some? && op.value.name == None && IsValid(op.value)
  {
    PlanUnfolds(s.kind, s.ds, s.f, s.catalog, s.order, s.fetch, s.typeName, s.initial);
    hide PlanField, Keyed, SynthesizeRootOperation, InitialText, VariablesIn, Contributing, SentTo, WellFormedField,
         ReadOperation, QuietField, DirectiveFree, PlainSelections, VariableFreeExtenders, RequestedKeys,
         Scenario.Found, Scenario.Vars, Conforms, AllOfType, WellFormedVariables, ConstantDefaults, Stitchable,
         JoinSpace, Rendered;
    InitialTextReads(s.kind, s.ds, s.f, s.Entity(), s.initial);
    SoundIsClear(s);
    InitialSpreads(s.f.selections, s.Entity(), s.initial);
    InitialVariables(s.f, s.Entity(), s.initial);
    hide Printable, IsValid, SpreadFree, FieldVariables, DeclaredNames, KeptVariables, InitialSelections;
    PrunedIsValid(s.kind, s.ds, InitialField(s.f, s.Entity(), s.initial));
  }

  // ---- what the fetches do not define --------------------------------------------------------------

  /** An answer without errors exactly to what can be answered. */
  ghost predicate AnswersIf(outcome: Outcome, answerable: bool) {
    outcome.Answered? && (outcome.response.errors == [] <==> answerable)
  }

  lemma {:induction false} NoEntityErrorsExactly(key: string, entities: seq<EntityFetchResult>,
                                                 asked: seq<seq<Selection>>)
    requires |entities| == |asked|
    requires forall k :: 0 <= k < |entities| ==> AnswersIf(entities[k].outcome, Answerable(asked[k]))
    ensures Merge.AllEntityErrors(key, entities) == [] <==> forall k :: 0 <= k < |asked| ==> Answerable(asked[k])
  {
    hide Merge.Scoped, Answerable;
    if entities != [] {
      var n := |entities| - 1;
      NoEntityErrorsExactly(key, entities[..n], asked[..n]);
      assert forall k :: 0 <= k < n ==> entities[k] == entities[..n][k] && asked[k] == asked[..n][k];
      assert AnswersIf(entities[n].outcome, Answerable(asked[n]));
      assert Answerable(asked[n]) <==> Merge.EntityErrors(key, entities[n]) == [];
    }
  }

  /** What each contributor is asked for. */
  function Asked(sels: seq<Selection>, entity: EntityType, initial: string, sgs: seq<string>): (r: seq<seq<Selection>>)
    ensures |r| == |sgs| && forall k :: 0 <= k < |r| ==> r[k] == SentTo(sels, entity, initial, sgs[k])
  {
    if sgs == [] then []
    else [SentTo(sels, entity, initial, sgs[0])] + Asked(sels, entity, initial, sgs[1..])
  }

  /** Every contributor is asked only for what its query defines. */
  ghost predicate AllAnswerable(s: Scenario)
    requires s.Planned()
  {
    var asked := Asked(s.f.selections, s.Entity(), s.initial, s.Extenders());
    forall k :: 0 <= k < |asked| ==> Answerable(asked[k])
  }

  lemma EntityCallErrors(s: Scenario, reps: seq<Json>, k: nat)
    requires s.Readable() && k < |s.Extenders()|
    ensures k < |s.fetch.entityFetches|
    ensures AnswersIf(EntityCall(s.fetch.entityFetches[k], reps, s.send).outcome,
                      Answerable(SentTo(s.f.selections, s.Entity(), s.initial, s.Extenders()[k])))
  {
    FetchAt(s, k);
    hide PlanField, Printable, Keyed, Answer, Contributing, SentTo, WellFormedVariables, ConstantDefaults,
         IterationOrder, Ids, EntityQueryText, JoinSpace, Rendered, EntityVariables, RootOwners, RoutesNamed,
         AllOfType, Answerable, FieldVariables, DeclaredNames, Scenario.Found, Scenario.Vars;
    var fetch, sg := s.fetch.entityFetches[k], s.Extenders()[k];
    var text := EntityQueryText(fetch.typeName, fetch.fragmentBody);
    EntityErrorsExactly(s.w, s.f, s.Entity(), s.initial, s.typeName, sg, EntityVariables(reps));
    assert s.send(sg, text, EntityVariables(reps), None).0 == Answer(s.w, sg, text, EntityVariables(reps), None);
  }

  lemma EntityCallsErrors(s: Scenario, reps: seq<Json>)
    requires s.Readable()
    ensures Merge.AllEntityErrors(ResponseKey(s.f), EntityCalls(s.fetch.entityFetches, reps, s.send)) == []
       <==> AllAnswerable(s)
  {
    var es := EntityCalls(s.fetch.entityFetches, reps, s.send);
    var asked := Asked(s.f.selections, s.Entity(), s.initial, s.Extenders());
    FetchCount(s);
    hide Scenario.Found, Scenario.Vars, EntityCall, EntityCalls, Merge.AllEntityErrors, Contributing, SentTo,
         Answerable, Printable, Keyed, PlanField, Conforms, AllOfType, IterationOrder, WellFormedVariables,
         ConstantDefaults, FieldVariables, DeclaredNames, RootOwners, RoutesNamed, AnswersIf, Asked;
    forall k | 0 <= k < |es| ensures AnswersIf(es[k].outcome, Answerable(asked[k])) {
      EntityCallErrors(s, reps, k);
    }
    NoEntityErrorsExactly(ResponseKey(s.f), es, asked);
  }

  lemma FetchCount(s: Scenario)
    requires s.Planned()
    ensures |s.fetch.entityFetches| == |s.Extenders()|
  {
    hide PlanField, SynthesizeRootOperation, InitialText, VariablesIn, RequestedKeys, Contributing, SentTo, JoinSpace,
         Rendered;
    PlanUnfolds(s.kind, s.ds, s.f, s.catalog, s.order, s.fetch, s.typeName, s.initial);
  }

  lemma ClearErrorsExactly(s: Scenario)
    requires s.InitialIsClear()
    ensures Merge.FieldErrors(s.Result()) == [] <==> Ids(s.Found()) == [] || AllAnswerable(s)
  {
    ClearResultIs(s);
    PlannedKey(s);
    EntityCallsErrors(s, Representations(s.typeName, EntityKey(s.Entity()), KeysOf(Ids(s.Found()), s.keyOf)));
    hide PlanField, Printable, Keyed, Conforms, AllOfType, IterationOrder, RoutesNamed, WellFormedVariables,
         ConstantDefaults, RootOwners, FieldResult, Scenario.Vars, Scenario.Found, Ids, SpreadFree, FieldVariables,
         DeclaredNames, Contributing, SentTo, Answerable, EntityCalls, Representations, KeysOf, Scenario.Readable;
  }

  lemma SentContains(sels: seq<Selection>, entity: EntityType, initial: string, i: nat) returns (k: nat)
    requires i < |sels| && Sent(sels[i], EntityKey(entity))
    ensures var sent := SentTo(sels, entity, initial, OwnerOf(entity, sels[i].field.name, initial));
      k < |sent| && sent[k] == sels[i]
  {
    var sg := OwnerOf(entity, sels[i].field.name, initial);
    SentToItsOwnerOnly(sels, entity, initial, sg);
    assert i in SentIndices(sels, entity, initial, sg);
    k :| 0 <= k < |SentIndices(sels, entity, initial, sg)| && SentIndices(sels, entity, initial, sg)[k] == i;
  }

  /** No spread stands in a selection set exactly when none stands in what is sent of it. */
  lemma SpreadsAreSent(sels: seq<Selection>, entity: EntityType, initial: string, sgs: seq<string>,
                       asked: seq<seq<Selection>>)
    requires Covers(sels, entity, initial, sgs) && asked == Asked(sels, entity, initial, sgs)
    requires forall i :: 0 <= i < |sels| ==> Sent(sels[i], EntityKey(entity)) || SpreadFreeSelection(sels[i])
    ensures SpreadFree(sels) <==>
            SpreadFree(SentTo(sels, entity, initial, initial)) && forall k :: 0 <= k < |asked| ==> IsClear(asked[k])
  {
    hide SentTo, SpreadFreeSelection, OwnerOf;
    if SpreadFree(sels) {
      forall sg ensures SpreadFree(SentTo(sels, entity, initial, sg)) {
        forall k | 0 <= k < |SentTo(sels, entity, initial, sg)|
          ensures SpreadFreeSelection(SentTo(sels, entity, initial, sg)[k])
        {
          var i := SentToMembers(sels, entity, initial, sg, k);
        }
      }
    } else {
      var i :| 0 <= i < |sels| && !SpreadFreeSelection(sels[i]);
      var k := SentContains(sels, entity, initial, i);
      var sg := OwnerOf(entity, sels[i].field.name, initial);
      assert !SpreadFree(SentTo(sels, entity, initial, sg));
      if sg != initial {
        var n :| 0 <= n < |sgs| && sgs[n] == sg;
        assert !IsClear(asked[n]);
      }
    }
  }

  predicate IsClear(sent: seq<Selection>) { SpreadFree(sent) }

  lemma KeysHoldNoSpread(s: Scenario, i: nat)
    requires s.Readable() && i < |s.f.selections|
    ensures Sent(s.f.selections[i], EntityKey(s.Entity())) || SpreadFreeSelection(s.f.selections[i])
  {
    hide PlanField, Keyed, Conforms, AllOfType, IterationOrder, RoutesNamed, WellFormedVariables, ConstantDefaults,
         RootOwners, Scenario.Vars, Scenario.Found, FieldVariables, DeclaredNames, WellFormedField, QuietField,
         DirectiveFree;
    assert PlainField(s.f.selections[i].field, EntityKey(s.Entity()));
  }

  /** The fields of the extenders use no variable but the one that the batched query declares. */
  predicate BatchedVariablesOnly(sels: seq<Selection>, entity: EntityType, initial: string) {
    forall i ::
      0 <= i < |sels| && Sent(sels[i], EntityKey(entity)) && OwnerOf(entity, sels[i].field.name, initial) != initial ==>
      FieldVariables(sels[i].field) <= {"representations"}
  }

  /** The selections use no variable but the one that the batched query declares. */
  predicate Batchable(sent: seq<Selection>) { SelectionsVariables(sent) <= {"representations"} }

  lemma AnswerableIs(sent: seq<Selection>)
    ensures Answerable(sent) <==> IsClear(sent) && Batchable(sent)
  {
    hide SpreadFree, SelectionsVariables;
  }

  lemma VariablesAreSent(sels: seq<Selection>, entity: EntityType, initial: string, sgs: seq<string>,
                         asked: seq<seq<Selection>>)
    requires Covers(sels, entity, initial, sgs) && initial !in sgs && asked == Asked(sels, entity, initial, sgs)
    ensures BatchedVariablesOnly(sels, entity, initial) <==> forall k :: 0 <= k < |asked| ==> Batchable(asked[k])
  {
    hide FieldVariables, SentTo, OwnerOf, SelectionsVariables;
    if BatchedVariablesOnly(sels, entity, initial) {
      forall k | 0 <= k < |asked| ensures Batchable(asked[k]) {
        SentVariables(sels, entity, initial, sgs[k]);
      }
    } else {
      var i :| 0 <= i < |sels| && Sent(sels[i], EntityKey(entity))
          && OwnerOf(entity, sels[i].field.name, initial) != initial
               && !(FieldVariables(sels[i].field) <= {"representations"});
      var m := SentContains(sels, entity, initial, i);
      MemberVariables(SentTo(sels, entity, initial, OwnerOf(entity, sels[i].field.name, initial)), m);
      SentIsField(sels[i], EntityKey(entity));
      var n :| 0 <= n < |sgs| && sgs[n] == OwnerOf(entity, sels[i].field.name, initial);
      assert !Batchable(asked[n]);
    }
  }

  lemma SentIsField(s: Selection, key: string)
    requires Sent(s, key)
    ensures s.FieldSel? && SelectionVariables(s) == FieldVariables(s.field)
  {
  }

  lemma SentVariables(sels: seq<Selection>, entity: EntityType, initial: string, sg: string)
    requires BatchedVariablesOnly(sels, entity, initial) && sg != initial
    ensures SelectionsVariables(SentTo(sels, entity, initial, sg)) <= {"representations"}
  {
    var sent := SentTo(sels, entity, initial, sg);
    hide FieldVariables, SentTo, OwnerOf, SelectionsVariables;
    forall m | 0 <= m < |sent| ensures SelectionVariables(sent[m]) <= {"representations"} {
      var i := SentToMembers(sels, entity, initial, sg, m);
    }
    VariablesWithin(sent, {"representations"});
  }

  /**
   * A field with a guessed entity type gets no error exactly when no fragment spread stands in it,
   * and its extenders' fields use no variable of the request; where no object is found, no extender
   * is asked, and only what is sent to the initial subgraph matters.
   */
  lemma ErrorsExactly(s: Scenario)
    requires s.Readable()
    ensures Merge.FieldErrors(s.Result()) == [] <==>
              if Ids(s.Found()) == [] then s.InitialIsClear()
              else SpreadFree(s.f.selections) && BatchedVariablesOnly(s.f.selections, s.Entity(), s.initial)
    ensures !s.InitialIsClear() ==> Merge.FieldValue(s.Result()) == Null
  {
    WhatIsAsked(s);
    hide PlanField, Printable, Keyed, Conforms, AllOfType, IterationOrder, RoutesNamed, WellFormedVariables,
         ConstantDefaults, RootOwners, FieldResult, Scenario.Vars, Scenario.Found, Scenario.Result, Ids, SpreadFree,
         FieldVariables, DeclaredNames, Contributing, SentTo, BatchedVariablesOnly, Merge.FieldErrors, Merge.FieldValue,
         SelectionsVariables;
    if s.InitialIsClear() {
      ClearErrorsExactly(s);
    } else {
      UnclearIsRefused(s);
    }
  }

  lemma WhatIsAsked(s: Scenario)
    requires s.Readable()
    ensures SpreadFree(s.f.selections) && BatchedVariablesOnly(s.f.selections, s.Entity(), s.initial)
       <==> s.InitialIsClear() && AllAnswerable(s)
  {
    ExtendersCover(s);
    OnlyKeysHoldBack(s);
    var asked := Asked(s.f.selections, s.Entity(), s.initial, s.Extenders());
    AskedExactly(s.f.selections, s.Entity(), s.initial, s.Extenders(), asked);
    hide Scenario.Readable, SentTo, SpreadFree, SpreadFreeSelection, BatchedVariablesOnly, Covers, Sent, Answerable,
         Asked, Scenario.Extenders, Scenario.Planned, Scenario.Entity, Batchable;
  }

  lemma ExtendersCover(s: Scenario)
    requires s.Readable()
    ensures s.Planned() && Covers(s.f.selections, s.Entity(), s.initial, s.Extenders()) && s.initial !in s.Extenders()
  {
    ContributorsCover(s.f.selections, s.Entity(), s.initial, s.order.groups);
  }

  lemma OnlyKeysHoldBack(s: Scenario)
    requires s.Readable()
    ensures forall i :: 0 <= i < |s.f.selections| ==>
              Sent(s.f.selections[i], EntityKey(s.Entity())) || SpreadFreeSelection(s.f.selections[i])
  {
    forall i | 0 <= i < |s.f.selections|
      ensures Sent(s.f.selections[i], EntityKey(s.Entity())) || SpreadFreeSelection(s.f.selections[i])
    {
      KeysHoldNoSpread(s, i);
    }
  }

  lemma AskedExactly(sels: seq<Selection>, entity: EntityType, initial: string, sgs: seq<string>,
                     asked: seq<seq<Selection>>)
    requires Covers(sels, entity, initial, sgs) && initial !in sgs && asked == Asked(sels, entity, initial, sgs)
    requires forall i :: 0 <= i < |sels| ==> Sent(sels[i], EntityKey(entity)) || SpreadFreeSelection(sels[i])
    ensures SpreadFree(sels) && BatchedVariablesOnly(sels, entity, initial) <==>
            SpreadFree(SentTo(sels, entity, initial, initial)) && forall k :: 0 <= k < |asked| ==> Answerable(asked[k])
  {
    SpreadsAreSent(sels, entity, initial, sgs, asked);
    VariablesAreSent(sels, entity, initial, sgs, asked);
    hide SpreadFreeSelection, BatchedVariablesOnly, Covers, Sent, Answerable, IsClear, Batchable;
    forall k | 0 <= k < |asked| ensures Answerable(asked[k]) <==> IsClear(asked[k]) && Batchable(asked[k]) {
      AnswerableIs(asked[k]);
    }
  }

  lemma UnclearIsRefused(s: Scenario)
    requires s.Readable() && !s.InitialIsClear()
    ensures Merge.FieldValue(s.Result()) == Null
    ensures Merge.FieldErrors(s.Result()) == [GraphQLError("invalid document", [], [], None)]
  {
    InitialOutcomeIs(s);
    PlannedKey(s);
    PlannedRoute(s);
    hide PlanField, Printable, Keyed, Conforms, AllOfType, IterationOrder, RoutesNamed, WellFormedVariables,
         ConstantDefaults, RootOwners, Scenario.Vars, Scenario.Found, Ids, SpreadFree, FieldVariables, DeclaredNames,
         SentTo, Refs, SubsetVariables, Scenario.InitialIsClear;
  }

  lemma PlannedRoute(s: Scenario)
    requires s.Planned()
    ensures s.fetch.initial.route.name == s.initial
  {
    hide PlanField, SynthesizeRootOperation, InitialText, VariablesIn, RequestedKeys, Contributing, SentTo, JoinSpace,
         Rendered;
    PlanUnfolds(s.kind, s.ds, s.f, s.catalog, s.order, s.fetch, s.typeName, s.initial);
  }
}
