/** What the planner's partition and its type guess guarantee. */
module PlannerProperties {
  import opened Common
  import opened Ast
  import opened Render
  import opened Scanners
  import opened Synthesis
  import opened Fetches
  import opened Catalog
  import opened Planner

  // ---- every selection goes to exactly one fetch, its owner's, in selection order ----------

  function SentIndices(sels: seq<Selection>, entity: EntityType, initial: string, sg: string): seq<nat> {
    if sels == [] then []
    else
      var n := |sels| - 1;
      SentIndices(sels[..n], entity, initial, sg)
      + if Sent(sels[n], EntityKey(entity)) && OwnerOf(entity, sels[n].field.name, initial) == sg then [n] else []
  }

  /**
   * The fetch to `sg` holds the selections at strictly ascending positions, and a position is among
   * them exactly when its field is no bookkeeping field and `sg` owns it.
   */
  lemma {:induction false} SentToItsOwnerOnly(sels: seq<Selection>, entity: EntityType, initial: string, sg: string)
    ensures var ix := SentIndices(sels, entity, initial, sg);
      && |ix| == |SentTo(sels, entity, initial, sg)|
      && (forall k :: 0 <= k < |ix| ==> ix[k] < |sels| && SentTo(sels, entity, initial, sg)[k] == sels[ix[k]])
      && (forall j, k :: 0 <= j < k < |ix| ==> ix[j] < ix[k])
      && (forall i :: 0 <= i < |sels| ==>
            (i in ix <==> Sent(sels[i], EntityKey(entity)) && OwnerOf(entity, sels[i].field.name, initial) == sg))
  {
    if sels != [] {
      SentToItsOwnerOnly(sels[..|sels| - 1], entity, initial, sg);
    }
  }

  /** The extending subgraphs that have contributing selections, in the map's order. */
  function Contributing(sels: seq<Selection>, entity: EntityType, initial: string, groups: seq<string>): seq<string> {
    if groups == [] then []
    else
      var sg := groups[|groups| - 1];
      Contributing(sels, entity, initial, groups[..|groups| - 1])
      + if sg != initial && SentTo(sels, entity, initial, sg) != [] then [sg] else []
  }

  /** There is one entity fetch per contributing subgraph, to its route, with its selections for a body. */
  lemma {:induction false} OneFetchPerContributor(sels: seq<Selection>, typeName: string, entity: EntityType,
                                                  initial: string, catalog: SupergraphCatalog, groups: seq<string>)
    requires EntityFetches(sels, typeName, entity, initial, catalog, groups).Plan?
    ensures var fetches := EntityFetches(sels, typeName, entity, initial, catalog, groups).value;
      var sgs := Contributing(sels, entity, initial, groups);
      && |fetches| == |sgs|
      && forall k :: 0 <= k < |sgs| ==>
           && sgs[k] in catalog.subgraphs
           && fetches[k] == EntityFetch(catalog.subgraphs[sgs[k]], typeName, EntityKey(entity),
                                        JoinSpace(Rendered(SentTo(sels, entity, initial, sgs[k]))))
  {
    hide SentTo;
    if groups != [] {
      OneFetchPerContributor(sels, typeName, entity, initial, catalog, groups[..|groups| - 1]);
    }
  }

  lemma {:induction false} ContributorsAreExact(sels: seq<Selection>, entity: EntityType, initial: string,
                                                groups: seq<string>)
    requires Distinct(groups)
    ensures var sgs := Contributing(sels, entity, initial, groups);
      && Distinct(sgs)
      && forall sg :: sg in sgs <==> sg in groups && sg != initial && SentTo(sels, entity, initial, sg) != []
  {
    hide SentTo;
    if groups != [] {
      var init, last := groups[..|groups| - 1], groups[|groups| - 1];
      ContributorsAreExact(sels, entity, initial, init);
      assert groups == init + [last];
      assert last !in init;
    }
  }

  /** Every owner is among the groups, so no selection is left without a fetch. */
  lemma EveryOwnerIsAsked(sels: seq<Selection>, entity: EntityType, initial: string, groups: seq<string>, i: nat)
    requires Distinct(groups)
    requires forall n :: n in entity.fieldOwners ==> entity.fieldOwners[n] in groups
    requires i < |sels| && Sent(sels[i], EntityKey(entity))
    ensures var sg := OwnerOf(entity, sels[i].field.name, initial);
      sg == initial || sg in Contributing(sels, entity, initial, groups)
  {
    var sg := OwnerOf(entity, sels[i].field.name, initial);
    SentToItsOwnerOnly(sels, entity, initial, sg);
    ContributorsAreExact(sels, entity, initial, groups);
    assert i in SentIndices(sels, entity, initial, sg);
  }

  // ---- the type guess ---------------------------------------------------------------------

  function ScoreOf(sels: seq<Selection>, catalog: SupergraphCatalog, t: string): nat
    requires t in catalog.entityTypes
  {
    Score(sels, catalog.entityTypes[t])
  }

  ghost predicate TypeOrder(types: seq<string>, catalog: SupergraphCatalog) {
    Distinct(types) && forall t :: t in types <==> t in catalog.entityTypes
  }

  /** At `i` stands `t`, with a positive score, no listed type's is higher, and every earlier one's is lower. */
  ghost predicate FirstBestAt(sels: seq<Selection>, catalog: SupergraphCatalog, types: seq<string>, t: string, i: nat)
    requires forall u :: u in types ==> u in catalog.entityTypes
  {
    && i < |types| && types[i] == t && ScoreOf(sels, catalog, t) > 0
    && (forall j :: 0 <= j < |types| ==> ScoreOf(sels, catalog, types[j]) <= ScoreOf(sels, catalog, t))
    && (forall j :: 0 <= j < i ==> ScoreOf(sels, catalog, types[j]) < ScoreOf(sels, catalog, t))
  }

  lemma {:induction false} BestTypeIsFirstBest(sels: seq<Selection>, catalog: SupergraphCatalog, types: seq<string>)
    requires forall t :: t in types ==> t in catalog.entityTypes
    ensures match BestType(sels, catalog, types)
      case Some(t) => exists i: nat :: FirstBestAt(sels, catalog, types, t, i)
      case None => forall j :: 0 <= j < |types| ==> ScoreOf(sels, catalog, types[j]) == 0
  {
    hide ScoreOf;
    if types != [] {
      var n := |types| - 1;
      var init, last := types[..n], types[n];
      BestTypeIsFirstBest(sels, catalog, init);
      ScoreUnfolds(sels, catalog, last);
      match BestType(sels, catalog, init) {
        case None =>
          if ScoreOf(sels, catalog, last) > 0 {
            assert BestType(sels, catalog, types) == Some(last);
            assert FirstBestAt(sels, catalog, types, last, n);
          }
        case Some(t) =>
          var i: nat :| FirstBestAt(sels, catalog, init, t, i);
          ScoreUnfolds(sels, catalog, t);
          if ScoreOf(sels, catalog, last) > ScoreOf(sels, catalog, t) {
            assert BestType(sels, catalog, types) == Some(last);
            assert FirstBestAt(sels, catalog, types, last, n);
          } else {
            assert BestType(sels, catalog, types) == Some(t);
            assert FirstBestAt(sels, catalog, types, t, i);
          }
      }
    }
  }

  lemma ScoreUnfolds(sels: seq<Selection>, catalog: SupergraphCatalog, t: string)
    requires t in catalog.entityTypes
    ensures ScoreOf(sels, catalog, t) == Score(sels, catalog.entityTypes[t])
  {
  }

  /** Some order of the types starts with `u`. */
  lemma OrderStartingWith(catalog: SupergraphCatalog, u: string) returns (types: seq<string>)
    requires u in catalog.entityTypes
    ensures TypeOrder(types, catalog) && types[0] == u
  {
    types := [u];
    var rest := catalog.entityTypes.Keys - {u};
    while rest != {}
      invariant types != [] && types[0] == u && Distinct(types)
      invariant rest <= catalog.entityTypes.Keys
      invariant forall t :: t in types <==> t in catalog.entityTypes.Keys - rest
      decreases |rest|
    {
      var t :| t in rest;
      assert t !in types;
      types, rest := types + [t], rest - {t};
    }
  }

  /**
   * The map's order decides the guess, unless one type's score is positive and beats every other:
   * exactly then the guess is that type in every order.
   */
  lemma GuessIsFixedExactlyWhenStrictlyBest(sels: seq<Selection>, catalog: SupergraphCatalog, t: string)
    requires t in catalog.entityTypes
    ensures (forall types :: TypeOrder(types, catalog) ==> BestType(sels, catalog, types) == Some(t))
       <==> ScoreOf(sels, catalog, t) > 0
            && forall u :: u in catalog.entityTypes && u != t ==> ScoreOf(sels, catalog, u) < ScoreOf(sels, catalog, t)
  {
    hide Score, BestType;
    var strict := ScoreOf(sels, catalog, t) > 0
            && forall u :: u in catalog.entityTypes && u != t ==> ScoreOf(sels, catalog, u) < ScoreOf(sels, catalog, t);
    if strict {
      forall types | TypeOrder(types, catalog) ensures BestType(sels, catalog, types) == Some(t) {
        BestTypeIsFirstBest(sels, catalog, types);
        var k :| 0 <= k < |types| && types[k] == t;
      }
    } else {
      var u := t;
      if ScoreOf(sels, catalog, t) > 0 {
        u :| u in catalog.entityTypes && u != t && ScoreOf(sels, catalog, u) >= ScoreOf(sels, catalog, t);
      }
      var types := OrderStartingWith(catalog, u);
      BestTypeIsFirstBest(sels, catalog, types);
      assert BestType(sels, catalog, types) != Some(t);
    }
  }

  // ---- fragments at the top of a selection set ------------------------------------------------------

  /** The fields alone. */
  function WithoutFragments(sels: seq<Selection>): seq<Selection> {
    if sels == [] then []
    else WithoutFragments(sels[..|sels| - 1]) + if sels[|sels| - 1].FieldSel? then [sels[|sels| - 1]] else []
  }

  lemma {:induction false} FieldsAreAmong(sels: seq<Selection>)
    ensures forall s :: s in WithoutFragments(sels) <==> s in sels && s.FieldSel?
  {
    if sels != [] {
      var init, last := sels[..|sels| - 1], sels[|sels| - 1];
      FieldsAreAmong(init);
      assert sels == init + [last];
    }
  }

  lemma {:induction false} FragmentsAreNotSent(sels: seq<Selection>, entity: EntityType, initial: string, sg: string)
    ensures SentTo(WithoutFragments(sels), entity, initial, sg) == SentTo(sels, entity, initial, sg)
  {
    hide OwnerOf;
    if sels != [] {
      var init, last := sels[..|sels| - 1], sels[|sels| - 1];
      FragmentsAreNotSent(init, entity, initial, sg);
      if last.FieldSel? {
        SentToStep(WithoutFragments(init), last, entity, initial, sg);
      } else {
        assert WithoutFragments(init) + [] == WithoutFragments(init);
      }
    }
  }

  lemma {:induction false} ScoresAppend(a: seq<Selection>, b: seq<Selection>, entity: EntityType)
    ensures Score(a + b, entity) == Score(a, entity) + Score(b, entity)
  {
    if a == [] {
      assert a + b == b;
    } else {
      assert (a + b)[0] == a[0] && (a + b)[1..] == a[1..] + b;
      ScoresAppend(a[1..], b, entity);
    }
  }

  lemma {:induction false} FragmentsDoNotScore(sels: seq<Selection>, entity: EntityType)
    ensures Score(WithoutFragments(sels), entity) == Score(sels, entity)
  {
    if sels != [] {
      var init, last := sels[..|sels| - 1], sels[|sels| - 1];
      FragmentsDoNotScore(init, entity);
      ScoresAppend(init, [last], entity);
      assert sels == init + [last] && [last][1..] == [];
      if last.FieldSel? {
        ScoresAppend(WithoutFragments(init), [last], entity);
      } else {
        assert WithoutFragments(init) + [] == WithoutFragments(init);
      }
    }
  }

  lemma {:induction false} FragmentsDoNotGuess(sels: seq<Selection>, catalog: SupergraphCatalog, types: seq<string>)
    requires forall t :: t in types ==> t in catalog.entityTypes
    ensures BestType(WithoutFragments(sels), catalog, types) == BestType(sels, catalog, types)
  {
    hide Score;
    forall e: EntityType ensures Score(WithoutFragments(sels), e) == Score(sels, e) {
      FragmentsDoNotScore(sels, e);
    }
    if types != [] {
      FragmentsDoNotGuess(sels, catalog, types[..|types| - 1]);
    }
  }

  lemma FragmentsAskForNoKey(sels: seq<Selection>, entity: EntityType)
    ensures RequestedKeys(WithoutFragments(sels), entity) == RequestedKeys(sels, entity)
  {
    FieldsAreAmong(sels);
    var fields := WithoutFragments(sels);
    forall n | n in RequestedKeys(sels, entity) ensures n in RequestedKeys(fields, entity) {
      var i :| 0 <= i < |sels| && sels[i].FieldSel? && sels[i].field.name == n;
      assert sels[i] in fields;
    }
    forall n | n in RequestedKeys(fields, entity) ensures n in RequestedKeys(sels, entity) {
      var i :| 0 <= i < |fields| && fields[i].FieldSel? && fields[i].field.name == n;
      assert fields[i] in sels;
    }
  }

  lemma {:induction false} FragmentsFetchNothing(sels: seq<Selection>, typeName: string, entity: EntityType,
                                                 initial: string, catalog: SupergraphCatalog, groups: seq<string>)
    ensures EntityFetches(WithoutFragments(sels), typeName, entity, initial, catalog, groups)
         == EntityFetches(sels, typeName, entity, initial, catalog, groups)
  {
    hide SentTo, Rendered, JoinSpace;
    if groups != [] {
      FragmentsFetchNothing(sels, typeName, entity, initial, catalog, groups[..|groups| - 1]);
      FragmentsAreNotSent(sels, entity, initial, groups[|groups| - 1]);
    }
  }

  lemma SomeFieldScores(sels: seq<Selection>, catalog: SupergraphCatalog, types: seq<string>)
    requires (forall t :: t in types ==> t in catalog.entityTypes) && BestType(sels, catalog, types).Some?
    ensures WithoutFragments(sels) != []
  {
    FragmentsDoNotGuess(sels, catalog, types);
    if WithoutFragments(sels) == [] {
      NothingScores(catalog, types);
    }
  }

  lemma {:induction false} NothingScores(catalog: SupergraphCatalog, types: seq<string>)
    requires forall t :: t in types ==> t in catalog.entityTypes
    ensures BestType([], catalog, types) == None
  {
    if types != [] {
      NothingScores(catalog, types[..|types| - 1]);
    }
  }

  lemma FieldsAreWellFormed(f: Field)
    requires WellFormedField(f) && QuietField(f)
    ensures var f' := f.(selections := WithoutFragments(f.selections)); WellFormedField(f') && QuietField(f')
  {
    FieldsAreAmong(f.selections);
    hide WellFormedSelection, QuietSelection, WellFormedArguments, QuietArguments;
    var fields := WithoutFragments(f.selections);
    forall i | 0 <= i < |fields| ensures WellFormedSelection(fields[i]) && QuietSelection(fields[i]) {
      assert fields[i] in fields;
    }
  }

  lemma HeadsAlike(kind: OperationType, vars: seq<VariableDefinition>, f: Field, text: string)
    requires WellFormedField(f) && QuietField(f) && WithoutFragments(f.selections) != []
    ensures SynthesizeRootOperation(kind, vars, f.(selections := WithoutFragments(f.selections)), text)
         == SynthesizeRootOperation(kind, vars, f, text)
  {
    var f' := f.(selections := WithoutFragments(f.selections));
    FieldsAreWellFormed(f);
    hide RenderHead, RenderField, Stripped, VariablesIn;
    StripLeavesTheHead(f);
    StripLeavesTheHead(f');
    SameHead(f, f');
  }

  /**
   * A root field whose type is guessed is planned as if the fragments directly below it were not
   * there, spreads and inline fragments alike: what they select is neither fetched nor reported.
   */
  lemma FragmentsAreDropped(kind: OperationType, vars: seq<VariableDefinition>, f: Field, catalog: SupergraphCatalog,
                            order: HashOrder)
    requires IterationOrder(order, catalog) && WellFormedField(f) && QuietField(f)
    requires BestType(f.selections, catalog, order.types).Some?
    ensures PlanField(kind, vars, f.(selections := WithoutFragments(f.selections)), catalog, order)
         == PlanField(kind, vars, f, catalog, order)
  {
    FragmentsDoNotGuess(f.selections, catalog, order.types);
    SomeFieldScores(f.selections, catalog, order.types);
    var entity := catalog.entityTypes[BestType(f.selections, catalog, order.types).value];
    FragmentsAskForNoKey(f.selections, entity);
    if f.name in RootOwners(kind, catalog) {
      var owner := RootOwners(kind, catalog)[f.name];
      var typeName := BestType(f.selections, catalog, order.types).value;
      FragmentsAreNotSent(f.selections, entity, owner, owner);
      FragmentsFetchNothing(f.selections, typeName, entity, owner, catalog, order.groups);
      HeadsAlike(kind, vars, f, InitialText(f.selections, entity, owner));
    }
    hide WithoutFragments, BestType, SynthesizeRootOperation, EntityFetches, RequestedKeys, SentTo, Rendered,
         JoinSpace, WellFormedField, QuietField, IterationOrder, RootOwners, PlanField;
    PlannedAlike(kind, vars, f, WithoutFragments(f.selections), catalog, order);
  }

  lemma PlannedAlike(kind: OperationType, vars: seq<VariableDefinition>, f: Field, fields: seq<Selection>,
                     catalog: SupergraphCatalog, order: HashOrder)
    requires IterationOrder(order, catalog)
    requires BestType(fields, catalog, order.types) == BestType(f.selections, catalog, order.types)
    requires BestType(fields, catalog, order.types).Some?
    requires var typeName := BestType(fields, catalog, order.types).value;
      var entity := catalog.entityTypes[typeName];
      && RequestedKeys(fields, entity) == RequestedKeys(f.selections, entity)
      && (f.name in RootOwners(kind, catalog) ==>
            var owner := RootOwners(kind, catalog)[f.name];
            var text := InitialText(f.selections, entity, owner);
            && InitialText(fields, entity, owner) == text
            && SynthesizeRootOperation(kind, vars, f.(selections := fields), text)
            == SynthesizeRootOperation(kind, vars, f, text)
            && EntityFetches(fields, typeName, entity, owner, catalog, order.groups)
            == EntityFetches(f.selections, typeName, entity, owner, catalog, order.groups))
    ensures PlanField(kind, vars, f.(selections := fields), catalog, order) == PlanField(kind, vars, f, catalog, order)
  {
    hide BestType, SynthesizeRootOperation, VariablesIn, EntityFetches, RequestedKeys, InitialText, LooksLikeList,
         IterationOrder, RootOwners;
  }
}
