/** Where the conditions of the stitching theorem end: exactly when a stitched value is not the direct one. */
module Boundary {
  import opened Ast
  import opened Scanners
  import opened Synthesis
  import opened Responses
  import opened Catalog
  import opened Planner
  import opened PlannerProperties
  import opened Executor
  import opened MergeProperties
  import opened Evaluation
  import opened Trees
  import opened Federation
  import opened Stitching
  import Merge

  // ---- an unrequested key ------------------------------------------------------------------------

  /** An injected key stays in every object when the merger looks for `id` instead. */
  lemma KeyLeaks(s: Scenario, id: int)
    requires s.Sound() && s.fetch.entityFetches == [] && EntityKey(s.Entity()) != "id"
    requires EntityKey(s.Entity()) in Drops(s.f.selections, s.Entity())
    requires id in Ids(s.Found())
    ensures Merge.FieldValue(s.Result()) != DirectValue(s.w, s.kind, s.Entity(), s.initial, s.Vars(), s.f)
  {
    var drops := Merge.DroppedKeys(s.fetch);
    FallbackDrops(s);
    MergedIsStripped(s);
    LeakingObject(s, id, drops);
    hide Scenario.Sound, PlanField, Gathered, Merge.Stripped, Merge.FieldValue, DirectFields, StrippedFields, Drops,
         Merge.DroppedKeys, RootResult, Contributing, FieldResult, RequestedKeys;
    var all := id => Gathered(s.w, s.Entity(), s.initial, s.Vars(), id, s.f.selections, s.Extenders());
    var direct := id => DirectFields(s.w, s.Entity(), s.initial, s.Vars(), id, s.f.selections);
    TreeStrips(s.Found(), all, drops);
    TreesDiffer(s.Found(), id => StrippedFields(all(id), drops), direct, id);
  }

  lemma LeakingObject(s: Scenario, id: int, drops: set<string>)
    requires s.Sound() && EntityKey(s.Entity()) in Drops(s.f.selections, s.Entity()) && EntityKey(s.Entity()) !in drops
    ensures StrippedFields(Gathered(s.w, s.Entity(), s.initial, s.Vars(), id, s.f.selections, s.Extenders()), drops)
         != DirectFields(s.w, s.Entity(), s.initial, s.Vars(), id, s.f.selections)
  {
    var key, sels, sgs := EntityKey(s.Entity()), s.f.selections, s.Extenders();
    ContributorsCover(sels, s.Entity(), s.initial, s.order.groups);
    hide PlanField, Keyed, Coerce, Gathered, Merge.Stripped, DirectFields, Contributing, SentTo, PlainField, Drops,
         ExecuteField, SynthesizeRootOperation, InitialText, VariablesIn, WellFormedVariables, ConstantDefaults,
         Conforms;
    GatheredHasFields(s.w, s.Entity(), s.initial, s.Vars(), id, sels, sgs);
    KeyIsDroppedUnlessSelected(sels, s.Entity());
    DirectlyResolved(s.w, s.Entity(), s.initial, s.Vars(), id, sels);
    assert key !in DirectFields(s.w, s.Entity(), s.initial, s.Vars(), id, sels);
    assert key in StrippedFields(Gathered(s.w, s.Entity(), s.initial, s.Vars(), id, sels, sgs), drops);
  }

  lemma {:induction false} TreesDiffer(r: Resolved, g: int -> map<string, Json>, h: int -> map<string, Json>, id: int)
    requires id in Ids(r) && g(id) != h(id)
    ensures Tree(r, g) != Tree(r, h)
    decreases r
  {
    if r.Many? {
      ForestsDiffer(r.items, g, h, id);
    }
  }

  lemma {:induction false} ForestsDiffer(rs: seq<Resolved>, g: int -> map<string, Json>, h: int -> map<string, Json>,
                                         id: int)
    requires id in IdsOf(rs) && g(id) != h(id)
    ensures Forest(rs, g) != Forest(rs, h)
    decreases rs
  {
    if id in Ids(rs[0]) {
      TreesDiffer(rs[0], g, h, id);
      assert Forest(rs, g)[0] != Forest(rs, h)[0];
    } else {
      ForestsDiffer(rs[1..], g, h, id);
      assert Forest(rs, g)[1..] != Forest(rs, h)[1..];
    }
  }

  lemma NothingFound(s: Scenario)
    requires s.Sound() && Ids(s.Found()) == []
    ensures Merge.FieldValue(s.Result()) == DirectValue(s.w, s.kind, s.Entity(), s.initial, s.Vars(), s.f)
  {
    var drops := Merge.DroppedKeys(s.fetch);
    MergedIsStripped(s);
    hide Scenario.Sound, PlanField, Gathered, Merge.Stripped, Merge.FieldValue, DirectFields, StrippedFields,
         Merge.DroppedKeys, RootResult, Contributing, FieldResult;
    var all := id => Gathered(s.w, s.Entity(), s.initial, s.Vars(), id, s.f.selections, s.Extenders());
    var direct := id => DirectFields(s.w, s.Entity(), s.initial, s.Vars(), id, s.f.selections);
    TreeStrips(s.Found(), all, drops);
    TreesEqual(s.Found(), id => StrippedFields(all(id), drops), direct);
  }

  // ---- everything else is stripped -----------------------------------------------------------------

  lemma {:induction false} StrippedTwice(value: Json, a: set<string>, b: set<string>)
    ensures Merge.Stripped(Merge.Stripped(value, a), b) == Merge.Stripped(value, a + b)
    decreases value
  {
    match value
    case Array(items) => StrippedTwiceEach(items, a, b);
    case Object(fields) =>
      forall k | k in fields
        ensures Merge.Stripped(Merge.Stripped(fields[k], a), b) == Merge.Stripped(fields[k], a + b)
      {
        StrippedTwice(fields[k], a, b);
      }
    case _ =>
  }

  lemma {:induction false} StrippedTwiceEach(items: seq<Json>, a: set<string>, b: set<string>)
    ensures Merge.StrippedItems(Merge.StrippedItems(items, a), b) == Merge.StrippedItems(items, a + b)
    decreases items
  {
    if items != [] {
      StrippedTwice(items[0], a, b);
      StrippedTwiceEach(items[1..], a, b);
    }
  }

  /** The key was not asked for, and no fetch names it: the merger looks for `id`, and leaves it in. */
  ghost predicate KeepsKey(s: Scenario)
    requires s.Sound()
  {
    s.fetch.entityFetches == [] && EntityKey(s.Entity()) != "id"
    && EntityKey(s.Entity()) in Drops(s.f.selections, s.Entity())
  }

  lemma DropsAreDropped(s: Scenario)
    requires s.Sound() && !KeepsKey(s)
    ensures Drops(s.f.selections, s.Entity()) <= Merge.DroppedKeys(s.fetch)
  {
    if s.fetch.entityFetches != [] || EntityKey(s.Entity()) == "id" {
      KeyFieldIs(s);
    }
    hide Scenario.Readable, Stitchable, RequestedKeys;
  }

  /** The merged value is the directly evaluated one less exactly the names that the merger strips. */
  lemma StitchedLessStripped(s: Scenario)
    requires s.Sound() && !KeepsKey(s) && Unaliased(s.f.selections, s.Entity())
    ensures Merge.FieldValue(s.Result())
         == Merge.Stripped(DirectValue(s.w, s.kind, s.Entity(), s.initial, s.Vars(), s.f), Merge.DroppedKeys(s.fetch))
  {
    MergedIsStripped(s);
    StrippedIsDirect(s);
    DropsAreDropped(s);
    hide Scenario.Sound, PlanField, Gathered, Merge.Stripped, Merge.FieldValue, DirectValue, Tree, Drops,
         Merge.DroppedKeys, KeepsKey, RootResult, Contributing, FieldResult, RequestedKeys;
    var all := Tree(s.Found(), id => Gathered(s.w, s.Entity(), s.initial, s.Vars(), id, s.f.selections, s.Extenders()));
    StripsFurther(all, DirectValue(s.w, s.kind, s.Entity(), s.initial, s.Vars(), s.f),
                  Drops(s.f.selections, s.Entity()), Merge.DroppedKeys(s.fetch));
  }

  lemma StripsFurther(x: Json, y: Json, some: set<string>, more: set<string>)
    requires some <= more && Merge.Stripped(x, some) == Merge.Stripped(y, some)
    ensures Merge.Stripped(x, more) == Merge.Stripped(y, more)
  {
    StrippedTwice(x, some, more);
    StrippedTwice(y, some, more);
    assert some + more == more;
  }

  lemma {:induction false} NothingStripped(value: Json)
    ensures Merge.Stripped(value, {}) == value
    decreases value
  {
    match value
    case Array(items) =>
      forall i | 0 <= i < |items| ensures Merge.StrippedItems(items, {})[i] == items[i] {
        NothingStripped(items[i]);
      }
      assert Merge.StrippedItems(items, {}) == items;
    case Object(fields) =>
      forall k | k in fields ensures Merge.Stripped(fields[k], {}) == fields[k] {
        NothingStripped(fields[k]);
      }
      assert Merge.Stripped(value, {}).fields == fields;
    case _ =>
  }

  lemma KeptExactly(value: Json, drops: set<string>)
    ensures Merge.Stripped(value, drops) == value <==> !Shows(value, drops, {})
  {
    hide Merge.Stripped, Shows;
    NothingStripped(value);
    StripsAlike(value, drops, {});
    assert (drops - {}) + ({} - drops) == drops && drops * {} == {};
  }

  // ---- what is lost -----------------------------------------------------------------------------------

  /** A selected field that is answered under a name the merger strips is lost from every object. */
  lemma NameIsLost(s: Scenario, i: nat, id: int)
    requires s.Sound() && !KeepsKey(s) && Unaliased(s.f.selections, s.Entity()) && id in Ids(s.Found())
    requires i < |s.f.selections| && ResponseKey(s.f.selections[i].field) in Merge.DroppedKeys(s.fetch)
    ensures Merge.FieldValue(s.Result()) != DirectValue(s.w, s.kind, s.Entity(), s.initial, s.Vars(), s.f)
  {
    StitchedLessStripped(s);
    SelectionsAreDistinct(s);
    DirectlyResolved(s.w, s.Entity(), s.initial, s.Vars(), id, s.f.selections);
    hide Scenario.Sound, Merge.FieldValue, Merge.Stripped, Merge.DroppedKeys, DirectFields, RootResult, KeepsKey,
         ExecuteField, Unaliased;
    var drops := Merge.DroppedKeys(s.fetch);
    var direct := id => DirectFields(s.w, s.Entity(), s.initial, s.Vars(), id, s.f.selections);
    var r := ResponseKey(s.f.selections[i].field);
    assert r in direct(id) && r !in StrippedFields(direct(id), drops);
    TreeStrips(s.Found(), direct, drops);
    TreesDiffer(s.Found(), id => StrippedFields(direct(id), drops), direct, id);
  }

  /** `__typename` is stripped although it was asked for. */
  lemma TypenameIsLost(s: Scenario, i: nat, id: int)
    requires s.Sound() && id in Ids(s.Found())
    requires i < |s.f.selections| && s.f.selections[i].field.name == "__typename"
    ensures Merge.FieldValue(s.Result()) != DirectValue(s.w, s.kind, s.Entity(), s.initial, s.Vars(), s.f)
  {
    assert s.typeName in s.catalog.entityTypes;
    hide Scenario.Readable, Stitchable, Ids, Merge.FieldValue, DirectValue, RootResult;
    if KeepsKey(s) {
      KeyLeaks(s, id);
    } else if !Unaliased(s.f.selections, s.Entity()) {
      SomeAliasIsLost(s, id);
    } else {
      SelectionsAreDistinct(s);
      NameIsLost(s, i, id);
    }
  }

  /** An ordinary field answered under `id` disappears when the merger falls back on that name for the key. */
  lemma SelectedIdIsLost(s: Scenario, i: nat, id: int)
    requires s.Sound() && s.fetch.entityFetches == [] && id in Ids(s.Found())
    requires i < |s.f.selections| && ResponseKey(s.f.selections[i].field) == "id"
    requires "id" !in RequestedKeys(s.f.selections, s.Entity())
    ensures Merge.FieldValue(s.Result()) != DirectValue(s.w, s.kind, s.Entity(), s.initial, s.Vars(), s.f)
  {
    assert s.typeName in s.catalog.entityTypes;
    FallbackDrops(s);
    hide Scenario.Readable, Stitchable, Ids, Merge.FieldValue, DirectValue, RootResult, Merge.DroppedKeys,
         RequestedKeys;
    if KeepsKey(s) {
      KeyLeaks(s, id);
    } else if !Unaliased(s.f.selections, s.Entity()) {
      SomeAliasIsLost(s, id);
    } else {
      NameIsLost(s, i, id);
    }
  }

  lemma FallbackDrops(s: Scenario)
    requires s.Sound() && s.fetch.entityFetches == []
    ensures Merge.DroppedKeys(s.fetch)
         == {"__typename"} + if "id" in RequestedKeys(s.f.selections, s.Entity()) then {} else {"id"}
  {
    hide PlanField, SynthesizeRootOperation, InitialText, VariablesIn, RequestedKeys, Contributing, SentTo, JoinSpace,
         Rendered, Stitchable, Keyed, Conforms, AllOfType, WellFormedVariables, ConstantDefaults;
    PlanUnfolds(s.kind, s.ds, s.f, s.catalog, s.order, s.fetch, s.typeName, s.initial);
  }

  /** The key or `__typename` under another name is not sent, so it is in no object. */
  lemma AliasIsLost(s: Scenario, i: nat, id: int)
    requires s.Sound() && id in Ids(s.Found())
    requires i < |s.f.selections| && s.f.selections[i].FieldSel?
    requires s.f.selections[i].field.name in {EntityKey(s.Entity()), "__typename"}
    requires ResponseKey(s.f.selections[i].field) != s.f.selections[i].field.name
    ensures Merge.FieldValue(s.Result()) != DirectValue(s.w, s.kind, s.Entity(), s.initial, s.Vars(), s.f)
  {
    MergedIsStripped(s);
    AliasIsNotGathered(s, i, id);
    hide Scenario.Sound, PlanField, Gathered, Merge.Stripped, Merge.FieldValue, DirectFields, Merge.DroppedKeys,
         RootResult, Contributing, FieldResult;
    var drops := Merge.DroppedKeys(s.fetch);
    var all := id => Gathered(s.w, s.Entity(), s.initial, s.Vars(), id, s.f.selections, s.Extenders());
    var direct := id => DirectFields(s.w, s.Entity(), s.initial, s.Vars(), id, s.f.selections);
    var r := ResponseKey(s.f.selections[i].field);
    assert r !in StrippedFields(all(id), drops) && r in direct(id);
    TreeStrips(s.Found(), all, drops);
    TreesDiffer(s.Found(), id => StrippedFields(all(id), drops), direct, id);
  }

  lemma AliasIsNotGathered(s: Scenario, i: nat, id: int)
    requires s.Sound() && i < |s.f.selections| && s.f.selections[i].FieldSel?
    requires s.f.selections[i].field.name in {EntityKey(s.Entity()), "__typename"}
    requires ResponseKey(s.f.selections[i].field) != s.f.selections[i].field.name
    ensures var r := ResponseKey(s.f.selections[i].field);
      && r !in Gathered(s.w, s.Entity(), s.initial, s.Vars(), id, s.f.selections, s.Extenders())
      && r in DirectFields(s.w, s.Entity(), s.initial, s.Vars(), id, s.f.selections)
  {
    assert s.typeName in s.catalog.entityTypes;
    SelectionsAreDistinct(s);
    GatheredHolds(s, id);
    SelectionsArePlain(s);
    hide Scenario.Sound, Scenario.Vars, Scenario.Extenders, Gathered, DirectFields, HasFields, ExecuteField;
    DirectlyResolved(s.w, s.Entity(), s.initial, s.Vars(), id, s.f.selections);
    AliasIsNoField(Gathered(s.w, s.Entity(), s.initial, s.Vars(), id, s.f.selections, s.Extenders()),
                   s.w, s.Entity(), s.initial, s.Vars(), id, s.f.selections, s.Extenders(), i);
  }

  lemma SelectionsArePlain(s: Scenario)
    requires s.Readable()
    ensures PlainSelections(s.f.selections, s.Entity())
  {
    hide PlanField, Keyed, Conforms, AllOfType, WellFormedField, QuietField, DirectiveFree, PlainSelections,
         FieldVariables, DeclaredNames;
  }

  lemma GatheredHolds(s: Scenario, id: int)
    requires s.Sound()
    ensures HasFields(Gathered(s.w, s.Entity(), s.initial, s.Vars(), id, s.f.selections, s.Extenders()),
                      s.w, s.Entity(), s.initial, s.Vars(), id, s.f.selections, s.Extenders())
  {
    SelectionsArePlain(s);
    ContributorsCover(s.f.selections, s.Entity(), s.initial, s.order.groups);
    hide PlanField, Keyed, Conforms, AllOfType, RoutesNamed, WellFormedVariables, ConstantDefaults, RootOwners,
         Gathered, Contributing, SentTo, Printable, FieldVariables, DeclaredNames, SpreadFree, VariableFreeExtenders,
         HasFields, Scenario.Vars, Scenario.Found, PlainSelections, Covers;
    GatheredHasFields(s.w, s.Entity(), s.initial, s.Vars(), id, s.f.selections, s.Extenders());
  }

  lemma AliasIsNoField(m: map<string, Json>, w: World, entity: EntityType, initial: string, vars: map<string, Json>,
                       id: int, sels: seq<Selection>, sgs: seq<string>, i: nat)
    requires PlainSelections(sels, entity) && HasFields(m, w, entity, initial, vars, id, sels, sgs) && i < |sels|
    requires sels[i].field.name in {EntityKey(entity), "__typename"}
    requires ResponseKey(sels[i].field) != sels[i].field.name
    ensures ResponseKey(sels[i].field) !in m
  {
    assert PlainField(sels[i].field, EntityKey(entity));
    hide ExecuteField, PlainField;
    forall j | 0 <= j < |sels| && Sent(sels[j], EntityKey(entity))
      ensures ResponseKey(sels[j].field) != ResponseKey(sels[i].field)
    {
      assert j != i;
    }
  }

  lemma SomeAliasIsLost(s: Scenario, id: int)
    requires s.Sound() && id in Ids(s.Found()) && !Unaliased(s.f.selections, s.Entity())
    ensures Merge.FieldValue(s.Result()) != DirectValue(s.w, s.kind, s.Entity(), s.initial, s.Vars(), s.f)
  {
    assert s.typeName in s.catalog.entityTypes;
    hide Scenario.Readable, Stitchable, Ids, Merge.FieldValue, DirectValue, RootResult;
    var sels := s.f.selections;
    var i :| 0 <= i < |sels| && sels[i].FieldSel? && sels[i].field.name in {EntityKey(s.Entity()), "__typename"}
             && ResponseKey(sels[i].field) != sels[i].field.name;
    AliasIsLost(s, i, id);
  }

  // ---- exactly when --------------------------------------------------------------------------------------

  /**
   * The stitched value is the directly evaluated one: nothing was found, or no key is kept that was
   * not asked for, no bookkeeping field is asked for under another name, and the value shows, at
   * whatever depth, no name that the merger strips.
   */
  ghost predicate Stitches(s: Scenario)
    requires s.Sound()
  {
    || Ids(s.Found()) == []
    || (!KeepsKey(s) && Unaliased(s.f.selections, s.Entity())
        && !Shows(DirectValue(s.w, s.kind, s.Entity(), s.initial, s.Vars(), s.f), Merge.DroppedKeys(s.fetch), {}))
  }

  lemma StitchedEqualsDirectExactly(s: Scenario)
    requires s.Sound()
    ensures Merge.FieldValue(s.Result()) == DirectValue(s.w, s.kind, s.Entity(), s.initial, s.Vars(), s.f)
       <==> Stitches(s)
  {
    assert s.typeName in s.catalog.entityTypes;
    hide Scenario.Sound, Scenario.Result, Scenario.Vars, Ids, Merge.FieldValue, DirectValue, Shows, Merge.Stripped,
         Merge.DroppedKeys, KeepsKey, Unaliased;
    if Ids(s.Found()) == [] {
      NothingFound(s);
    } else if KeepsKey(s) {
      SomeKeyLeaks(s);
    } else if !Unaliased(s.f.selections, s.Entity()) {
      SomeAliasIsLost(s, Ids(s.Found())[0]);
    } else {
      StitchedLessStripped(s);
      KeptExactly(DirectValue(s.w, s.kind, s.Entity(), s.initial, s.Vars(), s.f), Merge.DroppedKeys(s.fetch));
    }
  }

  lemma CleanStitches(s: Scenario)
    requires s.Sound() && Unaliased(s.f.selections, s.Entity())
    requires s.fetch.entityFetches != [] || EntityKey(s.Entity()) == "id"
    requires Clean(s.f.selections, Drops(s.f.selections, s.Entity()))
    ensures Stitches(s)
  {
    hide Scenario.Readable, Stitchable, Scenario.Result, Scenario.Vars, Ids, Merge.FieldValue, DirectValue, Clean,
         Drops, Unaliased, Stitches;
    StitchedEqualsDirect(s);
    StitchedEqualsDirectExactly(s);
  }

  lemma SomeKeyLeaks(s: Scenario)
    requires s.Sound() && KeepsKey(s) && Ids(s.Found()) != []
    ensures Merge.FieldValue(s.Result()) != DirectValue(s.w, s.kind, s.Entity(), s.initial, s.Vars(), s.f)
  {
    KeyLeaks(s, Ids(s.Found())[0]);
  }

  /** Below the entity's own fields no field is answered under a name that the merger strips. */
  predicate CleanBelow(sels: seq<Selection>, drops: set<string>) {
    forall i :: 0 <= i < |sels| && sels[i].FieldSel? ==> Clean(sels[i].field.selections, drops)
  }

  /** In terms of the selections, where those below the entity's own fields are clean. */
  lemma StitchedEqualsDirectBySelections(s: Scenario)
    requires s.Sound() && CleanBelow(s.f.selections, Merge.DroppedKeys(s.fetch))
    ensures Merge.FieldValue(s.Result()) == DirectValue(s.w, s.kind, s.Entity(), s.initial, s.Vars(), s.f) <==>
            || Ids(s.Found()) == []
            || (!KeepsKey(s) && Unaliased(s.f.selections, s.Entity())
                && forall i :: 0 <= i < |s.f.selections| && s.f.selections[i].FieldSel? ==>
                     ResponseKey(s.f.selections[i].field) !in Merge.DroppedKeys(s.fetch))
  {
    StitchedEqualsDirectExactly(s);
    SelectionsAreDistinct(s);
    hide Scenario.Sound, Scenario.Result, Scenario.Vars, Ids, Merge.FieldValue, DirectValue, Shows, Merge.Stripped,
         Merge.DroppedKeys, KeepsKey, Unaliased, Clean;
    var sels, drops := s.f.selections, Merge.DroppedKeys(s.fetch);
    if Ids(s.Found()) != [] && !KeepsKey(s) && Unaliased(sels, s.Entity()) {
      if i :| 0 <= i < |sels| && sels[i].FieldSel? && ResponseKey(sels[i].field) in drops {
        NameIsLost(s, i, Ids(s.Found())[0]);
      } else {
        CleanFromBelow(sels, drops);
        DirectValueIsKept(s.w, s.kind, s.Entity(), s.initial, s.Vars(), s.f, drops);
        KeptExactly(DirectValue(s.w, s.kind, s.Entity(), s.initial, s.Vars(), s.f), drops);
      }
    }
  }

  lemma CleanFromBelow(sels: seq<Selection>, drops: set<string>)
    requires CleanBelow(sels, drops)
    requires forall i :: 0 <= i < |sels| ==> sels[i].FieldSel? && ResponseKey(sels[i].field) !in drops
    ensures Clean(sels, drops)
  {
    forall i | 0 <= i < |sels| ensures CleanSelection(sels[i], drops) {
      assert Clean(sels[i].field.selections, drops);
    }
  }

  /**
   * In particular, where nothing else goes wrong, a key that was not asked for needs a fetch to name
   * it, unless it is called `id` or nothing was found.
   */
  lemma UnrequestedKeyNeedsAFetch(s: Scenario)
    requires s.Sound() && EntityKey(s.Entity()) in Drops(s.f.selections, s.Entity())
    requires Unaliased(s.f.selections, s.Entity()) && Clean(s.f.selections, Drops(s.f.selections, s.Entity()))
    ensures Merge.FieldValue(s.Result()) == DirectValue(s.w, s.kind, s.Entity(), s.initial, s.Vars(), s.f)
       <==> s.fetch.entityFetches != [] || EntityKey(s.Entity()) == "id" || Ids(s.Found()) == []
  {
    assert s.typeName in s.catalog.entityTypes;
    hide Scenario.Readable, Stitchable, Scenario.Result, Scenario.Vars, Ids, Merge.FieldValue, DirectValue, Clean,
         Drops, Unaliased;
    if s.fetch.entityFetches != [] || EntityKey(s.Entity()) == "id" {
      StitchedEqualsDirect(s);
    } else if Ids(s.Found()) == [] {
      NothingFound(s);
    } else {
      SomeKeyLeaks(s);
    }
  }
}
