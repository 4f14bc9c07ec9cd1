/** Failures stay where they happen, extenders commute, and no error is lost (merge.rs). */
module MergeProperties {
  import opened Common
  import opened Responses
  import opened Fetches
  import opened Executor
  import opened Merge
  import opened Alignment

  // ---- field by field ----------------------------------------------------------------

  predicate DistinctKeys(rs: seq<FieldFetchResult>) {
    forall i, j :: 0 <= i < j < |rs| ==> rs[i].field.responseKey != rs[j].field.responseKey
  }

  /** With distinct response keys each root field's value depends on its own results alone. */
  lemma {:induction false} FieldsAreIndependent(rs: seq<FieldFetchResult>)
    requires DistinctKeys(rs)
    ensures forall i :: 0 <= i < |rs| ==>
      rs[i].field.responseKey in DataOf(rs) && DataOf(rs)[rs[i].field.responseKey] == FieldValue(rs[i])
    ensures forall k :: k in DataOf(rs) ==> exists i :: 0 <= i < |rs| && rs[i].field.responseKey == k
  {
    hide FieldValue;
    if rs != [] {
      var init := rs[..|rs| - 1];
      FieldsAreIndependent(init);
      assert forall i :: 0 <= i < |init| ==> rs[i] == init[i];
    }
  }

  /** Replacing one field's results changes the response under its key, and nowhere else. */
  lemma {:induction false} ReplacingOneFieldIsLocal(rs: seq<FieldFetchResult>, i: nat, r: FieldFetchResult)
    requires DistinctKeys(rs) && i < |rs| && r.field.responseKey == rs[i].field.responseKey
    ensures DataOf(rs[i := r]) == DataOf(rs)[r.field.responseKey := FieldValue(r)]
  {
    hide FieldValue;
    var n := |rs| - 1;
    if i == n {
      assert rs[i := r][..n] == rs[..n];
    } else {
      assert rs[i := r][..n] == rs[..n][i := r];
      ReplacingOneFieldIsLocal(rs[..n], i, r);
      assert rs[i].field.responseKey != rs[n].field.responseKey;
    }
  }

  /** A failed initial fetch makes its own key null, adds one error, and touches nothing else. */
  lemma FailedInitialIsIsolated(rs: seq<FieldFetchResult>, i: nat, r: FieldFetchResult, err: SubgraphError)
    requires DistinctKeys(rs) && i < |rs|
    requires r.field.responseKey == rs[i].field.responseKey && r.initial.outcome == Failed(err)
    ensures DataOf(rs[i := r]) == DataOf(rs)[r.field.responseKey := Null]
    ensures ErrorsOf(rs[i := r]) == ErrorsOf(rs[..i])
                                  + [ErrorFor(err, r.field.responseKey, r.initial.plan.route.name)]
                                  + ErrorsOf(rs[i + 1..])
    ensures ErrorsOf(rs) == ErrorsOf(rs[..i]) + FieldErrors(rs[i]) + ErrorsOf(rs[i + 1..])
  {
    hide DistinctKeys, ErrorFor;
    ReplacingOneFieldIsLocal(rs, i, r);
    ErrorsSplit(rs, i);
    ErrorsSplit(rs[i := r], i);
    assert rs[i := r][..i] == rs[..i] && rs[i := r][i + 1..] == rs[i + 1..];
  }

  lemma {:induction false} ErrorsAppend(a: seq<FieldFetchResult>, b: seq<FieldFetchResult>)
    ensures ErrorsOf(a + b) == ErrorsOf(a) + ErrorsOf(b)
    decreases |b|
  {
    hide FieldErrors;
    if b == [] {
      assert a + b == a;
    } else {
      var n := |b| - 1;
      assert (a + b)[..|a + b| - 1] == a + b[..n];
      ErrorsAppend(a, b[..n]);
    }
  }

  lemma ErrorsSplit(rs: seq<FieldFetchResult>, i: nat)
    requires i < |rs|
    ensures ErrorsOf(rs) == ErrorsOf(rs[..i]) + FieldErrors(rs[i]) + ErrorsOf(rs[i + 1..])
  {
    hide FieldErrors;
    assert rs == rs[..i + 1] + rs[i + 1..] && rs[..i + 1][..i] == rs[..i];
    ErrorsAppend(rs[..i + 1], rs[i + 1..]);
  }

  // ---- extenders ------------------------------------------------------------------------

  lemma {:induction false} ValuesAppend(value: Json, a: seq<EntityFetchResult>, b: seq<EntityFetchResult>)
    ensures EntityValues(value, a + b) == EntityValues(EntityValues(value, a), b)
    decreases |b|
  {
    if b == [] {
      assert a + b == a;
    } else {
      var n := |b| - 1;
      assert (a + b)[..|a + b| - 1] == a + b[..n];
      ValuesAppend(value, a, b[..n]);
    }
  }

  lemma {:induction false} EntityErrorsAppend(key: string, a: seq<EntityFetchResult>, b: seq<EntityFetchResult>)
    ensures AllEntityErrors(key, a + b) == AllEntityErrors(key, a) + AllEntityErrors(key, b)
    decreases |b|
  {
    hide EntityErrors;
    if b == [] {
      assert a + b == a;
    } else {
      var n := |b| - 1;
      assert (a + b)[..|a + b| - 1] == a + b[..n];
      EntityErrorsAppend(key, a, b[..n]);
    }
  }

  lemma OneExtender(value: Json, key: string, e: EntityFetchResult)
    ensures EntityValues(value, [e]) == EntityValue(value, e.outcome)
    ensures AllEntityErrors(key, [e]) == EntityErrors(key, e)
  {
    hide EntityValue, EntityErrors;
    assert [e][..0] == [];
    assert EntityValues(value, [e][..0]) == value && AllEntityErrors(key, [e][..0]) == [];
  }

  lemma SkippedExtender(value: Json, key: string, a: seq<EntityFetchResult>, e: EntityFetchResult,
                        b: seq<EntityFetchResult>)
    requires e.outcome.Failed?
    ensures EntityValues(value, a + [e] + b) == EntityValues(value, a + b)
    ensures AllEntityErrors(key, a + [e] + b)
         == AllEntityErrors(key, a) + EntityErrors(key, e) + AllEntityErrors(key, b)
    ensures AllEntityErrors(key, a + b) == AllEntityErrors(key, a) + AllEntityErrors(key, b)
  {
    ValuesAppend(value, a + [e], b);
    ValuesAppend(value, a, [e]);
    ValuesAppend(value, a, b);
    OneExtender(EntityValues(value, a), key, e);
    EntityErrorsAppend(key, a + [e], b);
    EntityErrorsAppend(key, a, [e]);
    EntityErrorsAppend(key, a, b);
  }

  /** The value before anything is taken out of it. */
  function MergedValue(r: FieldFetchResult): Json
    requires r.initial.outcome.Answered?
  {
    EntityValues(TakeField(r.initial.outcome.response.data, r.field.responseKey), r.entities)
  }

  function Unanswered(r: FieldFetchResult, j: nat): FieldFetchResult
    requires j < |r.entities|
  {
    r.(entities := r.entities[..j] + r.entities[j + 1..])
  }

  function Unplanned(r: FieldFetchResult, j: nat): FieldFetchResult
    requires j < |r.entities| && j < |r.field.entityFetches|
  {
    Unanswered(r, j).(field := r.field.(entityFetches := r.field.entityFetches[..j] + r.field.entityFetches[j + 1..]))
  }

  lemma FailedExtenderIsSkipped(r: FieldFetchResult, j: nat, err: SubgraphError)
    requires j < |r.entities| && r.entities[j].outcome == Failed(err) && r.initial.outcome.Answered?
    ensures MergedValue(r) == MergedValue(Unanswered(r, j))
    ensures var key, errs, es := r.field.responseKey, r.initial.outcome.response.errors, r.entities;
      var before, after := errs + AllEntityErrors(key, es[..j]), AllEntityErrors(key, es[j + 1..]);
      && FieldErrors(Unanswered(r, j)) == before + after
      && FieldErrors(r) == before + [ErrorFor(err, key, es[j].plan.route.name)] + after
  {
    var a, e, b := r.entities[..j], r.entities[j], r.entities[j + 1..];
    var key := r.field.responseKey;
    hide EntityValues, AllEntityErrors, ErrorFor, Stripped, TakeField, DroppedKeys;
    assert r.entities == a + [e] + b;
    SkippedExtender(TakeField(r.initial.outcome.response.data, key), key, a, e, b);
    hide EntityErrors;
    Regrouped(r.initial.outcome.response.errors, AllEntityErrors(key, a), EntityErrors(key, e),
              AllEntityErrors(key, b));
  }

  lemma Regrouped(errs: seq<GraphQLError>, a: seq<GraphQLError>, e: seq<GraphQLError>, b: seq<GraphQLError>)
    ensures errs + (a + e + b) == errs + a + e + b && errs + (a + b) == errs + a + b
  {
  }

  /**
   * A failed extender leaves the value as if it had not answered at all, and adds one error
   * between those of the extenders before and after it.
   */
  lemma FailedExtenderIsIsolated(r: FieldFetchResult, j: nat, err: SubgraphError)
    requires j < |r.entities| && r.entities[j].outcome == Failed(err) && r.initial.outcome.Answered?
    ensures FieldValue(r) == FieldValue(Unanswered(r, j))
    ensures exists before, after ::
      && FieldErrors(Unanswered(r, j)) == before + after
      && FieldErrors(r) == before + [ErrorFor(err, r.field.responseKey, r.entities[j].plan.route.name)] + after
  {
    hide EntityValues, AllEntityErrors, ErrorFor, Stripped, TakeField, DroppedKeys, FieldErrors;
    FailedExtenderIsSkipped(r, j, err);
  }

  /** Outside what is under the `hidden` names, some object of the value has a field of these `names`. */
  predicate Shows(value: Json, names: set<string>, hidden: set<string>) {
    match value
    case Array(items) => exists i :: 0 <= i < |items| && Shows(items[i], names, hidden)
    case Object(fields) => exists k :: k in fields && k !in hidden && (k in names || Shows(fields[k], names, hidden))
    case _ => false
  }

  /** Two sets of names take the same out of a value exactly when nothing shows that they differ. */
  lemma {:induction false} StripsAlike(value: Json, a: set<string>, b: set<string>)
    ensures Stripped(value, a) == Stripped(value, b) <==> !Shows(value, (a - b) + (b - a), a * b)
    decreases value
  {
    match value
    case Array(items) =>
      forall i | 0 <= i < |items|
        ensures Stripped(items[i], a) == Stripped(items[i], b) <==> !Shows(items[i], (a - b) + (b - a), a * b)
      {
        StripsAlike(items[i], a, b);
      }
      var x, y := StrippedItems(items, a), StrippedItems(items, b);
      assert x == y <==> forall i :: 0 <= i < |items| ==> x[i] == y[i];
    case Object(fields) =>
      forall k | k in fields
        ensures Stripped(fields[k], a) == Stripped(fields[k], b) <==> !Shows(fields[k], (a - b) + (b - a), a * b)
      {
        StripsAlike(fields[k], a, b);
      }
      StripsAlikeFields(fields, a, b);
    case _ =>
  }

  lemma StripsAlikeFields(fields: map<string, Json>, a: set<string>, b: set<string>)
    ensures Stripped(Object(fields), a) == Stripped(Object(fields), b) <==>
            forall k :: k in fields && k !in a * b ==> k !in a + b && Stripped(fields[k], a) == Stripped(fields[k], b)
  {
    var x, y := Stripped(Object(fields), a).fields, Stripped(Object(fields), b).fields;
    if forall k :: k in fields && k !in a * b ==> k !in a + b && Stripped(fields[k], a) == Stripped(fields[k], b) {
      assert x == y;
    }
    if x == y {
      forall k | k in fields && k !in a * b ensures k !in a + b && Stripped(fields[k], a) == Stripped(fields[k], b) {
        assert k in x <==> k in y;
        assert k in x ==> x[k] == y[k];
      }
    }
  }

  /**
   * A failed extender against one that was not planned at all. The first planned extender names
   * the key that is taken out of the value, so the value stays the same exactly when the names
   * taken out are the same as far as the value shows. They are whenever the key stays the same:
   * another extender of the type was planned, or its key is `id`. The error is one more as before.
   */
  lemma FailedExtenderAgainstUnplanned(r: FieldFetchResult, j: nat, err: SubgraphError)
    requires j < |r.entities| && j < |r.field.entityFetches|
    requires r.entities[j].outcome == Failed(err) && r.initial.outcome.Answered?
    ensures var a, b := DroppedKeys(r.field), DroppedKeys(Unplanned(r, j).field);
      FieldValue(r) == FieldValue(Unplanned(r, j)) <==>
        r.field.entityType.None? || !Shows(MergedValue(Unplanned(r, j)), (a - b) + (b - a), a * b)
    ensures KeyField(r.field) == KeyField(Unplanned(r, j).field) ==> FieldValue(r) == FieldValue(Unplanned(r, j))
    ensures (forall m :: 0 <= m < |r.field.entityFetches| ==> r.field.entityFetches[m].keyField == KeyField(r.field))
            && (|r.field.entityFetches| > 1 || KeyField(r.field) == "id")
            ==> KeyField(r.field) == KeyField(Unplanned(r, j).field)
    ensures exists before, after ::
      && FieldErrors(Unplanned(r, j)) == before + after
      && FieldErrors(r) == before + [ErrorFor(err, r.field.responseKey, r.entities[j].plan.route.name)] + after
  {
    hide EntityValues, AllEntityErrors, ErrorFor, Stripped, TakeField, DroppedKeys, Shows;
    FailedExtenderIsSkipped(r, j, err);
    assert MergedValue(r) == MergedValue(Unplanned(r, j));
    assert FieldErrors(Unplanned(r, j)) == FieldErrors(Unanswered(r, j));
    StripsAlike(MergedValue(r), DroppedKeys(r.field), DroppedKeys(Unplanned(r, j).field));
    if KeyField(r.field) == KeyField(Unplanned(r, j).field) {
      SameKeySameDrops(r, j);
    }
  }

  lemma SameKeySameDrops(r: FieldFetchResult, j: nat)
    requires j < |r.entities| && j < |r.field.entityFetches|
    requires KeyField(r.field) == KeyField(Unplanned(r, j).field)
    ensures DroppedKeys(r.field) == DroppedKeys(Unplanned(r, j).field)
  {
  }

  /** The fields that an answer adds to the k-th object. */
  function Added(outcome: Outcome, k: nat): map<string, Json> {
    match outcome
    case Answered(resp) =>
      (match TakeField(resp.data, "_entities")
       case Array(entities) => Enrich(map[], entities, k)
       case _ => map[])
    case Failed(_) => map[]
  }

  /** No object gets the same response key from both. */
  ghost predicate DisjointAnswers(a: Outcome, b: Outcome) {
    forall k: nat :: Added(a, k).Keys !! Added(b, k).Keys
  }

  lemma EntityValueAdds(value: Json, outcome: Outcome)
    ensures var value' := EntityValue(value, outcome);
      && |Objects(value')| == |Objects(value)|
      && (forall k :: 0 <= k < |Objects(value)| ==> Objects(value')[k] == Objects(value)[k] + Added(outcome, k))
      && Skeleton(value') == Skeleton(value)
  {
    hide Objects, Skeleton, Merged;
    if outcome.Answered? && TakeField(outcome.response.data, "_entities").Array? {
      var entities := TakeField(outcome.response.data, "_entities").items;
      MergeEnrichesByIndex(value, entities, 0);
      hide Enrich;
      forall k | 0 <= k < |Objects(value)|
        ensures Objects(EntityValue(value, outcome))[k] == Objects(value)[k] + Added(outcome, k)
      {
        EnrichAdds(Objects(value)[k], entities, k);
        assert 0 + k == k;
      }
    }
  }

  lemma EnrichAdds(fields: map<string, Json>, entities: seq<Json>, k: nat)
    ensures Enrich(fields, entities, k) == fields + Enrich(map[], entities, k)
  {
  }

  /** A value is determined by its skeleton and its objects. */
  lemma {:induction false} SameSkeletonAndObjects(a: Json, b: Json)
    requires Skeleton(a) == Skeleton(b) && Objects(a) == Objects(b)
    ensures a == b
    decreases a
  {
    match a
    case Array(items) => SameItems(items, b.items);
    case Object(fields) => assert Objects(a)[0] == Objects(b)[0];
    case _ =>
  }

  lemma {:induction false} SameItems(a: seq<Json>, b: seq<Json>)
    requires SkeletonOfItems(a) == SkeletonOfItems(b) && ObjectsOfItems(a) == ObjectsOfItems(b)
    ensures a == b
    decreases a
  {
    if a != [] {
      assert b != [] && Skeleton(a[0]) == SkeletonOfItems(a)[0] == SkeletonOfItems(b)[0] == Skeleton(b[0]);
      assert SkeletonOfItems(a[1..]) == SkeletonOfItems(a)[1..] == SkeletonOfItems(b)[1..] == SkeletonOfItems(b[1..]);
      SameCount(a[0], b[0]);
      var n := |Objects(a[0])|;
      assert Objects(a[0]) == ObjectsOfItems(a)[..n] && Objects(b[0]) == ObjectsOfItems(b)[..n];
      assert ObjectsOfItems(a[1..]) == ObjectsOfItems(a)[n..] && ObjectsOfItems(b[1..]) == ObjectsOfItems(b)[n..];
      SameSkeletonAndObjects(a[0], b[0]);
      SameItems(a[1..], b[1..]);
    } else {
      assert SkeletonOfItems(b) == [];
      assert b == [];
    }
  }

  lemma {:induction false} SameCount(a: Json, b: Json)
    requires Skeleton(a) == Skeleton(b)
    ensures |Objects(a)| == |Objects(b)|
    decreases a
  {
    if a.Array? {
      SameCounts(a.items, b.items);
    }
  }

  lemma {:induction false} SameCounts(a: seq<Json>, b: seq<Json>)
    requires SkeletonOfItems(a) == SkeletonOfItems(b)
    ensures |ObjectsOfItems(a)| == |ObjectsOfItems(b)|
    decreases a
  {
    if a != [] {
      assert b != [] && Skeleton(a[0]) == SkeletonOfItems(a)[0] == SkeletonOfItems(b)[0] == Skeleton(b[0]);
      assert SkeletonOfItems(a[1..]) == SkeletonOfItems(a)[1..] == SkeletonOfItems(b)[1..] == SkeletonOfItems(b[1..]);
      SameCount(a[0], b[0]);
      SameCounts(a[1..], b[1..]);
    } else {
      assert SkeletonOfItems(b) == [];
      assert b == [];
    }
  }

  /** Extenders with disjoint response keys commute, wherever they stand among the others. */
  lemma DisjointExtendersCommute(value: Json, before: seq<EntityFetchResult>, a: EntityFetchResult,
                                 b: EntityFetchResult, after: seq<EntityFetchResult>)
    requires DisjointAnswers(a.outcome, b.outcome)
    ensures EntityValues(value, before + [a, b] + after) == EntityValues(value, before + [b, a] + after)
  {
    var v := EntityValues(value, before);
    TwoExtendersCommute(v, a.outcome, b.outcome);
    ValuesAppend(value, before + [a, b], after);
    ValuesAppend(value, before + [b, a], after);
    ValuesAppend(value, before, [a, b]);
    ValuesAppend(value, before, [b, a]);
    TwoValues(v, a, b);
    TwoValues(v, b, a);
  }

  lemma TwoValues(value: Json, a: EntityFetchResult, b: EntityFetchResult)
    ensures EntityValues(value, [a, b]) == EntityValue(EntityValue(value, a.outcome), b.outcome)
  {
    assert [a, b][..1] == [a];
    OneExtender(value, "", a);
  }

  lemma TwoExtendersCommute(value: Json, a: Outcome, b: Outcome)
    requires DisjointAnswers(a, b)
    ensures EntityValue(EntityValue(value, a), b) == EntityValue(EntityValue(value, b), a)
  {
    hide EntityValue, Added, Objects, Skeleton;
    var va, vb := EntityValue(value, a), EntityValue(value, b);
    EntityValueAdds(value, a);
    EntityValueAdds(va, b);
    EntityValueAdds(value, b);
    EntityValueAdds(vb, a);
    var x, y := EntityValue(va, b), EntityValue(vb, a);
    forall k | 0 <= k < |Objects(value)| ensures Objects(x)[k] == Objects(y)[k] {
      assert Added(a, k).Keys !! Added(b, k).Keys;
    }
    assert Objects(x) == Objects(y);
    SameSkeletonAndObjects(x, y);
  }

  // ---- no error is lost -------------------------------------------------------------------

  lemma EntityErrorsSplit(key: string, entities: seq<EntityFetchResult>, j: nat)
    requires j < |entities|
    ensures AllEntityErrors(key, entities)
         == AllEntityErrors(key, entities[..j]) + EntityErrors(key, entities[j])
            + AllEntityErrors(key, entities[j + 1..])
  {
    hide EntityErrors;
    assert entities == entities[..j + 1] + entities[j + 1..] && entities[..j + 1][..j] == entities[..j];
    EntityErrorsAppend(key, entities[..j + 1], entities[j + 1..]);
  }

  /**
   * The errors of an extender's call: its own, under the field's key unless they have a path, or
   * one for its failure.
   */
  ghost predicate AreErrorsOf(errors: seq<GraphQLError>, e: EntityFetchResult, key: string) {
    match e.outcome
    case Answered(resp) => |errors| == |resp.errors| && forall i :: 0 <= i < |errors| ==>
      errors[i] == Scoped(resp.errors[i], key)
    case Failed(err) => errors == [ErrorFor(err, key, e.plan.route.name)]
  }

  /**
   * The response reports the errors of every field in their order, of a field those of its initial
   * call and then those of every extender in their order, each as often as it was raised and
   * nothing else. The entity results of a field whose initial fetch failed are not looked at, so
   * there must be none; the executor makes none.
   */
  lemma NoErrorIsLost(rs: seq<FieldFetchResult>, i: nat)
    requires i < |rs| && (rs[i].initial.outcome.Failed? ==> rs[i].entities == [])
    ensures ErrorsOf(rs) == ErrorsOf(rs[..i]) + FieldErrors(rs[i]) + ErrorsOf(rs[i + 1..])
    ensures var r, key, es := rs[i], rs[i].field.responseKey, rs[i].entities;
      && FieldErrors(r) == (if r.initial.outcome.Answered? then r.initial.outcome.response.errors
                            else [ErrorFor(r.initial.outcome.error, key, r.initial.plan.route.name)])
                         + AllEntityErrors(key, es)
      && forall j :: 0 <= j < |es| ==>
           && AllEntityErrors(key, es)
           == AllEntityErrors(key, es[..j]) + EntityErrors(key, es[j]) + AllEntityErrors(key, es[j + 1..])
           && AreErrorsOf(EntityErrors(key, es[j]), es[j], key)
  {
    ErrorsSplit(rs, i);
    hide ErrorsOf, ErrorFor;
    var key, es := rs[i].field.responseKey, rs[i].entities;
    forall j | 0 <= j < |es|
      ensures AllEntityErrors(key, es)
           == AllEntityErrors(key, es[..j]) + EntityErrors(key, es[j]) + AllEntityErrors(key, es[j + 1..])
      ensures AreErrorsOf(EntityErrors(key, es[j]), es[j], key)
    {
      EntityErrorsSplit(key, es, j);
    }
  }

  lemma ExecutorAsksNoEntitiesAfterAFailure(field: FieldFetch, variables: Json, operationName: Option<string>,
                                            send: Send)
    ensures var r := FieldResult(field, variables, operationName, send);
      r.initial.outcome.Failed? ==> r.entities == []
  {
  }
}
