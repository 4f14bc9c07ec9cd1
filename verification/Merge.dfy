/** The response merger (merge.rs). */
module Merge {
  import opened Common
  import opened Responses
  import opened Fetches

  // ---- folding `_entities` back by index ------------------------------------------

  /** What the entity at index `i` adds to an object; `null` and missing entries add nothing. */
  function Enrich(fields: map<string, Json>, entities: seq<Json>, i: nat): map<string, Json> {
    if i < |entities| && entities[i].Object? then fields + entities[i].fields else fields
  }

  /** The value with its objects enriched in depth-first order from index `idx`, and the next index. */
  function Merged(value: Json, entities: seq<Json>, idx: nat): (Json, nat) {
    match value
    case Array(items) =>
      var (items', idx') := MergedItems(items, entities, idx);
      (Array(items'), idx')
    case Object(fields) => (Object(Enrich(fields, entities, idx)), idx + 1)
    case _ => (value, idx)
  }

  function MergedItems(items: seq<Json>, entities: seq<Json>, idx: nat): (r: (seq<Json>, nat))
    ensures |r.0| == |items|
  {
    if items == [] then ([], idx)
    else
      var (first, idx') := Merged(items[0], entities, idx);
      var (rest, idx'') := MergedItems(items[1..], entities, idx');
      ([first] + rest, idx'')
  }

  lemma {:induction false} MergedAppend(a: seq<Json>, b: seq<Json>, entities: seq<Json>, idx: nat)
    ensures var (a', idx') := MergedItems(a, entities, idx);
      var (b', idx'') := MergedItems(b, entities, idx');
      MergedItems(a + b, entities, idx) == (a' + b', idx'')
  {
    if a == [] {
      assert a + b == b;
      assert [] + MergedItems(b, entities, idx).0 == MergedItems(b, entities, idx).0;
    } else {
      var (first, idx1) := Merged(a[0], entities, idx);
      assert (a + b)[1..] == a[1..] + b && (a + b)[0] == a[0];
      MergedAppend(a[1..], b, entities, idx1);
      var (rest, idx2) := MergedItems(a[1..], entities, idx1);
      var b' := MergedItems(b, entities, idx2).0;
      assert [first] + rest + b' == [first] + (rest + b');
    }
  }

  lemma MergedOne(item: Json, entities: seq<Json>, idx: nat)
    ensures MergedItems([item], entities, idx) == ([Merged(item, entities, idx).0], Merged(item, entities, idx).1)
  {
    var (first, idx') := Merged(item, entities, idx);
    assert [item][1..] == [] && MergedItems([], entities, idx') == ([], idx') && [first] + [] == [first];
  }

  method WalkAndMerge(value: Json, entities: seq<Json>, idx: nat) returns (value': Json, idx': nat)
    ensures (value', idx') == Merged(value, entities, idx)
    decreases value
  {
    value', idx' := value, idx;
    match value {
      case Array(items) =>
        var out: seq<Json> := [];
        for n := 0 to |items|
          invariant (out, idx') == MergedItems(items[..n], entities, idx)
        {
          MergedAppend(items[..n], [items[n]], entities, idx);
          MergedOne(items[n], entities, idx');
          assert items[..n + 1] == items[..n] + [items[n]];
          var item;
          item, idx' := WalkAndMerge(items[n], entities, idx');
          out := out + [item];
        }
        assert items[..|items|] == items;
        value' := Array(out);
      case Object(fields) =>
        if idx < |entities| && entities[idx].Object? {
          var extra := entities[idx].fields;
          var all, keys := fields, extra.Keys;
          while keys != {}
            invariant keys <= extra.Keys
            invariant all == fields + (map k | k in extra.Keys - keys :: extra[k])
            decreases |keys|
          {
            var k :| k in keys;
            all, keys := all[k := extra[k]], keys - {k};
          }
          assert (map k | k in extra.Keys - {} :: extra[k]) == extra;
          value' := Object(all);
        }
        idx' := idx + 1;
      case _ =>
    }
  }

  // ---- stripping injected fields -----------------------------------------------------

  function Stripped(value: Json, drops: set<string>): Json {
    match value
    case Array(items) => Array(StrippedItems(items, drops))
    case Object(fields) => Object(map k | k in fields && k !in drops :: Stripped(fields[k], drops))
    case _ => value
  }

  function StrippedItems(items: seq<Json>, drops: set<string>): (r: seq<Json>)
    ensures |r| == |items|
    ensures forall i :: 0 <= i < |items| ==> r[i] == Stripped(items[i], drops)
  {
    if items == [] then [] else [Stripped(items[0], drops)] + StrippedItems(items[1..], drops)
  }

  method Strip(value: Json, drops: set<string>) returns (value': Json)
    ensures value' == Stripped(value, drops)
    decreases value, 1
  {
    value' := value;
    match value {
      case Array(items) =>
        var out: seq<Json> := [];
        for n := 0 to |items|
          invariant |out| == n && forall i :: 0 <= i < n ==> out[i] == Stripped(items[i], drops)
        {
          var item := Strip(items[n], drops);
          out := out + [item];
        }
        assert out == StrippedItems(items, drops);
        value' := Array(out);
      case Object(fields) =>
        var out := StripFields(fields, drops, value);
        value' := Object(out);
      case _ =>
    }
  }

  method StripFields(fields: map<string, Json>, drops: set<string>, ghost whole: Json) returns (out: map<string, Json>)
    requires whole == Object(fields)
    ensures out == map k | k in fields && k !in drops :: Stripped(fields[k], drops)
    decreases whole, 0
  {
    hide Stripped;
    var kept := fields.Keys - drops;
    var keys := kept;
    out := map[];
    while keys != {}
      invariant keys <= kept && out.Keys == kept - keys
      invariant forall k :: k in out ==> out[k] == Stripped(fields[k], drops)
      decreases |keys|
    {
      var k :| k in keys;
      var v := Strip(fields[k], drops);
      out, keys := out[k := v], keys - {k};
    }
  }

  function SyntheticKeys(dropId: bool, keyField: string): set<string> {
    {"__typename"} + if dropId then {keyField} else {}
  }

  /** What is taken out of a planned field's value: without an entity fetch the key is taken to be `id`. */
  function DroppedKeys(f: FieldFetch): set<string> {
    SyntheticKeys(KeyField(f) !in f.clientRequestedIdKeys, KeyField(f))
  }

  // ---- errors --------------------------------------------------------------------------

  function Describe(err: SubgraphError): (string, string) {
    match err
    case Timeout(shown) => ("Subgraph timed out after " + shown + ".", "SUBGRAPH_TIMEOUT")
    case BadStatus(status, _) => ("Subgraph responded with HTTP " + Decimal(status) + ".", "SUBGRAPH_HTTP_ERROR")
    case Transport(reason) => ("Subgraph transport error: " + reason + ".", "SUBGRAPH_TRANSPORT_ERROR")
    case Decode(problem) => ("Subgraph returned an undecodable response: " + problem + ".", "SUBGRAPH_DECODE_ERROR")
    case CircuitOpen(_) =>
      ("Subgraph circuit breaker is open; upstream calls are temporarily skipped.", "SUBGRAPH_CIRCUIT_OPEN")
  }

  function ErrorFor(err: SubgraphError, pathRoot: string, subgraph: string): GraphQLError {
    var (message, code) := Describe(err);
    GraphQLError(message, [], [Leaf(Text(pathRoot))],
      Some(Object(map["code" := Leaf(Text(code)), "subgraph" := Leaf(Text(subgraph))])))
  }

  function Scoped(err: GraphQLError, responseKey: string): GraphQLError {
    if err.path == [] then err.(path := [Leaf(Text(responseKey))]) else err
  }

  function ScopedAll(errs: seq<GraphQLError>, responseKey: string): (r: seq<GraphQLError>)
    ensures |r| == |errs|
    ensures forall i :: 0 <= i < |errs| ==> r[i] == Scoped(errs[i], responseKey)
  {
    if errs == [] then [] else [Scoped(errs[0], responseKey)] + ScopedAll(errs[1..], responseKey)
  }

  // ---- one entity fetch -------------------------------------------------------------------

  function TakeField(data: Option<Json>, key: string): Json {
    match data
    case Some(Object(fields)) => if key in fields then fields[key] else Null
    case _ => Null
  }

  function EntityValue(value: Json, outcome: Outcome): Json {
    match outcome
    case Answered(resp) =>
      (match TakeField(resp.data, "_entities")
       case Array(entities) => Merged(value, entities, 0).0
       case _ => value)
    case Failed(_) => value
  }

  function EntityErrors(responseKey: string, entity: EntityFetchResult): seq<GraphQLError> {
    match entity.outcome
    case Answered(resp) => ScopedAll(resp.errors, responseKey)
    case Failed(err) => [ErrorFor(err, responseKey, entity.plan.route.name)]
  }

  method ApplyEntityOutcome(value: Json, responseKey: string, entity: EntityFetchResult, errors: seq<GraphQLError>)
    returns (value': Json, errors': seq<GraphQLError>)
    ensures value' == EntityValue(value, entity.outcome)
    ensures errors' == errors + EntityErrors(responseKey, entity)
  {
    hide Merged, Scoped, ErrorFor;
    value', errors' := value, errors;
    match entity.outcome {
      case Answered(resp) =>
        var found := TakeField(resp.data, "_entities");
        for i := 0 to |resp.errors|
          invariant errors' == errors + ScopedAll(resp.errors, responseKey)[..i]
        {
          errors' := errors' + [Scoped(resp.errors[i], responseKey)];
        }
        if found.Array? {
          var idx;
          value', idx := WalkAndMerge(value, found.items, 0);
        }
      case Failed(err) =>
        errors' := errors + [ErrorFor(err, responseKey, entity.plan.route.name)];
    }
  }

  // ---- one field ----------------------------------------------------------------------------

  function EntityValues(value: Json, entities: seq<EntityFetchResult>): Json {
    if entities == [] then value
    else EntityValue(EntityValues(value, entities[..|entities| - 1]), entities[|entities| - 1].outcome)
  }

  function AllEntityErrors(responseKey: string, entities: seq<EntityFetchResult>): seq<GraphQLError> {
    if entities == [] then []
    else AllEntityErrors(responseKey, entities[..|entities| - 1]) + EntityErrors(responseKey, entities[|entities| - 1])
  }

  function EntityDurations(entities: seq<EntityFetchResult>): seq<(string, nat)> {
    if entities == [] then []
    else
      var last := entities[|entities| - 1];
      EntityDurations(entities[..|entities| - 1]) + [(last.plan.route.name, last.durationMs)]
  }

  function FieldValue(r: FieldFetchResult): Json {
    match r.initial.outcome
    case Failed(_) => Null
    case Answered(resp) =>
      var value := EntityValues(TakeField(resp.data, r.field.responseKey), r.entities);
      if r.field.entityType.None? then value
      else
        Stripped(value, DroppedKeys(r.field))
  }

  function FieldErrors(r: FieldFetchResult): seq<GraphQLError> {
    match r.initial.outcome
    case Failed(err) => [ErrorFor(err, r.field.responseKey, r.initial.plan.route.name)]
    case Answered(resp) => resp.errors + AllEntityErrors(r.field.responseKey, r.entities)
  }

  function FieldDurations(r: FieldFetchResult): seq<(string, nat)> {
    [(r.initial.plan.route.name, r.initial.durationMs)]
    + if r.initial.outcome.Answered? then EntityDurations(r.entities) else []
  }

  // ---- the whole response -----------------------------------------------------------------------

  function DataOf(rs: seq<FieldFetchResult>): map<string, Json> {
    if rs == [] then map[]
    else DataOf(rs[..|rs| - 1])[rs[|rs| - 1].field.responseKey := FieldValue(rs[|rs| - 1])]
  }

  function ErrorsOf(rs: seq<FieldFetchResult>): seq<GraphQLError> {
    if rs == [] then [] else ErrorsOf(rs[..|rs| - 1]) + FieldErrors(rs[|rs| - 1])
  }

  function DurationsOf(rs: seq<FieldFetchResult>): seq<(string, nat)> {
    if rs == [] then [] else DurationsOf(rs[..|rs| - 1]) + FieldDurations(rs[|rs| - 1])
  }

  method MergeEntities(taken: Json, key: string, entities: seq<EntityFetchResult>)
    returns (value: Json, errors: seq<GraphQLError>, durations: seq<(string, nat)>)
    ensures value == EntityValues(taken, entities)
    ensures errors == AllEntityErrors(key, entities)
    ensures durations == EntityDurations(entities)
  {
    value, errors, durations := taken, [], [];
    for j := 0 to |entities|
      invariant value == EntityValues(taken, entities[..j])
      invariant errors == AllEntityErrors(key, entities[..j])
      invariant durations == EntityDurations(entities[..j])
    {
      assert entities[..j + 1][..j] == entities[..j];
      durations := durations + [(entities[j].plan.route.name, entities[j].durationMs)];
      value, errors := ApplyEntityOutcome(value, key, entities[j], errors);
    }
    assert entities[..|entities|] == entities;
  }

  method MergeField(r: FieldFetchResult)
    returns (value: Json, errors: seq<GraphQLError>, durations: seq<(string, nat)>)
    ensures value == FieldValue(r) && errors == FieldErrors(r) && durations == FieldDurations(r)
  {
    durations := [(r.initial.plan.route.name, r.initial.durationMs)];
    var key := r.field.responseKey;
    match r.initial.outcome {
      case Answered(resp) =>
        var errs, spent;
        value, errs, spent := MergeEntities(TakeField(resp.data, key), key, r.entities);
        errors, durations := resp.errors + errs, durations + spent;
        if r.field.entityType.Some? {
          var keyField := KeyField(r.field);
          value := Strip(value, SyntheticKeys(keyField !in r.field.clientRequestedIdKeys, keyField));
        }
      case Failed(err) =>
        value, errors := Null, [ErrorFor(err, key, r.initial.plan.route.name)];
    }
  }

  method MergeResponses(rs: seq<FieldFetchResult>)
    returns (response: GraphQLResponse, durations: seq<(string, nat)>)
    ensures response == GraphQLResponse(Some(Object(DataOf(rs))), ErrorsOf(rs), None)
    ensures durations == DurationsOf(rs)
  {
    var data: map<string, Json> := map[];
    var errors: seq<GraphQLError> := [];
    durations := [];
    for i := 0 to |rs|
      invariant data == DataOf(rs[..i]) && errors == ErrorsOf(rs[..i]) && durations == DurationsOf(rs[..i])
    {
      assert rs[..i + 1][..i] == rs[..i];
      var value, errs, spent := MergeField(rs[i]);
      data, errors, durations := data[rs[i].field.responseKey := value], errors + errs, durations + spent;
    }
    assert rs[..|rs|] == rs;
    response := GraphQLResponse(Some(Object(data)), errors, None);
  }
}
