/** Entity references, representations and variable forwarding in the executor (execute.rs). */
module Executor {
  import opened Common
  import opened Responses
  import opened Fetches

  // ---- entity references ------------------------------------------------------------

  /** The key values of the keyed objects in depth-first order; arrays are entered, objects are not. */
  function Refs(value: Json, key: string): seq<Json> {
    match value
    case Array(items) => RefsOfItems(items, key)
    case Object(fields) => if key in fields then [fields[key]] else []
    case _ => []
  }

  function RefsOfItems(items: seq<Json>, key: string): seq<Json> {
    if items == [] then [] else Refs(items[0], key) + RefsOfItems(items[1..], key)
  }

  lemma {:induction false} RefsAppend(a: seq<Json>, b: seq<Json>, key: string)
    ensures RefsOfItems(a + b, key) == RefsOfItems(a, key) + RefsOfItems(b, key)
  {
    if a == [] {
      assert a + b == b;
    } else {
      assert (a + b)[0] == a[0] && (a + b)[1..] == a[1..] + b;
      RefsAppend(a[1..], b, key);
    }
  }

  method ExtractInto(value: Json, key: string, out: seq<Json>) returns (out': seq<Json>)
    ensures out' == out + Refs(value, key)
    decreases value
  {
    out' := out;
    match value {
      case Array(items) =>
        for n := 0 to |items|
          invariant out' == out + RefsOfItems(items[..n], key)
        {
          RefsAppend(items[..n], [items[n]], key);
          assert items[..n + 1] == items[..n] + [items[n]];
          assert [items[n]][1..] == [] && RefsOfItems([items[n]], key) == Refs(items[n], key) + RefsOfItems([], key);
          out' := ExtractInto(items[n], key, out');
        }
        assert items[..|items|] == items;
      case Object(fields) =>
        if key in fields {
          out' := out + [fields[key]];
        }
      case _ =>
    }
  }

  function EntityRefs(data: Option<Json>, responseKey: string, key: string): seq<Json> {
    match data
    case Some(Object(top)) => if responseKey in top then Refs(top[responseKey], key) else []
    case _ => []
  }

  // ---- the batched `_entities` call ----------------------------------------------------

  function Representation(typeName: string, key: string, keyValue: Json): Json {
    Object(map["__typename" := Leaf(Text(typeName))][key := keyValue])
  }

  function Representations(typeName: string, key: string, refs: seq<Json>): (r: seq<Json>)
    ensures |r| == |refs|
    ensures forall i :: 0 <= i < |refs| ==> r[i] == Representation(typeName, key, refs[i])
  {
    if refs == [] then [] else [Representation(typeName, key, refs[0])] + Representations(typeName, key, refs[1..])
  }

  /** One call per extending subgraph, however many entities there are. */
  function EntityQueryText(typeName: string, body: string): string {
    "query" + "($representations: [_Any!]!)" + " { "
    + "_entities" + "(representations: $representations)" + " { "
    + "... on " + typeName + " { " + body + " }"
    + " }" + " }"
  }

  function EntityVariables(representations: seq<Json>): map<string, Json> {
    map["representations" := Array(representations)]
  }

  // ---- variables of the initial call ------------------------------------------------------

  function SubsetVariables(variables: Json, names: set<string>): map<string, Json> {
    match variables
    case Object(src) => map n | n in src && n in names :: src[n]
    case _ => map[]
  }

  method ForwardVariables(variables: Json, names: set<string>) returns (out: map<string, Json>)
    ensures out == SubsetVariables(variables, names)
    ensures forall n :: n in out <==> n in names && variables.Object? && n in variables.fields
    ensures forall n :: n in out ==> out[n] == variables.fields[n]
  {
    out := map[];
    if variables.Object? {
      var src, todo := variables.fields, names;
      while todo != {}
        invariant todo <= names
        invariant out == map n | n in src && n in names - todo :: src[n]
        decreases |todo|
      {
        var n :| n in todo;
        if n in src {
          out := out[n := src[n]];
        }
        todo := todo - {n};
      }
    }
  }

  // ---- one root field ----------------------------------------------------------------------

  /** `send(subgraph, text, variables, operation name)` yields the outcome and its duration. */
  type Send = (string, string, map<string, Json>, Option<string>) -> (Outcome, nat)

  function EntityCall(fetch: EntityFetch, representations: seq<Json>, send: Send): EntityFetchResult {
    var (outcome, ms) := send(fetch.route.name, EntityQueryText(fetch.typeName, fetch.fragmentBody),
                              EntityVariables(representations), None);
    EntityFetchResult(fetch, ms, outcome)
  }

  function EntityCalls(fetches: seq<EntityFetch>, representations: seq<Json>, send: Send): (r: seq<EntityFetchResult>)
    ensures |r| == |fetches|
    ensures forall i :: 0 <= i < |r| ==> r[i] == EntityCall(fetches[i], representations, send)
  {
    if fetches == [] then []
    else [EntityCall(fetches[0], representations, send)] + EntityCalls(fetches[1..], representations, send)
  }

  /** The initial call, and then, if it led to any entity, one batched call per entity fetch. */
  function FieldResult(field: FieldFetch, variables: Json, operationName: Option<string>,
                       send: Send): FieldFetchResult {
    var (outcome, ms) := send(field.initial.route.name, field.initial.queryText,
                              SubsetVariables(variables, field.initial.variableNames), operationName);
    var initial := InitialFetchResult(field.initial, ms, outcome);
    var key := KeyField(field);
    var refs := if outcome.Answered? then EntityRefs(outcome.response.data, field.responseKey, key) else [];
    if field.entityFetches == [] || refs == [] then FieldFetchResult(field, initial, [])
    else
      var representations := Representations(field.entityType.GetOr("Unknown"), key, refs);
      FieldFetchResult(field, initial, EntityCalls(field.entityFetches, representations, send))
  }

  method ExecuteFetches(field: FieldFetch, variables: Json, operationName: Option<string>, send: Send)
    returns (r: FieldFetchResult)
    ensures r == FieldResult(field, variables, operationName, send)
  {
    hide EntityCalls, SubsetVariables;
    var sent := ForwardVariables(variables, field.initial.variableNames);
    var (outcome, ms) := send(field.initial.route.name, field.initial.queryText, sent, operationName);
    var initial := InitialFetchResult(field.initial, ms, outcome);
    if field.entityFetches == [] {
      return FieldFetchResult(field, initial, []);
    }
    var key := KeyField(field);
    var refs: seq<Json> := [];
    if outcome.Answered? && outcome.response.data.Some? && outcome.response.data.value.Object?
       && field.responseKey in outcome.response.data.value.fields {
      refs := ExtractInto(outcome.response.data.value.fields[field.responseKey], key, []);
      assert refs == Refs(outcome.response.data.value.fields[field.responseKey], key);
    }
    hide Refs;
    assert refs == if outcome.Answered? then EntityRefs(outcome.response.data, field.responseKey, key) else [];
    if refs == [] {
      return FieldFetchResult(field, initial, []);
    }
    var representations := Representations(field.entityType.GetOr("Unknown"), key, refs);
    r := FieldFetchResult(field, initial, EntityCalls(field.entityFetches, representations, send));
  }
}
