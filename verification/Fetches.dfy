/** Plan nodes, and their results as the executor hands them to the merger (plan/types.rs, execute.rs). */
module Fetches {
  import opened Common
  import opened Ast
  import opened Responses

  datatype Route = Route(name: string, url: string, timeoutMs: nat)

  datatype InitialFetch = InitialFetch(route: Route, queryText: string, variableNames: set<string>)

  datatype EntityFetch = EntityFetch(route: Route, typeName: string, keyField: string, fragmentBody: string)

  datatype FieldFetch = FieldFetch(
    responseKey: string,
    isList: bool,
    entityType: Option<string>,
    initial: InitialFetch,
    entityFetches: seq<EntityFetch>,
    clientRequestedIdKeys: set<string>)

  datatype ExecutionPlan = ExecutionPlan(
    operationType: OperationType,
    operationName: Option<string>,
    fieldFetches: seq<FieldFetch>)

  datatype InitialFetchResult = InitialFetchResult(plan: InitialFetch, durationMs: nat, outcome: Outcome)

  datatype EntityFetchResult = EntityFetchResult(plan: EntityFetch, durationMs: nat, outcome: Outcome)

  datatype FieldFetchResult = FieldFetchResult(
    field: FieldFetch,
    initial: InitialFetchResult,
    entities: seq<EntityFetchResult>)

  /** The first entity fetch names the key that the executor extracts and the merger strips. */
  function KeyField(f: FieldFetch): string {
    if f.entityFetches == [] then "id" else f.entityFetches[0].keyField
  }
}
