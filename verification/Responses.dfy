/** JSON values, and GraphQL requests and responses as the router handles them (graphql/types.rs, error.rs). */
module Responses {
  import opened Common

  datatype Atom = Bool(b: bool) | Number(text: string) | Text(s: string)

  /** The JSON library keeps objects sorted by key, so an object is a finite map. */
  datatype Json =
    | Null
    | Leaf(atom: Atom)
    | Array(items: seq<Json>)
    | Object(fields: map<string, Json>)

  datatype Location = Location(line: nat, column: nat)

  datatype GraphQLError = GraphQLError(
    message: string,
    locations: seq<Location>,
    path: seq<Json>,
    extensions: Option<Json>)

  datatype GraphQLResponse = GraphQLResponse(
    data: Option<Json>,
    errors: seq<GraphQLError>,
    extensions: Option<Json>)

  /** `shown` is the timeout as it prints in a message. */
  datatype SubgraphError =
    | Timeout(shown: string)
    | BadStatus(status: nat, body: string)
    | Transport(reason: string)
    | Decode(problem: string)
    | CircuitOpen(retryAfter: int)

  datatype Outcome = Answered(response: GraphQLResponse) | Failed(error: SubgraphError)

  function Decimal(n: nat): string {
    (if n < 10 then "" else Decimal(n / 10)) + ["0123456789"[n % 10]]
  }
}
