# TravelGraph in Dafny

A model of the TravelGraph platform's own logic, with proofs: the federated query router, its
reliability layer, its response cache and cost limiter, the booking lifecycle, the price
calculator, and the schema registry's parser and breaking-change checks.
`dafny verify dfyconfig.toml` checks the whole project.

Each file models one component. Code that updates state step by step is a method (a class where the
source has an object with fields), proved against a function of its inputs or old state; what the
source promises is then proved about that function. The network, Redis, Postgres and the GraphQL
parser are small abstract parts: a subgraph is a function from requests to answers, the cache store
a timed map, the booking table a sequence of rows with constraints, and documents are trees.

## The router's query pipeline

`Ast`, `Render`, `Reader`, `RoundTrip`, `Scanners`, `Synthesis`, `Joins`, `Catalog`, `RootFields`,
`Planner`, `PlannerProperties`, `Routing`, `Fetches`, `Responses`, `Executor`, `Merge`, `Alignment`,
`MergeProperties`, `ErrorReports`, `Evaluation`, `Trees`, `Federation`, `Stitching`, `Boundary`,
`Refusals`, `Braces`, `PlainFields`, `Pipeline`.

The planner prints the initial operation as text, and two scanners read that text again. `Reader`
is an independent reader for the part of sections 2.1 to 2.12 of the GraphQL October 2021
specification that the planner prints; it refuses block strings, `\u` escapes, directives, fragment
definitions and documents of several operations. `Evaluation` executes what it reads as section 6
describes, fields of one response key merged, and refuses an operation that holds a fragment spread
or does not declare exactly the variables it uses. Over these, a root field's printed, fetched,
enriched and stripped value is compared with evaluating its selection directly, each field in the
subgraph that owns it.

Under the conditions below, in the terms of `Stitching.Scenario.Sound`, no error is reported, and the
value is the directly evaluated one less the names that the merger strips
(`Stitching.StitchedIsStripped`, `Boundary.StitchedLessStripped`); `Boundary.StitchedEqualsDirectExactly`
says exactly when that is the directly evaluated value itself, and
`Boundary.StitchedEqualsDirectBySelections` says it in terms of the selections. `Refusals` says exactly
when an error is reported where a spread or a variable goes missing. A field for which no entity type
is guessed comes out as its subgraph answers it (`PlainFields.PassedThrough`), and a whole response is
the direct one exactly when each of its fields comes out (`Pipeline.PipelineEqualsDirect`). The
conditions:

- the guessed entity type is the type of the objects found, has a key, and every subgraph resolves
  `_entities` by that key, in order;
- the root field has a selection set of plain fields without directives, with distinct response
  keys, none of them under the name of the key or under `__typename` but these fields themselves, and
  no fragment spread stands anywhere in it;
- extender fields use no variables, string literals hold no brace and no `$`, and a name, number or
  string is one that the specification's grammar allows;
- every variable used is declared, as the router's validation demands, and the request names no
  operation.

`Example` is a graph of two subgraphs and a list of two objects, one field of which an extender owns,
that meets all of these conditions, and with them those of the cache theorems.

The iteration order of a hash map is an input (`Planner.HashOrder`), so a result holds for every order.

## The other components

`Common` holds the small types that several files share, `Counting` how many members of a list are of
a kind. `Circuit` and `Dispatch`: the circuit breaker as a class, its runs under any interleaving of
callers, and the attempt loop over it. `Cache` and `Server`: cache keys, lifetimes and the request
handler, with safety over every interleaving of requests. `Cost` and `QueryShape`: the saturating walk,
and what it adds up to. `Booking`, `BookingAnswers`, `BookingRace` and `BookingRuns`: one call at a time,
what each answer means, all interleavings of the steps of concurrent calls, and exactly which of them
break the table. `Pricing` and `Stays`: exact rounding, and what a stay is charged. `Sdl`, `SdlLines`,
`SdlPrinter`, `SchemaCheck`, `CiSchemaCheck`, `IssueCodes`: the line parser, what its patterns match, a
canonical printer it undoes, the two checkers, and when each issue is reported.

What the methods compute is also told without the functions that they are proved against, on the inputs
themselves: the directives of a type, the maps of the catalogue, the rows of the table, the parts of a
line, the nights of a stay.

## What the code does not do

Each of these is a lemma; the code is modelled as it is.

- The printer drops directives, so `@include` and `@skip` do not reach a subgraph
  (`RoundTrip.RoundTripsExactlyWhenDirectiveFree`).
- Stripping a field that has an object argument and no selection set cuts the argument
  (`Synthesis.StripLeavesTheHead`), and so do braces inside string literals that do not balance
  (`Braces.StripsToHeadExactly`, `Braces.StripsToHeadWhenBalanced`).
- The printer escapes quotes only, so a string is read back exactly when it holds no backslash, no line
  break and no character that section 2.1.1 keeps out of documents (`RoundTrip.ScansBackExactly`); and
  an inline fragment without a type condition becomes bare braces (`RoundTrip.BareBracesAreNoFragment`).
- Fragment definitions are not sent, so what is sent is refused exactly when a spread stands in it
  (`Federation.PrintedIsAnsweredExactly`, section 5.5.2.1); the batched query declares no variable of the
  request, so an extender's field that uses one is refused too (section 5.8.3). `Refusals.ErrorsExactly`
  and `PlainFields.SpreadsFailExactly` say exactly when a root field gets an error for that.
- Fragments directly below a field with a guessed type are dropped without an error, spreads and inline
  fragments alike (`PlannerProperties.FragmentsAreDropped`).
- A request that names its operation sends that name with an unnamed operation, which section 6.1 of
  the GraphQL October 2021 specification makes a request error (`Refusals.NamedOperationIsRefused`).
- The merger strips `__typename` at every depth, although it was asked for (`Boundary.TypenameIsLost`),
  and the key or `__typename` under an alias is never fetched (`Boundary.AliasIsLost`).
- Without an entity fetch the merger takes the key to be called `id`. If it is not, and an object is
  found, a key that was not asked for stays in the response (`Boundary.KeyLeaks`), and an ordinary field
  answered under `id` disappears (`Boundary.SelectedIdIsLost`). Nothing else goes wrong
  (`Boundary.StitchedEqualsDirectExactly`).
- For the same reason a failed extender is not always as good as one that was not planned
  (`MergeProperties.FailedExtenderAgainstUnplanned`).
- Where a type declares one field name twice, its ownership is conserved exactly when the repeats agree
  (`Catalog.AttachmentConserves`).
- If an object without the key precedes one with it, references and enriched objects do not match up
  (`Alignment.AlignedExactlyWhenKeyedFirst`).
- The guessed entity type depends on the hash map's order unless one type scores strictly best
  (`PlannerProperties.GuessIsFixedExactlyWhenStrictlyBest`).
- A success can open the breaker: closing after a recovery keeps the failures in the window
  (`Circuit.SuccessCanReopen`; when a record opens it is `Circuit.ClosedOpensExactly`).
- With the largest 32-bit retry count the attempt bound wraps to zero in a release build, and the
  call fails without an attempt (`Dispatch.EndsForAReason`).
- A request for the operation named `""` can only be refused, yet it is served the cached response of
  one that names none (`Server.HitAgreesExactly`); and a request's key can coincide with another's
  exactly when the separator U+001E stands in its operation name or in its identity
  (`Cache.KeysCollideExactly`).
- Two creates that are each acceptable can both be accepted when their checks interleave, and exactly
  which pairs oversell a room or book a user twice is `BookingRace.RacingCreatesCanOversell`; a whole run
  stays good exactly when every insert comes while its user and nights are free
  (`BookingRuns.RunStaysGoodExactly`), and one that does not was overtaken
  (`BookingRuns.BreakingInsertIsOvertaken`).
- A stay can be refused although each of its nights has room: whatever the inventory, the check refuses
  the stays with a full night and no others exactly when all the bookings that overlap the stay share
  one of its nights (`Booking.AvailabilityIsRightExactly`).
- Neither checker looks at unions or at a type's kind (`SchemaCheck.OnlyFieldsAndValuesMatter`,
  `CiSchemaCheck.OnlyFieldsAndValuesMatter`). On the same two parsed documents, what the build's check
  passes in silence the registry's reports exactly when a type differs in blanks
  (`CiSchemaCheck.CiSilenceReachesRegistryExactly`), and the other way round exactly when a required
  field became optional
  (`CiSchemaCheck.RegistrySilenceReachesCiExactly`).

Where documentation and code differ, the code is followed: the response cache's lifetimes go by
response key, so an aliased field falls under none; the pricing comment calls the holiday uplift the
larger one, which nothing enforces.

## Model

| member | source | states |
|---|---|---|
| `RoundTrip.ReadsRenderedField` | router/crates/travelgraph-router/src/plan/planner.rs:371-444 | A reader for the specification's grammar recovers from a printed field exactly that field without its directives, for fields whose fragments have a type condition and whose strings hold no backslash, no line break and no character outside section 2.1.1 |
| `RoundTrip.RoundTripsExactlyWhenDirectiveFree` | router/crates/travelgraph-router/src/plan/planner.rs:392-421 | Printing a field is reversible if and only if no directive stands anywhere in it |
| `RoundTrip.ScanEscaped` | router/crates/travelgraph-router/src/plan/planner.rs:423-444 | Such a string, printed with its quotes escaped, is read back as that string, and the reader stops exactly at its end |
| `RoundTrip.ScansBackExactly` | router/crates/travelgraph-router/src/plan/planner.rs:423-444 | A string is read back if and only if it holds no backslash, no line break and no character that section 2.1.1 keeps out of documents |
| `RoundTrip.BareBracesAreNoFragment` | router/crates/travelgraph-router/src/plan/planner.rs:371-390 | A printed inline fragment without a type condition is never read back as a selection, and printed after a field without selections it is that field's selection set |
| `RoundTrip.ReadsRenderedOperation` | router/crates/travelgraph-router/src/plan/planner.rs:446-488 | A synthesised operation, variable definitions with types and defaults included, is read back as the operation it was printed from |
| `Scanners.StripSelectionSet` | router/crates/travelgraph-router/src/plan/planner.rs:490-512 | The character loop computes the text before the last top-level opening brace, trimmed |
| `Scanners.CollectVariableUses` | router/crates/travelgraph-router/src/plan/planner.rs:521-543 | The index loop collects exactly the names that follow a `$` |
| `Synthesis.StripLeavesTheHead` | router/crates/travelgraph-router/src/plan/planner.rs:490-512 | For literals without braces, stripping a printed field leaves exactly alias, name and arguments, however deep object arguments nest, if and only if it has a selection set or no object argument |
| `Braces.ScanCounts` | router/crates/travelgraph-router/src/plan/planner.rs:490-512 | On any text the scanner's depth is opening less closing braces, and the brace it cuts at is the last one that as many close as open before |
| `Braces.StripsToHeadExactly` | router/crates/travelgraph-router/src/plan/planner.rs:490-512 | For any literals, stripping leaves exactly alias, name and arguments if and only if the selection set's own brace is the last one at the top level, or, without a selection set, no brace is |
| `Braces.StripsToHeadWhenBalanced` | router/crates/travelgraph-router/src/plan/planner.rs:490-512 | Where the literals further down hold no brace, if and only if the braces inside the string literals of the field's own arguments are as many open as closed |
| `Synthesis.ScannedVariables` | router/crates/travelgraph-router/src/plan/planner.rs:521-543 | The variables scanned from a printed field are exactly those in its tree |
| `Synthesis.SynthesizedOperation` | router/crates/travelgraph-router/src/plan/planner.rs:446-477 | Replacing the selection set in the text gives the printed form of the tree with its selection set replaced, declaring exactly the used declared variables |
| `Synthesis.OperationVariables` | router/crates/travelgraph-router/src/plan/planner.rs:514-540 | The names scanned from a whole operation, which decide what is forwarded, are its declared and its used variables |
| `Joins.LastArgumentCounts` | router/crates/travelgraph-router/src/supergraph/catalog.rs:206-230 | What a `@join__type` says of graph, key and extension is what its last argument of that name and of the right kind says |
| `Joins.DirectivesDecide` | router/crates/travelgraph-router/src/supergraph/catalog.rs:203-241 | A type is owned by the graph of its last directive without `extension: true` that names one, and by none exactly when there is no such directive; its extenders are the graphs of those with `extension: true`, in order; its key fields are those of the first key that has a field |
| `Joins.WordsOfKey` | router/crates/travelgraph-router/src/supergraph/catalog.rs:454-459 | The fields of a key are its words between blanks, and there are none exactly when it is blank |
| `Joins.PropertyIsExtended` | router/crates/travelgraph-router/src/supergraph/catalog.rs:494-497 | The property type of the fixture is owned by one subgraph, extended by two others in their order, and keyed by `id` |
| `Joins.FirstFieldGraphDecides` | router/crates/travelgraph-router/src/supergraph/catalog.rs:262-275 | A field belongs to the graph of its first `@join__field` that names one, and without one to the owner of its type |
| `Catalog.AttachFields` | router/crates/travelgraph-router/src/supergraph/catalog.rs:259-284 | Every field name gets the resolved owner of its last declaration, and the first extender of a subgraph receives exactly the fields that subgraph owns, in order |
| `Catalog.FieldsOfInOrder` | router/crates/travelgraph-router/src/supergraph/catalog.rs:277-283 | The fields that an extender lists are those it owns, in the order in which the type declares them |
| `Catalog.ReadOwnership` | router/crates/travelgraph-router/src/supergraph/catalog.rs:199-241 | The loop over the directives of a type finds its declared owner, extenders and key fields |
| `Catalog.CollectEntityType` | router/crates/travelgraph-router/src/supergraph/catalog.rs:194-296 | An entity type has the owner, key fields and extenders that its directives declare; it is none exactly when no directive names a graph, and is rejected exactly when it is extended but unowned or its owner is not declared; ownership is conserved exactly when fields that share a name agree |
| `Catalog.CollectEntityTypes` | router/crates/travelgraph-router/src/supergraph/catalog.rs:181-299 | Unless some declaration must be rejected, and only then, the result holds the types with an owning directive and no others, each as the last such declaration of its name describes it |
| `Catalog.AttachmentConserves` | router/crates/travelgraph-router/src/supergraph/catalog.rs:259-295 | Each declared field has one owner, extenders list only fields they own, no field is listed twice, and an owned field of a listed extender is listed, if and only if fields that share a name have one owner that would not list the name twice |
| `RootFields.CollectRootFields` | router/crates/travelgraph-router/src/supergraph/catalog.rs:302-350 | The root fields of queries and of mutations are those of the types of these names, federation's own excepted, each under the first graph that its last declaration names or else the first that its type names; rejected exactly when some root field has neither |
| `Planner.GuessEntityType` | router/crates/travelgraph-router/src/plan/planner.rs:253-304 | The loop over the types finds the first one with the best positive score |
| `Planner.PartitionForEntity` | router/crates/travelgraph-router/src/plan/planner.rs:306-356 | The initial fetch gets `__typename`, the key and its own fields; each extender gets the printed selections it owns and no others, in order |
| `Planner.CollectEntityFetches` | router/crates/travelgraph-router/src/plan/planner.rs:155-187 | The loop over the groups yields one fetch per extender that has selections, or the first unknown subgraph |
| `Planner.PlanRootField` | router/crates/travelgraph-router/src/plan/planner.rs:85-197 | The plan of one root field: owner lookup, type guess, partition, synthesised text, forwarded names, entity fetches, and each error; where it goes is `Routing.RootFieldIsRouted` |
| `Planner.PlanRootFields` | router/crates/travelgraph-router/src/plan/planner.rs:66-208 | The root loop plans every field but introspection, in order, and stops at the first error |
| `Routing.PickedExactly` | router/crates/travelgraph-router/src/plan/planner.rs:219-251 | A request gets the first operation of the name it gives, or without a name the only operation; no operation, an unknown name and several operations without a name are each refused as such |
| `Routing.RootFieldIsRouted` | router/crates/travelgraph-router/src/plan/planner.rs:79-187 | A query field is looked up among the query fields of the catalogue and a mutation field among its mutation fields: unknown exactly when not listed there, refused exactly when its owner, or the owner of one of its selections, is not a declared subgraph, and otherwise planned with its initial fetch to its owner, under its alias or name |
| `Routing.OperationIsRouted` | router/crates/travelgraph-router/src/plan/planner.rs:66-208 | An operation has one fetch for each root field but introspection, in order, each to the subgraph that owns its field; a subscription, or an operation without such a field, is refused as such |
| `Routing.RefusedForUnknownOwner` | router/crates/travelgraph-router/src/plan/planner.rs:155-187 | The entity fetches are refused exactly when some subgraph that a selection is for is not declared, and the error names one such |
| `Routing.SentExactly` | router/crates/travelgraph-router/src/plan/planner.rs:306-356 | A subgraph is sent, in order, the fields that the catalogue lists under it, or under none where it is the initial one; `__typename` and the first key field, or `id` without one, are sent nowhere |
| `Routing.ScoreCounts` | router/crates/travelgraph-router/src/plan/planner.rs:253-304 | The score of a type is the number of selected fields whose name it declares |
| `PlannerProperties.SentToItsOwnerOnly` | router/crates/travelgraph-router/src/plan/planner.rs:306-356 | A fetch holds the selections at strictly ascending positions, and holds a position exactly when it is no bookkeeping field and its subgraph owns it |
| `PlannerProperties.OneFetchPerContributor` | router/crates/travelgraph-router/src/plan/planner.rs:155-187 | There is one entity fetch per contributing subgraph, to its route, with exactly its selections for a body |
| `PlannerProperties.ContributorsAreExact` | router/crates/travelgraph-router/src/plan/planner.rs:325-351 | A subgraph contributes exactly when it is listed, is not the initial one, and some selection is sent to it; none contributes twice |
| `PlannerProperties.EveryOwnerIsAsked` | router/crates/travelgraph-router/src/plan/planner.rs:325-351 | Every selection but a bookkeeping field is in the initial fetch or in that of a contributor |
| `PlannerProperties.BestTypeIsFirstBest` | router/crates/travelgraph-router/src/plan/planner.rs:253-304 | The guess is a type whose positive score is exceeded by none and matched by none before it, and there is none exactly when no type scores |
| `PlannerProperties.GuessIsFixedExactlyWhenStrictlyBest` | router/crates/travelgraph-router/src/plan/planner.rs:253-304 | The guess is the same in every map order if and only if its positive score beats every other type's |
| `PlannerProperties.FragmentsAreDropped` | router/crates/travelgraph-router/src/plan/planner.rs:306-356 | A field with a guessed type is planned, text and fetches included, as if the fragments directly below it were not there |
| `Executor.ExtractInto` | router/crates/travelgraph-router/src/execute.rs:288-306 | The recursive push appends the keys of the reached objects, depth first |
| `Executor.ForwardVariables` | router/crates/travelgraph-router/src/execute.rs:255-269 | Exactly the named variables that the request provides are forwarded |
| `Executor.ExecuteFetches` | router/crates/travelgraph-router/src/execute.rs:85-240 | One initial call, and one batched call per entity fetch exactly when references were found |
| `Merge.WalkAndMerge` | router/crates/travelgraph-router/src/merge.rs:146-169 | The walk with its running index enriches the objects depth first and returns the advanced index |
| `Merge.Strip` | router/crates/travelgraph-router/src/merge.rs:173-197 | The walk removes the dropped keys at every level and nothing else |
| `Merge.ApplyEntityOutcome` | router/crates/travelgraph-router/src/merge.rs:102-144 | An answer enriches the value and adds its errors; a failure adds one error and leaves the value |
| `Merge.MergeResponses` | router/crates/travelgraph-router/src/merge.rs:31-90 | Data, errors and durations of a response, accumulated field by field |
| `Alignment.MergeEnrichesByIndex` | router/crates/travelgraph-router/src/merge.rs:146-169 | The i-th object in depth-first order receives the i-th entity, short and null entries leave it as it is, and the shape of the tree does not change |
| `Alignment.RefsComeFromTheirPositions` | router/crates/travelgraph-router/src/execute.rs:288-306 | The k-th reference is the key of the object at the k-th position that carries the key |
| `Alignment.AlignedExactlyWhenKeyedFirst` | router/crates/travelgraph-router/src/merge.rs:146-169 | Reference and enriched object agree at every index if and only if no object without the key precedes a keyed one |
| `Alignment.AlignedWhenAllKeyed` | router/crates/travelgraph-router/src/execute.rs:288-306 | If every object reached carries the key, the k-th reference and the k-th enriched object are the same, over any nesting of arrays, nulls and scalars |
| `MergeProperties.FieldsAreIndependent` | router/crates/travelgraph-router/src/merge.rs:31-90 | With distinct response keys a root field's value depends on its own results alone, and no other key appears |
| `MergeProperties.ReplacingOneFieldIsLocal` | router/crates/travelgraph-router/src/merge.rs:31-90 | Other results for one field change the response under its key only |
| `MergeProperties.FailedInitialIsIsolated` | router/crates/travelgraph-router/src/merge.rs:41-70 | A failed initial fetch makes its own key null and puts one error in the place of that field's errors; no other value or error changes |
| `MergeProperties.FailedExtenderIsIsolated` | router/crates/travelgraph-router/src/merge.rs:102-137 | A failed extender leaves the value as if it had not answered, and adds one error in its place |
| `MergeProperties.FailedExtenderAgainstUnplanned` | router/crates/travelgraph-router/src/merge.rs:35-65 | A failed extender leaves the value as if it had not been planned if and only if the value shows no difference between the names stripped with it in the plan and without; there is none when another extender is planned or the key is `id` |
| `MergeProperties.DisjointExtendersCommute` | router/crates/travelgraph-router/src/merge.rs:102-169 | Extenders that answer with disjoint response keys can swap places among any others |
| `MergeProperties.NoErrorIsLost` | router/crates/travelgraph-router/src/merge.rs:31-137 | The error list is the errors of each field in order, a field's those of its initial call and then those of each extender's, scoped to the field, or one for its failure: none lost, repeated or added |
| `ErrorReports.FirstCallIsReported` | router/crates/travelgraph-router/src/merge.rs:31-90 | A failed first call leaves null and one error: the message and code of its kind of failure, the subgraph that was called, the field's key for a path; otherwise the errors of the answer come first, as they came |
| `ErrorReports.ExtenderCallIsReported` | router/crates/travelgraph-router/src/merge.rs:102-137 | A failed call for entities is reported in the same way, and an error that its answer raises keeps all it says, with the field's key for a path where it has none |
| `ErrorReports.DecimalReadsBack` | router/crates/travelgraph-router/src/merge.rs:215-218 | The status in a message is in digits, without leading zeros, and reads back as the status |
| `ErrorReports.DurationsListed` | router/crates/travelgraph-router/src/merge.rs:35-56 | The time of a field's first call comes first, and then, if it was answered, those of its calls for entities in order |
| `ErrorReports.NoDurationIsLost` | router/crates/travelgraph-router/src/merge.rs:31-90 | The times of the fields follow each other as the fields do |
| `MergeProperties.ExecutorAsksNoEntitiesAfterAFailure` | router/crates/travelgraph-router/src/execute.rs:136-164 | Entity results only follow an answered initial fetch, the one case where the merger would lose their errors |
| `Evaluation.KeptVariablesAgree` | router/crates/travelgraph-router/src/plan/planner.rs:446-477 | Declaring and forwarding only the used variables gives every used variable the value it has in the client's request |
| `Federation.PrintedIsAnsweredExactly` | router/crates/travelgraph-router/src/plan/planner.rs:371-488 | A printed operation is answered without an error if and only if no fragment spread stands in it and it declares exactly the variables it uses |
| `Federation.InitialAnswer` | router/crates/travelgraph-router/src/plan/planner.rs:446-540 | A conforming subgraph answers the synthesised text with the evaluation of the initial selection, or refuses it when a fragment spread stands in that |
| `Federation.EntityAnswer` | router/crates/travelgraph-router/src/execute.rs:166-240 | A conforming subgraph answers the batched query with one object per representation, in order, holding the selections it owns |
| `Federation.EntityErrorsExactly` | router/crates/travelgraph-router/src/execute.rs:187-199 | It answers without an error if and only if these hold no fragment spread and use no variable but the one that the query declares |
| `Stitching.GatheredHasFields` | router/crates/travelgraph-router/src/merge.rs:47-70 | After all entity fetches every object holds every selected field, evaluated in its owner, whatever the extender order |
| `Stitching.ObjectStitched` | router/crates/travelgraph-router/src/merge.rs:47-70 | Stripped alike, an enriched object is the directly evaluated one |
| `Stitching.StitchedIsStripped` | router/crates/travelgraph-router/src/merge.rs:31-70 | With an entity fetch, or a key called `id`, plan, fetch and merge give the value of direct evaluation less the names that the merger strips, for any list or object shape and any extender order |
| `Stitching.StitchedEqualsDirect` | router/crates/travelgraph-router/src/merge.rs:31-70 | Where no field at any depth is answered under one of these names, they give that value itself, and no error |
| `Stitching.StitchedWithoutErrors` | router/crates/travelgraph-router/src/merge.rs:31-70 | No sound field gets an error, whatever its value |
| `Boundary.StitchedLessStripped` | router/crates/travelgraph-router/src/merge.rs:31-70 | Unless a key is left in that was not asked for, the value is the directly evaluated one less exactly the names that the merger strips, its fallback on `id` included |
| `Boundary.StitchedEqualsDirectExactly` | router/crates/travelgraph-router/src/merge.rs:31-70 | For every sound field the value is the directly evaluated one if and only if nothing was found, or no such key is left in, no bookkeeping field is asked for under an alias, and the direct value shows at no depth a name that the merger strips |
| `Boundary.StitchedEqualsDirectBySelections` | router/crates/travelgraph-router/src/merge.rs:31-70 | Where the fields further down are answered under no such name, if and only if nothing was found, or no such key is left in, no bookkeeping field is aliased and no field of the entity is answered under such a name |
| `Boundary.TypenameIsLost` | router/crates/travelgraph-router/src/merge.rs:171-197 | A field for which `__typename` was asked does not get the directly evaluated value if an object is found |
| `Boundary.AliasIsLost` | router/crates/travelgraph-router/src/plan/planner.rs:325-351 | Nor one for which the key or `__typename` was asked under an alias |
| `Boundary.SelectedIdIsLost` | router/crates/travelgraph-router/src/merge.rs:35-65 | Nor, without an entity fetch, one for which an ordinary field was asked under `id` |
| `Boundary.KeyLeaks` | router/crates/travelgraph-router/src/merge.rs:35-65 | Without an entity fetch, an injected key that is not called `id` stays in the objects |
| `Boundary.UnrequestedKeyNeedsAFetch` | router/crates/travelgraph-router/src/merge.rs:35-65 | When the key was not asked for and nothing else goes wrong, the value is the directly evaluated one if and only if there is an entity fetch, or the key is `id`, or nothing was found |
| `Refusals.NamedOperationIsRefused` | router/crates/travelgraph-router/src/execute.rs:97-128 | A request that names its operation gets null and one request error for the field |
| `Refusals.ErrorsExactly` | router/crates/travelgraph-router/src/execute.rs:166-240 | A field with a guessed type gets no error if and only if no fragment spread stands in it and its extenders' fields use no variable but the batched query's own; where nothing is found, if and only if no spread stands in what the initial subgraph is sent; and with a spread there it is null |
| `PlainFields.PassedThrough` | router/crates/travelgraph-router/src/plan/planner.rs:85-150 | A root field for which no type is guessed, without a selection set or with one, and without fragment spreads, has the value that its subgraph gives the field itself, and no error |
| `PlainFields.SpreadsFailExactly` | router/crates/travelgraph-router/src/plan/planner.rs:371-390 | Such a field gets an error if and only if a fragment spread stands in it, and then it is null |
| `Pipeline.PlannedInOrder` | router/crates/travelgraph-router/src/plan/planner.rs:66-208 | The plan holds the fetches of the root fields, each for its own field, in order |
| `Pipeline.PipelineEqualsDirect` | router/crates/travelgraph-router/src/server.rs:348-445 | A whole response of sound root fields, with or without a guessed type, has no error and no other key, and under each response key the directly evaluated value if and only if that field meets the condition above; so the response is the direct one if and only if all of them do |
| `Cost.Ctx.WalkSelection` | router/crates/travelgraph-router/src/limits/cost.rs:126-160 | The saturating walk of one selection adds the exact cost, cut off at 2^32 - 1, and raises the depth seen to the exact depth |
| `Cost.Ctx.WalkAll` | router/crates/travelgraph-router/src/limits/cost.rs:147-155 | The same for a list of selections |
| `Cost.Analyze` | router/crates/travelgraph-router/src/limits/cost.rs:61-108 | The report or rejection of a document, from exact depth and saturated cost, mutation surcharge included |
| `Cost.AcceptedExactly` | router/crates/travelgraph-router/src/limits/cost.rs:92-108 | A document is accepted exactly when depth and exact cost are within the limits; only at the largest limit does the cost stop counting |
| `Cost.SiblingOrderIsIrrelevant` | router/crates/travelgraph-router/src/limits/cost.rs:126-160 | Permuting a selection list changes neither cost nor depth |
| `Cost.GrowthNeverLowers` | router/crates/travelgraph-router/src/limits/cost.rs:126-160 | Adding a selection at any place and depth lowers neither |
| `QueryShape.CostCounts` | router/crates/travelgraph-router/src/limits/cost.rs:126-160 | Without overrides a query costs 20 for each search field and 1 for each other, wherever they stand, 3 more for each with selections, 5 more for each of these that is named like a list, and 1 for each spread |
| `QueryShape.OverridesDecide` | router/crates/travelgraph-router/src/limits/cost.rs:131-135 | An override is charged in place of the base cost, clamped to the non-negative signed 32-bit integers |
| `QueryShape.NamesListExactly` | router/crates/travelgraph-router/src/limits/cost.rs:162-164 | A name is one of a list exactly when it starts with `search` or ends in a single `s` |
| `QueryShape.DepthIsTheLongestPath` | router/crates/travelgraph-router/src/limits/cost.rs:126-160 | The depth is the length of the longest path to a field, through fields and inline fragments |
| `QueryShape.AnalyzedByShape` | router/crates/travelgraph-router/src/limits/cost.rs:61-108 | Without overrides an operation is refused for its depth exactly when a field stands deeper than allowed, else for its cost exactly when these counts, 30 for a mutation included and cut off at 2^32 - 1, exceed the limit, and what is reported are that depth and cost |
| `Circuit.CircuitBreaker.PruneStatic` | router/crates/travelgraph-router/src/reliability/circuit.rs:116-125 | The loop pops the samples in front that are older than the cutoff |
| `Circuit.CircuitBreaker.Check` | router/crates/travelgraph-router/src/reliability/circuit.rs:67-82 | The answer and the new state of a check |
| `Circuit.CircuitBreaker.Record` | router/crates/travelgraph-router/src/reliability/circuit.rs:84-114 | The new state after a record |
| `Circuit.QueueIsTheWindow` | router/crates/travelgraph-router/src/reliability/circuit.rs:84-125 | Under a clock that never goes back, after any run the queue is the whole history of records filtered to the window |
| `Circuit.PoppingIsFiltering` | router/crates/travelgraph-router/src/reliability/circuit.rs:116-125 | On samples in time order, popping from the front is filtering |
| `Circuit.ClosedOpensExactly` | router/crates/travelgraph-router/src/reliability/circuit.rs:99-112 | A record made in the closed state opens the breaker, until now plus the recovery, if and only if the window has enough samples and the failure ratio is reached |
| `Circuit.HalfIsEnough` | router/crates/travelgraph-router/src/reliability/circuit.rs:99-112 | With a ratio of one half, enough samples open the breaker exactly when at least as many failed as succeeded |
| `Circuit.OpenHolds` | router/crates/travelgraph-router/src/reliability/circuit.rs:67-114 | Before the deadline, in any interleaving of checks and late records, every check is refused with the exact time left and nothing moves the deadline |
| `Circuit.DeadlineHalfOpens` | router/crates/travelgraph-router/src/reliability/circuit.rs:72-82 | The first check at or after the deadline is let through and leaves the breaker half-open |
| `Circuit.FirstRecordDecides` | router/crates/travelgraph-router/src/reliability/circuit.rs:90-98 | Half-open admits every check, and the first record alone decides between closed and open |
| `Circuit.OpenedByARecord` | router/crates/travelgraph-router/src/reliability/circuit.rs:84-114 | An open breaker was opened by a record made one recovery before its deadline, and has refused every check since |
| `Circuit.SuccessCanReopen` | router/crates/travelgraph-router/src/reliability/circuit.rs:90-112 | With the default settings, a run in which a successful record opens the breaker |
| `Dispatch.BackoffExactly` | router/crates/travelgraph-router/src/reliability/tower_dispatch.rs:145-149 | Below attempt 32 a backoff is the smaller of initial times 2^attempt and the cap; from there on the factor stays at 2^32 - 1 |
| `Dispatch.BackoffNeverShrinks` | router/crates/travelgraph-router/src/reliability/tower_dispatch.rs:145-149 | Backoffs never shrink and never exceed the cap |
| `Dispatch.DispatchWithReliability` | router/crates/travelgraph-router/src/reliability/tower_dispatch.rs:85-143 | The attempt loop over the shared breaker: its result, everything it did, and the breaker it leaves, for any behaviour of the world and of other callers |
| `Dispatch.AttemptsAreBounded` | router/crates/travelgraph-router/src/reliability/tower_dispatch.rs:96-130 | A query is attempted at most 1 + max_retries times, a mutation at most once |
| `Dispatch.SleepsAreBackoffs` | router/crates/travelgraph-router/src/reliability/tower_dispatch.rs:118-136 | The k-th sleep is the k-th backoff, and a mutation never sleeps |
| `Dispatch.SleepingIsBounded` | router/crates/travelgraph-router/src/reliability/tower_dispatch.rs:118-149 | Sleeps never shrink and sum to at most max_retries times the cap |
| `Dispatch.EveryAdmissionIsRecordedOnce` | router/crates/travelgraph-router/src/reliability/tower_dispatch.rs:98-117 | Each admitted check is followed by exactly one record, of what its attempt came to, and nothing else is recorded |
| `Dispatch.BreakerSawTheTrace` | router/crates/travelgraph-router/src/reliability/tower_dispatch.rs:98-117 | The breaker ends where the checks and records of the call and of the others take it, in order |
| `Dispatch.EndsForAReason` | router/crates/travelgraph-router/src/reliability/tower_dispatch.rs:96-142 | A call ends refused, answered, or with an error that could not be retried or was the last; the exhausted return is reached exactly when max_retries is the largest 32-bit number |
| `Dispatch.RetryableExactly` | router/crates/travelgraph-router/src/reliability/tower_dispatch.rs:213-222 | Another attempt may help after a timeout, a transport error, or a status of 408, 425, 429, 500 or 502 to 504, and after nothing else |
| `Dispatch.UnavailableIsRetried` | router/crates/travelgraph-router/src/reliability/tower_dispatch.rs:109-142 | After a 503 to a query with attempts left the result is that of the next attempt; after a 400, an answer, the last attempt or any outcome of a mutation it is the outcome itself |
| `Cache.KeysTellApart` | router/crates/travelgraph-router/src/cache.rs:36-53 | Two requests have the same key if and only if document, name (missing read as empty), variables and identity agree, as long as the separator stays out of the names or out of the identities |
| `Cache.KeysCollideExactly` | router/crates/travelgraph-router/src/cache.rs:36-53 | Some other request with different parts has a request's key if and only if the separator stands in its name or in its identity |
| `Cache.TtlForPlan` | router/crates/travelgraph-router/src/cache.rs:65-89 | The nested loops compute the lifetime of a plan |
| `Cache.LifetimeIsTheSmallest` | router/crates/travelgraph-router/src/cache.rs:65-89 | A response lives for the least configured lifetime that its plan falls under, a second at least, and for a minute when it falls under none |
| `Server.Router.Graphql` | router/crates/travelgraph-router/src/server.rs:212-487 | The handler's reply and the store it leaves, whatever other requests write between its read and its own write |
| `Server.Execute` | router/crates/travelgraph-router/src/server.rs:384-410 | Executing a plan field by field and merging gives the response of these results |
| `Server.StoreHoldsTheLastWrite` | router/crates/travelgraph-router/src/server.rs:457-485 | After any run the store holds under each key what the last write under it put there |
| `Server.FoundExactly` | router/crates/travelgraph-router/src/cache.rs:97-115 | A lookup finds a body if and only if the last write under its key put it there and has not expired |
| `Server.HitIsSafe` | router/crates/travelgraph-router/src/server.rs:294-361 | Over any run, every hit is an error-free query answer that an earlier request computed within the limits, for the same document, name, variables and identity, less than its lifetime ago; documents and JSON text hold no separator, and it stays out of the names or out of the identities |
| `Server.HitAgreesExactly` | router/crates/travelgraph-router/src/server.rs:294-325 | A hit is what the request itself would have been answered then, if and only if it does not name the empty operation |
| `Server.AnswerIsStoredExactly` | router/crates/travelgraph-router/src/server.rs:457-485 | What a query with an identity was answered without an error, by a router whose cache is up and was not passed by, is what the same request finds until its lifetime is over; any other answer leaves the store as it was |
| `Server.AnsweredExactly` | router/crates/travelgraph-router/src/server.rs:212-456 | Without the cache a request is invalid exactly when its text is unknown, does not parse or makes no valid document; else the limits refuse it, then the plan, and otherwise it gets the merged response |
| `Booking.BookingService.RoomsFor` | services/booking-service/src/main/kotlin/com/travelgraph/booking/service/BookingService.kt:124-135 | Every room type's availability is its total less the overlapping bookings, never negative |
| `Booking.BookingService.CreateBooking` | services/booking-service/src/main/kotlin/com/travelgraph/booking/service/BookingService.kt:41-95 | The answer of a create and the table it leaves, in terms of the overlapping rows and the largest room total |
| `Booking.BookingService.CancelBooking` | services/booking-service/src/main/kotlin/com/travelgraph/booking/service/BookingService.kt:98-114 | The answer of a cancel and the table it leaves |
| `Booking.SomeRoomIsLeft` | services/booking-service/src/main/kotlin/com/travelgraph/booking/service/BookingService.kt:65-72 | Some room type is available if and only if the overlapping bookings are fewer than the largest total |
| `Booking.AddingKeepsGood` | services/booking-service/src/main/kotlin/com/travelgraph/booking/service/BookingService.kt:55-87 | Adding a booking keeps the table good if and only if its user is free and each of its nights has room |
| `Booking.CreateKeepsGood` | services/booking-service/src/main/kotlin/com/travelgraph/booking/service/BookingService.kt:41-95 | A create keeps every night of every property within the largest room total, every user from holding a night of a property twice, keys and ids unique, and rows within the table's constraints |
| `Booking.CancelKeepsGood` | services/booking-service/src/main/kotlin/com/travelgraph/booking/service/BookingService.kt:98-114 | A cancel keeps the same |
| `Booking.SerialRunsStayGood` | services/booking-service/src/main/kotlin/com/travelgraph/booking/service/BookingService.kt:41-135 | Over every serial run no night of a property is held by more active bookings than the largest room total, no user holds a night of a property twice, and keys stay unique |
| `Booking.FoundForUser` | services/booking-service/src/main/kotlin/com/travelgraph/booking/domain/BookingRepository.kt:41-56 | The query is empty if and only if no active row of the user overlaps the window |
| `Booking.RefusedForLackOfRooms` | services/booking-service/src/main/kotlin/com/travelgraph/booking/service/BookingService.kt:65-72 | A create that gets as far as the inventory is refused for lack of rooms if and only if the overlapping bookings are no fewer than the largest total |
| `Booking.FullNightIsRefused` | services/booking-service/src/main/kotlin/com/travelgraph/booking/service/BookingService.kt:65-72 | A stay with a full night is always refused |
| `Booking.AvailabilityIsRightExactly` | services/booking-service/src/main/kotlin/com/travelgraph/booking/service/BookingService.kt:65-72 | Whatever the inventory, a stay is refused exactly when one of its nights is full, if and only if all the bookings that overlap it share one of its nights |
| `BookingAnswers.OverlapIsASharedNight` | services/booking-service/src/main/kotlin/com/travelgraph/booking/domain/BookingRepository.kt:20-38 | The overlap query finds exactly the active bookings that hold the property on a night of the window |
| `BookingAnswers.OverlapsAreHolders` | services/booking-service/src/main/kotlin/com/travelgraph/booking/domain/BookingRepository.kt:20-38 | It finds as many as there are rows that hold such a night |
| `BookingAnswers.CreateAnswers` | services/booking-service/src/main/kotlin/com/travelgraph/booking/service/BookingService.kt:41-95 | Each answer to a create, told from the rows: it stores the booking asked for, confirmed, exactly when the window has a night, the key is new, the user holds no night of the stay there, some room type has more rooms than rows hold the stay, and the row fits its columns; else it stores nothing and gives the answer of the first check that fails |
| `BookingAnswers.RetriesGetTheBooking` | services/booking-service/src/main/kotlin/com/travelgraph/booking/service/BookingService.kt:52-53 | After a create, a create under its key gets that booking, whatever else it asks for, and stores nothing |
| `BookingAnswers.CancelAnswers` | services/booking-service/src/main/kotlin/com/travelgraph/booking/service/BookingService.kt:98-114 | Cancelling an active booking stores it as cancelled, answers with it and changes no other row; it is not found exactly when no row has the id, already cancelled exactly when its row is, and then nothing changes |
| `BookingAnswers.CancellingFreesItsNights` | services/booking-service/src/main/kotlin/com/travelgraph/booking/service/BookingService.kt:98-135 | A cancelled booking gives back one room on each of its nights at its property, and none elsewhere |
| `BookingAnswers.CancellingFreesItsUser` | services/booking-service/src/main/kotlin/com/travelgraph/booking/service/BookingService.kt:54-63 | After a cancel its user is free there unless another of the user's active bookings overlaps the window |
| `BookingAnswers.SecondCancelIsRefused` | services/booking-service/src/main/kotlin/com/travelgraph/booking/service/BookingService.kt:105-110 | A second cancel is refused and changes nothing |
| `BookingAnswers.CancellingUndoesBooking` | services/booking-service/src/main/kotlin/com/travelgraph/booking/service/BookingService.kt:41-114 | Booking takes one room on each night of the stay, and cancelling that booking gives every night back |
| `BookingAnswers.CancelledRoomIsBookedAgain` | services/booking-service/src/main/kotlin/com/travelgraph/booking/service/BookingService.kt:41-114 | One room: refused while booked, cancelled, refused a second cancel, and booked by another user |
| `BookingRace.OneBookingPerKey` | services/booking-service/src/main/kotlin/com/travelgraph/booking/service/BookingService.kt:52-94 | Over every interleaving of steps and cancels no two rows share a key, all views answered for a key name the row that holds it, and a request is unreconciled only if its row violates another constraint |
| `BookingRace.StepKeepsInv` | services/booking-service/src/main/kotlin/com/travelgraph/booking/service/BookingService.kt:52-94 | Every step of any request, and every cancel, keeps: keys and ids are unique, a view names the row that holds its key, and a failed insert means that the key is taken or another constraint violated; and it loses no row |
| `BookingRace.RowsAreKept` | services/booking-service/src/main/kotlin/com/travelgraph/booking/service/BookingService.kt:86-113 | A row that was ever in the table stays there under its id and key |
| `BookingRace.UninterruptedIsSerial` | services/booking-service/src/main/kotlin/com/travelgraph/booking/service/BookingService.kt:41-95 | The steps of one request with nobody in between are one serial create |
| `BookingRace.InsertKeepsGoodExactly` | services/booking-service/src/main/kotlin/com/travelgraph/booking/service/BookingService.kt:73-87 | An insert keeps the table good if and only if what the request was told about its user and nights is still true |
| `BookingRace.RacingCreatesCanOversell` | services/booking-service/src/main/kotlin/com/travelgraph/booking/service/BookingService.kt:55-87 | Over any good table, any two requests under different keys that are each acceptable alone have an interleaving in which both get a row; it breaks the table if and only if they share a night with one room left, or are of one user and share a night |
| `BookingRuns.RunStaysGoodExactly` | services/booking-service/src/main/kotlin/com/travelgraph/booking/service/BookingService.kt:41-114 | A run of creates and cancels, however it interleaves, stays good throughout if and only if at every insert the user and the nights of its request are still free |
| `BookingRuns.BreakingInsertIsOvertaken` | services/booking-service/src/main/kotlin/com/travelgraph/booking/service/BookingService.kt:55-87 | If they are not, another request inserted a booking that shares a night after one of this request's own checks and before its insert: after the room check, or after the user check and for the same user |
| `BookingRuns.UnovertakenRunsStayGood` | services/booking-service/src/main/kotlin/com/travelgraph/booking/service/BookingService.kt:41-114 | A run in which nobody inserts for a shared night between another's checks and its insert stays good |
| `BookingRuns.RowWasInserted` | services/booking-service/src/main/kotlin/com/travelgraph/booking/service/BookingService.kt:73-113 | A row that is in the table later but not before was inserted in between by the request whose booking it is, and has at most been cancelled since |
| `Pricing.HalfUpIsNearest` | services/pricing-service/src/main/kotlin/com/travelgraph/pricing/service/PriceCalculator.kt:60-64 | Rounding half up is the nearest cent, ties away from zero, and only that |
| `Pricing.QuotesBalance` | services/pricing-service/src/main/kotlin/com/travelgraph/pricing/service/PriceCalculator.kt:41-75 | Amount and discount make up the nightly rates, amount and taxes the total, to the cent; discount and taxes are off by at most half a cent; what the nightly rates are is `Stays.SubtotalCounts` |
| `Stays.WeekendIsFridayAndSaturday` | services/pricing-service/src/main/kotlin/com/travelgraph/pricing/service/PriceCalculator.kt:87-88 | A night has the weekend rate exactly when a whole number of weeks lies between it and 3 or 4 July 2026, a Friday and a Saturday |
| `Stays.SubtotalCounts` | services/pricing-service/src/main/kotlin/com/travelgraph/pricing/service/PriceCalculator.kt:52-85 | The subtotal is the number of holidays at the holiday rate, of other Fridays and Saturdays at the weekend rate and of the remaining nights at the base rate, each rate rounded by itself, and the three numbers make up the nights |
| `Stays.QuoteCharges` | services/pricing-service/src/main/kotlin/com/travelgraph/pricing/service/PriceCalculator.kt:41-75 | A quote is refused exactly when check-out is before check-in; else it charges that, less the discount, plus the taxes, both rounded to the nearest cent with ties away from zero, and without a tier there is no discount |
| `Stays.IndependenceDay` | services/pricing-service/src/test/kotlin/com/travelgraph/pricing/service/PriceCalculatorTest.kt:93-118 | Friday to Monday over a holiday on a Saturday, for a platinum guest: 301.75, 30.18 in taxes, 331.93 in all |
| `Pricing.LoyaltyIsFirstMatch` | services/pricing-service/src/main/kotlin/com/travelgraph/pricing/service/PriceCalculator.kt:57-59 | The first entry that matches the tier regardless of case decides, and an unknown tier gets nothing |
| `Pricing.SplittingMovesThreeCents` | services/pricing-service/src/main/kotlin/com/travelgraph/pricing/service/PriceCalculator.kt:41-75 | Splitting a stay at any night moves the total by at most three cents, for tax rates from 0 to 1 and any discount |
| `Pricing.ThreeCentsAreReached` | services/pricing-service/src/main/kotlin/com/travelgraph/pricing/service/PriceCalculator.kt:41-75 | A stay for which that bound is reached |
| `Pricing.OneWeek` | services/pricing-service/src/main/kotlin/com/travelgraph/pricing/service/PriceCalculator.kt:77-88 | Any seven nights without a holiday cost five weekday and two weekend rates |
| `Pricing.WholeWeeks` | services/pricing-service/src/main/kotlin/com/travelgraph/pricing/service/PriceCalculator.kt:52-88 | So do any number of whole weeks, whatever day they start |
| `Pricing.LongerStaysCostNoLess` | services/pricing-service/src/main/kotlin/com/travelgraph/pricing/service/PriceCalculator.kt:41-75 | With non-negative nightly rates and rates from 0 to 1, staying longer never costs less, rounding included |
| `Sdl.Parse` | schema-registry/registry/src/main/kotlin/com/travelgraph/registry/service/SdlModel.kt:28-108 | The index loop ends on every text and computes what a recursive reading of its lines gives, descriptions pending across lines included; what it reads of printed documents is `SdlPrinter.ParsingUndoesPrinting`, and of single lines is in `SdlLines` |
| `Sdl.ReadEnumBody` | schema-registry/registry/src/main/kotlin/com/travelgraph/registry/service/SdlModel.kt:57-64 | The loop over an enum's lines collects exactly its well-formed values and stops at the closing line or at the end |
| `Sdl.ReadTypeBody` | schema-registry/registry/src/main/kotlin/com/travelgraph/registry/service/SdlModel.kt:78-101 | The loop over a type's lines collects its fields, the later of two with one name, each described exactly when a quoted line has come since the last field; which lines are fields, and of what type, is `SdlLines.FieldLinesExactly` |
| `SdlLines.FieldLinesExactly` | schema-registry/registry/src/main/kotlin/com/travelgraph/registry/service/SdlModel.kt:88-99 | A line is a field exactly when it is a name, blanks, perhaps arguments in parentheses, blanks, a colon, a type without `@` and `#`, and then nothing or anything that starts with one of these; it gives that name and that type, trimmed |
| `SdlLines.TailsMakeNoDifference` | schema-registry/registry/src/main/kotlin/com/travelgraph/registry/service/SdlModel.kt:88-96 | Whatever starts with `@` or `#` after the type changes neither name nor type, as in `id: ID! @external` |
| `SdlLines.EnumWordExactly` | schema-registry/registry/src/main/kotlin/com/travelgraph/registry/service/SdlModel.kt:61-62 | An enum line is read up to its first space or `@` |
| `SdlLines.HeadsExactly` | schema-registry/registry/src/main/kotlin/com/travelgraph/registry/service/SdlModel.kt:55-57 | A line has a head exactly when it is the keyword, blanks, and a name that ends there |
| `SdlLines.TypeLinesExactly` | schema-registry/registry/src/main/kotlin/com/travelgraph/registry/service/SdlModel.kt:71-76 | A line opens a type exactly when it is a kind, blanks, a name, anything without a brace, and then nothing or anything that starts with one |
| `SdlLines.UnionLinesExactly` | schema-registry/registry/src/main/kotlin/com/travelgraph/registry/service/SdlModel.kt:44-52 | A line is a union exactly when it is the keyword, a name, an equals sign and members to the end of the line |
| `SdlLines.MembersExactly` | schema-registry/registry/src/main/kotlin/com/travelgraph/registry/service/SdlModel.kt:46-49 | The members of a union are what stands between its bars, trimmed, and what is blank there, as before a leading bar, is none |
| `SdlPrinter.ParsingUndoesPrinting` | schema-registry/registry/src/main/kotlin/com/travelgraph/registry/service/SdlModel.kt:28-108 | The parser undoes the canonical printer, directives and comments after fields and enum values, lines that are neither, and descriptions anywhere included: the same types, enums and unions, with the same key, required and description flags |
| `SdlPrinter.FieldMatches` | schema-registry/registry/src/main/kotlin/com/travelgraph/registry/service/SdlModel.kt:88-99 | A printed field line, with or without arguments, directives or a comment, gives back its name and its type |
| `SdlPrinter.TypeLineMatches` | schema-registry/registry/src/main/kotlin/com/travelgraph/registry/service/SdlModel.kt:71-76 | A printed type line gives back kind, name and what follows them |
| `SdlPrinter.UnionParses` | schema-registry/registry/src/main/kotlin/com/travelgraph/registry/service/SdlModel.kt:43-52 | A printed union line adds exactly its members |
| `SdlPrinter.EnumParses` | schema-registry/registry/src/main/kotlin/com/travelgraph/registry/service/SdlModel.kt:55-69 | A printed enum adds exactly its well-formed values, whatever directives follow them |
| `SdlPrinter.LinesUndoJoining` | schema-registry/registry/src/main/kotlin/com/travelgraph/registry/service/SdlModel.kt:32-33 | Splitting into lines undoes joining with line feeds |
| `SchemaCheck.BreakingChanges` | schema-registry/registry/src/main/kotlin/com/travelgraph/registry/service/SchemaCheckService.kt:43-82 | The reported issues are exactly those to report, none for a blank old text, and none at all exactly when the check is silent |
| `SchemaCheck.FieldIssues` | schema-registry/registry/src/main/kotlin/com/travelgraph/registry/service/SchemaCheckService.kt:56-68 | The issues of one kept type: removed fields, with recent usage, changed types, and optional fields that became required |
| `IssueCodes.ReportedExactly` | schema-registry/registry/src/main/kotlin/com/travelgraph/registry/service/SchemaCheckService.kt:50-97 | An issue is reported exactly when the two documents are as its code says, and its message, severity, place and clients are those that follow |
| `IssueCodes.ErrorsAreUsedRemovals` | schema-registry/registry/src/main/kotlin/com/travelgraph/registry/service/SchemaCheckService.kt:84-94 | An issue is an error exactly when it is the removal of a field that clients have used lately, and every other is a warning without clients |
| `SchemaCheck.NothingToReportExactly` | schema-registry/registry/src/main/kotlin/com/travelgraph/registry/service/SchemaCheckService.kt:50-81 | There is nothing to report if and only if every old type, field, field type, optionality and enum value is kept |
| `SchemaCheck.SilenceIsAPreorder` | schema-registry/registry/src/main/kotlin/com/travelgraph/registry/service/SchemaCheckService.kt:43-82 | Silence is reflexive and transitive over schema texts, missing and blank ones included |
| `SchemaCheck.OnlyFieldsAndValuesMatter` | schema-registry/registry/src/main/kotlin/com/travelgraph/registry/service/SchemaCheckService.kt:43-82 | Documents with the same types, fields and enum values get the same issues, whatever their unions, kinds, keys and descriptions |
| `CiSchemaCheck.LocalBreakingChanges` | scripts/ci/schema_check.py:123-155 | The reported issues are exactly those to report |
| `IssueCodes.CiReportedExactly` | scripts/ci/schema_check.py:123-155 | The build reports an issue exactly when the two documents are as its code says, and its message and place are those that follow |
| `IssueCodes.NormalKeepsTheRest` | scripts/ci/schema_check.py:92-93 | Before types are compared blanks are taken out, and nothing else, in order |
| `CiSchemaCheck.CiSilentExactly` | scripts/ci/schema_check.py:123-155 | The build's check is silent if and only if every old type, field, written type and enum value is kept |
| `CiSchemaCheck.CiSilenceReachesRegistryExactly` | scripts/ci/schema_check.py:92-155 | When the build's check is silent on two documents, the registry's is silent if and only if no field that both have differs in its type, blanks included |
| `CiSchemaCheck.RegistrySilenceReachesCiExactly` | scripts/ci/schema_check.py:123-155 | When the registry's check is silent, the build's is silent if and only if no required field became optional |
| `CiSchemaCheck.SilentTogetherExactly` | scripts/ci/schema_check.py:123-155 | For any two documents, the build's silence without a type that differs in blanks is the registry's silence without a relaxed field |
| `CiSchemaCheck.OnlyFieldsAndValuesMatter` | scripts/ci/schema_check.py:123-155 | Documents with the same types, fields and enum values get the same reports, whatever their unions and kinds |
| `CiSchemaCheck.MergeIssues` | scripts/ci/schema_check.py:190-204 | The loops keep the first issue of each key, in order |
| `CiSchemaCheck.MergingKeepsTheFirst` | scripts/ci/schema_check.py:190-204 | No key is lost or repeated, and the kept issues are exactly the first ones of their keys |
| `IssueCodes.MergedInOrder` | scripts/ci/schema_check.py:190-204 | Merged reports are the issues that differ from every earlier one in code, place or message, in their order |

## Left out

- HTTP, Redis, Postgres, JWT, tracing, metrics, rate limiting and usage events: foreign code or thin; subgraphs, store and table are abstract.
- GraphQL parsing and validation, JSON coding and SHA-256: foreign code; documents are trees, JSON text determines its value, the hash is injective.
- Persisted-query lookup: an arbitrary function from requests to texts.
- That a parsed document holds no U+001E: section 2.1.1 of the GraphQL October 2021 specification excludes it from documents, and the cache theorems take it as a condition on the parser.
- The subgraph list with its URLs, the lookup of enum values and the `@cost` overrides, read off the supergraph: given maps.
- Nested entities and multi-field keys in planning: the planner does not handle them.
- Validation rules that need a schema, such as the type of `$representations` where a client's variable has that name: a subgraph here checks fragments and declarations only.
- `FieldFetch.selection_path` and the order of forwarded names: the executor and the merger do not read the first, and the names are a set.
- Identity and client headers of subgraph calls: an answer depends on text, variables and operation name only.
- Custom scalars that are JSON objects or arrays: a scalar is a leaf in `Evaluation`, so the merger has nothing inside it to enrich or strip.
- Parallel execution of the fetches of one request: each fetch's answer is a function of its own request, so the order does not matter.
- In-place update of JSON trees in the merger: the methods return the changed tree.
- The breaker's ratio as a floating-point number: a fraction compared by cross multiplication.
- Instants that cannot be subtracted from: the clock is an integer.
- Aborted transactions after a constraint error, isolation levels and the rounding of amounts on insert: an insert commits or fails at once.
- Booking.BookingService.CreateBooking: assumes the drawn id is in no row, since the random UUIDs of the source are taken not to repeat.
- Which of several conflicting bookings is named: the query has no order, the model takes the first row.
- Room types as separate pools: the source takes one from every type.
- Stays of 2^31 nights and more, where the night count wraps, and tiers that differ in the case of letters outside ASCII.
- Order of issues: the checkers walk maps and sets, so the model states which issues are reported.
- Lint rules, the composer and the Markdown report of the build's check: they read and combine schemas without deciding what breaks.
- CiSchemaCheck.LocalBreakingChanges: starts from the registry's document model, since the build's own parser works on whole texts with regular expressions.
- Kotlin's and Python's full Unicode tables: blanks are listed, word characters are ASCII as in the source's patterns.
