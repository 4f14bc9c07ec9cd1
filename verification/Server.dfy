/** The request pipeline around the response cache: read, limit, plan, execute, merge, write (server.rs). */
module Server {
  import opened Common
  import opened Ast
  import opened Responses
  import opened Fetches
  import opened Catalog
  import opened Planner
  import Merge
  import Executor
  import Cost
  import opened Cache

  datatype Request = Request(
    query: string,
    operationName: Option<string>,
    variables: Json,
    identity: string,
    bypassCache: bool)

  /** Everything that stays fixed while the router runs; `resolve` is the persisted-query lookup. */
  datatype Site = Site(
    resolve: Request -> Option<string>,
    parse: string -> Option<Document>,
    validates: Document -> bool,
    json: Json -> string,
    catalog: SupergraphCatalog,
    overrides: map<string, int>,
    maxDepth: nat,
    maxCost: u32,
    connected: bool,
    cache: CacheConfig)

  datatype Reply =
    | Invalid
    | OverLimit(error: Cost.CostError)
    | Unplannable(problem: PlanError)
    | Response(body: GraphQLResponse)

  /** A request past parsing and validation. */
  datatype Parsed = Parsed(text: string, document: Document)

  function Prepared(site: Site, req: Request): Option<Parsed> {
    match site.resolve(req)
    case None => None
    case Some(text) =>
      match site.parse(text)
      case None => None
      case Some(document) => if site.validates(document) then Some(Parsed(text, document)) else None
  }

  predicate UsesCache(site: Site, req: Request) { !req.bypassCache && site.connected && site.cache.Enabled() }

  function Parts(site: Site, req: Request, parsed: Parsed): KeyParts {
    KeyParts(parsed.text, req.operationName, site.json(req.variables), req.identity)
  }

  // ---- the cache read --------------------------------------------------------------------

  function Lookup(site: Site, store: Store, req: Request, parsed: Parsed, now: int,
                  getFails: bool): Option<GraphQLResponse> {
    if UsesCache(site, req) && !getFails then Get(store, Parts(site, req, parsed).Key(), now) else None
  }

  // ---- execution ---------------------------------------------------------------------------

  ghost predicate LawfulOrders(site: Site, orders: nat -> HashOrder) {
    forall i :: IterationOrder(orders(i), site.catalog)
  }

  function Results(plan: ExecutionPlan, req: Request, send: Executor.Send): (rs: seq<FieldFetchResult>)
    ensures |rs| == |plan.fieldFetches|
    ensures forall i :: 0 <= i < |rs| ==>
              rs[i] == Executor.FieldResult(plan.fieldFetches[i], req.variables, req.operationName, send)
  {
    seq(|plan.fieldFetches|, i requires 0 <= i < |plan.fieldFetches| =>
      Executor.FieldResult(plan.fieldFetches[i], req.variables, req.operationName, send))
  }

  function MergedBody(rs: seq<FieldFetchResult>): GraphQLResponse {
    GraphQLResponse(Some(Object(Merge.DataOf(rs))), Merge.ErrorsOf(rs), None)
  }

  datatype Computation = Stopped(reply: Reply) | Ran(plan: ExecutionPlan, body: GraphQLResponse) {
    function Answer(): Reply { if Ran? then Response(body) else reply }
  }

  /** Limits, plan, execution and merge, without any cache. */
  function Compute(site: Site, req: Request, document: Document, orders: nat -> HashOrder,
                   send: Executor.Send): Computation
    requires LawfulOrders(site, orders)
  {
    match Cost.Analyzed(document, req.operationName, site.overrides, site.maxDepth, site.maxCost)
    case Rejected(e) => Stopped(OverLimit(e))
    case Report(_, _) =>
      match PlanOperation(document, req.operationName, site.catalog, orders)
      case Refused(e) => Stopped(Unplannable(e))
      case Plan(plan) =>
        Ran(plan, MergedBody(Results(plan, req, send)))
  }

  /** What the request gets where there is no cache. */
  function Fresh(site: Site, req: Request, orders: nat -> HashOrder, send: Executor.Send): Reply
    requires LawfulOrders(site, orders)
  {
    match Prepared(site, req)
    case None => Invalid
    case Some(parsed) => Compute(site, req, parsed.document, orders, send).Answer()
  }

  // ---- the cache write -----------------------------------------------------------------------

  predicate Cacheable(plan: ExecutionPlan, identity: string, body: GraphQLResponse) {
    plan.operationType.Query? && identity != "" && body.errors == [] && body.data.Some?
  }

  /** A request that missed comes to its end: what the subgraphs said to it, and when and whether it could write. */
  datatype Finish = Finish(req: Request, orders: nat -> HashOrder, send: Executor.Send, now: int, setFails: bool)

  datatype Write = Write(parts: KeyParts, fields: seq<FieldFetch>, body: GraphQLResponse)

  function Written(site: Site, e: Finish): Option<Write>
    requires LawfulOrders(site, e.orders)
  {
    match Prepared(site, e.req)
    case None => None
    case Some(parsed) =>
      match Compute(site, e.req, parsed.document, e.orders, e.send)
      case Stopped(_) => None
      case Ran(plan, body) =>
        if UsesCache(site, e.req) && Cacheable(plan, e.req.identity, body) && !e.setFails
        then Some(Write(Parts(site, e.req, parsed), plan.fieldFetches, body)) else None
  }

  ghost predicate Lawful(site: Site, events: seq<Finish>) {
    forall i :: 0 <= i < |events| ==> LawfulOrders(site, events[i].orders)
  }

  function After(site: Site, store: Store, events: seq<Finish>): Store
    requires Lawful(site, events)
  {
    if events == [] then store
    else
      var before, e := After(site, store, events[..|events| - 1]), events[|events| - 1];
      match Written(site, e)
      case None => before
      case Some(w) => Set(before, w.parts.Key(), Lifetime(w.fields, site.cache), w.body, e.now)
  }

  lemma OneMoreEvent(site: Site, store: Store, events: seq<Finish>, e: Finish)
    requires Lawful(site, events) && LawfulOrders(site, e.orders)
    ensures Lawful(site, events + [e])
    ensures After(site, store, events + [e]) ==
            match Written(site, e)
            case None => After(site, store, events)
            case Some(w) => Set(After(site, store, events), w.parts.Key(), Lifetime(w.fields, site.cache), w.body,
                                e.now)
  {
    hide Written, Lifetime, LawfulOrders, Set;
    assert (events + [e])[..|events|] == events;
  }

  class Router {
    const site: Site
    var store: Store

    constructor (site: Site)
      ensures this.site == site && store == map[]
    {
      this.site, store := site, map[];
    }

    /** `others` are the requests that end between this one's read and its write. */
    method Graphql(req: Request, readAt: int, getFails: bool, others: seq<Finish>,
                   orders: nat -> HashOrder, send: Executor.Send, writeAt: int, setFails: bool) returns (reply: Reply)
      requires LawfulOrders(site, orders) && Lawful(site, others)
      modifies this
      ensures match Prepared(site, req)
        case None => reply == Invalid && store == old(store)
        case Some(parsed) =>
          match Lookup(site, old(store), req, parsed, readAt, getFails)
          case Some(body) => reply == Response(body) && store == old(store)
          case None =>
            && reply == Fresh(site, req, orders, send)
            && store == After(site, old(store), others + [Finish(req, orders, send, writeAt, setFails)])
    {
      var text := site.resolve(req);
      if text.None? {
        return Invalid;
      }
      var document := site.parse(text.value);
      if document.None? || !site.validates(document.value) {
        return Invalid;
      }
      ghost var parsed := Parsed(text.value, document.value);
      var uses := !req.bypassCache && site.connected && site.cache.Enabled();
      var key := CacheKey(text.value, req.operationName, site.json(req.variables), req.identity);
      if uses && !getFails {
        var hit := Get(store, key, readAt);
        if hit.Some? {
          return Response(hit.value);
        }
      }
      ghost var last := Finish(req, orders, send, writeAt, setFails);
      OneMoreEvent(site, store, others, last);
      hide After, Lawful, LawfulOrders, Cost.Analyzed, PlanOperation, Lifetime, Merge.DataOf, Merge.ErrorsOf,
           Executor.FieldResult, Get, Set, Results;
      store := After(site, store, others);
      var limits := Cost.Analyze(document.value, req.operationName, site.overrides, site.maxDepth, site.maxCost);
      if limits.Rejected? {
        return OverLimit(limits.error);
      }
      var planned := PlanOperation(document.value, req.operationName, site.catalog, orders);
      if planned.Refused? {
        return Unplannable(planned.error);
      }
      var body := Execute(planned.value, req, send);
      if uses && Cacheable(planned.value, req.identity, body) {
        var ttl := TtlForPlan(planned.value.fieldFetches, site.cache);
        if !setFails {
          store := Set(store, key, ttl, body, writeAt);
        }
      }
      return Response(body);
    }
  }

  method Execute(plan: ExecutionPlan, req: Request, send: Executor.Send) returns (body: GraphQLResponse)
    ensures body == MergedBody(Results(plan, req, send))
  {
    hide Executor.FieldResult, Merge.DataOf, Merge.ErrorsOf;
    var rs: seq<FieldFetchResult> := [];
    for i := 0 to |plan.fieldFetches|
      invariant rs == Results(plan, req, send)[..i]
    {
      var r := Executor.ExecuteFetches(plan.fieldFetches[i], req.variables, req.operationName, send);
      rs := rs + [r];
    }
    assert rs == Results(plan, req, send);
    var durations;
    body, durations := Merge.MergeResponses(rs);
  }

  // ---- safety over whole runs ------------------------------------------------------------------

  ghost predicate Writes(site: Site, e: Finish, key: string)
    requires LawfulOrders(site, e.orders)
  {
    Written(site, e).Some? && Written(site, e).value.parts.Key() == key
  }

  /** The k-th event is the last one that wrote under the key. */
  ghost predicate LastWrite(site: Site, events: seq<Finish>, key: string, k: nat)
    requires Lawful(site, events)
  {
    k < |events| && Writes(site, events[k], key) && forall j :: k < j < |events| ==> !Writes(site, events[j], key)
  }

  ghost function LastIndex(site: Site, events: seq<Finish>, key: string): Option<nat>
    requires Lawful(site, events)
  {
    if events == [] then None
    else if Writes(site, events[|events| - 1], key) then Some(|events| - 1)
    else LastIndex(site, events[..|events| - 1], key)
  }

  lemma {:induction false} LastIndexIsLast(site: Site, events: seq<Finish>, key: string)
    requires Lawful(site, events)
    ensures match LastIndex(site, events, key)
      case None => forall j :: 0 <= j < |events| ==> !Writes(site, events[j], key)
      case Some(k) => LastWrite(site, events, key, k)
  {
    hide Writes, LawfulOrders;
    if events != [] {
      var n := |events| - 1;
      LastIndexIsLast(site, events[..n], key);
      assert forall j :: 0 <= j < n ==> events[..n][j] == events[j];
    }
  }

  /** The store holds, under each key, what the last write put there. */
  lemma {:induction false} StoreHoldsTheLastWrite(site: Site, events: seq<Finish>, key: string)
    requires Lawful(site, events)
    ensures match LastIndex(site, events, key)
      case None => key !in After(site, map[], events)
      case Some(k) =>
        && k < |events| && Writes(site, events[k], key)
        && key in After(site, map[], events)
        && var w := Written(site, events[k]).value;
          After(site, map[], events)[key] == Entry(w.body, events[k].now + Lifetime(w.fields, site.cache))
  {
    hide Written, Lifetime, LawfulOrders;
    if events != [] {
      var n := |events| - 1;
      var init, e := events[..n], events[n];
      StoreHoldsTheLastWrite(site, init, key);
      OneMoreEvent(site, map[], init, e);
      assert events == init + [e];
      if Written(site, e).Some? {
        AtLeastASecond(Written(site, e).value.fields, site.cache);
      }
    }
  }

  lemma AtLeastASecond(fields: seq<FieldFetch>, cfg: CacheConfig)
    ensures Lifetime(fields, cfg) >= 1
  {
  }

  /** A lookup finds a body exactly when the last write under its key put that body there and has not yet expired. */
  lemma FoundExactly(site: Site, events: seq<Finish>, req: Request, parsed: Parsed, now: int, body: GraphQLResponse)
    requires Lawful(site, events) && Prepared(site, req) == Some(parsed) && UsesCache(site, req)
    ensures var key := Parts(site, req, parsed).Key();
      Lookup(site, After(site, map[], events), req, parsed, now, false) == Some(body) <==>
      exists k: nat ::
        && LastWrite(site, events, key, k) && body == Written(site, events[k]).value.body
        && now < events[k].now + Lifetime(Written(site, events[k]).value.fields, site.cache)
  {
    hide Written, Lifetime, LawfulOrders, After;
    var key := Parts(site, req, parsed).Key();
    LastIndexIsLast(site, events, key);
    StoreHoldsTheLastWrite(site, events, key);
  }

  /**
   * The parser takes no text that holds the separator and names no operation with the empty
   * name; the JSON text of the variables in play determines them and escapes the separator.
   */
  ghost predicate SoundCoding(site: Site, events: seq<Finish>, req: Request) {
    && (forall text :: site.parse(text).Some? ==> Unseparated(text) && !NamesEmpty(site.parse(text).value))
    && Unseparated(site.json(req.variables))
    && forall i :: 0 <= i < |events| ==> CodedApart(site, events[i].req.variables, req.variables)
  }

  predicate CodedApart(site: Site, v: Json, w: Json) {
    Unseparated(site.json(v)) && (site.json(v) == site.json(w) ==> v == w)
  }

  predicate NamesEmpty(document: Document) { FindOperation(Operations(document.definitions), "").Some? }

  /** The separator stays out of every operation name asked for, or out of every identity. */
  ghost predicate SeparatorKeptOut(events: seq<Finish>, req: Request) {
    || (Unseparated(req.operationName.GetOr("")) && forall i :: 0 <= i < |events| ==>
         Unseparated(events[i].req.operationName.GetOr("")))
    || (Unseparated(req.identity) && forall i :: 0 <= i < |events| ==> Unseparated(events[i].req.identity))
  }

  /** `e` computed `body` for the same document, name, variables and identity, within the limits and recently enough. */
  ghost predicate ComputedFor(site: Site, e: Finish, req: Request, parsed: Parsed, now: int, body: GraphQLResponse)
    requires LawfulOrders(site, e.orders)
  {
    && Prepared(site, e.req) == Some(parsed)
    && e.req.operationName.GetOr("") == req.operationName.GetOr("")
    && e.req.variables == req.variables && e.req.identity == req.identity && req.identity != ""
    && !e.req.bypassCache
    && Cost.Analyzed(parsed.document, e.req.operationName, site.overrides, site.maxDepth, site.maxCost).Report?
    && var c := Compute(site, e.req, parsed.document, e.orders, e.send);
      && c.Ran? && c.body == body && c.plan.operationType.Query?
      && body.errors == [] && body.data.Some?
      && now - e.now < Lifetime(c.plan.fieldFetches, site.cache)
  }

  lemma WrittenIsComputed(site: Site, e: Finish, req: Request, parsed: Parsed, now: int)
    requires LawfulOrders(site, e.orders) && Prepared(site, req) == Some(parsed)
    requires Written(site, e).Some? && Parts(site, req, parsed).Agrees(Written(site, e).value.parts)
    requires now < e.now + Lifetime(Written(site, e).value.fields, site.cache)
    requires CodedApart(site, e.req.variables, req.variables)
    ensures ComputedFor(site, e, req, parsed, now, Written(site, e).value.body)
  {
    hide Cost.Analyzed, PlanOperation, MergedBody, Results, Lifetime, LawfulOrders;
    assert Prepared(site, e.req).value.text == parsed.text;
    assert site.json(e.req.variables) == site.json(req.variables);
  }

  /**
   * Cache safety over a whole run, whatever requests ran, failed or raced in between: every hit
   * is an error-free query answer that an earlier request computed for the same document, name
   * (a missing one read as empty), variables and identity, within the limits, less than its
   * lifetime ago; and nothing has been written under that key since.
   */
  lemma HitIsSafe(site: Site, events: seq<Finish>, req: Request, parsed: Parsed, now: int,
                  getFails: bool) returns (k: nat)
    requires Lawful(site, events) && SoundCoding(site, events, req) && SeparatorKeptOut(events, req)
    requires Prepared(site, req) == Some(parsed)
             && Lookup(site, After(site, map[], events), req, parsed, now, getFails).Some?
    ensures !req.bypassCache && !getFails
    ensures k < |events|
    ensures ComputedFor(site, events[k], req, parsed, now,
                        Lookup(site, After(site, map[], events), req, parsed, now, getFails).value)
    ensures forall j :: k < j < |events| ==> !Writes(site, events[j], Parts(site, req, parsed).Key())
  {
    hide Written, Lifetime, LawfulOrders, After, ComputedFor, CacheKey, SoundCoding;
    var key, body := Parts(site, req, parsed).Key(),
        Lookup(site, After(site, map[], events), req, parsed, now, getFails).value;
    FoundExactly(site, events, req, parsed, now, body);
    k :| LastWrite(site, events, key, k) && body == Written(site, events[k]).value.body
         && now < events[k].now + Lifetime(Written(site, events[k]).value.fields, site.cache);
    WrittenParts(site, events[k]);
    SoundParts(site, events, req, parsed, k);
    KeysTellApart(Parts(site, req, parsed), Written(site, events[k]).value.parts);
    WrittenIsComputed(site, events[k], req, parsed, now);
  }

  lemma WrittenParts(site: Site, e: Finish)
    requires LawfulOrders(site, e.orders) && Written(site, e).Some?
    ensures Prepared(site, e.req).Some?
            && Written(site, e).value.parts == Parts(site, e.req, Prepared(site, e.req).value)
  {
    hide Compute, LawfulOrders;
  }

  lemma SoundParts(site: Site, events: seq<Finish>, req: Request, parsed: Parsed, k: nat)
    requires SoundCoding(site, events, req) && Prepared(site, req) == Some(parsed)
    requires k < |events| && Prepared(site, events[k].req).Some?
    ensures Parts(site, req, parsed).WellFormed() && !NamesEmpty(parsed.document)
    ensures Parts(site, events[k].req, Prepared(site, events[k].req).value).WellFormed()
    ensures CodedApart(site, events[k].req.variables, req.variables)
  {
    assert site.parse(parsed.text) == Some(parsed.document);
    assert site.parse(Prepared(site, events[k].req).value.text).Some?;
  }

  /**
   * A hit is what this very request would have been answered without the cache, by the subgraphs
   * as they were when the entry was computed, exactly unless the request names the empty
   * operation: that one can only be refused, yet it shares the entries of a request that names none.
   */
  lemma HitAgreesExactly(site: Site, events: seq<Finish>, req: Request, parsed: Parsed, now: int) returns (k: nat)
    requires Lawful(site, events) && SoundCoding(site, events, req) && SeparatorKeptOut(events, req)
    requires Prepared(site, req) == Some(parsed)
             && Lookup(site, After(site, map[], events), req, parsed, now, false).Some?
    ensures k < |events|
    ensures var body := Lookup(site, After(site, map[], events), req, parsed, now, false).value;
      Fresh(site, req, events[k].orders, events[k].send) == Response(body) <==> req.operationName != Some("")
  {
    hide Lookup, After, Lifetime, MergedBody, Results, Written, CacheKey, SoundCoding, LawfulOrders, SeparatorKeptOut,
         Writes;
    k := HitIsSafe(site, events, req, parsed, now, false);
    ComputedIsPrepared(site, events[k], req, parsed, now,
                       Lookup(site, After(site, map[], events), req, parsed, now, false).value);
    SoundParts(site, events, req, parsed, k);
    var e := events[k];
    if req.operationName != Some("") {
      if e.req.operationName == Some("") {
        EmptyNameIsRefused(site, e.req, parsed, e.orders, e.send);
        assert false;
      }
      assert e.req.operationName == req.operationName;
      SameQuestionSameAnswer(site, e.req, req, parsed, e.orders, e.send);
    } else {
      EmptyNameIsRefused(site, req, parsed, e.orders, e.send);
    }
  }

  lemma ComputedIsPrepared(site: Site, e: Finish, req: Request, parsed: Parsed, now: int, body: GraphQLResponse)
    requires LawfulOrders(site, e.orders) && ComputedFor(site, e, req, parsed, now, body)
    ensures Prepared(site, e.req) == Some(parsed)
  {
    hide LawfulOrders;
  }

  lemma SameQuestionSameAnswer(site: Site, p: Request, q: Request, parsed: Parsed, orders: nat -> HashOrder,
                               send: Executor.Send)
    requires LawfulOrders(site, orders) && p.operationName == q.operationName && p.variables == q.variables
    ensures Compute(site, p, parsed.document, orders, send) == Compute(site, q, parsed.document, orders, send)
  {
    hide Cost.Analyzed, PlanOperation, Executor.FieldResult;
    forall plan ensures Results(plan, p, send) == Results(plan, q, send) {
    }
  }

  lemma EmptyNameIsRefused(site: Site, req: Request, parsed: Parsed, orders: nat -> HashOrder, send: Executor.Send)
    requires LawfulOrders(site, orders) && req.operationName == Some("") && !NamesEmpty(parsed.document)
    ensures Compute(site, req, parsed.document, orders, send).Stopped?
    ensures !Compute(site, req, parsed.document, orders, send).reply.Response?
  {
    hide LawfulOrders;
  }

  // ---- what is stored ------------------------------------------------------------------------------

  /** The request is past parsing and the limits, and `plan` and `body` come out of it. */
  ghost predicate Yields(site: Site, e: Finish, parsed: Parsed, plan: ExecutionPlan, body: GraphQLResponse)
    requires LawfulOrders(site, e.orders)
  {
    && Prepared(site, e.req) == Some(parsed)
    && Cost.Analyzed(parsed.document, e.req.operationName, site.overrides, site.maxDepth, site.maxCost).Report?
    && PlanOperation(parsed.document, e.req.operationName, site.catalog, e.orders) == Plan(plan)
    && body.data == Some(Object(Merge.DataOf(Results(plan, e.req, e.send))))
    && body.errors == Merge.ErrorsOf(Results(plan, e.req, e.send)) && body.extensions == None
  }

  /** A query with an identity, answered without an error, by a router whose cache is up, set up and not passed by. */
  predicate IsKept(site: Site, e: Finish, plan: ExecutionPlan, body: GraphQLResponse) {
    && plan.operationType.Query? && e.req.identity != "" && |body.errors| == 0
    && !e.req.bypassCache && site.connected && site.cache.enabled && site.cache.redisUrl != "" && !e.setFails
  }

  lemma KeptIsWritten(site: Site, e: Finish, parsed: Parsed, plan: ExecutionPlan, body: GraphQLResponse)
    requires LawfulOrders(site, e.orders) && Yields(site, e, parsed, plan, body)
    ensures Written(site, e)
         == if IsKept(site, e, plan, body)
            then Some(Write(Parts(site, e.req, parsed), plan.fieldFetches, body)) else None
  {
    hide Cost.Analyzed, PlanOperation, Results, Merge.DataOf, Merge.ErrorsOf, LawfulOrders;
    assert body == MergedBody(Results(plan, e.req, e.send));
  }

  /**
   * Such an answer is what the same request finds until its lifetime is over; any other answer leaves
   * the store as it was.
   */
  lemma AnswerIsStoredExactly(site: Site, events: seq<Finish>, e: Finish, parsed: Parsed, plan: ExecutionPlan,
                              body: GraphQLResponse, now: int)
    requires Lawful(site, events) && LawfulOrders(site, e.orders) && Yields(site, e, parsed, plan, body)
    requires Lawful(site, events + [e])
    ensures if IsKept(site, e, plan, body)
            then Lookup(site, After(site, map[], events + [e]), e.req, parsed, now, false)
              == if now < e.now + Lifetime(plan.fieldFetches, site.cache) then Some(body) else None
            else After(site, map[], events + [e]) == After(site, map[], events)
  {
    OneMoreEvent(site, map[], events, e);
    KeptIsWritten(site, e, parsed, plan, body);
    AtLeastASecond(plan.fieldFetches, site.cache);
    hide Written, After, LawfulOrders, Lifetime, CacheKey, Yields;
  }

  /** The request's text is known, parses, and its document is valid. */
  ghost predicate IsPrepared(site: Site, req: Request, text: string, document: Document) {
    site.resolve(req) == Some(text) && site.parse(text) == Some(document) && site.validates(document)
  }

  /** What a request is answered without a cache: the first obstacle on its way, or else the merged response. */
  lemma AnsweredExactly(site: Site, req: Request, orders: nat -> HashOrder, send: Executor.Send)
    requires LawfulOrders(site, orders)
    ensures var r := Fresh(site, req, orders, send);
      && (r == Invalid <==> forall text, document :: !IsPrepared(site, req, text, document))
      && forall text, document :: IsPrepared(site, req, text, document) ==>
           var limits := Cost.Analyzed(document, req.operationName, site.overrides, site.maxDepth, site.maxCost);
           var planned := PlanOperation(document, req.operationName, site.catalog, orders);
           && (r.OverLimit? <==> limits.Rejected?) && (r.OverLimit? ==> r.error == limits.error)
           && (r.Unplannable? <==> limits.Report? && planned.Refused?)
              && (r.Unplannable? ==> r.problem == planned.error)
           && (r.Response? <==> limits.Report? && planned.Plan?)
  {
    hide Cost.Analyzed, PlanOperation, Results, Merge.DataOf, Merge.ErrorsOf, LawfulOrders;
    if Prepared(site, req).Some? {
      assert IsPrepared(site, req, Prepared(site, req).value.text, Prepared(site, req).value.document);
    }
  }
}
