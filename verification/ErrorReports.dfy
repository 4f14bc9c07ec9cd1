/** What the client is told of a failed call, and how long each call took (merge.rs). */
module ErrorReports {
  import opened Responses
  import opened Fetches
  import opened Merge

  function TextLeaf(s: string): Json { Leaf(Text(s)) }

  // ---- numbers in messages -----------------------------------------------------------------------

  function DigitOf(c: char): int { c as int - '0' as int }

  /** The number that a row of digits stands for. */
  function NumberOf(s: string): int {
    if s == "" then 0 else 10 * NumberOf(s[..|s| - 1]) + DigitOf(s[|s| - 1])
  }

  /** A status is printed as the number it is, in digits and without leading zeros. */
  lemma {:induction false} DecimalReadsBack(n: nat)
    ensures var s := Decimal(n);
      && NumberOf(s) == n && s != "" && (forall i :: 0 <= i < |s| ==> '0' <= s[i] <= '9')
      && (n > 0 ==> s[0] != '0')
  {
    OneDigit(n % 10);
    var last := "0123456789"[n % 10];
    if n >= 10 {
      DecimalReadsBack(n / 10);
      assert Decimal(n) == Decimal(n / 10) + [last];
      hide Decimal;
      OneMoreDigit(Decimal(n / 10), last);
    } else {
      assert Decimal(n) == [last];
      OneMoreDigit("", last);
      assert "" + [last] == [last] && NumberOf("") == 0;
    }
  }

  lemma OneDigit(d: nat)
    requires d < 10
    ensures var c := "0123456789"[d]; DigitOf(c) == d && '0' <= c <= '9' && (c == '0' <==> d == 0)
  {
  }

  lemma OneMoreDigit(s: string, c: char)
    ensures NumberOf(s + [c]) == 10 * NumberOf(s) + DigitOf(c)
  {
    assert (s + [c])[..|s|] == s;
  }

  // ---- one failure -------------------------------------------------------------------------------

  /** The error's code and message are those of this kind of failure. */
  predicate Tells(message: string, code: string, err: SubgraphError) {
    match err
    case Timeout(shown) => code == "SUBGRAPH_TIMEOUT" && message == "Subgraph timed out after " + shown + "."
    case BadStatus(status, _) =>
      code == "SUBGRAPH_HTTP_ERROR" && message == "Subgraph responded with HTTP " + Decimal(status) + "."
    case Transport(reason) =>
      code == "SUBGRAPH_TRANSPORT_ERROR" && message == "Subgraph transport error: " + reason + "."
    case Decode(problem) =>
      code == "SUBGRAPH_DECODE_ERROR" && message == "Subgraph returned an undecodable response: " + problem + "."
    case CircuitOpen(_) =>
      && code == "SUBGRAPH_CIRCUIT_OPEN"
      && message == "Subgraph circuit breaker is open; upstream calls are temporarily skipped."
  }

  /** The failure of a call to the subgraph for the root field with this response key. */
  predicate IsReportOf(e: GraphQLError, err: SubgraphError, responseKey: string, subgraph: string) {
    && e.path == [TextLeaf(responseKey)] && e.locations == []
    && e.extensions.Some? && e.extensions.value.Object?
    && var said := e.extensions.value.fields;
    && said.Keys == {"code", "subgraph"} && said["subgraph"] == TextLeaf(subgraph)
    && said["code"].Leaf? && said["code"].atom.Text? && Tells(e.message, said["code"].atom.s, err)
  }

  lemma FailureIsReported(err: SubgraphError, responseKey: string, subgraph: string)
    ensures IsReportOf(ErrorFor(err, responseKey, subgraph), err, responseKey, subgraph)
  {
  }

  // ---- one field -----------------------------------------------------------------------------------

  /** An error that a subgraph raises itself keeps all it says, and a path if it has one. */
  predicate IsPassedOn(e: GraphQLError, raised: GraphQLError, responseKey: string) {
    && e.message == raised.message && e.locations == raised.locations && e.extensions == raised.extensions
    && e.path == if |raised.path| > 0 then raised.path else [TextLeaf(responseKey)]
  }

  /**
   * The first call of a field fails: its value is null, and the only error of the field reports the
   * failure under the field's key, with the subgraph that was called. Otherwise the errors start with
   * those of the answer, as they came.
   */
  lemma FirstCallIsReported(r: FieldFetchResult)
    ensures match r.initial.outcome
      case Failed(err) =>
        && FieldValue(r) == Null && |FieldErrors(r)| == 1
        && IsReportOf(FieldErrors(r)[0], err, r.field.responseKey, r.initial.plan.route.name)
      case Answered(resp) => resp.errors <= FieldErrors(r)
  {
    if r.initial.outcome.Failed? {
      FailureIsReported(r.initial.outcome.error, r.field.responseKey, r.initial.plan.route.name);
    }
    hide ErrorFor;
  }

  /** And so it is with every call for entities, whose errors without a path get the field's key for one. */
  lemma ExtenderCallIsReported(responseKey: string, e: EntityFetchResult)
    ensures var errors := EntityErrors(responseKey, e);
      match e.outcome
      case Failed(err) => |errors| == 1 && IsReportOf(errors[0], err, responseKey, e.plan.route.name)
      case Answered(resp) =>
        |errors| == |resp.errors|
        && forall i :: 0 <= i < |errors| ==> IsPassedOn(errors[i], resp.errors[i], responseKey)
  {
    if e.outcome.Failed? {
      FailureIsReported(e.outcome.error, responseKey, e.plan.route.name);
    }
    hide ErrorFor;
  }

  // ---- how long it took --------------------------------------------------------------------------------

  lemma {:induction false} EntityDurationsListed(entities: seq<EntityFetchResult>)
    ensures var spent := EntityDurations(entities);
      |spent| == |entities|
      && forall j :: 0 <= j < |spent| ==> spent[j] == (entities[j].plan.route.name, entities[j].durationMs)
  {
    if entities != [] {
      EntityDurationsListed(entities[..|entities| - 1]);
    }
  }

  /** The time of the first call comes first, and then, if it was answered, the times of the calls for entities. */
  lemma DurationsListed(r: FieldFetchResult)
    ensures var spent, es := FieldDurations(r), r.entities;
      && |spent| == 1 + (if r.initial.outcome.Failed? then 0 else |es|)
      && spent[0] == (r.initial.plan.route.name, r.initial.durationMs)
      && forall j :: 0 < j < |spent| ==> spent[j] == (es[j - 1].plan.route.name, es[j - 1].durationMs)
  {
    EntityDurationsListed(r.entities);
    hide EntityDurations;
  }

  lemma {:induction false} DurationsAppend(a: seq<FieldFetchResult>, b: seq<FieldFetchResult>)
    ensures DurationsOf(a + b) == DurationsOf(a) + DurationsOf(b)
    decreases |b|
  {
    hide FieldDurations;
    if b == [] {
      assert a + b == a;
    } else {
      var n := |b| - 1;
      assert (a + b)[..|a + b| - 1] == a + b[..n];
      DurationsAppend(a, b[..n]);
    }
  }

  lemma OneField(r: FieldFetchResult)
    ensures DurationsOf([r]) == FieldDurations(r)
  {
    hide FieldDurations;
    assert [r][..0] == [] && DurationsOf([]) == [];
  }

  lemma AroundOne(rs: seq<FieldFetchResult>, i: nat)
    requires i < |rs|
    ensures rs == rs[..i] + [rs[i]] + rs[i + 1..]
  {
  }

  /** The times of the fields follow each other as the fields do. */
  lemma NoDurationIsLost(rs: seq<FieldFetchResult>, i: nat)
    requires i < |rs|
    ensures DurationsOf(rs) == DurationsOf(rs[..i]) + FieldDurations(rs[i]) + DurationsOf(rs[i + 1..])
  {
    hide FieldDurations, DurationsOf;
    var a, r, b := rs[..i], rs[i], rs[i + 1..];
    AroundOne(rs, i);
    OneField(r);
    DurationsAppend(a + [r], b);
    DurationsAppend(a, [r]);
  }
}
