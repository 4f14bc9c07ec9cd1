/** One subgraph call behind the breaker: attempt, record, back off, retry (reliability/tower_dispatch.rs). */
module Dispatch {
  import opened Common
  import opened Ast
  import opened Responses
  import opened Circuit

  const U128_MAX: nat := 0xFFFF_FFFF_FFFF_FFFF_FFFF_FFFF_FFFF_FFFF

  /** Durations are in milliseconds. */
  datatype RetryPolicy = RetryPolicy(maxRetries: u32, initialBackoff: u64, maxBackoff: u64) {
    /** The sum wraps in a release build, so the largest retry count allows no attempt at all. */
    function MaxAttempts(): u32 { (1 + maxRetries) % (U32_MAX + 1) }
  }

  predicate Retryable(e: SubgraphError) {
    match e
    case Timeout(_) => true
    case Transport(_) => true
    case BadStatus(status, _) => status in {408, 425, 429, 500, 502, 503, 504}
    case Decode(_) => false
    case CircuitOpen(_) => false
  }

  function Pow2(n: nat): nat { if n == 0 then 1 else 2 * Pow2(n - 1) }

  /** Two to the attempt saturates at 32 bits, the product at 128; the cap is taken last. */
  function Backoff(attempt: nat, initial: u64, cap: u64): u64 {
    var factor := Min(Pow2(attempt), U32_MAX);
    Min(Min(initial * factor, U128_MAX), cap)
  }

  lemma {:induction false} Pow2Grows(m: nat, n: nat)
    requires m <= n
    ensures Pow2(m) <= Pow2(n)
  {
    if m < n {
      Pow2Grows(m, n - 1);
    }
  }

  lemma Pow2At32()
    ensures Pow2(31) == 0x8000_0000 && Pow2(32) == U32_MAX + 1
  {
    assert Pow2(8) == 256;
    assert Pow2(16) == 0x1_0000;
    assert Pow2(24) == 0x100_0000;
    assert Pow2(31) == 0x8000_0000;
  }

  lemma ProductGrows(a: nat, b: nat, c: nat)
    requires b <= c
    ensures a * b <= a * c
  {
  }

  /** No saturation below attempt 32; from there on the factor stays at 2^32 - 1. */
  lemma BackoffExactly(attempt: nat, initial: u64, cap: u64)
    ensures attempt < 32 ==> Backoff(attempt, initial, cap) == Min(initial * Pow2(attempt), cap)
    ensures attempt >= 32 ==> Backoff(attempt, initial, cap) == Min(initial * U32_MAX, cap)
  {
    Pow2At32();
    if attempt < 32 { Pow2Grows(attempt, 31); } else { Pow2Grows(32, attempt); }
    var factor := Min(Pow2(attempt), U32_MAX);
    assert initial * factor <= U128_MAX by {
      ProductGrows(initial, factor, U32_MAX);
      ProductGrows(U32_MAX, initial, U64_MAX);
    }
  }

  lemma BackoffNeverShrinks(m: nat, n: nat, initial: u64, cap: u64)
    requires m <= n
    ensures Backoff(m, initial, cap) <= Backoff(n, initial, cap) <= cap
  {
    Pow2Grows(m, n);
    ProductGrows(initial, Min(Pow2(m), U32_MAX), Min(Pow2(n), U32_MAX));
  }

  // ---- the attempts --------------------------------------------------------------------------

  /**
   * What the world does around one attempt: when the breaker is asked, what other callers do to it
   * during the request, how the request ends and when, and what they do while this caller sleeps.
   */
  datatype Turn = Turn(checkAt: Instant, during: seq<Use>, outcome: Outcome, recordAt: Instant, sleeping: seq<Use>)

  datatype Event =
    | Checked(now: Instant, answer: Admission)
    | Others(uses: seq<Use>)
    | Attempted(outcome: Outcome)
    | Recorded(now: Instant, success: bool)
    | Slept(ms: nat)

  datatype Dispatched = Dispatched(trace: seq<Event>, result: Outcome, breaker: Breaker)

  const EXHAUSTED := Failed(Transport("exhausted subgraph retries without success"))

  function Round(t: Turn): seq<Event> {
    [Checked(t.checkAt, Admitted), Others(t.during), Attempted(t.outcome), Recorded(t.recordAt, t.outcome.Answered?)]
  }

  function AfterRound(cfg: Config, b: Breaker, t: Turn): Breaker {
    AfterRecord(cfg, Steps(cfg, AfterCheck(cfg, b, t.checkAt), t.during), t.recordAt, t.outcome.Answered?)
  }

  predicate Retries(policy: RetryPolicy, kind: OperationType, attempt: nat, outcome: Outcome) {
    kind.Query? && attempt + 1 < policy.MaxAttempts() && outcome.Failed? && Retryable(outcome.error)
  }

  function Attempts(cfg: Config, policy: RetryPolicy, kind: OperationType, turns: nat -> Turn, attempt: nat,
                    b: Breaker): Dispatched
    requires attempt <= policy.MaxAttempts()
    decreases policy.MaxAttempts() - attempt
  {
    if attempt == policy.MaxAttempts() then Dispatched([], EXHAUSTED, b)
    else
      var t := turns(attempt);
      match CheckAnswer(b, t.checkAt)
      case Refused(wait) =>
        Dispatched([Checked(t.checkAt, Refused(wait))], Failed(CircuitOpen(wait)), AfterCheck(cfg, b, t.checkAt))
      case Admitted =>
        var after := AfterRound(cfg, b, t);
        if Retries(policy, kind, attempt, t.outcome) then
          var slept := [Slept(Backoff(attempt, policy.initialBackoff, policy.maxBackoff)), Others(t.sleeping)];
          var rest := Attempts(cfg, policy, kind, turns, attempt + 1, Steps(cfg, after, t.sleeping));
          Dispatched(Round(t) + slept + rest.trace, rest.result, rest.breaker)
        else
          Dispatched(Round(t), t.outcome, after)
  }

  method UseByOthers(breaker: CircuitBreaker, uses: seq<Use>)
    modifies breaker
    ensures breaker.Model() == Steps(breaker.cfg, old(breaker.Model()), uses)
  {
    for i := 0 to |uses|
      invariant breaker.Model() == Steps(breaker.cfg, old(breaker.Model()), uses[..i])
    {
      assert uses[..i + 1][..i] == uses[..i];
      match uses[i] {
        case Check(now) => var _ := breaker.Check(now);
        case Record(now, success) => breaker.Record(now, success);
      }
    }
    assert uses[..|uses|] == uses;
  }

  method DispatchWithReliability(breakers: map<string, CircuitBreaker>, policy: RetryPolicy, subgraph: string,
                                 kind: OperationType, turns: nat -> Turn)
    returns (result: Outcome, ghost trace: seq<Event>)
    modifies if subgraph in breakers then {breakers[subgraph]} else {}
    ensures subgraph !in breakers ==>
              result == Failed(Transport("no circuit breaker for subgraph \"" + subgraph + "\"")) && trace == []
    ensures subgraph in breakers ==>
              var breaker := breakers[subgraph];
              Dispatched(trace, result, breaker.Model())
              == Attempts(breaker.cfg, policy, kind, turns, 0, old(breaker.Model()))
  {
    hide Steps, AfterCheck, AfterRecord, Backoff, Attempts, CheckAnswer, Retryable;
    trace := [];
    if subgraph !in breakers {
      return Failed(Transport("no circuit breaker for subgraph \"" + subgraph + "\"")), trace;
    }
    var breaker := breakers[subgraph];
    ghost var whole := Attempts(breaker.cfg, policy, kind, turns, 0, breaker.Model());
    var maxAttempts := policy.MaxAttempts();
    for attempt := 0 to maxAttempts
      invariant Continues(whole, trace, Attempts(breaker.cfg, policy, kind, turns, attempt, breaker.Model()))
    {
      ghost var before, soFar := breaker.Model(), trace;
      ghost var after := OneAttempt(breaker.cfg, policy, kind, turns, attempt, before);
      var t := turns(attempt);
      var answer := breaker.Check(t.checkAt);
      if answer.Refused? {
        return Failed(CircuitOpen(answer.retryAfter)), trace + [Checked(t.checkAt, answer)];
      }
      UseByOthers(breaker, t.during);
      breaker.Record(t.recordAt, t.outcome.Answered?);
      trace := trace + Round(t);
      match t.outcome {
        case Answered(_) =>
          return t.outcome, trace;
        case Failed(e) =>
          var canRetry := kind.Query? && attempt + 1 < maxAttempts && Retryable(e);
          if !canRetry {
            return t.outcome, trace;
          }
          var backoff := Backoff(attempt, policy.initialBackoff, policy.maxBackoff);
          UseByOthers(breaker, t.sleeping);
          trace := trace + [Slept(backoff), Others(t.sleeping)];
          ghost var rest := Attempts(breaker.cfg, policy, kind, turns, attempt + 1, after).trace;
          assert soFar + (Round(t) + [Slept(backoff), Others(t.sleeping)] + rest) == trace + rest;
      }
    }
    ghost var _ := OneAttempt(breaker.cfg, policy, kind, turns, maxAttempts, breaker.Model());
    return EXHAUSTED, trace;
  }

  /** The rest of the dispatch, after the given trace, makes up the whole one. */
  ghost predicate Continues(whole: Dispatched, trace: seq<Event>, rest: Dispatched) {
    whole == Dispatched(trace + rest.trace, rest.result, rest.breaker)
  }

  // ---- what a dispatch can do ------------------------------------------------------------------

  function CountAttempts(trace: seq<Event>): nat {
    if trace == [] then 0 else CountAttempts(trace[..|trace| - 1]) + if trace[|trace| - 1].Attempted? then 1 else 0
  }

  function Sleeps(trace: seq<Event>): seq<nat> {
    if trace == [] then []
    else
      var before, last := Sleeps(trace[..|trace| - 1]), trace[|trace| - 1];
      if last.Slept? then before + [last.ms] else before
  }

  /** Everything the breaker is asked and told, by this caller and by the others. */
  function Uses(trace: seq<Event>): seq<Use> {
    if trace == [] then [] else Uses(trace[..|trace| - 1]) + UsesOf(trace[|trace| - 1])
  }

  function UsesOf(e: Event): seq<Use> {
    match e
    case Checked(now, _) => [Check(now)]
    case Others(uses) => uses
    case Recorded(now, success) => [Record(now, success)]
    case _ => []
  }

  lemma TraceGrows(trace: seq<Event>, e: Event)
    ensures CountAttempts(trace + [e]) == CountAttempts(trace) + if e.Attempted? then 1 else 0
    ensures Sleeps(trace + [e]) == if e.Slept? then Sleeps(trace) + [e.ms] else Sleeps(trace)
    ensures Uses(trace + [e]) == Uses(trace) + UsesOf(e)
  {
    assert (trace + [e])[..|trace|] == trace;
  }

  lemma {:induction false} TracesAppend(a: seq<Event>, b: seq<Event>)
    ensures CountAttempts(a + b) == CountAttempts(a) + CountAttempts(b)
    ensures Sleeps(a + b) == Sleeps(a) + Sleeps(b)
    ensures Uses(a + b) == Uses(a) + Uses(b)
  {
    hide CountAttempts, Sleeps, Uses, UsesOf;
    if b == [] {
      NoTrace();
      assert a + b == a;
    } else {
      var init, last := b[..|b| - 1], b[|b| - 1];
      TracesAppend(a, init);
      assert b == init + [last] && a + b == (a + init) + [last];
      TraceGrows(a + init, last);
      TraceGrows(init, last);
    }
  }

  lemma OneRound(t: Turn)
    ensures CountAttempts(Round(t)) == 1 && Sleeps(Round(t)) == []
    ensures Uses(Round(t)) == [Check(t.checkAt)] + t.during + [Record(t.recordAt, t.outcome.Answered?)]
  {
    hide CountAttempts, Sleeps, Uses;
    var checked, others, attempted, recorded := Round(t)[0], Round(t)[1], Round(t)[2], Round(t)[3];
    NoTrace();
    TraceGrows([], checked);
    TraceGrows([checked], others);
    TraceGrows([checked, others], attempted);
    TraceGrows([checked, others, attempted], recorded);
    assert [] + [checked] == [checked];
    assert [checked] + [others] == [checked, others];
    assert [checked, others] + [attempted] == [checked, others, attempted];
    assert [checked, others, attempted] + [recorded] == Round(t);
  }

  lemma NoTrace()
    ensures CountAttempts([]) == 0 && Sleeps([]) == [] && Uses([]) == []
  {
  }

  lemma OneSleep(ms: nat, uses: seq<Use>)
    ensures CountAttempts([Slept(ms), Others(uses)]) == 0 && Sleeps([Slept(ms), Others(uses)]) == [ms]
    ensures Uses([Slept(ms), Others(uses)]) == uses
  {
    hide CountAttempts, Sleeps, Uses;
    NoTrace();
    TraceGrows([], Slept(ms));
    TraceGrows([Slept(ms)], Others(uses));
    assert [] + [Slept(ms)] == [Slept(ms)] && [Slept(ms)] + [Others(uses)] == [Slept(ms), Others(uses)];
  }

  /** The trace of a dispatch that retries after its first attempt. */
  lemma FirstOfMany(t: Turn, ms: nat, rest: seq<Event>)
    ensures var trace := Round(t) + [Slept(ms), Others(t.sleeping)] + rest;
      && CountAttempts(trace) == 1 + CountAttempts(rest)
      && Sleeps(trace) == [ms] + Sleeps(rest)
      && Uses(trace) == [Check(t.checkAt)] + t.during + [Record(t.recordAt, t.outcome.Answered?)] + t.sleeping
         + Uses(rest)
  {
    hide CountAttempts, Sleeps, Uses;
    var slept := [Slept(ms), Others(t.sleeping)];
    OneRound(t);
    OneSleep(ms, t.sleeping);
    TracesAppend(Round(t), slept);
    TracesAppend(Round(t) + slept, rest);
  }

  /** One unfolding of the attempts: nothing left, refused, ended, or slept and tried again. */
  lemma OneAttempt(cfg: Config, policy: RetryPolicy, kind: OperationType, turns: nat -> Turn, attempt: nat,
                   b: Breaker) returns (after: Breaker)
    requires attempt <= policy.MaxAttempts()
    ensures var t, d := turns(attempt), Attempts(cfg, policy, kind, turns, attempt, b);
      if attempt == policy.MaxAttempts() then d == Dispatched([], EXHAUSTED, b)
      else if CheckAnswer(b, t.checkAt).Refused? then
        && d.trace == [Checked(t.checkAt, CheckAnswer(b, t.checkAt))]
        && d.result == Failed(CircuitOpen(CheckAnswer(b, t.checkAt).retryAfter))
        && d.breaker == AfterCheck(cfg, b, t.checkAt)
      else if !Retries(policy, kind, attempt, t.outcome) then
        d == Dispatched(Round(t), t.outcome, AfterRound(cfg, b, t))
      else
        var rest := Attempts(cfg, policy, kind, turns, attempt + 1, after);
        var ms := Backoff(attempt, policy.initialBackoff, policy.maxBackoff);
        && d.trace == Round(t) + [Slept(ms), Others(t.sleeping)] + rest.trace
        && d.result == rest.result && d.breaker == rest.breaker
        && after == Steps(cfg, AfterRound(cfg, b, t), t.sleeping)
        && CountAttempts(d.trace) == 1 + CountAttempts(rest.trace)
        && Sleeps(d.trace) == [ms] + Sleeps(rest.trace)
  {
    hide CountAttempts, Sleeps, Retries, Backoff, Uses, Steps, AfterRecord, AfterCheck;
    var t := turns(attempt);
    after := Steps(cfg, AfterRound(cfg, b, t), t.sleeping);
    if attempt < policy.MaxAttempts() && CheckAnswer(b, t.checkAt).Admitted?
      && Retries(policy, kind, attempt, t.outcome) {
      FirstOfMany(t, Backoff(attempt, policy.initialBackoff, policy.maxBackoff),
                  Attempts(cfg, policy, kind, turns, attempt + 1, after).trace);
    }
  }

  /** What another attempt may help: no answer in time, a broken connection, or one of these status codes. */
  lemma RetryableExactly(e: SubgraphError)
    ensures Retryable(e) <==>
      || e.Timeout? || e.Transport?
      || (e.BadStatus? && (e.status == 408 || e.status == 425 || e.status == 429 || e.status == 500
                           || 502 <= e.status <= 504))
  {
  }

  /**
   * After a 503 to a query with attempts left, the caller sleeps and makes the next attempt; after a 400,
   * an answer, or anything at all to a mutation, the outcome is the result.
   */
  lemma UnavailableIsRetried(cfg: Config, policy: RetryPolicy, kind: OperationType, turns: nat -> Turn, attempt: nat,
                             b: Breaker)
    requires attempt < policy.MaxAttempts() && CheckAnswer(b, turns(attempt).checkAt) == Admitted
    ensures var t, d := turns(attempt), Attempts(cfg, policy, kind, turns, attempt, b);
      var next := Attempts(cfg, policy, kind, turns, attempt + 1, Steps(cfg, AfterRound(cfg, b, t), t.sleeping));
      && (kind.Query? && attempt + 1 < policy.MaxAttempts() && t.outcome.Failed? && t.outcome.error.BadStatus?
            && t.outcome.error.status == 503 ==>
          d.result == next.result && CountAttempts(d.trace) == 1 + CountAttempts(next.trace))
      && ((kind.Mutation? || t.outcome.Answered? || attempt + 1 == policy.MaxAttempts()
             || (t.outcome.error.BadStatus? && t.outcome.error.status == 400)) ==>
          d.result == t.outcome && d.trace == Round(t))
  {
    var after := OneAttempt(cfg, policy, kind, turns, attempt, b);
    hide Attempts, CheckAnswer, AfterRound, Steps, Round, CountAttempts, Backoff;
  }

  lemma OneCheck(now: Instant, answer: Admission)
    ensures CountAttempts([Checked(now, answer)]) == 0 && Sleeps([Checked(now, answer)]) == []
    ensures Uses([Checked(now, answer)]) == [Check(now)]
  {
    NoTrace();
    TraceGrows([], Checked(now, answer));
    assert [] + [Checked(now, answer)] == [Checked(now, answer)];
  }

  /** A query is attempted at most 1 + maxRetries times, anything else at most once. */
  lemma {:induction false} AttemptsAreBounded(cfg: Config, policy: RetryPolicy, kind: OperationType,
                                              turns: nat -> Turn, attempt: nat, b: Breaker)
    requires attempt <= policy.MaxAttempts()
    ensures CountAttempts(Attempts(cfg, policy, kind, turns, attempt, b).trace)
         <= if kind.Query? then policy.MaxAttempts() - attempt else 1
    decreases policy.MaxAttempts() - attempt
  {
    hide CountAttempts, Sleeps, Attempts, Round, Retryable, Backoff, CheckAnswer;
    var t := turns(attempt);
    NoTrace();
    OneRound(t);
    OneCheck(t.checkAt, CheckAnswer(b, t.checkAt));
    var after := OneAttempt(cfg, policy, kind, turns, attempt, b);
    if attempt < policy.MaxAttempts() && CheckAnswer(b, t.checkAt).Admitted?
      && Retries(policy, kind, attempt, t.outcome) {
      AttemptsAreBounded(cfg, policy, kind, turns, attempt + 1, after);
    }
  }

  /** The k-th of them is the backoff after the k-th attempt from this one on. */
  ghost predicate AreBackoffs(policy: RetryPolicy, attempt: nat, sleeps: seq<nat>) {
    forall k :: 0 <= k < |sleeps| ==> sleeps[k] == Backoff(attempt + k, policy.initialBackoff, policy.maxBackoff)
  }

  lemma NoBackoffs(policy: RetryPolicy, attempt: nat)
    ensures AreBackoffs(policy, attempt, [])
  {
  }

  lemma OneMoreBackoff(policy: RetryPolicy, attempt: nat, sleeps: seq<nat>)
    requires AreBackoffs(policy, attempt + 1, sleeps)
    ensures AreBackoffs(policy, attempt, [Backoff(attempt, policy.initialBackoff, policy.maxBackoff)] + sleeps)
  {
    hide Backoff;
    forall k | 0 <= k < |sleeps|
      ensures sleeps[k] == Backoff(attempt + (k + 1), policy.initialBackoff, policy.maxBackoff)
    {
      assert attempt + 1 + k == attempt + (k + 1);
    }
  }

  /** The k-th sleep is the k-th backoff, whatever happens. */
  lemma {:induction false} SleepsAreBackoffs(cfg: Config, policy: RetryPolicy, kind: OperationType,
                                             turns: nat -> Turn, attempt: nat, b: Breaker)
    requires attempt <= policy.MaxAttempts()
    ensures var sleeps := Sleeps(Attempts(cfg, policy, kind, turns, attempt, b).trace);
      && (attempt + |sleeps| < policy.MaxAttempts() || sleeps == [])
      && (kind.Query? || sleeps == [])
      && AreBackoffs(policy, attempt, sleeps)
    decreases policy.MaxAttempts() - attempt
  {
    hide CountAttempts, Sleeps, Attempts, Round, Retryable, Backoff, CheckAnswer, AreBackoffs;
    var t := turns(attempt);
    NoTrace();
    OneRound(t);
    OneCheck(t.checkAt, CheckAnswer(b, t.checkAt));
    var after := OneAttempt(cfg, policy, kind, turns, attempt, b);
    if attempt < policy.MaxAttempts() && CheckAnswer(b, t.checkAt).Admitted?
      && Retries(policy, kind, attempt, t.outcome) {
      SleepsAreBackoffs(cfg, policy, kind, turns, attempt + 1, after);
      OneMoreBackoff(policy, attempt, Sleeps(Attempts(cfg, policy, kind, turns, attempt + 1, after).trace));
    } else {
      NoBackoffs(policy, attempt);
    }
  }

  function Sum(s: seq<nat>): nat { if s == [] then 0 else s[0] + Sum(s[1..]) }

  lemma {:induction false} SumIsBounded(s: seq<nat>, cap: nat)
    requires forall i :: 0 <= i < |s| ==> s[i] <= cap
    ensures Sum(s) <= |s| * cap
  {
    if s != [] {
      SumIsBounded(s[1..], cap);
      assert |s| * cap == cap + (|s| - 1) * cap;
    }
  }

  /** Sleeps never shrink, and together they stay within maxRetries times the cap. */
  lemma SleepingIsBounded(cfg: Config, policy: RetryPolicy, kind: OperationType, turns: nat -> Turn, b: Breaker)
    ensures var sleeps := Sleeps(Attempts(cfg, policy, kind, turns, 0, b).trace);
      && (forall i, j :: 0 <= i < j < |sleeps| ==> sleeps[i] <= sleeps[j])
      && |sleeps| <= policy.maxRetries
      && Sum(sleeps) <= policy.maxRetries * policy.maxBackoff
  {
    hide Sleeps, Attempts, Backoff;
    var sleeps := Sleeps(Attempts(cfg, policy, kind, turns, 0, b).trace);
    SleepsAreBackoffs(cfg, policy, kind, turns, 0, b);
    forall i, j | 0 <= i <= j < |sleeps| ensures sleeps[i] <= sleeps[j] <= policy.maxBackoff {
      BackoffNeverShrinks(i, j, policy.initialBackoff, policy.maxBackoff);
    }
    forall i | 0 <= i < |sleeps| ensures sleeps[i] <= policy.maxBackoff {
      BackoffNeverShrinks(i, i, policy.initialBackoff, policy.maxBackoff);
    }
    SumIsBounded(sleeps, policy.maxBackoff);
    ProductGrows(policy.maxBackoff, |sleeps|, policy.maxRetries);
  }

  /**
   * Each admitted check is answered by one record, of what the attempt between them came to, and
   * nothing else is recorded.
   */
  ghost predicate RecordsMatchAdmissions(trace: seq<Event>) {
    && (forall i {:trigger trace[i]} :: 0 <= i < |trace| && trace[i].Checked? && trace[i].answer.Admitted? ==>
          && i + 3 < |trace| && trace[i + 2].Attempted?
          && trace[i + 3].Recorded? && trace[i + 3].success == trace[i + 2].outcome.Answered?)
    && (forall i {:trigger trace[i]} :: 0 <= i < |trace| && trace[i].Recorded? ==>
          i >= 3 && trace[i - 3].Checked? && trace[i - 3].answer.Admitted?)
  }

  lemma MatchingAppends(t: Turn, ms: nat, rest: seq<Event>)
    requires RecordsMatchAdmissions(rest)
    ensures RecordsMatchAdmissions(Round(t) + [Slept(ms), Others(t.sleeping)] + rest)
  {
    var trace := Round(t) + [Slept(ms), Others(t.sleeping)] + rest;
    assert forall i {:trigger trace[i]} :: 6 <= i < |trace| ==> trace[i] == rest[i - 6];
  }

  lemma {:induction false} EveryAdmissionIsRecordedOnce(cfg: Config, policy: RetryPolicy, kind: OperationType,
                                                        turns: nat -> Turn, attempt: nat, b: Breaker)
    requires attempt <= policy.MaxAttempts()
    ensures RecordsMatchAdmissions(Attempts(cfg, policy, kind, turns, attempt, b).trace)
    decreases policy.MaxAttempts() - attempt
  {
    hide AfterRound, Retryable, Backoff;
    if attempt < policy.MaxAttempts() {
      var t := turns(attempt);
      if CheckAnswer(b, t.checkAt).Admitted? && Retries(policy, kind, attempt, t.outcome) {
        hide RecordsMatchAdmissions;
        var after := Steps(cfg, AfterRound(cfg, b, t), t.sleeping);
        EveryAdmissionIsRecordedOnce(cfg, policy, kind, turns, attempt + 1, after);
        MatchingAppends(t, Backoff(attempt, policy.initialBackoff, policy.maxBackoff),
                        Attempts(cfg, policy, kind, turns, attempt + 1, after).trace);
      }
    }
  }

  lemma {:induction false} StepsAppend(cfg: Config, b: Breaker, first: seq<Use>, second: seq<Use>)
    ensures Steps(cfg, b, first + second) == Steps(cfg, Steps(cfg, b, first), second)
  {
    if second == [] {
      assert first + second == first;
    } else {
      hide Step;
      var init := second[..|second| - 1];
      StepsAppend(cfg, b, first, init);
      assert (first + second)[..|first + second| - 1] == first + init;
    }
  }

  /** The breaker ends where the uses in the trace take it, in that order: nothing is done behind its back. */
  lemma {:induction false} BreakerSawTheTrace(cfg: Config, policy: RetryPolicy, kind: OperationType,
                                              turns: nat -> Turn, attempt: nat, b: Breaker)
    requires attempt <= policy.MaxAttempts()
    ensures var d := Attempts(cfg, policy, kind, turns, attempt, b); d.breaker == Steps(cfg, b, Uses(d.trace))
    decreases policy.MaxAttempts() - attempt
  {
    hide Uses, Retryable, Backoff, AfterCheck, AfterRecord;
    NoTrace();
    if attempt < policy.MaxAttempts() {
      var t := turns(attempt);
      if CheckAnswer(b, t.checkAt).Admitted? {
        OneRound(t);
        RoundSteps(cfg, b, t);
        if Retries(policy, kind, attempt, t.outcome) {
          var after := Steps(cfg, AfterRound(cfg, b, t), t.sleeping);
          var rest := Attempts(cfg, policy, kind, turns, attempt + 1, after);
          BreakerSawTheTrace(cfg, policy, kind, turns, attempt + 1, after);
          FirstOfMany(t, Backoff(attempt, policy.initialBackoff, policy.maxBackoff), rest.trace);
          var round := [Check(t.checkAt)] + t.during + [Record(t.recordAt, t.outcome.Answered?)];
          StepsAppend(cfg, b, round, t.sleeping);
          StepsAppend(cfg, b, round + t.sleeping, Uses(rest.trace));
        }
      } else {
        TraceGrows([], Checked(t.checkAt, CheckAnswer(b, t.checkAt)));
        OneUse(cfg, b, Check(t.checkAt));
      }
    }
  }

  lemma OneUse(cfg: Config, b: Breaker, use: Use)
    ensures Steps(cfg, b, [use]) == Step(cfg, b, use)
  {
    assert [use][..0] == [];
  }

  lemma RoundSteps(cfg: Config, b: Breaker, t: Turn)
    ensures Steps(cfg, b, [Check(t.checkAt)] + t.during + [Record(t.recordAt, t.outcome.Answered?)])
         == AfterRound(cfg, b, t)
  {
    hide Steps, AfterCheck, AfterRecord;
    var check, record := Check(t.checkAt), Record(t.recordAt, t.outcome.Answered?);
    OneUse(cfg, b, check);
    StepsAppend(cfg, b, [check], t.during);
    StepsAppend(cfg, b, [check] + t.during, [record]);
    OneUse(cfg, Steps(cfg, b, [check] + t.during), record);
  }

  /**
   * Why a dispatch ends, after `spent` earlier attempts: it was refused by the breaker, it got an
   * answer, or it got an error and was not a query, had no attempt left, or could not retry that
   * error. It runs out without any attempt exactly when the retry count is the largest one, so
   * that the sum wraps to zero.
   */
  ghost predicate EndsFor(policy: RetryPolicy, kind: OperationType, trace: seq<Event>, result: Outcome, spent: nat) {
    if trace == [] then result == EXHAUSTED
    else
      match trace[|trace| - 1]
      case Checked(_, answer) => answer.Refused? && result == Failed(CircuitOpen(answer.retryAfter))
      case Recorded(_, _) =>
        && |trace| >= 2 && trace[|trace| - 2] == Attempted(result)
        && (result.Failed? ==>
              !kind.Query? || !Retryable(result.error) || spent + CountAttempts(trace) == policy.MaxAttempts())
      case _ => false
  }

  lemma {:induction false} EndsForAReason(cfg: Config, policy: RetryPolicy, kind: OperationType, turns: nat -> Turn,
                                          b: Breaker)
    ensures var d := Attempts(cfg, policy, kind, turns, 0, b); EndsFor(policy, kind, d.trace, d.result, 0)
    ensures Attempts(cfg, policy, kind, turns, 0, b).trace == [] <==> policy.maxRetries == U32_MAX
  {
    if policy.MaxAttempts() > 0 {
      EndsFrom(cfg, policy, kind, turns, 0, b);
    }
  }

  lemma {:induction false} EndsFrom(cfg: Config, policy: RetryPolicy, kind: OperationType, turns: nat -> Turn,
                                    attempt: nat, b: Breaker)
    requires attempt < policy.MaxAttempts()
    ensures var d := Attempts(cfg, policy, kind, turns, attempt, b);
      d.trace != [] && EndsFor(policy, kind, d.trace, d.result, attempt)
    decreases policy.MaxAttempts() - attempt
  {
    hide CountAttempts, Sleeps, Attempts, Retries, Backoff, CheckAnswer, EndsFor, Round;
    var t := turns(attempt);
    OneRound(t);
    RefusalEnds(policy, kind, t.checkAt, CheckAnswer(b, t.checkAt), attempt);
    RoundEnds(policy, kind, t, attempt);
    var after := OneAttempt(cfg, policy, kind, turns, attempt, b);
    if CheckAnswer(b, t.checkAt).Admitted? && Retries(policy, kind, attempt, t.outcome) {
      RetriesAreLeft(policy, kind, attempt, t.outcome);
      EndsFrom(cfg, policy, kind, turns, attempt + 1, after);
      var ms := Backoff(attempt, policy.initialBackoff, policy.maxBackoff);
      var rest := Attempts(cfg, policy, kind, turns, attempt + 1, after);
      EndsAlike(policy, kind, Round(t) + [Slept(ms), Others(t.sleeping)], rest.trace, rest.result, attempt);
    }
  }

  lemma RetriesAreLeft(policy: RetryPolicy, kind: OperationType, attempt: nat, outcome: Outcome)
    requires attempt < policy.MaxAttempts() && Retries(policy, kind, attempt, outcome)
    ensures attempt + 1 < policy.MaxAttempts()
  {
  }

  lemma RefusalEnds(policy: RetryPolicy, kind: OperationType, now: Instant, answer: Admission, spent: nat)
    ensures answer.Refused? ==>
              EndsFor(policy, kind, [Checked(now, answer)], Failed(CircuitOpen(answer.retryAfter)), spent)
  {
  }

  lemma RoundEnds(policy: RetryPolicy, kind: OperationType, t: Turn, attempt: nat)
    requires attempt < policy.MaxAttempts()
    ensures !Retries(policy, kind, attempt, t.outcome) ==> EndsFor(policy, kind, Round(t), t.outcome, attempt)
  {
    hide CountAttempts, Sleeps, Retryable;
    OneRound(t);
  }

  /** What comes before the last attempts only adds to their number. */
  lemma EndsAlike(policy: RetryPolicy, kind: OperationType, before: seq<Event>, trace: seq<Event>, result: Outcome,
                  spent: nat)
    requires trace != [] && EndsFor(policy, kind, trace, result, spent + 1)
             && CountAttempts(before + trace) == 1 + CountAttempts(trace)
    ensures EndsFor(policy, kind, before + trace, result, spent)
  {
    hide CountAttempts, Retryable;
    var all := before + trace;
    assert all[|all| - 1] == trace[|trace| - 1];
    assert |trace| >= 2 ==> all[|all| - 2] == trace[|trace| - 2];
  }
}
