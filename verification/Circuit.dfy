/** The sliding-window circuit breaker (reliability/circuit.rs). Instants are integers; the caller passes the clock. */
module Circuit {
  import opened Counting

  type Instant = int

  type Positive = n: int | 0 < n witness 1

  datatype Sample = Sample(at: Instant, success: bool)

  datatype State = Closed | Open(until: Instant) | HalfOpen

  /** The failure ratio is the fraction ratioNum / ratioDen. */
  datatype Config = Config(window: nat, minSamples: nat, ratioNum: int, ratioDen: Positive, recovery: nat)

  datatype Admission = Admitted | Refused(retryAfter: nat)

  /** What the breaker holds under its lock. */
  datatype Breaker = Breaker(samples: seq<Sample>, state: State)

  const FRESH := Breaker([], Closed)

  // ---- one operation ---------------------------------------------------------------------

  /** What is left once the samples in front that are older than the cutoff are popped. */
  function Popped(samples: seq<Sample>, cutoff: Instant): seq<Sample> {
    if samples != [] && samples[0].at < cutoff then Popped(samples[1..], cutoff) else samples
  }

  function Failures(samples: seq<Sample>): nat {
    if samples == [] then 0 else (if samples[0].success then 0 else 1) + Failures(samples[1..])
  }

  /** Enough samples, and failures / samples at or above the ratio. */
  predicate Trips(cfg: Config, samples: seq<Sample>) {
    |samples| >= cfg.minSamples && Failures(samples) * cfg.ratioDen >= cfg.ratioNum * |samples|
  }

  function CheckAnswer(b: Breaker, now: Instant): Admission {
    if b.state.Open? && now < b.state.until then Refused(b.state.until - now) else Admitted
  }

  function AfterCheck(cfg: Config, b: Breaker, now: Instant): Breaker {
    Breaker(Popped(b.samples, now - cfg.window), if b.state.Open? && b.state.until <= now then HalfOpen else b.state)
  }

  function AfterRecord(cfg: Config, b: Breaker, now: Instant, success: bool): Breaker {
    var samples := Popped(b.samples, now - cfg.window) + [Sample(now, success)];
    var state :=
      match b.state
      case HalfOpen => if success then Closed else Open(now + cfg.recovery)
      case Closed => if Trips(cfg, samples) then Open(now + cfg.recovery) else Closed
      case Open(_) => b.state;
    Breaker(samples, state)
  }

  class CircuitBreaker {
    const cfg: Config
    var samples: seq<Sample>
    var state: State

    ghost function Model(): Breaker
      reads this
    {
      Breaker(samples, state)
    }

    constructor (cfg: Config)
      ensures this.cfg == cfg && Model() == FRESH
    {
      this.cfg, samples, state := cfg, [], Closed;
    }

    method PruneStatic(now: Instant)
      modifies this`samples
      ensures samples == Popped(old(samples), now - cfg.window)
    {
      var cutoff := now - cfg.window;
      while samples != []
        invariant Popped(samples, cutoff) == Popped(old(samples), cutoff)
        decreases |samples|
      {
        if samples[0].at < cutoff {
          samples := samples[1..];
        } else {
          break;
        }
      }
    }

    method Check(now: Instant) returns (answer: Admission)
      modifies this
      ensures answer == CheckAnswer(old(Model()), now)
      ensures Model() == AfterCheck(cfg, old(Model()), now)
    {
      PruneStatic(now);
      match state {
        case Open(until) =>
          if now < until {
            return Refused(until - now);
          }
          state := HalfOpen;
          return Admitted;
        case HalfOpen => return Admitted;
        case Closed => return Admitted;
      }
    }

    method Record(now: Instant, success: bool)
      modifies this
      ensures Model() == AfterRecord(cfg, old(Model()), now, success)
    {
      PruneStatic(now);
      samples := samples + [Sample(now, success)];
      match state {
        case HalfOpen =>
          state := if success then Closed else Open(now + cfg.recovery);
        case Closed =>
          var n := |samples|;
          if n >= cfg.minSamples {
            var fails := CountFailures(samples);
            if fails * cfg.ratioDen >= cfg.ratioNum * n {
              state := Open(now + cfg.recovery);
            }
          }
        case Open(_) =>
      }
    }

    static method CountFailures(samples: seq<Sample>) returns (fails: nat)
      ensures fails == Failures(samples)
    {
      fails := 0;
      for i := 0 to |samples|
        invariant fails + Failures(samples[i..]) == Failures(samples)
      {
        if !samples[i].success {
          fails := fails + 1;
        }
      }
    }
  }

  // ---- runs --------------------------------------------------------------------------------

  /** One use of the shared breaker, by any caller, at the time the lock is held. */
  datatype Use = Check(now: Instant) | Record(now: Instant, success: bool)

  function Step(cfg: Config, b: Breaker, use: Use): Breaker {
    match use
    case Check(now) => AfterCheck(cfg, b, now)
    case Record(now, success) => AfterRecord(cfg, b, now, success)
  }

  function Steps(cfg: Config, b: Breaker, uses: seq<Use>): Breaker {
    if uses == [] then b else Step(cfg, Steps(cfg, b, uses[..|uses| - 1]), uses[|uses| - 1])
  }

  predicate ClockNeverGoesBack(uses: seq<Use>) { forall i, j :: 0 <= i < j < |uses| ==> uses[i].now <= uses[j].now }

  function Recorded(samples: seq<Sample>, use: Use): seq<Sample> {
    match use
    case Check(_) => samples
    case Record(now, success) => samples + [Sample(now, success)]
  }

  /** Every record ever made. */
  function History(uses: seq<Use>): seq<Sample> {
    if uses == [] then []
    else
      Recorded(History(uses[..|uses| - 1]), uses[|uses| - 1])
  }

  /** The samples no older than the cutoff, in order. */
  function Since(samples: seq<Sample>, cutoff: Instant): seq<Sample> {
    if samples == [] then []
    else
      var last := samples[|samples| - 1];
      Since(samples[..|samples| - 1], cutoff) + if last.at >= cutoff then [last] else []
  }

  predicate InTimeOrder(samples: seq<Sample>) {
    forall i, j :: 0 <= i < j < |samples| ==> samples[i].at <= samples[j].at
  }

  lemma {:induction false} SinceKeepsOrder(samples: seq<Sample>, cutoff: Instant)
    ensures forall s :: s in Since(samples, cutoff) <==> s in samples && s.at >= cutoff
    ensures InTimeOrder(samples) ==> InTimeOrder(Since(samples, cutoff))
  {
    if samples != [] {
      var init := samples[..|samples| - 1];
      SinceKeepsOrder(init, cutoff);
      assert samples == init + [samples[|samples| - 1]];
      if InTimeOrder(samples) {
        forall i, j | 0 <= i < j < |Since(samples, cutoff)|
          ensures Since(samples, cutoff)[i].at <= Since(samples, cutoff)[j].at
        {
          if j == |Since(init, cutoff)| {
            assert Since(init, cutoff)[i] in samples[..|samples| - 1];
          }
        }
      }
    }
  }

  /** On samples in time order, popping from the front is filtering. */
  lemma {:induction false} PoppingIsFiltering(samples: seq<Sample>, cutoff: Instant)
    requires InTimeOrder(samples)
    ensures Popped(samples, cutoff) == Since(samples, cutoff)
  {
    if samples == [] {
    } else if samples[0].at < cutoff {
      PoppingIsFiltering(samples[1..], cutoff);
      SinceDropsFirst(samples, cutoff);
    } else {
      SinceKeepsAll(samples, cutoff);
    }
  }

  lemma {:induction false} SinceDropsFirst(samples: seq<Sample>, cutoff: Instant)
    requires samples != [] && samples[0].at < cutoff
    ensures Since(samples, cutoff) == Since(samples[1..], cutoff)
  {
    if |samples| == 1 {
      assert samples[..0] == [];
    } else {
      var init := samples[..|samples| - 1];
      SinceDropsFirst(init, cutoff);
      assert init[1..] == samples[1..][..|samples| - 2];
    }
  }

  lemma {:induction false} SinceKeepsAll(samples: seq<Sample>, cutoff: Instant)
    requires forall i :: 0 <= i < |samples| ==> samples[i].at >= cutoff
    ensures Since(samples, cutoff) == samples
  {
    if samples != [] {
      var init, last := samples[..|samples| - 1], samples[|samples| - 1];
      SinceKeepsAll(init, cutoff);
      assert last.at >= cutoff;
      assert samples == init + [last];
    }
  }

  lemma {:induction false} SinceTwice(samples: seq<Sample>, early: Instant, late: Instant)
    requires early <= late
    ensures Since(Since(samples, early), late) == Since(samples, late)
  {
    if samples != [] {
      var init, last := samples[..|samples| - 1], samples[|samples| - 1];
      SinceTwice(init, early, late);
      assert samples[..|samples| - 1] == init;
      var kept := Since(init, early);
      if last.at >= early {
        assert Since(samples, early) == kept + [last];
        assert (kept + [last])[..|kept|] == kept;
        assert Since(kept + [last], late) == Since(kept, late) + if last.at >= late then [last] else [];
      } else {
        assert Since(samples, early) == kept;
      }
    }
  }

  lemma {:induction false} HistoryIsInTimeOrder(uses: seq<Use>)
    requires ClockNeverGoesBack(uses)
    ensures InTimeOrder(History(uses))
    ensures forall s :: s in History(uses) ==> uses != [] && s.at <= uses[|uses| - 1].now
  {
    if uses != [] {
      HistoryIsInTimeOrder(uses[..|uses| - 1]);
      if |uses| > 1 {
        assert uses[|uses| - 2].now <= uses[|uses| - 1].now;
      }
    }
  }

  /**
   * Under a clock that never goes back, the queue holds exactly the records of the whole run that
   * are no older than the window, as of the last use.
   */
  lemma {:induction false} QueueIsTheWindow(cfg: Config, uses: seq<Use>)
    requires ClockNeverGoesBack(uses) && uses != []
    ensures Steps(cfg, FRESH, uses).samples == Since(History(uses), uses[|uses| - 1].now - cfg.window)
    decreases |uses|, 0
  {
    hide Popped, Since, Step, Recorded;
    var init, last := uses[..|uses| - 1], uses[|uses| - 1];
    PrunedIsTheWindow(cfg, init, last.now);
    UseRecords(cfg, Steps(cfg, FRESH, init), History(init), last);
  }

  lemma UseRecords(cfg: Config, b: Breaker, history: seq<Sample>, use: Use)
    requires Popped(b.samples, use.now - cfg.window) == Since(history, use.now - cfg.window)
    ensures Step(cfg, b, use).samples == Since(Recorded(history, use), use.now - cfg.window)
  {
    if use.Record? {
      var all := Recorded(history, use);
      assert all[..|all| - 1] == history;
    }
  }

  lemma NothingRecorded(cfg: Config, now: Instant)
    ensures Popped(Steps(cfg, FRESH, []).samples, now - cfg.window) == Since(History([]), now - cfg.window)
  {
  }

  /** The state of the queue just after an operation at `now` has pruned it. */
  lemma {:induction false} PrunedIsTheWindow(cfg: Config, uses: seq<Use>, now: Instant)
    requires ClockNeverGoesBack(uses) && (uses != [] ==> uses[|uses| - 1].now <= now)
    ensures Popped(Steps(cfg, FRESH, uses).samples, now - cfg.window) == Since(History(uses), now - cfg.window)
    decreases |uses|, 1
  {
    hide Steps, History, Popped, Since, InTimeOrder;
    if uses == [] {
      NothingRecorded(cfg, now);
    } else {
      QueueIsTheWindow(cfg, uses);
      HistoryIsInTimeOrder(uses);
      var early := uses[|uses| - 1].now - cfg.window;
      SinceKeepsOrder(History(uses), early);
      PoppingIsFiltering(Since(History(uses), early), now - cfg.window);
      SinceTwice(History(uses), early, now - cfg.window);
    }
  }

  predicate IsFailure(s: Sample) { !s.success }

  predicate IsSuccess(s: Sample) { s.success }

  lemma {:induction false} FailuresCounted(samples: seq<Sample>)
    ensures Failures(samples) == Count(samples, IsFailure) && |samples| == Failures(samples) + Count(samples, IsSuccess)
  {
    if samples == [] {
      CountNothing(IsFailure);
      CountNothing(IsSuccess);
    } else {
      FailuresCounted(samples[1..]);
      CountFirst(samples[0], samples[1..], IsFailure);
      CountFirst(samples[0], samples[1..], IsSuccess);
      assert samples == [samples[0]] + samples[1..];
    }
  }

  /** There are enough samples, and the failed ones are at least the given fraction of them. */
  predicate FailsOften(cfg: Config, samples: seq<Sample>) {
    |samples| >= cfg.minSamples && cfg.ratioNum * |samples| <= Count(samples, IsFailure) * cfg.ratioDen
  }

  lemma TripsExactly(cfg: Config, samples: seq<Sample>)
    ensures Trips(cfg, samples) <==> FailsOften(cfg, samples)
  {
    FailuresCounted(samples);
  }

  /** A ratio is reached, not exceeded: with one half, as many failures as successes are enough. */
  lemma HalfIsEnough(cfg: Config, samples: seq<Sample>)
    requires cfg.ratioNum == 1 && cfg.ratioDen == 2
    ensures Trips(cfg, samples) <==>
            |samples| >= cfg.minSamples && Count(samples, IsFailure) >= Count(samples, IsSuccess)
  {
    FailuresCounted(samples);
  }

  /**
   * A record made while the breaker is closed opens it exactly when the records of the whole run
   * that are in the window, this one included, are enough and fail often enough.
   */
  lemma ClosedOpensExactly(cfg: Config, uses: seq<Use>, now: Instant, success: bool)
    requires ClockNeverGoesBack(uses + [Record(now, success)]) && Steps(cfg, FRESH, uses).state.Closed?
    ensures var window := Since(History(uses) + [Sample(now, success)], now - cfg.window);
      Steps(cfg, FRESH, uses + [Record(now, success)]).state
      == if FailsOften(cfg, window) then Open(now + cfg.recovery) else Closed
  {
    TripsExactly(cfg, Since(History(uses) + [Sample(now, success)], now - cfg.window));
    hide ClockNeverGoesBack, Since, Popped, Trips, FailsOften;
    var all := uses + [Record(now, success)];
    assert all[..|all| - 1] == uses && all[|all| - 1] == Record(now, success);
    QueueIsTheWindow(cfg, all);
    assert History(all) == History(uses) + [Sample(now, success)];
    assert Steps(cfg, FRESH, all) == AfterRecord(cfg, Steps(cfg, FRESH, uses), now, success);
  }

  const DEFAULT := Config(60_000, 8, 1, 2, 15_000)

  /**
   * Closing after a recovery keeps the old failures in the window, so a success can open the
   * breaker again: with the default settings (in milliseconds), eight failures, a probe that
   * succeeds after the fifteen seconds, and one more success a second later.
   */
  lemma SuccessCanReopen(uses: seq<Use>)
    requires uses == FailedUses(8) + [Check(15_000), Record(15_000, true), Record(16_000, true)]
    ensures ClockNeverGoesBack(uses)
    ensures Steps(DEFAULT, FRESH, uses[..10]).state == Closed
    ensures Steps(DEFAULT, FRESH, uses).state == Open(31_000)
  {
    var failed := FailedSamples(8);
    FailuresTrip(8);
    assert uses[..8] == FailedUses(8);
    assert Popped(failed, 15_000 - 60_000) == failed;
    OneMore(uses, 8);
    OneMore(uses, 9);
    OneMore(uses, 10);
    var closed := failed + [Sample(15_000, true)];
    AllFailed(8);
    FailuresAppend(failed, [Sample(15_000, true)]);
    FailuresAppend(closed, [Sample(16_000, true)]);
    assert Popped(closed, 16_000 - 60_000) == closed;
    assert uses[..11] == uses;
  }

  function FailedUses(n: nat): seq<Use> { seq(n, _ => Record(0, false)) }

  function FailedSamples(n: nat): seq<Sample> { seq(n, _ => Sample(0, false)) }

  lemma OneMore(uses: seq<Use>, k: nat)
    requires k < |uses|
    ensures Steps(DEFAULT, FRESH, uses[..k + 1]) == Step(DEFAULT, Steps(DEFAULT, FRESH, uses[..k]), uses[k])
  {
    assert uses[..k + 1][..k] == uses[..k];
  }

  lemma {:induction false} FailuresTrip(n: nat)
    requires n <= 8
    ensures Steps(DEFAULT, FRESH, FailedUses(n)) == Breaker(FailedSamples(n), if n < 8 then Closed else Open(15_000))
  {
    if n > 0 {
      FailuresTrip(n - 1);
      assert FailedUses(n)[..n - 1] == FailedUses(n - 1);
      assert FailedSamples(n - 1) + [Sample(0, false)] == FailedSamples(n);
      AllFailed(n);
      assert Popped(FailedSamples(n - 1), 0 - 60_000) == FailedSamples(n - 1);
    }
  }

  lemma {:induction false} AllFailed(n: nat)
    ensures Failures(FailedSamples(n)) == n
  {
    if n > 0 {
      AllFailed(n - 1);
      assert FailedSamples(n)[1..] == FailedSamples(n - 1);
    }
  }

  lemma {:induction false} FailuresAppend(a: seq<Sample>, b: seq<Sample>)
    ensures Failures(a + b) == Failures(a) + Failures(b)
  {
    if a == [] {
      assert a + b == b;
    } else {
      FailuresAppend(a[1..], b);
      assert (a + b)[1..] == a[1..] + b;
    }
  }

  /**
   * While the deadline lies ahead, any interleaving of checks and late records leaves the breaker
   * open with the same deadline, and every check is told exactly how long is left.
   */
  lemma {:induction false} OpenHolds(cfg: Config, b: Breaker, uses: seq<Use>)
    requires b.state.Open? && forall i :: 0 <= i < |uses| ==> uses[i].now < b.state.until
    ensures Steps(cfg, b, uses).state == b.state
    ensures forall k :: 0 <= k < |uses| && uses[k].Check? ==>
              CheckAnswer(Steps(cfg, b, uses[..k]), uses[k].now) == Refused(b.state.until - uses[k].now)
  {
    if uses != [] {
      var init := uses[..|uses| - 1];
      OpenHolds(cfg, b, init);
      forall k | 0 <= k < |init| ensures uses[..k] == init[..k] && uses[k] == init[k] {
      }
    }
  }

  /** The first check at or after the deadline is let through and leaves the breaker half-open. */
  lemma DeadlineHalfOpens(cfg: Config, b: Breaker, uses: seq<Use>, now: Instant)
    requires b.state.Open? && (forall i :: 0 <= i < |uses| ==> uses[i].now < b.state.until) && b.state.until <= now
    ensures CheckAnswer(Steps(cfg, b, uses), now).Admitted?
    ensures Steps(cfg, b, uses + [Check(now)]).state == HalfOpen
  {
    OpenHolds(cfg, b, uses);
    var all := uses + [Check(now)];
    assert all[..|all| - 1] == uses && all[|all| - 1] == Check(now);
  }

  /** Half-open admits every check and the first record alone decides what comes next. */
  lemma FirstRecordDecides(cfg: Config, b: Breaker, uses: seq<Use>, now: Instant, success: bool)
    requires b.state.HalfOpen? && forall i :: 0 <= i < |uses| ==> uses[i].Check?
    ensures Steps(cfg, b, uses).state.HalfOpen?
    ensures forall k :: 0 <= k < |uses| ==> CheckAnswer(Steps(cfg, b, uses[..k]), uses[k].now).Admitted?
    ensures Steps(cfg, b, uses + [Record(now, success)]).state == if success then Closed else Open(now + cfg.recovery)
  {
    hide Popped, Trips;
    HalfOpenHolds(cfg, b, uses);
    var all := uses + [Record(now, success)];
    assert all[..|all| - 1] == uses && all[|all| - 1] == Record(now, success);
  }

  lemma {:induction false} HalfOpenHolds(cfg: Config, b: Breaker, uses: seq<Use>)
    requires b.state.HalfOpen? && forall i :: 0 <= i < |uses| ==> uses[i].Check?
    ensures Steps(cfg, b, uses).state.HalfOpen?
    ensures forall k :: 0 <= k < |uses| ==> CheckAnswer(Steps(cfg, b, uses[..k]), uses[k].now).Admitted?
  {
    hide Popped, Trips;
    if uses != [] {
      var init := uses[..|uses| - 1];
      HalfOpenHolds(cfg, b, init);
      forall k | 0 <= k < |init| ensures uses[..k] == init[..k] && uses[k] == init[k] {
      }
    }
  }

  /** A breaker is open only because of a record made `recovery` before the deadline, and refused ever since. */
  lemma {:induction false} OpenedByARecord(cfg: Config, uses: seq<Use>) returns (k: nat)
    requires Steps(cfg, FRESH, uses).state.Open?
    ensures k < |uses| && uses[k].Record?
    ensures Steps(cfg, FRESH, uses).state.until == uses[k].now + cfg.recovery
    ensures !Steps(cfg, FRESH, uses[..k]).state.Open?
    ensures forall i :: k < i < |uses| && uses[i].Check? ==>
              CheckAnswer(Steps(cfg, FRESH, uses[..i]), uses[i].now).Refused?
    decreases |uses|
  {
    var init := uses[..|uses| - 1];
    if Steps(cfg, FRESH, init).state.Open? {
      k := OpenedByARecord(cfg, init);
      assert init[..k] == uses[..k];
      forall i | k < i < |uses| && uses[i].Check?
        ensures CheckAnswer(Steps(cfg, FRESH, uses[..i]), uses[i].now).Refused?
      {
        if i < |init| {
          assert init[..i] == uses[..i];
        }
      }
    } else {
      k := |uses| - 1;
    }
  }
}
