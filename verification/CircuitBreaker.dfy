/** The circuit breaker: its counters against the history of starts and completions. */
module CircuitBreaker {
  import opened Prelude

  datatype Mode = CLOSED | OPEN | HALF_OPEN

  datatype Config = Config(failureThreshold: nat, resetTimeoutMs: nat, successThreshold: nat, stalenessThreshold: nat)

  datatype Circuit = Circuit(mode: Mode, failures: nat, successes: nat,
                             nextAttemptTime: Option<int>, stalenessFailures: nat)

  const NEW := Circuit(CLOSED, 0, 0, None, 0)

  datatype Completion = Success | Failure(stale: bool)

  /** `execute` is split at its await: the admission when it is called, and the
      bookkeeping when `fn` settles.  Calls interleave freely in between. */
  datatype Event = Begin(now: int) | Complete(now: int, completion: Completion) | Reset

  // ---- specification -----------------------------------------------------------------

  predicate MayAttempt(c: Circuit, now: int) {
    c.nextAttemptTime.Some? && c.nextAttemptTime.value != 0 && now >= c.nextAttemptTime.value
  }

  /** Whether a call made now starts `fn`. */
  predicate Admits(c: Circuit, now: int) { c.mode == OPEN ==> MayAttempt(c, now) }

  function OnBegin(c: Circuit, now: int): Circuit {
    if c.mode == OPEN && MayAttempt(c, now)
    then c.(mode := HALF_OPEN, successes := 0, failures := 0, stalenessFailures := 0)
    else c
  }

  function OnSuccess(c: Circuit, cfg: Config): Circuit {
    match c.mode
    case HALF_OPEN =>
      if c.successes + 1 >= cfg.successThreshold
      then c.(mode := CLOSED, failures := 0, successes := 0, stalenessFailures := 0)
      else c.(successes := c.successes + 1, stalenessFailures := 0)
    case CLOSED => c.(failures := 0, stalenessFailures := 0)
    case OPEN => c.(stalenessFailures := 0)
  }

  function Opened(c: Circuit, now: int, cfg: Config): Circuit {
    c.(mode := OPEN, nextAttemptTime := Some(now + cfg.resetTimeoutMs))
  }

  function OnFailure(c: Circuit, now: int, stale: bool, cfg: Config): Circuit {
    var counted := c.(failures := c.failures + 1, stalenessFailures := if stale then c.stalenessFailures + 1 else 0);
    match c.mode
    case HALF_OPEN => Opened(counted, now, cfg)
    case CLOSED =>
      if (stale && counted.stalenessFailures >= cfg.stalenessThreshold) || counted.failures >= cfg.failureThreshold
      then Opened(counted, now, cfg) else counted
    case OPEN => counted
  }

  function Step(c: Circuit, e: Event, cfg: Config): Circuit {
    match e
    case Begin(now) => OnBegin(c, now)
    case Complete(now, Success) => OnSuccess(c, cfg)
    case Complete(now, Failure(stale)) => OnFailure(c, now, stale, cfg)
    case Reset => Circuit(CLOSED, 0, 0, None, 0)
  }

  // ---- the service ---------------------------------------------------------------------

  class CircuitBreakerService {
    const config: Config
    var circuits: map<string, Circuit>

    constructor (config: Config)
      ensures this.config == config && circuits == map[]
    {
      this.config := config;
      circuits := map[];
    }

    function Current(name: string): Circuit reads this {
      if name in circuits then circuits[name] else NEW
    }

    /** The part of `execute` before `fn`: whether the call is admitted. */
    method Enter(name: string, now: int) returns (admitted: bool)
      modifies this
      ensures circuits == old(circuits)[name := Step(old(Current(name)), Begin(now), config)]
      ensures admitted == Admits(old(Current(name)), now)
    {
      var circuit := Current(name);
      circuits := circuits[name := circuit];
      if circuit.mode == OPEN {
        if circuit.nextAttemptTime.Some? && circuit.nextAttemptTime.value != 0 && now >= circuit.nextAttemptTime.value {
          circuit := circuit.(mode := HALF_OPEN);
          circuit := circuit.(successes := 0);
          circuit := circuit.(failures := 0);
          circuit := circuit.(stalenessFailures := 0);
          circuits := circuits[name := circuit];
        } else {
          return false;
        }
      }
      return true;
    }

    /** The part of `execute` after `fn` resolved. */
    method Resolve(name: string, now: int)
      modifies this
      ensures circuits == old(circuits)[name := Step(old(Current(name)), Complete(now, Success), config)]
    {
      var circuit := Current(name);
      if circuit.mode == HALF_OPEN {
        circuit := circuit.(successes := circuit.successes + 1);
        if circuit.successes >= config.successThreshold {
          circuit := circuit.(mode := CLOSED, failures := 0, successes := 0, stalenessFailures := 0);
        }
      } else if circuit.mode == CLOSED {
        circuit := circuit.(failures := 0);
      }
      circuit := circuit.(stalenessFailures := 0);
      circuits := circuits[name := circuit];
    }

    /** The part of `execute` after `fn` rejected. */
    method Reject(name: string, now: int, stale: bool)
      modifies this
      ensures circuits == old(circuits)[name := Step(old(Current(name)), Complete(now, Failure(stale)), config)]
    {
      var circuit := Current(name);
      circuit := circuit.(failures := circuit.failures + 1);
      if stale {
        circuit := circuit.(stalenessFailures := circuit.stalenessFailures + 1);
      } else {
        circuit := circuit.(stalenessFailures := 0);
      }
      if circuit.mode == HALF_OPEN {
        circuit := circuit.(mode := OPEN, nextAttemptTime := Some(now + config.resetTimeoutMs));
      } else if circuit.mode == CLOSED {
        if stale && circuit.stalenessFailures >= config.stalenessThreshold {
          circuit := circuit.(mode := OPEN, nextAttemptTime := Some(now + config.resetTimeoutMs));
        } else if circuit.failures >= config.failureThreshold {
          circuit := circuit.(mode := OPEN, nextAttemptTime := Some(now + config.resetTimeoutMs));
        }
      }
      circuits := circuits[name := circuit];
    }

    method ResetCircuit(name: string)
      modifies this
      ensures circuits == old(circuits)[name := Step(old(Current(name)), Reset, config)]
    {
      circuits := circuits[name := Circuit(CLOSED, 0, 0, None, 0)];
    }
  }

  // ---- histories ---------------------------------------------------------------------------

  function Run(events: seq<Event>, cfg: Config): Circuit {
    if events == [] then NEW else Step(Run(events[..|events| - 1], cfg), events[|events| - 1], cfg)
  }

  function ModeAfter(events: seq<Event>, n: nat, cfg: Config): Mode
    requires n <= |events|
  {
    Run(events[..n], cfg).mode
  }

  predicate Fails(e: Event) { e.Complete? && e.completion.Failure? }
  predicate Succeeds(e: Event) { e.Complete? && e.completion.Success? }

  /** Failed completions, back to the last success or the (re)entry into CLOSED. */
  function FailureStreak(events: seq<Event>, n: nat, cfg: Config): nat
    requires n <= |events|
  {
    if n == 0 || ModeAfter(events, n - 1, cfg) != CLOSED || events[n - 1].Reset? || Succeeds(events[n - 1]) then 0
    else FailureStreak(events, n - 1, cfg) + if Fails(events[n - 1]) then 1 else 0
  }

  /** Consecutive staleness failures, back to any other completion or the entry. */
  function StaleStreak(events: seq<Event>, n: nat, cfg: Config): nat
    requires n <= |events|
  {
    if n == 0 || ModeAfter(events, n - 1, cfg) != CLOSED || events[n - 1].Reset? || Succeeds(events[n - 1]) then 0
    else if events[n - 1].Begin? then StaleStreak(events, n - 1, cfg)
    else if events[n - 1].completion.stale then StaleStreak(events, n - 1, cfg) + 1
    else 0
  }

  lemma RunNext(events: seq<Event>, n: nat, cfg: Config)
    requires n < |events|
    ensures Run(events[..n + 1], cfg) == Step(Run(events[..n], cfg), events[n], cfg)
  {
    assert events[..n + 1][..n] == events[..n];
  }

  ghost predicate Positive(cfg: Config) {
    cfg.failureThreshold >= 1 && cfg.stalenessThreshold >= 1 && cfg.successThreshold >= 1
  }

  /** In CLOSED the counters are the streaks of the history, both below their thresholds. */
  lemma {:induction false} ClosedRefinesHistory(events: seq<Event>, n: nat, cfg: Config)
    requires n <= |events| && Positive(cfg) && ModeAfter(events, n, cfg) == CLOSED
    ensures var c := Run(events[..n], cfg);
            && c.failures == FailureStreak(events, n, cfg) < cfg.failureThreshold
            && c.stalenessFailures == StaleStreak(events, n, cfg) < cfg.stalenessThreshold
    decreases n
  {
    if n == 0 {
      assert events[..0] == [];
    } else {
      RunNext(events, n - 1, cfg);
      if ModeAfter(events, n - 1, cfg) == CLOSED { ClosedRefinesHistory(events, n - 1, cfg); }
    }
  }

  /** CLOSED opens on event `n` exactly when it is a failure that completes a streak: the
      general threshold, or the stricter one of consecutive staleness failures. */
  lemma OpensExactlyAtThreshold(events: seq<Event>, n: nat, cfg: Config)
    requires n < |events| && Positive(cfg) && ModeAfter(events, n, cfg) == CLOSED
    ensures ModeAfter(events, n + 1, cfg) == OPEN <==>
              && Fails(events[n])
              && (|| FailureStreak(events, n, cfg) + 1 == cfg.failureThreshold
                  || (events[n].completion.stale && StaleStreak(events, n, cfg) + 1 == cfg.stalenessThreshold))
    ensures ModeAfter(events, n + 1, cfg) != HALF_OPEN
  {
    ClosedRefinesHistory(events, n, cfg);
    RunNext(events, n, cfg);
  }

  function SuccessesBetween(events: seq<Event>, first: nat, end: nat): nat
    requires first <= end <= |events|
    decreases end
  {
    if first == end then 0
    else SuccessesBetween(events, first, end - 1) + if Succeeds(events[end - 1]) then 1 else 0
  }

  /** Event `k` is a call that came late enough to turn OPEN into HALF_OPEN. */
  predicate Probes(events: seq<Event>, k: nat, cfg: Config)
    requires k < |events|
  {
    && events[k].Begin? && ModeAfter(events, k, cfg) == OPEN && MayAttempt(Run(events[..k], cfg), events[k].now)
  }

  /** HALF_OPEN was entered by a probe; since then nothing failed, and the counter is the
      number of successes since, below the threshold. */
  lemma {:induction false} HalfOpenRefinesHistory(events: seq<Event>, n: nat, cfg: Config) returns (k: nat)
    requires n <= |events| && Positive(cfg) && ModeAfter(events, n, cfg) == HALF_OPEN
    ensures k < n && Probes(events, k, cfg)
    ensures forall j :: k < j < n ==> !Fails(events[j]) && !events[j].Reset?
    ensures Run(events[..n], cfg).successes == SuccessesBetween(events, k + 1, n) < cfg.successThreshold
    decreases n
  {
    assert events[..0] == [];
    RunNext(events, n - 1, cfg);
    if ModeAfter(events, n - 1, cfg) == HALF_OPEN {
      k := HalfOpenRefinesHistory(events, n - 1, cfg);
    } else {
      k := n - 1;
    }
  }

  /** HALF_OPEN closes on event `n` only by a success (or a manual reset), and then exactly
      the threshold of successes completed since the probe, with no failure in between;
      any failure opens it again. */
  lemma ClosesAfterSuccesses(events: seq<Event>, n: nat, cfg: Config) returns (k: nat)
    requires n < |events| && Positive(cfg) && ModeAfter(events, n, cfg) == HALF_OPEN
    ensures k < n && Probes(events, k, cfg) && forall j :: k < j < n ==> !Fails(events[j]) && !events[j].Reset?
    ensures ModeAfter(events, n + 1, cfg) == CLOSED <==>
              || events[n].Reset?
              || (Succeeds(events[n]) && SuccessesBetween(events, k + 1, n + 1) == cfg.successThreshold)
    ensures ModeAfter(events, n + 1, cfg) == OPEN <==> Fails(events[n])
  {
    k := HalfOpenRefinesHistory(events, n, cfg);
    RunNext(events, n, cfg);
  }

  lemma OpenStep(c: Circuit, e: Event, cfg: Config)
    requires Step(c, e, cfg).mode == OPEN
    ensures c.mode == OPEN ==> Step(c, e, cfg).nextAttemptTime == c.nextAttemptTime
    ensures c.mode != OPEN ==> Fails(e) && Step(c, e, cfg).nextAttemptTime == Some(e.now + cfg.resetTimeoutMs)
  {
  }

  /** While OPEN, the circuit has been OPEN since some failure at event `k`, and the next
      attempt is due exactly the reset timeout after it: later completions do not move it. */
  lemma {:induction false} OpenSince(events: seq<Event>, n: nat, cfg: Config) returns (k: nat)
    requires n <= |events| && ModeAfter(events, n, cfg) == OPEN
    ensures k < n && Fails(events[k]) && ModeAfter(events, k, cfg) != OPEN
    ensures forall j :: k < j <= n ==> ModeAfter(events, j, cfg) == OPEN
    ensures Run(events[..n], cfg).nextAttemptTime == Some(events[k].now + cfg.resetTimeoutMs)
    decreases n
  {
    assert events[..0] == [];
    RunNext(events, n - 1, cfg);
    OpenStep(Run(events[..n - 1], cfg), events[n - 1], cfg);
    if ModeAfter(events, n - 1, cfg) == OPEN {
      k := OpenSince(events, n - 1, cfg);
    } else {
      k := n - 1;
    }
  }

  /** No `fn` starts while OPEN before the timeout has passed since the failure that opened
      the circuit, and from then on the first call is let through. */
  lemma RefusedUntilTimeout(events: seq<Event>, n: nat, now: int, cfg: Config) returns (k: nat)
    requires n <= |events| && ModeAfter(events, n, cfg) == OPEN
    requires forall i :: 0 <= i < |events| && events[i].Complete? ==> events[i].now > 0
    ensures k < n && Fails(events[k]) && ModeAfter(events, k, cfg) != OPEN
    ensures forall j :: k < j <= n ==> ModeAfter(events, j, cfg) == OPEN
    ensures Admits(Run(events[..n], cfg), now) <==> now >= events[k].now + cfg.resetTimeoutMs
  {
    k := OpenSince(events, n, cfg);
  }

  /** Event `k` is the failure since which the circuit has been OPEN until `n`. */
  ghost predicate OpenedBy(events: seq<Event>, k: nat, n: nat, cfg: Config)
    requires n <= |events|
  {
    && k < n && Fails(events[k]) && ModeAfter(events, k, cfg) != OPEN
    && forall j :: k < j <= n ==> ModeAfter(events, j, cfg) == OPEN
  }

  lemma OpenedOnce(events: seq<Event>, j: nat, k: nat, n: nat, cfg: Config)
    requires n <= |events| && OpenedBy(events, j, n, cfg) && OpenedBy(events, k, n, cfg)
    ensures j == k
  {
    assert ModeAfter(events, j, cfg) != OPEN && ModeAfter(events, k, cfg) != OPEN;
  }

  /** Which calls start `fn`, after any history: all of them unless the circuit is OPEN, and
      then exactly those that come the reset timeout or more after the failure that opened it. */
  lemma AdmitsExactly(events: seq<Event>, n: nat, now: int, cfg: Config)
    requires n <= |events|
    requires forall i :: 0 <= i < |events| && events[i].Complete? ==> events[i].now > 0
    ensures Admits(Run(events[..n], cfg), now) <==>
              || ModeAfter(events, n, cfg) == CLOSED
              || ModeAfter(events, n, cfg) == HALF_OPEN
              || exists k: nat :: OpenedBy(events, k, n, cfg) && now >= events[k].now + cfg.resetTimeoutMs
  {
    if ModeAfter(events, n, cfg) == OPEN {
      var k := RefusedUntilTimeout(events, n, now, cfg);
      assert OpenedBy(events, k, n, cfg);
      forall j: nat | OpenedBy(events, j, n, cfg) ensures j == k { OpenedOnce(events, j, k, n, cfg); }
    }
  }

  /** OPEN ends on event `n` in two ways only: a manual reset closes the circuit, and a call
      that comes the reset timeout or more after the failure that opened it probes it. */
  lemma OpenEndsExactly(events: seq<Event>, n: nat, cfg: Config) returns (k: nat)
    requires n < |events| && ModeAfter(events, n, cfg) == OPEN
    requires forall i :: 0 <= i < |events| && events[i].Complete? ==> events[i].now > 0
    ensures OpenedBy(events, k, n, cfg)
    ensures ModeAfter(events, n + 1, cfg) == CLOSED <==> events[n].Reset?
    ensures ModeAfter(events, n + 1, cfg) == HALF_OPEN <==>
              events[n].Begin? && events[n].now >= events[k].now + cfg.resetTimeoutMs
  {
    k := OpenSince(events, n, cfg);
    RunNext(events, n, cfg);
  }
}
