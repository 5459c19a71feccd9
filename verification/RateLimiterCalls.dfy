/** What the rate limiter tells its callers: every result of `checkLimit`, over any run of
    the whole service, against the calls admitted before. */
module RateLimiterCalls {
  import opened Prelude
  import opened RateLimiter

  type Limits = map<LimitType, Config>

  function StoreAfter(limits: Limits, calls: seq<Call>): Store {
    if calls == [] then map[]
    else Serve(limits, StoreAfter(limits, calls[..|calls| - 1]), calls[|calls| - 1]).0
  }

  /** What each call of a run was told. */
  function Answers(limits: Limits, calls: seq<Call>): (r: seq<Option<RateLimitResult>>)
    ensures |r| == |calls|
  {
    if calls == [] then []
    else
      var front, last := calls[..|calls| - 1], calls[|calls| - 1];
      Answers(limits, front) + [Serve(limits, StoreAfter(limits, front), last).1]
  }

  predicate IsCheckOf(call: Call, t: LimitType, identifier: string) {
    call.CheckLimit? && call.t == t && call.identifier == identifier && call.redisUp
  }

  /** Call `i` is a check by this caller, at a time in [lo, hi], that Redis answered and
      whose result said it was allowed. */
  predicate Admitted(limits: Limits, calls: seq<Call>, i: nat, t: LimitType, identifier: string, lo: int, hi: int)
    requires i < |calls|
  {
    && IsCheckOf(calls[i], t, identifier) && lo <= calls[i].now <= hi
    && Answers(limits, calls)[i].Some? && Answers(limits, calls)[i].value.allowed
  }

  /** The admitted calls of one caller in a stretch of time. */
  ghost function AdmittedIn(limits: Limits, calls: seq<Call>, t: LimitType, identifier: string, lo: int, hi: int)
    : set<nat>
  {
    set i: nat | i < |calls| && Admitted(limits, calls, i, t, identifier, lo, hi)
  }

  predicate MembersDiffer(a: Call, b: Call) {
    a.CheckLimit? && b.CheckLimit? && a.t == b.t && a.identifier == b.identifier ==> a.member != b.member
  }

  /** Time never goes back, and the random suffix never repeats for one caller. */
  ghost predicate Timely(calls: seq<Call>, now: int) {
    && (forall i, j :: 0 <= i < j < |calls| ==> calls[i].now <= calls[j].now)
    && (forall i :: 0 <= i < |calls| ==> calls[i].now <= now)
    && (forall i, j :: 0 <= i < j < |calls| ==> MembersDiffer(calls[i], calls[j]))
  }

  // ---- one caller's part of a run ---------------------------------------------------

  /** What a call means for the key of one caller. */
  ghost function EventOf(call: Call, t: LimitType, identifier: string): seq<Event> {
    match call
    case CheckLimit(_, _, now, member, _) => if IsCheckOf(call, t, identifier) then [Check(now, member)] else []
    case Drop(key, now) => if key == Key(t, identifier) then [Expiry(now)] else []
  }

  ghost function EventsOf(calls: seq<Call>, t: LimitType, identifier: string): seq<Event> {
    if calls == [] then []
    else EventsOf(calls[..|calls| - 1], t, identifier) + EventOf(calls[|calls| - 1], t, identifier)
  }

  lemma RunSnoc(events: seq<Event>, e: Event, cfg: Config)
    ensures Run(events + [e], cfg) == Step(Run(events, cfg), e, cfg)
  {
    assert (events + [e])[..|events|] == events;
  }

  lemma RunOne(events: seq<Event>, more: seq<Event>, cfg: Config)
    requires |more| <= 1
    ensures Run(events + more, cfg) == if more == [] then Run(events, cfg) else Step(Run(events, cfg), more[0], cfg)
  {
    if more == [] {
      assert events + more == events;
    } else {
      assert more == [more[0]];
      RunSnoc(events, more[0], cfg);
    }
  }

  lemma ServeOnKey(limits: Limits, store: Store, call: Call, t: LimitType, identifier: string, w: World)
    requires t in limits && BucketOf(store, Key(t, identifier)) == w.bucket
    ensures var events := EventOf(call, t, identifier);
            var after := if events == [] then w else Step(w, events[0], limits[t]);
            BucketOf(Serve(limits, store, call).0, Key(t, identifier)) == after.bucket
  {
    if call.CheckLimit? { KeysAreDistinct(call.t, call.identifier, t, identifier); }
  }

  /** The store holds, for every caller, the bucket of that caller's own run. */
  lemma {:induction false} StoreIsRun(limits: Limits, calls: seq<Call>, t: LimitType, identifier: string)
    requires t in limits
    ensures BucketOf(StoreAfter(limits, calls), Key(t, identifier))
         == Run(EventsOf(calls, t, identifier), limits[t]).bucket
  {
    if calls != [] {
      var front, last := calls[..|calls| - 1], calls[|calls| - 1];
      StoreIsRun(limits, front, t, identifier);
      var w := Run(EventsOf(front, t, identifier), limits[t]);
      ServeOnKey(limits, StoreAfter(limits, front), last, t, identifier, w);
      RunOne(EventsOf(front, t, identifier), EventOf(last, t, identifier), limits[t]);
    }
  }

  /** Event `k` stands for some call. */
  ghost predicate FromCall(e: Event, calls: seq<Call>, t: LimitType, identifier: string) {
    exists i :: 0 <= i < |calls| && EventOf(calls[i], t, identifier) == [e]
  }

  lemma {:induction false} EventsFromCalls(calls: seq<Call>, t: LimitType, identifier: string)
    ensures forall k :: 0 <= k < |EventsOf(calls, t, identifier)| ==>
              FromCall(EventsOf(calls, t, identifier)[k], calls, t, identifier)
  {
    if calls != [] {
      var front, last := calls[..|calls| - 1], calls[|calls| - 1];
      var events := EventsOf(calls, t, identifier);
      EventsFromCalls(front, t, identifier);
      forall k | 0 <= k < |events| ensures FromCall(events[k], calls, t, identifier) {
        if k < |EventsOf(front, t, identifier)| {
          assert FromCall(EventsOf(front, t, identifier)[k], front, t, identifier);
          var i :| 0 <= i < |front| && EventOf(front[i], t, identifier) == [events[k]];
          assert calls[i] == front[i];
        } else {
          assert EventOf(calls[|calls| - 1], t, identifier) == [events[k]];
        }
      }
    }
  }

  lemma WellTimedSnoc(events: seq<Event>, e: Event, now: int)
    requires WellTimed(events, e.now) && e.now <= now && (e.Check? ==> Unused(events, e.member))
    ensures WellTimed(events + [e], now)
  {
  }

  lemma EventUnused(calls: seq<Call>, last: Call, t: LimitType, identifier: string, now: int)
    requires Timely(calls + [last], now) && IsCheckOf(last, t, identifier)
    ensures Unused(EventsOf(calls, t, identifier), last.member)
  {
    var events := EventsOf(calls, t, identifier);
    EventsFromCalls(calls, t, identifier);
    forall k | 0 <= k < |events| && events[k].Check? ensures events[k].member != last.member {
      assert FromCall(events[k], calls, t, identifier);
      var i :| 0 <= i < |calls| && EventOf(calls[i], t, identifier) == [events[k]];
      assert MembersDiffer((calls + [last])[i], (calls + [last])[|calls|]);
    }
  }

  lemma {:induction false} EventsWellTimed(calls: seq<Call>, now: int, t: LimitType, identifier: string)
    requires Timely(calls, now)
    ensures WellTimed(EventsOf(calls, t, identifier), now)
  {
    if calls != [] {
      var front, last := calls[..|calls| - 1], calls[|calls| - 1];
      assert calls == front + [last];
      EventsWellTimed(front, last.now, t, identifier);
      var more := EventOf(last, t, identifier);
      if more != [] {
        if last.CheckLimit? { EventUnused(front, last, t, identifier, now); }
        WellTimedSnoc(EventsOf(front, t, identifier), more[0], now);
        assert more == [more[0]];
      }
    }
  }

  // ---- the admitted calls are the log --------------------------------------------------

  lemma AnswersSnoc(limits: Limits, front: seq<Call>, last: Call)
    ensures Answers(limits, front + [last])
         == Answers(limits, front) + [Serve(limits, StoreAfter(limits, front), last).1]
  {
    assert (front + [last])[..|front|] == front;
  }

  lemma AdmittedSnoc(limits: Limits, front: seq<Call>, last: Call, t: LimitType, identifier: string, lo: int, hi: int)
    ensures var calls := front + [last];
            AdmittedIn(limits, calls, t, identifier, lo, hi)
            == AdmittedIn(limits, front, t, identifier, lo, hi)
               + if Admitted(limits, calls, |front|, t, identifier, lo, hi) then {|front|} else {}
  {
    AnswersSnoc(limits, front, last);
  }

  lemma LogGrows(log: ZSet, member: Member, now: int, lo: int, hi: int)
    requires member !in log
    ensures |Scored(log[member := now], lo, hi)| == |Scored(log, lo, hi)| + if lo <= now <= hi then 1 else 0
  {
    ScoredUpdate(log, member, now, lo, hi);
    if lo <= now <= hi { assert member !in Scored(log, lo, hi); }
  }

  /** The last call is told it is allowed exactly when the caller's log grows. */
  lemma LastAdmitted(limits: Limits, front: seq<Call>, last: Call, t: LimitType, identifier: string)
    requires t in limits && IsCheckOf(last, t, identifier)
    ensures var w := Run(EventsOf(front, t, identifier), limits[t]);
            var reply := Script(w.bucket, last.now, limits[t], last.member).1;
            Answers(limits, front + [last])[|front|] == Some(ResultOf(reply, last.now, limits[t]))
  {
    AnswersSnoc(limits, front, last);
    StoreIsRun(limits, front, t, identifier);
  }

  /** In any stretch of time the log of a caller holds as many entries as calls of that
      caller were told they are allowed. */
  lemma {:induction false} CountsAgree(limits: Limits, calls: seq<Call>, now: int, t: LimitType, identifier: string,
                                       lo: int, hi: int)
    requires t in limits && Timely(calls, now)
    ensures |Scored(Run(EventsOf(calls, t, identifier), limits[t]).log, lo, hi)|
         == |AdmittedIn(limits, calls, t, identifier, lo, hi)|
  {
    if calls == [] {
      assert AdmittedIn(limits, calls, t, identifier, lo, hi) == {};
      assert Scored(map[], lo, hi) == {};
    } else {
      var front, last := calls[..|calls| - 1], calls[|calls| - 1];
      assert calls == front + [last];
      CountsAgree(limits, front, last.now, t, identifier, lo, hi);
      CountStep(limits, front, last, now, t, identifier, lo, hi);
    }
  }

  /** The log after one more call of a run. */
  lemma LogAfter(limits: Limits, front: seq<Call>, last: Call, t: LimitType, identifier: string)
    requires t in limits
    ensures var before := Run(EventsOf(front, t, identifier), limits[t]).log;
            var told := Answers(limits, front + [last])[|front|];
            Run(EventsOf(front + [last], t, identifier), limits[t]).log
            == if IsCheckOf(last, t, identifier) && told.Some? && told.value.allowed
               then before[last.member := last.now] else before
  {
    assert (front + [last])[..|front|] == front;
    RunOne(EventsOf(front, t, identifier), EventOf(last, t, identifier), limits[t]);
    if IsCheckOf(last, t, identifier) { LastAdmitted(limits, front, last, t, identifier); }
  }

  lemma CountStep(limits: Limits, front: seq<Call>, last: Call, now: int, t: LimitType, identifier: string,
                  lo: int, hi: int)
    requires t in limits && Timely(front + [last], now)
    ensures var before, after := Run(EventsOf(front, t, identifier), limits[t]).log,
                                 Run(EventsOf(front + [last], t, identifier), limits[t]).log;
            |Scored(after, lo, hi)| - |Scored(before, lo, hi)|
            == |AdmittedIn(limits, front + [last], t, identifier, lo, hi)|
               - |AdmittedIn(limits, front, t, identifier, lo, hi)|
  {
    var before := Run(EventsOf(front, t, identifier), limits[t]).log;
    LogAfter(limits, front, last, t, identifier);
    AdmittedSnoc(limits, front, last, t, identifier, lo, hi);
    if IsCheckOf(last, t, identifier) {
      assert last.member !in before by {
        EventUnused(front, last, t, identifier, now);
        LogMembersUsed(EventsOf(front, t, identifier), limits[t]);
      }
      LogGrows(before, last.member, last.now, lo, hi);
    }
  }

  // ---- what a caller is told --------------------------------------------------------------

  /** The least whole number of seconds, at least one, that covers `ms` milliseconds. */
  ghost predicate WholeSeconds(seconds: int, ms: int) {
    seconds >= 1 && 1000 * seconds >= ms && (seconds == 1 || 1000 * (seconds - 1) < ms)
  }

  /** `resetAt` is one window after the oldest of these calls. */
  ghost predicate OldestPlus(calls: seq<Call>, window: set<nat>, windowMs: nat, resetAt: int)
    requires forall i :: i in window ==> i < |calls|
  {
    && (exists i :: i in window && calls[i].now + windowMs == resetAt)
    && (forall i :: i in window ==> calls[i].now + windowMs >= resetAt)
  }

  lemma RetryIsWholeSeconds(resetAt: int, now: int)
    ensures WholeSeconds(RetryAfterSeconds(resetAt, now), resetAt - now)
  {
  }

  /** What a check at `now` is told when `window` are this caller's calls admitted in the last
      window: it is allowed exactly if they are fewer than the configured limit.  It reports
      their number, itself included if allowed, that limit, and the time one window after
      now - or, refused, after the oldest of them, with the whole seconds until then. */
  ghost predicate AnswersFor(calls: seq<Call>, window: set<nat>, cfg: Config, now: int, r: RateLimitResult)
    requires forall i :: i in window ==> i < |calls|
  {
    && (r.allowed <==> |window| < cfg.maxRequests)
    && r.limit == cfg.maxRequests
    && if r.allowed then
         r.current == |window| + 1 && r.resetAt == now + cfg.windowMs && r.retryAfter == None
       else
         && r.current == |window|
         && (if window == {} then r.resetAt == now + cfg.windowMs
             else OldestPlus(calls, window, cfg.windowMs, r.resetAt))
         && r.retryAfter.Some? && WholeSeconds(r.retryAfter.value, r.resetAt - now)
  }

  lemma EntryHasCall(limits: Limits, calls: seq<Call>, now: int, t: LimitType, identifier: string, m: Member)
    returns (i: nat)
    requires t in limits && Timely(calls, now)
    requires m in Run(EventsOf(calls, t, identifier), limits[t]).log
    ensures i < |calls|
    ensures calls[i].now == Run(EventsOf(calls, t, identifier), limits[t]).log[m]
    ensures Admitted(limits, calls, i, t, identifier, calls[i].now, calls[i].now)
  {
    var log := Run(EventsOf(calls, t, identifier), limits[t]).log;
    var at := log[m];
    assert m in Scored(log, at, at);
    CountsAgree(limits, calls, now, t, identifier, at, at);
    i :| i in AdmittedIn(limits, calls, t, identifier, at, at);
  }

  lemma CallHasEntry(limits: Limits, calls: seq<Call>, now: int, t: LimitType, identifier: string, i: nat)
    returns (m: Member)
    requires t in limits && Timely(calls, now)
    requires i < |calls| && Admitted(limits, calls, i, t, identifier, calls[i].now, calls[i].now)
    ensures var log := Run(EventsOf(calls, t, identifier), limits[t]).log;
            m in log && log[m] == calls[i].now
  {
    var log := Run(EventsOf(calls, t, identifier), limits[t]).log;
    var at := calls[i].now;
    assert i in AdmittedIn(limits, calls, t, identifier, at, at);
    CountsAgree(limits, calls, now, t, identifier, at, at);
    m :| m in Scored(log, at, at);
  }

  lemma LowestIsOldest(limits: Limits, calls: seq<Call>, now: int, t: LimitType, identifier: string,
                       from: int, window: set<nat>, lowest: int)
    requires t in limits && Timely(calls, now) && window == AdmittedIn(limits, calls, t, identifier, from, now)
    requires NotAfter(Run(EventsOf(calls, t, identifier), limits[t]).log, now)
    requires IsLowest(RemoveBelow(Run(EventsOf(calls, t, identifier), limits[t]).log, from), lowest)
    ensures OldestPlus(calls, window, limits[t].windowMs, lowest + limits[t].windowMs)
  {
    var log := Run(EventsOf(calls, t, identifier), limits[t]).log;
    var m :| m in RemoveBelow(log, from) && log[m] == lowest;
    var first := EntryHasCall(limits, calls, now, t, identifier, m);
    assert first in window;
    forall i | i in window ensures calls[i].now >= lowest {
      var n := CallHasEntry(limits, calls, now, t, identifier, i);
      assert n in RemoveBelow(log, from);
    }
  }

  /** The decision on the full log, in numbers. */
  ghost predicate Counted(reply: Reply, n: nat, now: int, cfg: Config) {
    && (reply.allowed <==> n < cfg.maxRequests)
    && reply.current == n + (if reply.allowed then 1 else 0)
    && (reply.allowed || n == 0 ==> reply.resetAt == now + cfg.windowMs)
  }

  lemma DecisionCounts(log: ZSet, now: int, cfg: Config, n: nat)
    requires NotAfter(log, now) && n == |Scored(log, now - cfg.windowMs, now)|
    ensures var r := Decision(log, now, cfg);
            && Counted(r, n, now, cfg)
            && (!r.allowed && n > 0 ==>
                  IsLowest(RemoveBelow(log, now - cfg.windowMs), r.resetAt - cfg.windowMs))
  {
    WindowKeys(log, now - cfg.windowMs, now);
  }

  lemma CountedAnswers(calls: seq<Call>, window: set<nat>, cfg: Config, now: int, reply: Reply)
    requires forall i :: i in window ==> i < |calls|
    requires Counted(reply, |window|, now, cfg)
    requires !reply.allowed && window != {} ==> OldestPlus(calls, window, cfg.windowMs, reply.resetAt)
    ensures AnswersFor(calls, window, cfg, now, ResultOf(reply, now, cfg))
  {
    RetryIsWholeSeconds(reply.resetAt, now);
  }

  /** What the log makes of a check, with `n` admitted calls of the caller in the window. */
  lemma ToldByLog(limits: Limits, calls: seq<Call>, identifier: string, t: LimitType, now: int, member: Member,
                  log: ZSet, cfg: Config, n: nat) returns (reply: Reply)
    requires t in limits && cfg == limits[t] && Timely(calls, now)
    requires log == Run(EventsOf(calls, t, identifier), cfg).log && n == |Scored(log, now - cfg.windowMs, now)|
    ensures NotAfter(log, now)
    ensures Serve(limits, StoreAfter(limits, calls), CheckLimit(identifier, t, now, member, true)).1
         == Some(ResultOf(reply, now, cfg))
    ensures Counted(reply, n, now, cfg)
    ensures !reply.allowed && n > 0 ==> IsLowest(RemoveBelow(log, now - cfg.windowMs), reply.resetAt - cfg.windowMs)
  {
    var events := EventsOf(calls, t, identifier);
    StoreIsRun(limits, calls, t, identifier);
    EventsWellTimed(calls, now, t, identifier);
    RefinesFullLog(events, now, member, cfg);
    RunInvariant(events, now, cfg);
    reply := Decision(log, now, cfg);
    DecisionCounts(log, now, cfg, n);
  }

  lemma CheckReply(limits: Limits, calls: seq<Call>, identifier: string, t: LimitType, now: int, member: Member,
                   window: set<nat>) returns (reply: Reply)
    requires t in limits && Timely(calls, now)
    requires window == AdmittedIn(limits, calls, t, identifier, now - limits[t].windowMs, now)
    requires forall i :: i in window ==> i < |calls|
    ensures Serve(limits, StoreAfter(limits, calls), CheckLimit(identifier, t, now, member, true)).1
         == Some(ResultOf(reply, now, limits[t]))
    ensures Counted(reply, |window|, now, limits[t])
    ensures !reply.allowed && |window| > 0 ==> OldestPlus(calls, window, limits[t].windowMs, reply.resetAt)
  {
    var cfg := limits[t];
    var log := Run(EventsOf(calls, t, identifier), cfg).log;
    var from := now - cfg.windowMs;
    assert |window| == |Scored(log, from, now)| by { CountsAgree(limits, calls, now, t, identifier, from, now); }
    reply := ToldByLog(limits, calls, identifier, t, now, member, log, cfg, |window|);
    if !reply.allowed && |window| > 0 {
      LowestIsOldest(limits, calls, now, t, identifier, from, window, reply.resetAt - cfg.windowMs);
    }
  }

  /** What every check is told, over all runs of the service, with Redis dropping expired keys
      whenever it likes: `told`, answered from the `window` of admitted calls. */
  lemma CheckLimitExact(limits: Limits, calls: seq<Call>, identifier: string, t: LimitType, now: int, member: Member)
    returns (window: set<nat>, told: RateLimitResult)
    requires t in limits && Timely(calls, now)
    ensures window == AdmittedIn(limits, calls, t, identifier, now - limits[t].windowMs, now)
    ensures Serve(limits, StoreAfter(limits, calls), CheckLimit(identifier, t, now, member, true)).1 == Some(told)
    ensures AnswersFor(calls, window, limits[t], now, told)
  {
    window := AdmittedIn(limits, calls, t, identifier, now - limits[t].windowMs, now);
    var reply := CheckReply(limits, calls, identifier, t, now, member, window);
    told := ResultOf(reply, now, limits[t]);
    CountedAnswers(calls, window, limits[t], now, reply);
  }
}
