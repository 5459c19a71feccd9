/** The sliding-window rate limiter: one Redis sorted set per caller, pruned by the
    script and expired by Redis, against the log of everything ever admitted. */
module RateLimiter {
  import opened Prelude

  /** A sorted-set member; the service makes it from the time and a random suffix. */
  type Member = string

  /** A Redis sorted set: every member has one score, here a timestamp in ms. */
  type ZSet = map<Member, int>

  datatype Config = Config(windowMs: nat, maxRequests: nat)

  /** The key of one caller: its sorted set and the time from which Redis may drop it. */
  datatype Bucket = Bucket(zset: ZSet, expiresAt: int)

  const EMPTY := Bucket(map[], 0)

  datatype Reply = Reply(allowed: bool, current: nat, resetAt: int)

  // ---- the Redis commands of the script -------------------------------------

  /** ZREMRANGEBYSCORE key -inf (from - 1), on integer scores. */
  function RemoveBelow(z: ZSet, from: int): ZSet {
    map m | m in z && z[m] >= from :: z[m]
  }

  /** The members with a score in [lo, hi]. */
  function Scored(z: ZSet, lo: int, hi: int): set<Member> {
    set m | m in z && lo <= z[m] <= hi
  }

  /** ZCOUNT key lo hi. */
  function CountScored(z: ZSet, lo: int, hi: int): nat { |Scored(z, lo, hi)| }

  predicate IsLowest(z: ZSet, score: int) {
    (exists m :: m in z && z[m] == score) && forall m :: m in z ==> score <= z[m]
  }

  function ScoreOf(z: ZSet, m: Member): int { if m in z then z[m] else 0 }

  lemma LowestExists(z: ZSet)
    requires |z.Keys| > 0
    ensures exists m :: m in z && IsLowest(z, z[m])
  {
    LeastExists(z.Keys, m => ScoreOf(z, m));
    var low :| low in z.Keys && forall m :: m in z.Keys ==> ScoreOf(z, low) <= ScoreOf(z, m);
    forall m | m in z ensures z[low] <= z[m] {
      assert ScoreOf(z, low) <= ScoreOf(z, m);
    }
    assert IsLowest(z, z[low]);
  }

  /** ZRANGE key 0 0 WITHSCORES: the lowest score. */
  function LowestScore(z: ZSet): (score: int)
    requires |z.Keys| > 0
    ensures IsLowest(z, score)
  {
    LowestExists(z);
    assert exists m :: m in z && z[m] in z.Values && IsLowest(z, z[m]);
    var score :| score in z.Values && IsLowest(z, score);
    score
  }

  // ---- the script --------------------------------------------------------------

  function TtlSeconds(windowMs: nat): nat { (windowMs + 999) / 1000 + 1 }

  /** The Lua script, one atomic step. */
  function Script(b: Bucket, now: int, cfg: Config, member: Member): (Bucket, Reply) {
    var windowStart := now - cfg.windowMs;
    var pruned := RemoveBelow(b.zset, windowStart);
    var current := CountScored(pruned, windowStart, now);
    if current < cfg.maxRequests then
      (Bucket(pruned[member := now], now + TtlSeconds(cfg.windowMs) * 1000),
       Reply(true, current + 1, now + cfg.windowMs))
    else
      var oldest := if |pruned.Keys| == 0 then now else LowestScore(pruned);
      (Bucket(pruned, b.expiresAt), Reply(false, current, oldest + cfg.windowMs))
  }

  /** Redis drops an expired key. */
  function Expire(b: Bucket, now: int): Bucket {
    if now >= b.expiresAt then EMPTY else b
  }

  // ---- the service ----------------------------------------------------------------

  datatype LimitType = Ip | User | Wallet | Operation

  function Prefix(t: LimitType): string {
    match t
    case Ip => "rl:ip:"
    case User => "rl:user:"
    case Wallet => "rl:wallet:"
    case Operation => "rl:op:"
  }

  function Key(t: LimitType, identifier: string): string { Prefix(t) + identifier }

  /** Callers of different kinds never share a key, whatever their identifiers are. */
  lemma KeysAreDistinct(t: LimitType, a: string, u: LimitType, b: string)
    ensures Key(t, a) == Key(u, b) <==> t == u && a == b
  {
    var k, l := Key(t, a), Key(u, b);
    if k == l {
      assert k[3] == l[3] && k[3] == Prefix(t)[3] && l[3] == Prefix(u)[3];
      assert t == u;
      assert k[|Prefix(t)|..] == a && l[|Prefix(t)|..] == b;
    }
  }

  datatype RateLimitResult =
    RateLimitResult(allowed: bool, current: nat, limit: nat, resetAt: int, retryAfter: Option<int>)

  function RetryAfterSeconds(resetAt: int, now: int): int {
    var seconds := if resetAt - now <= 0 then 0 else (resetAt - now + 999) / 1000;
    if seconds < 1 then 1 else seconds
  }

  function ResultOf(reply: Reply, now: int, cfg: Config): RateLimitResult {
    RateLimitResult(reply.allowed, reply.current, cfg.maxRequests, reply.resetAt,
                    if reply.allowed then None else Some(RetryAfterSeconds(reply.resetAt, now)))
  }

  /** What happens to the service: a check by one caller, with or without an answer from
      Redis, or Redis dropping an expired key. */
  datatype Call =
    | CheckLimit(identifier: string, t: LimitType, now: int, member: Member, redisUp: bool)
    | Drop(key: string, now: int)

  type Store = map<string, Bucket>

  function BucketOf(store: Store, key: string): Bucket { if key in store then store[key] else EMPTY }

  /** One call: the store it leaves and what a check is told.  An unknown limit type is an
      error; if Redis does not answer, the request is let through. */
  function Serve(limits: map<LimitType, Config>, store: Store, call: Call): (Store, Option<RateLimitResult>) {
    match call
    case CheckLimit(identifier, t, now, member, redisUp) =>
      if t !in limits then (store, None)
      else if !redisUp then (store, Some(RateLimitResult(true, 0, limits[t].maxRequests, now, None)))
      else
        var key := Key(t, identifier);
        var (bucket, reply) := Script(BucketOf(store, key), now, limits[t], member);
        (store[key := bucket], Some(ResultOf(reply, now, limits[t])))
    case Drop(key, now) =>
      (if key in store && Expire(store[key], now) == EMPTY then store - {key} else store, None)
  }

  class RateLimiterService {
    const config: map<LimitType, Config>
    var store: Store

    constructor (config: map<LimitType, Config>)
      ensures this.config == config && store == map[]
    {
      this.config := config;
      store := map[];
    }

    /** The script as it acts on the shared store. */
    method Eval(key: string, now: int, cfg: Config, member: Member) returns (reply: Reply)
      modifies this
      ensures var (bucket, answer) := Script(BucketOf(old(store), key), now, cfg, member);
              store == old(store)[key := bucket] && reply == answer
    {
      var windowStart := now - cfg.windowMs;
      var bucket := if key in store then store[key] else EMPTY;
      bucket := bucket.(zset := RemoveBelow(bucket.zset, windowStart));
      store := store[key := bucket];
      var current := CountScored(bucket.zset, windowStart, now);
      if current < cfg.maxRequests {
        bucket := bucket.(zset := bucket.zset[member := now]);
        bucket := bucket.(expiresAt := now + TtlSeconds(cfg.windowMs) * 1000);
        store := store[key := bucket];
        return Reply(true, current + 1, now + cfg.windowMs);
      }
      var oldest := if |bucket.zset.Keys| == 0 then now else LowestScore(bucket.zset);
      return Reply(false, current, oldest + cfg.windowMs);
    }

    /** One check, as `Serve` specifies it: only this caller's key is touched, and only if
        Redis answers. */
    method CheckLimit(identifier: string, t: LimitType, now: int, member: Member, redisUp: bool)
      returns (r: Option<RateLimitResult>)
      modifies this
      ensures (store, r) == Serve(config, old(store), Call.CheckLimit(identifier, t, now, member, redisUp))
      ensures forall key :: key != Key(t, identifier) ==> BucketOf(store, key) == BucketOf(old(store), key)
      ensures t in config && !redisUp ==> r == Some(RateLimitResult(true, 0, config[t].maxRequests, now, None))
    {
      if t !in config { return None; }
      var cfg := config[t];
      if !redisUp { return Some(RateLimitResult(true, 0, cfg.maxRequests, now, None)); }
      var reply := Eval(Key(t, identifier), now, cfg, member);
      var retryAfter := if reply.allowed then None else Some(RetryAfterSeconds(reply.resetAt, now));
      return Some(RateLimitResult(reply.allowed, reply.current, cfg.maxRequests, reply.resetAt, retryAfter));
    }
  }

  // ---- runs of one key ----------------------------------------------------------------

  /** What happens to one key over time.  An `Expiry` is Redis trying to drop the key;
      it may come at any moment, often, or never. */
  datatype Event = Check(now: int, member: Member) | Expiry(now: int)

  /** The bucket as Redis has it, and - for comparison only - the log of every admitted
      call, never pruned and never expired. */
  datatype World = World(bucket: Bucket, log: ZSet)

  function Step(w: World, e: Event, cfg: Config): World {
    match e
    case Check(now, member) =>
      var (bucket, reply) := Script(w.bucket, now, cfg, member);
      World(bucket, if reply.allowed then w.log[member := now] else w.log)
    case Expiry(now) => w.(bucket := Expire(w.bucket, now))
  }

  function Run(events: seq<Event>, cfg: Config): World {
    if events == [] then World(EMPTY, map[])
    else Step(Run(events[..|events| - 1], cfg), events[|events| - 1], cfg)
  }

  /** Time never goes back and no member is used twice. */
  ghost predicate WellTimed(events: seq<Event>, now: int) {
    && (forall i, j :: 0 <= i < j < |events| ==> events[i].now <= events[j].now)
    && (forall i :: 0 <= i < |events| ==> events[i].now <= now)
    && (forall i, j :: 0 <= i < j < |events| && events[i].Check? && events[j].Check? ==>
          events[i].member != events[j].member)
  }

  ghost predicate Unused(events: seq<Event>, member: Member) {
    forall i :: 0 <= i < |events| && events[i].Check? ==> events[i].member != member
  }

  /** The decision read off the full log alone. */
  function Decision(log: ZSet, now: int, cfg: Config): Reply {
    var inWindow := RemoveBelow(log, now - cfg.windowMs);
    var current := |inWindow.Keys|;
    if current < cfg.maxRequests then Reply(true, current + 1, now + cfg.windowMs)
    else Reply(false, current, (if |inWindow.Keys| == 0 then now else LowestScore(inWindow)) + cfg.windowMs)
  }

  ghost predicate NotAfter(log: ZSet, now: int) {
    forall m :: m in log ==> log[m] <= now
  }

  /** The bucket holds a part of the log that covers the window of every later time. */
  ghost predicate Covers(w: World, now: int, cfg: Config) {
    && NotAfter(w.log, now)
    && (forall m :: m in w.bucket.zset ==> m in w.log && w.log[m] == w.bucket.zset[m])
    && (forall m :: m in w.log && w.log[m] >= now - cfg.windowMs ==> m in w.bucket.zset)
    && (forall m :: m in w.bucket.zset ==> w.log[m] + cfg.windowMs < w.bucket.expiresAt)
  }

  /** The admitted calls in the closed window that starts at `from`. */
  function WindowCount(log: ZSet, from: int, cfg: Config): nat {
    CountScored(log, from, from + cfg.windowMs)
  }

  /** No closed window holds more admitted calls than the limit. */
  ghost predicate Bounded(log: ZSet, cfg: Config) {
    forall from: int :: WindowCount(log, from, cfg) <= cfg.maxRequests
  }

  /** If the bucket covers the window, pruning the bucket gives the window of the log. */
  lemma PrunedIsWindow(w: World, now: int, cfg: Config)
    requires Covers(w, now, cfg)
    ensures RemoveBelow(w.bucket.zset, now - cfg.windowMs) == RemoveBelow(w.log, now - cfg.windowMs)
  {
    var p, q := RemoveBelow(w.bucket.zset, now - cfg.windowMs), RemoveBelow(w.log, now - cfg.windowMs);
    assert p.Keys == q.Keys;
  }

  lemma WindowKeys(log: ZSet, from: int, now: int)
    requires NotAfter(log, now)
    ensures Scored(RemoveBelow(log, from), from, now) == RemoveBelow(log, from).Keys == Scored(log, from, now)
  {
  }

  /** One call answers as the full log would. */
  lemma ScriptMatchesLog(w: World, now: int, cfg: Config, member: Member)
    requires Covers(w, now, cfg)
    ensures Script(w.bucket, now, cfg, member).1 == Decision(w.log, now, cfg)
  {
    var from := now - cfg.windowMs;
    assert RemoveBelow(w.bucket.zset, from) == RemoveBelow(w.log, from) by { PrunedIsWindow(w, now, cfg); }
    assert Scored(RemoveBelow(w.log, from), from, now) == RemoveBelow(w.log, from).Keys by {
      WindowKeys(w.log, from, now);
    }
  }

  lemma StepKeepsCovers(w: World, e: Event, cfg: Config)
    requires Covers(w, e.now, cfg)
    requires e.Check? ==> e.member !in w.log
    ensures Covers(Step(w, e, cfg), e.now, cfg)
  {
    if e.Check? { PrunedIsWindow(w, e.now, cfg); }
  }

  lemma ScoredUpdate(log: ZSet, member: Member, now: int, lo: int, hi: int)
    requires member !in log
    ensures Scored(log[member := now], lo, hi) == Scored(log, lo, hi) + if lo <= now <= hi then {member} else {}
  {
  }

  lemma RecentFits(log: ZSet, now: int, from: int, to: int, windowStart: int)
    requires windowStart <= from
    ensures |Scored(log, from, to)| <= |RemoveBelow(log, windowStart).Keys|
  {
    SubsetSize(Scored(log, from, to), RemoveBelow(log, windowStart).Keys);
  }

  lemma GrowByOne<T>(s: set<T>, x: T)
    ensures |s + {x}| <= |s| + 1
  {
    if x in s { assert s + {x} == s; }
  }

  lemma CountUpdate(log: ZSet, member: Member, now: int, lo: int, hi: int)
    requires member !in log
    ensures CountScored(log[member := now], lo, hi) <= CountScored(log, lo, hi) + if lo <= now <= hi then 1 else 0
  {
    ScoredUpdate(log, member, now, lo, hi);
    if lo <= now <= hi { GrowByOne(Scored(log, lo, hi), member); }
  }

  lemma AdmitInWindow(log: ZSet, now: int, member: Member, cfg: Config, from: int)
    requires member !in log && WindowCount(log, from, cfg) <= cfg.maxRequests
    requires |RemoveBelow(log, now - cfg.windowMs).Keys| < cfg.maxRequests
    ensures WindowCount(log[member := now], from, cfg) <= cfg.maxRequests
  {
    var to := from + cfg.windowMs;
    CountUpdate(log, member, now, from, to);
    if from <= now <= to { RecentFits(log, now, from, to, now - cfg.windowMs); }
  }

  /** Admitting a call when the log's window has room keeps every window bounded. */
  lemma AdmitKeepsBounded(log: ZSet, now: int, member: Member, cfg: Config)
    requires Bounded(log, cfg) && member !in log
    requires |RemoveBelow(log, now - cfg.windowMs).Keys| < cfg.maxRequests
    ensures Bounded(log[member := now], cfg)
  {
    var after := log[member := now];
    forall from: int ensures WindowCount(after, from, cfg) <= cfg.maxRequests {
      assert WindowCount(log, from, cfg) <= cfg.maxRequests;
      AdmitInWindow(log, now, member, cfg, from);
    }
  }

  lemma StepKeepsBounded(w: World, e: Event, cfg: Config)
    requires Covers(w, e.now, cfg) && Bounded(w.log, cfg)
    requires e.Check? ==> e.member !in w.log
    ensures Bounded(Step(w, e, cfg).log, cfg)
  {
    if e.Check? {
      ScriptMatchesLog(w, e.now, cfg, e.member);
      if Decision(w.log, e.now, cfg).allowed { AdmitKeepsBounded(w.log, e.now, e.member, cfg); }
    }
  }

  lemma {:induction false} LogMembersUsed(events: seq<Event>, cfg: Config)
    ensures forall m :: m in Run(events, cfg).log ==> !Unused(events, m)
  {
    if events != [] {
      var front, e := events[..|events| - 1], events[|events| - 1];
      LogMembersUsed(front, cfg);
      forall m | m in Run(events, cfg).log ensures !Unused(events, m) {
        if m in Run(front, cfg).log {
          var i :| 0 <= i < |front| && front[i].Check? && front[i].member == m;
          assert events[i] == front[i];
        } else {
          assert e == events[|events| - 1] && e.Check? && e.member == m;
        }
      }
    }
  }

  lemma {:induction false} RunInvariant(events: seq<Event>, now: int, cfg: Config)
    requires WellTimed(events, now)
    ensures Covers(Run(events, cfg), now, cfg) && Bounded(Run(events, cfg).log, cfg)
  {
    if events == [] {
      forall from: int ensures WindowCount(map[], from, cfg) == 0 {
        assert Scored(map[], from, from + cfg.windowMs) == {};
      }
    } else {
      var front, e := events[..|events| - 1], events[|events| - 1];
      RunInvariant(front, e.now, cfg);
      LogMembersUsed(front, cfg);
      assert e.Check? ==> Unused(front, e.member);
      StepKeepsCovers(Run(front, cfg), e, cfg);
      StepKeepsBounded(Run(front, cfg), e, cfg);
    }
  }

  /** Refinement: after any run, with Redis dropping the expired key whenever it likes,
      the next check answers exactly what the never-pruned log answers - decision, count
      and reset time. */
  lemma RefinesFullLog(events: seq<Event>, now: int, member: Member, cfg: Config)
    requires WellTimed(events, now)
    ensures var w := Run(events, cfg);
            Script(w.bucket, now, cfg, member).1 == Decision(w.log, now, cfg)
  {
    RunInvariant(events, now, cfg);
    ScriptMatchesLog(Run(events, cfg), now, cfg, member);
  }

  lemma BoundedAt(log: ZSet, cfg: Config, from: int)
    requires Bounded(log, cfg)
    ensures CountScored(log, from, from + cfg.windowMs) <= cfg.maxRequests
  {
    assert WindowCount(log, from, cfg) <= cfg.maxRequests;
  }

  /** The bound: over every run, any closed interval of one window holds at most
      `maxRequests` admitted calls. */
  lemma WindowBound(events: seq<Event>, now: int, cfg: Config, from: int)
    requires WellTimed(events, now)
    ensures CountScored(Run(events, cfg).log, from, from + cfg.windowMs) <= cfg.maxRequests
  {
    assert Bounded(Run(events, cfg).log, cfg) by { RunInvariant(events, now, cfg); }
    BoundedAt(Run(events, cfg).log, cfg, from);
  }

  /** Space: what a check leaves in the set is one window of calls, at most the limit. */
  lemma SpaceBound(events: seq<Event>, now: int, member: Member, cfg: Config)
    requires WellTimed(events + [Check(now, member)], now)
    ensures |Run(events + [Check(now, member)], cfg).bucket.zset.Keys| <= cfg.maxRequests
  {
    var all := events + [Check(now, member)];
    assert all[..|all| - 1] == events;
    RunInvariant(all, now, cfg);
    WindowBound(all, now, cfg, now - cfg.windowMs);
    var w := Run(all, cfg);
    SubsetSize(w.bucket.zset.Keys, Scored(w.log, now - cfg.windowMs, now));
  }

  // ---- when a rejected caller gets in -----------------------------------------------------

  /** A rejection means the window is exactly full. */
  lemma RejectedIsFull(log: ZSet, now: int, cfg: Config)
    requires Bounded(log, cfg) && NotAfter(log, now)
    requires !Decision(log, now, cfg).allowed
    ensures |RemoveBelow(log, now - cfg.windowMs).Keys| == cfg.maxRequests
  {
    var from := now - cfg.windowMs;
    assert WindowCount(log, from, cfg) <= cfg.maxRequests;
    WindowKeys(log, from, now);
  }

  /** While the oldest call is in the window the whole window stays. */
  lemma WindowStays(log: ZSet, from: int, laterFrom: int)
    requires from <= laterFrom && |RemoveBelow(log, from).Keys| > 0
    requires laterFrom <= LowestScore(RemoveBelow(log, from))
    ensures RemoveBelow(log, laterFrom).Keys == RemoveBelow(log, from).Keys
  {
    var window := RemoveBelow(log, from);
    forall m | m in window ensures m in RemoveBelow(log, laterFrom) {
      assert LowestScore(window) <= window[m];
    }
  }

  /** Once the oldest call leaves, the window has room. */
  lemma WindowShrinks(log: ZSet, from: int, laterFrom: int)
    requires from <= laterFrom && |RemoveBelow(log, from).Keys| > 0
    requires laterFrom > LowestScore(RemoveBelow(log, from))
    ensures |RemoveBelow(log, laterFrom).Keys| < |RemoveBelow(log, from).Keys|
  {
    var window := RemoveBelow(log, from);
    assert IsLowest(window, LowestScore(window));
    var first :| first in window && window[first] == LowestScore(window);
    SubsetSize(RemoveBelow(log, laterFrom).Keys, window.Keys - {first});
  }

  /** What the oldest call of the window at `now` says about the window at `later`. */
  lemma WindowReset(log: ZSet, now: int, later: int, windowMs: nat) returns (resetAt: int)
    requires now <= later && |RemoveBelow(log, now - windowMs).Keys| > 0
    ensures resetAt == LowestScore(RemoveBelow(log, now - windowMs)) + windowMs
    ensures resetAt >= now
    ensures later > resetAt ==> |RemoveBelow(log, later - windowMs).Keys| < |RemoveBelow(log, now - windowMs).Keys|
    ensures later <= resetAt ==> |RemoveBelow(log, later - windowMs).Keys| == |RemoveBelow(log, now - windowMs).Keys|
  {
    var window := RemoveBelow(log, now - windowMs);
    resetAt := LowestScore(window) + windowMs;
    assert IsLowest(window, LowestScore(window));
    if later > resetAt {
      WindowShrinks(log, now - windowMs, later - windowMs);
    } else {
      WindowStays(log, now - windowMs, later - windowMs);
    }
  }

  lemma FullMeansRejected(log: ZSet, now: int, cfg: Config)
    requires |RemoveBelow(log, now - cfg.windowMs).Keys| == cfg.maxRequests >= 1
    ensures Decision(log, now, cfg).resetAt == LowestScore(RemoveBelow(log, now - cfg.windowMs)) + cfg.windowMs
  {
  }

  lemma AllowedMeansRoom(log: ZSet, now: int, cfg: Config)
    ensures Decision(log, now, cfg).allowed <==> |RemoveBelow(log, now - cfg.windowMs).Keys| < cfg.maxRequests
  {
  }

  /** In a full window, the calls that stay in it until `later` leave room exactly after the
      oldest one has left. */
  lemma RoomAfterReset(log: ZSet, now: int, later: int, cfg: Config) returns (resetAt: int)
    requires now <= later && cfg.maxRequests >= 1
    requires |RemoveBelow(log, now - cfg.windowMs).Keys| == cfg.maxRequests
    ensures resetAt == LowestScore(RemoveBelow(log, now - cfg.windowMs)) + cfg.windowMs >= now
    ensures |RemoveBelow(log, later - cfg.windowMs).Keys| < cfg.maxRequests <==> later > resetAt
  {
    resetAt := WindowReset(log, now, later, cfg.windowMs);
  }

  lemma FullWindowReset(log: ZSet, now: int, later: int, cfg: Config) returns (resetAt: int)
    requires now <= later && cfg.maxRequests >= 1
    requires |RemoveBelow(log, now - cfg.windowMs).Keys| == cfg.maxRequests
    ensures resetAt == Decision(log, now, cfg).resetAt >= now
    ensures Decision(log, later, cfg).allowed <==> later > resetAt
  {
    resetAt := RoomAfterReset(log, now, later, cfg);
    FullMeansRejected(log, now, cfg);
    AllowedMeansRoom(log, later, cfg);
  }

  /** What the script replies to a check after a run. */
  function Answer(events: seq<Event>, now: int, member: Member, cfg: Config): Reply {
    Script(Run(events, cfg).bucket, now, cfg, member).1
  }

  /** From event `n` on, nothing is admitted; Redis may still drop the key. */
  ghost predicate AllRejected(events: seq<Event>, n: nat, cfg: Config) {
    forall k :: n <= k < |events| && events[k].Check? ==>
      !Answer(events[..k], events[k].now, events[k].member, cfg).allowed
  }

  lemma {:induction false} LogStays(events: seq<Event>, n: nat, cfg: Config)
    requires n <= |events| && AllRejected(events, n, cfg)
    ensures Run(events, cfg).log == Run(events[..n], cfg).log
  {
    if n == |events| {
      assert events[..n] == events;
    } else {
      var front, last := events[..|events| - 1], events[|events| - 1];
      assert forall k :: 0 <= k <= |front| ==> front[..k] == events[..k];
      LogStays(front, n, cfg);
      assert events[..|front|] == front;
      assert last.Check? ==> !Answer(front, last.now, last.member, cfg).allowed;
    }
  }

  lemma RejectedNow(events: seq<Event>, now: int, member: Member, cfg: Config)
    requires WellTimed(events, now) && !Answer(events, now, member, cfg).allowed
    ensures Answer(events, now, member, cfg) == Decision(Run(events, cfg).log, now, cfg)
    ensures |RemoveBelow(Run(events, cfg).log, now - cfg.windowMs).Keys| == cfg.maxRequests
  {
    RefinesFullLog(events, now, member, cfg);
    RunInvariant(events, now, cfg);
    RejectedIsFull(Run(events, cfg).log, now, cfg);
  }

  lemma TimedPrefix(events: seq<Event>, n: nat, later: int)
    requires n < |events| && WellTimed(events, later)
    ensures WellTimed(events[..n], events[n].now) && events[n].now <= later
  {
  }

  /** After the rejection of event `n` and any number of further rejections and expiries,
      the log still fills the window that rejected it. */
  lemma RejectedWindow(events: seq<Event>, n: nat, later: int, cfg: Config) returns (log: ZSet)
    requires n < |events| && events[n].Check? && AllRejected(events, n, cfg) && WellTimed(events, later)
    ensures log == Run(events, cfg).log
    ensures |RemoveBelow(log, events[n].now - cfg.windowMs).Keys| == cfg.maxRequests
    ensures Answer(events[..n], events[n].now, events[n].member, cfg) == Decision(log, events[n].now, cfg)
  {
    log := Run(events, cfg).log;
    LogStays(events, n, cfg);
    TimedPrefix(events, n, later);
    RejectedNow(events[..n], events[n].now, events[n].member, cfg);
  }

  /** The reset time reported with a rejection is exact: after it, and any number of further
      rejections and expiries of the key, a check is admitted if and only if it comes later
      than that time. */
  lemma AdmittedAfterReset(events: seq<Event>, n: nat, later: int, member: Member, cfg: Config)
    requires n < |events| && events[n].Check? && AllRejected(events, n, cfg)
    requires WellTimed(events, later) && cfg.maxRequests >= 1
    ensures Answer(events, later, member, cfg).allowed <==>
              later > Answer(events[..n], events[n].now, events[n].member, cfg).resetAt
  {
    var log := RejectedWindow(events, n, later, cfg);
    var resetAt := FullWindowReset(log, events[n].now, later, cfg);
    RefinesFullLog(events, later, member, cfg);
  }

  lemma RetryArithmetic(resetAt: int, now: int)
    requires resetAt >= now
    ensures now + 1000 * RetryAfterSeconds(resetAt, now) > resetAt
       <==> resetAt == now || (resetAt - now) % 1000 != 0
    ensures RetryAfterSeconds(resetAt, now) >= 1
  {
  }

  /** When the caller of a rejected check is told to come back. */
  function RetryAt(now: int, reply: Reply): int { now + 1000 * RetryAfterSeconds(reply.resetAt, now) }

  lemma ResetNotPast(events: seq<Event>, n: nat, later: int, cfg: Config)
    requires n < |events| && events[n].Check? && AllRejected(events, n, cfg)
    requires WellTimed(events, later) && cfg.maxRequests >= 1
    ensures Answer(events[..n], events[n].now, events[n].member, cfg).resetAt >= events[n].now
  {
    var log := RejectedWindow(events, n, later, cfg);
    var resetAt := FullWindowReset(log, events[n].now, events[n].now, cfg);
  }

  /** The `retryAfter` seconds of a rejection are enough, unless the reset lies a whole
      positive number of seconds ahead: then the retry arrives at the reset time itself
      and is rejected once more. */
  lemma RetryAfterIsEnough(events: seq<Event>, n: nat, member: Member, cfg: Config) returns (reply: Reply)
    requires n < |events| && events[n].Check? && AllRejected(events, n, cfg) && cfg.maxRequests >= 1
    requires WellTimed(events, RetryAt(events[n].now, Answer(events[..n], events[n].now, events[n].member, cfg)))
    ensures reply == Answer(events[..n], events[n].now, events[n].member, cfg)
    ensures Answer(events, RetryAt(events[n].now, reply), member, cfg).allowed
       <==> reply.resetAt == events[n].now || (reply.resetAt - events[n].now) % 1000 != 0
  {
    var now := events[n].now;
    reply := Answer(events[..n], now, events[n].member, cfg);
    var retryAt := RetryAt(now, reply);
    assert reply.resetAt >= now by { ResetNotPast(events, n, retryAt, cfg); }
    assert retryAt > reply.resetAt <==> reply.resetAt == now || (reply.resetAt - now) % 1000 != 0 by {
      RetryArithmetic(reply.resetAt, now);
    }
    assert Answer(events, retryAt, member, cfg).allowed <==> retryAt > reply.resetAt by {
      AdmittedAfterReset(events, n, retryAt, member, cfg);
    }
  }

  /** The shortfall happens: with one call allowed a second, the second call of a millisecond
      is told to wait one second, and its retry after exactly that is rejected too. */
  lemma RetryComesTooSoon() returns (events: seq<Event>, cfg: Config)
    ensures cfg == Config(1000, 1) && events == [Check(0, "a"), Check(0, "b")]
    ensures WellTimed(events, 1000) && AllRejected(events, 1, cfg)
    ensures Answer(events[..1], 0, "b", cfg) == Reply(false, 1, 1000)
    ensures RetryAt(0, Answer(events[..1], 0, "b", cfg)) == 1000
    ensures !Answer(events, 1000, "c", cfg).allowed
  {
    cfg, events := Config(1000, 1), [Check(0, "a"), Check(0, "b")];
    var first := [Check(0, "a")];
    assert events[..1] == first && first[..0] == [];
    var w := Run(first, cfg);
    assert Script(EMPTY, 0, cfg, "a") == (Bucket(map["a" := 0], 2000), Reply(true, 1, 1000)) by {
      assert RemoveBelow(map[], -1000) == map[] && Scored(map[], -1000, 0) == {};
    }
    assert w.bucket == Bucket(map["a" := 0], 2000);
    FullOfOne("b", 0);
    FullOfOne("c", 1000);
    assert Run(events, cfg).bucket == w.bucket;
  }

  /** The window of the single call "a" at 0 is full up to and including 1000. */
  lemma FullOfOne(member: Member, now: int)
    requires 0 <= now <= 1000
    ensures Script(Bucket(map["a" := 0], 2000), now, Config(1000, 1), member)
         == (Bucket(map["a" := 0], 2000), Reply(false, 1, 1000))
  {
    var z: ZSet := map["a" := 0];
    assert RemoveBelow(z, now - 1000) == z;
    assert Scored(z, now - 1000, now) == {"a"};
    assert z.Keys == {"a"};
    assert IsLowest(z, LowestScore(z));
  }

  // ---- why members must differ ----------------------------------------------------------------

  function Repeated(n: nat, now: int, member: Member): seq<Event> { seq(n, _ => Check(now, member)) }

  lemma SameMemberStep(w: World, now: int, member: Member, cfg: Config)
    requires cfg.maxRequests >= 2
    requires w.bucket.zset == map[] || w.bucket.zset == map[member := now]
    ensures Script(w.bucket, now, cfg, member).1.allowed
    ensures Script(w.bucket, now, cfg, member).0.zset == map[member := now]
  {
    var pruned := RemoveBelow(w.bucket.zset, now - cfg.windowMs);
    SubsetSize(Scored(pruned, now - cfg.windowMs, now), {member});
  }

  /** The random suffix carries the bound: if every call of one millisecond used the same
      member, a limit of two or more would admit any number of them. */
  lemma {:induction false} SharedMemberEscapesLimit(n: nat, now: int, member: Member, cfg: Config)
    requires cfg.maxRequests >= 2
    ensures Script(Run(Repeated(n, now, member), cfg).bucket, now, cfg, member).1.allowed
    ensures var z := Run(Repeated(n, now, member), cfg).bucket.zset; z == map[] || z == map[member := now]
  {
    if n > 0 {
      assert Repeated(n, now, member)[..n - 1] == Repeated(n - 1, now, member);
      SharedMemberEscapesLimit(n - 1, now, member, cfg);
      SameMemberStep(Run(Repeated(n - 1, now, member), cfg), now, member, cfg);
    }
    SameMemberStep(Run(Repeated(n, now, member), cfg), now, member, cfg);
  }
}
