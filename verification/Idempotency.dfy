/** The idempotency interceptor: concurrent requests over a Redis cache and a database
    table with a unique (key, user) row. */
module Idempotency {
  import opened Prelude

  // ---- requests -------------------------------------------------------------------

  /** A key as a user submitted it. */
  datatype Id = Id(userId: string, key: string)

  datatype Request = Request(id: Id, bodyHash: string)

  predicate IsHex(c: char) { '0' <= c <= '9' || 'a' <= c <= 'f' || 'A' <= c <= 'F' }

  /** 8-4-4-4-12 hexadecimal digits, either case. */
  predicate IsUuid(s: string) {
    && |s| == 36
    && forall i :: 0 <= i < 36 ==> if i in {8, 13, 18, 23} then s[i] == '-' else IsHex(s[i])
  }

  datatype Admission = PassThrough | MissingKey | InvalidKey | Guarded(key: string)

  function Admit(httpMethod: string, header: Option<string>): Admission {
    if httpMethod != "POST" then PassThrough
    else if header.None? || header.value == "" then MissingKey
    else if !IsUuid(header.value) then InvalidKey
    else Guarded(header.value)
  }

  function CacheKey(id: Id): string { "idempotency:" + id.userId + ":" + id.key }

  /** Different (user, key) pairs never share a Redis entry, although user ids are free
      text: every accepted key has the same length. */
  lemma CacheKeysAreDistinct(headerA: Option<string>, a: Id, headerB: Option<string>, b: Id)
    requires Admit("POST", headerA) == Guarded(a.key) && Admit("POST", headerB) == Guarded(b.key)
    ensures CacheKey(a) == CacheKey(b) <==> a == b
  {
    var ka, kb := CacheKey(a), CacheKey(b);
    if ka == kb {
      assert |a.userId| == |ka| - 49 == |kb| - 49 == |b.userId|;
      assert ka[12..|ka| - 37] == a.userId && kb[12..|kb| - 37] == b.userId;
      assert ka[|ka| - 36..] == a.key && kb[|kb| - 36..] == b.key;
    }
  }

  // ---- stored data -----------------------------------------------------------------

  /** A response body; `Null` stands for null and undefined alike. */
  datatype Body = Null | Json(text: string)

  const EMPTY_OBJECT := Json("{}")

  function OrEmpty(data: Body): Body { if data == Null then EMPTY_OBJECT else data }

  /** `rowId` is the generated primary key; the inserting request is its only holder. */
  datatype Row = Row(rowId: nat, bodyHash: string, statusCode: nat, responseBody: Body, locked: bool)

  datatype Record = Record(response: Body, statusCode: nat, userId: string, bodyHash: string)

  datatype Source = Redis | Database

  datatype Reply =
    | Answered(status: nat, data: Body)                  // the handler's own response
    | Replayed(status: nat, body: Body, source: Source)
    | Conflict
    | Forbidden
    | Failed

  // ---- the decisions of the interceptor ------------------------------------------------

  /** `replayFromCache`. */
  function ReplayFromCache(cached: Record, req: Request): Reply {
    if cached.userId != req.id.userId then Forbidden
    else if cached.bodyHash != req.bodyHash then Conflict
    else Replayed(cached.statusCode, cached.response, Redis)
  }

  /** The answer to a request whose row already exists. */
  function ReplayFromRow(row: Row, req: Request): Reply {
    if row.bodyHash != req.bodyHash then Conflict
    else if row.locked then Conflict
    else Replayed(row.statusCode, row.responseBody, Database)
  }

  // ---- small steps ------------------------------------------------------------------------

  datatype Phase = AtRedis | AtDatabase | AtInsert | AtHandler | InHandler | AtPersist | AtCache | Done

  datatype Thread = Thread(req: Request, phase: Phase, reply: Option<Reply>)

  datatype State = State(db: map<Id, Row>, redis: map<Id, Record>, threads: map<nat, Thread>)

  const EMPTY := State(map[], map[], map[])

  datatype Event =
    | Arrive(t: nat, req: Request)
    | ReadRedis(t: nat, up: bool)
    | ReadDatabase(t: nat)
    | InsertRow(t: nat, up: bool)
    | StartHandler(t: nat)
    | HandlerReturns(t: nat, status: nat, data: Body)
    | HandlerThrows(t: nat)
    | Persist(t: nat)
    | WriteCache(t: nat, up: bool)
    | Crash(t: nat)
    | Evict(id: Id)

  predicate At(s: State, t: nat, phase: Phase) { t in s.threads && s.threads[t].phase == phase }

  function Moved(s: State, t: nat, phase: Phase): State
    requires t in s.threads
  {
    s.(threads := s.threads[t := s.threads[t].(phase := phase)])
  }

  function Replied(s: State, t: nat, phase: Phase, reply: Reply): State
    requires t in s.threads
  {
    s.(threads := s.threads[t := s.threads[t].(phase := phase, reply := Some(reply))])
  }

  function StepReadRedis(s: State, t: nat, up: bool): State
    requires t in s.threads
  {
    var req := s.threads[t].req;
    if up && req.id in s.redis then Replied(s, t, Done, ReplayFromCache(s.redis[req.id], req))
    else Moved(s, t, AtDatabase)
  }

  function StepReadDatabase(s: State, t: nat): State
    requires t in s.threads
  {
    var req := s.threads[t].req;
    if req.id in s.db then Replied(s, t, Done, ReplayFromRow(s.db[req.id], req)) else Moved(s, t, AtInsert)
  }

  /** The unique constraint: the insert succeeds only if nobody else's row is there. */
  function StepInsert(s: State, t: nat, up: bool): State
    requires t in s.threads
  {
    var req := s.threads[t].req;
    if !up then Replied(s, t, Done, Failed)
    else if req.id in s.db then Replied(s, t, Done, Conflict)
    else Moved(s, t, AtHandler).(db := s.db[req.id := Row(t, req.bodyHash, 0, EMPTY_OBJECT, true)])
  }

  /** The update by primary key: response stored and lock released in one write. */
  function StepPersist(s: State, t: nat): State
    requires t in s.threads
  {
    var th := s.threads[t];
    if th.req.id in s.db && s.db[th.req.id].rowId == t && th.reply.Some? && th.reply.value.Answered? then
      var answer := th.reply.value;
      Moved(s, t, AtCache).(db := s.db[th.req.id :=
        s.db[th.req.id].(statusCode := answer.status, responseBody := OrEmpty(answer.data), locked := false)])
    else Moved(s, t, Done)
  }

  /** SET NX: an entry already there stays. */
  function StepWriteCache(s: State, t: nat, up: bool): State
    requires t in s.threads
  {
    var th := s.threads[t];
    if up && th.req.id !in s.redis && th.reply.Some? && th.reply.value.Answered? then
      Moved(s, t, Done).(redis := s.redis[th.req.id :=
        Record(th.reply.value.data, th.reply.value.status, th.req.id.userId, th.req.bodyHash)])
    else Moved(s, t, Done)
  }

  /** One atomic step; a step that is not enabled changes nothing. */
  function Step(s: State, e: Event): State {
    match e
    case Arrive(t, req) =>
      if t in s.threads then s else s.(threads := s.threads[t := Thread(req, AtRedis, None)])
    case ReadRedis(t, up) => if At(s, t, AtRedis) then StepReadRedis(s, t, up) else s
    case ReadDatabase(t) => if At(s, t, AtDatabase) then StepReadDatabase(s, t) else s
    case InsertRow(t, up) => if At(s, t, AtInsert) then StepInsert(s, t, up) else s
    case StartHandler(t) => if At(s, t, AtHandler) then Moved(s, t, InHandler) else s
    case HandlerReturns(t, status, data) =>
      if At(s, t, InHandler) then Replied(s, t, AtPersist, Answered(status, data)) else s
    case HandlerThrows(t) => if At(s, t, InHandler) then Replied(s, t, Done, Failed) else s
    case Persist(t) => if At(s, t, AtPersist) then StepPersist(s, t) else s
    case WriteCache(t, up) => if At(s, t, AtCache) then StepWriteCache(s, t, up) else s
    case Crash(t) => if t in s.threads then Moved(s, t, Done) else s
    case Evict(id) => s.(redis := s.redis - {id})
  }

  function Run(events: seq<Event>): State {
    if events == [] then EMPTY else Step(Run(events[..|events| - 1]), events[|events| - 1])
  }

  // ---- the interceptor -------------------------------------------------------------------------

  /** What the handler does when it runs. */
  datatype HandlerResult = Returns(status: nat, data: Body) | Throws

  /** The steps of a request that holds its row: run the handler, persist, cache. */
  function RunHandler(s: State, t: nat, cacheUp: bool, handler: HandlerResult): State {
    var started := Step(s, StartHandler(t));
    var ended := Step(started, if handler.Returns? then HandlerReturns(t, handler.status, handler.data)
        else HandlerThrows(t));
    Step(Step(ended, Persist(t)), WriteCache(t, cacheUp))
  }

  function UseDatabase(s: State, t: nat, cacheUp: bool, handler: HandlerResult): State {
    RunHandler(Step(Step(s, ReadDatabase(t)), InsertRow(t, true)), t, cacheUp, handler)
  }

  /** The steps one request takes when nothing interleaves; steps it skips change nothing. */
  function Alone(s: State, t: nat, req: Request, redisUp: bool, cacheUp: bool, handler: HandlerResult): State {
    UseDatabase(Step(Step(s, Arrive(t, req)), ReadRedis(t, redisUp)), t, cacheUp, handler)
  }

  lemma DoneIsQuiet(s: State, t: nat, cacheUp: bool, handler: HandlerResult)
    requires At(s, t, Done)
    ensures RunHandler(s, t, cacheUp, handler) == s && UseDatabase(s, t, cacheUp, handler) == s
  {
  }

  lemma AnswerRunsThrough(s: State, t: nat, cacheUp: bool)
    requires At(s, t, AtPersist) && s.threads[t].req.id in s.db && s.db[s.threads[t].req.id].rowId == t
    requires s.threads[t].reply.Some? && s.threads[t].reply.value.Answered?
    ensures var req, answer := s.threads[t].req, s.threads[t].reply.value;
            var after := Step(Step(s, Persist(t)), WriteCache(t, cacheUp));
            && t in after.threads && after.threads[t].reply == s.threads[t].reply
            && after.db == s.db[req.id := s.db[req.id].(statusCode := answer.status,
                                                        responseBody := OrEmpty(answer.data), locked := false)]
            && after.redis == if cacheUp && req.id !in s.redis
                              then s.redis[req.id := Record(answer.data, answer.status, req.id.userId, req.bodyHash)]
                              else s.redis
  {
    assert At(Step(s, Persist(t)), t, AtCache);
  }

  /** Holding the row, an undisturbed request stores its response in both places. */
  lemma HandlerRunsThrough(s: State, t: nat, cacheUp: bool, handler: HandlerResult)
    requires At(s, t, AtHandler) && s.threads[t].req.id in s.db && s.db[s.threads[t].req.id].rowId == t
    ensures var req := s.threads[t].req;
            var after := RunHandler(s, t, cacheUp, handler);
            && t in after.threads
            && (match handler
                case Throws =>
                  after.db == s.db && after.redis == s.redis && after.threads[t].reply == Some(Failed)
                case Returns(status, data) =>
                  && after.threads[t].reply == Some(Answered(status, data))
                  && after.db == s.db[req.id := s.db[req.id].(statusCode := status, responseBody := OrEmpty(data),
                      locked := false)]
                  && after.redis == if cacheUp && req.id !in s.redis
                                    then s.redis[req.id := Record(data, status, req.id.userId, req.bodyHash)]
                                    else s.redis)
  {
    var req, started := s.threads[t].req, Step(s, StartHandler(t));
    assert At(started, t, InHandler);
    if handler.Returns? {
      var ended := Step(started, HandlerReturns(t, handler.status, handler.data));
      var answered := Thread(req, AtPersist, Some(Answered(handler.status, handler.data)));
      assert ended == s.(threads := s.threads[t := answered]);
      AnswerRunsThrough(ended, t, cacheUp);
    } else {
      var ended := Step(started, HandlerThrows(t));
      assert ended == s.(threads := s.threads[t := Thread(req, Done, Some(Failed))]);
    }
  }

  class IdempotencyInterceptor {
    var db: map<Id, Row>
    var redis: map<Id, Record>

    constructor ()
      ensures db == map[] && redis == map[]
    {
      db, redis := map[], map[];
    }

    /** `intercept` from the cache read on, run without interruption: its effect on both
        stores and its reply are those of the small steps. */
    method Intercept(t: nat, req: Request, redisUp: bool, cacheUp: bool, handler: HandlerResult) returns (reply: Reply)
      modifies this
      ensures var s := Alone(State(old(db), old(redis), map[]), t, req, redisUp, cacheUp, handler);
              && db == s.db && redis == s.redis
              && t in s.threads && s.threads[t].reply == Some(reply)
    {
      ghost var arrived := Step(State(db, redis, map[]), Arrive(t, req));
      ghost var looked := Step(arrived, ReadRedis(t, redisUp));
      if redisUp && req.id in redis {
        DoneIsQuiet(looked, t, cacheUp, handler);
        return ReplayFromCache(redis[req.id], req);
      }
      ghost var read := Step(looked, ReadDatabase(t));
      if req.id in db {
        DoneIsQuiet(read, t, cacheUp, handler);
        var existing := db[req.id];
        if existing.bodyHash != req.bodyHash { return Conflict; }
        if existing.locked { return Conflict; }
        return Replayed(existing.statusCode, existing.responseBody, Database);
      }
      HandlerRunsThrough(Step(read, InsertRow(t, true)), t, cacheUp, handler);
      db := db[req.id := Row(t, req.bodyHash, 0, EMPTY_OBJECT, true)];
      match handler {
        case Throws => return Failed;
        case Returns(status, data) =>
          db := db[req.id := db[req.id].(statusCode := status, responseBody := OrEmpty(data), locked := false)];
          if cacheUp && req.id !in redis {
            redis := redis[req.id := Record(data, status, req.id.userId, req.bodyHash)];
          }
          return Answered(status, data);
      }
    }
  }

  // ---- what every step keeps --------------------------------------------------------------------

  predicate Early(p: Phase) { p == AtRedis || p == AtDatabase || p == AtInsert }
  predicate Working(p: Phase) { p == AtHandler || p == InHandler || p == AtPersist }

  /** The request holds the row of its key. */
  predicate Owns(s: State, t: nat)
    requires t in s.threads
  {
    var req := s.threads[t].req;
    req.id in s.db && s.db[req.id].rowId == t && s.db[req.id].bodyHash == req.bodyHash
  }

  /** The response the holder of `row` gave its own client. */
  predicate WinnerAnswered(s: State, row: Row, status: nat, data: Body) {
    row.rowId in s.threads && s.threads[row.rowId].reply == Some(Answered(status, data))
  }

  ghost predicate IsReplayOf(s: State, row: Row, status: nat, body: Body, source: Source) {
    exists data :: WinnerAnswered(s, row, status, data) && body == (if source == Redis then data else OrEmpty(data))
  }

  ghost predicate ThreadOk(s: State, t: nat)
    requires t in s.threads
  {
    var th := s.threads[t];
    && (Early(th.phase) || th.phase == AtHandler || th.phase == InHandler ==> th.reply == None)
    && (Working(th.phase) ==> Owns(s, t) && s.db[th.req.id].locked)
    && (th.phase == AtPersist || th.phase == AtCache ==> th.reply.Some? && th.reply.value.Answered?)
    && th.reply != Some(Forbidden)
    && (th.phase == AtCache ==> Owns(s, t) && !s.db[th.req.id].locked
                                && s.db[th.req.id].statusCode == th.reply.value.status)
    && (th.reply.Some? && th.reply.value.Answered? ==> Owns(s, t))
    && (th.reply.Some? && th.reply.value.Replayed? ==>
          && th.req.id in s.db && !s.db[th.req.id].locked && s.db[th.req.id].bodyHash == th.req.bodyHash
          && IsReplayOf(s, s.db[th.req.id], th.reply.value.status, th.reply.value.body, th.reply.value.source))
  }

  ghost predicate RowOk(s: State, id: Id)
    requires id in s.db
  {
    var row := s.db[id];
    && row.rowId in s.threads && s.threads[row.rowId].req == Request(id, row.bodyHash)
    && !Early(s.threads[row.rowId].phase)
    && (!row.locked ==>
          exists data :: WinnerAnswered(s, row, row.statusCode, data) && row.responseBody == OrEmpty(data))
  }

  ghost predicate CacheOk(s: State, id: Id)
    requires id in s.redis
  {
    var cached := s.redis[id];
    && id in s.db && !s.db[id].locked
    && cached.userId == id.userId && cached.bodyHash == s.db[id].bodyHash
    && WinnerAnswered(s, s.db[id], cached.statusCode, cached.response)
  }

  ghost predicate Inv(s: State) {
    && (forall t :: t in s.threads ==> ThreadOk(s, t))
    && (forall id :: id in s.db ==> RowOk(s, id))
    && (forall id :: id in s.redis ==> CacheOk(s, id))
  }

  /** What a step never takes back: given answers, row identities, released rows. */
  ghost predicate Extends(s: State, s': State) {
    && (forall t :: t in s.threads ==>
          && t in s'.threads && s'.threads[t].req == s.threads[t].req
          && (s.threads[t].reply.Some? ==> s'.threads[t].reply == s.threads[t].reply)
          && (!Early(s.threads[t].phase) ==> !Early(s'.threads[t].phase)))
    && (forall id :: id in s.db ==>
          && id in s'.db && s'.db[id].rowId == s.db[id].rowId && s'.db[id].bodyHash == s.db[id].bodyHash
          && (!s.db[id].locked ==> s'.db[id] == s.db[id]))
  }

  // ---- each step keeps the invariant ----------------------------------------------------------------

  lemma ReplaySurvives(s: State, s': State, row: Row, status: nat, body: Body, source: Source)
    requires Extends(s, s') && IsReplayOf(s, row, status, body, source)
    ensures IsReplayOf(s', row, status, body, source)
  {
    var data :| WinnerAnswered(s, row, status, data) && body == (if source == Redis then data else OrEmpty(data));
    assert WinnerAnswered(s', row, status, data);
  }

  /** A thread that did not move stays in order, as long as its row is not locked again. */
  lemma BystanderOk(s: State, s': State, t: nat)
    requires t in s.threads && ThreadOk(s, t) && Extends(s, s')
    requires s'.threads[t] == s.threads[t]
    requires Working(s.threads[t].phase) && s.threads[t].req.id in s.db ==>
               s'.db[s.threads[t].req.id].locked == s.db[s.threads[t].req.id].locked
    ensures ThreadOk(s', t)
  {
    var th := s.threads[t];
    if th.reply.Some? && th.reply.value.Replayed? {
      ReplaySurvives(s, s', s.db[th.req.id], th.reply.value.status, th.reply.value.body, th.reply.value.source);
    }
  }

  lemma RowSurvives(s: State, s': State, id: Id)
    requires id in s.db && RowOk(s, id) && Extends(s, s') && s'.db[id] == s.db[id]
    ensures RowOk(s', id)
  {
    var row := s.db[id];
    if !row.locked {
      var data :| WinnerAnswered(s, row, row.statusCode, data) && row.responseBody == OrEmpty(data);
      assert WinnerAnswered(s', row, row.statusCode, data);
    }
  }

  lemma CacheSurvives(s: State, s': State, id: Id)
    requires id in s.redis && CacheOk(s, id) && Extends(s, s') && id in s'.redis && s'.redis[id] == s.redis[id]
    ensures CacheOk(s', id)
  {
    assert WinnerAnswered(s', s.db[id], s.redis[id].statusCode, s.redis[id].response);
  }

  /** A step that changes thread `t`, and of the stores at most the entries of `id`. */
  lemma Touch(s: State, s': State, t: nat, id: Id)
    requires Inv(s) && Extends(s, s') && t in s'.threads && ThreadOk(s', t)
    requires forall u :: u in s'.threads && u != t ==> u in s.threads && s'.threads[u] == s.threads[u]
    requires forall i :: i in s'.db && i != id ==> i in s.db && s'.db[i] == s.db[i]
    requires forall i :: i in s'.redis && i != id ==> i in s.redis && s'.redis[i] == s.redis[i]
    requires id in s.db ==> s.db[id].rowId == t || s'.db[id] == s.db[id]
    requires id in s'.db ==> RowOk(s', id)
    requires id in s'.redis ==> CacheOk(s', id)
    ensures Inv(s')
  {
    forall u | u in s'.threads ensures ThreadOk(s', u) {
      if u != t {
        assert ThreadOk(s, u);
        BystanderOk(s, s', u);
      }
    }
    forall i | i in s'.db ensures RowOk(s', i) {
      if i != id { RowSurvives(s, s', i); }
    }
    forall i | i in s'.redis ensures CacheOk(s', i) {
      if i != id { CacheSurvives(s, s', i); }
    }
  }

  /** Changing the phase of one thread, or giving it its first reply, takes nothing back. */
  lemma MoveExtends(s: State, t: nat, th: Thread)
    requires t in s.threads && th.req == s.threads[t].req
    requires s.threads[t].reply.Some? ==> th.reply == s.threads[t].reply
    requires !Early(s.threads[t].phase) ==> !Early(th.phase)
    ensures Extends(s, s.(threads := s.threads[t := th]))
  {
  }

  lemma MoveKeeps(s: State, t: nat, th: Thread)
    requires Inv(s) && t in s.threads && th.req == s.threads[t].req
    requires s.threads[t].reply.Some? ==> th.reply == s.threads[t].reply
    requires !Early(s.threads[t].phase) ==> !Early(th.phase)
    requires ThreadOk(s.(threads := s.threads[t := th]), t)
    ensures Inv(s.(threads := s.threads[t := th])) && Extends(s, s.(threads := s.threads[t := th]))
  {
    var s', id := s.(threads := s.threads[t := th]), th.req.id;
    MoveExtends(s, t, th);
    if id in s.db { RowSurvives(s, s', id); }
    if id in s.redis { CacheSurvives(s, s', id); }
    Touch(s, s', t, id);
  }

  /** A replay read from a released row or from the cache is a replay of the winner. */
  lemma ReplayOk(s: State, t: nat, reply: Reply)
    requires t in s.threads && s.threads[t].reply == None && s.threads[t].req.id in s.db
    requires RowOk(s, s.threads[t].req.id)
    requires reply.Replayed?
    requires var row := s.db[s.threads[t].req.id];
             && !row.locked && row.bodyHash == s.threads[t].req.bodyHash
             && IsReplayOf(s, row, reply.status, reply.body, reply.source)
    ensures ThreadOk(Replied(s, t, Done, reply), t)
  {
    var row, s' := s.db[s.threads[t].req.id], Replied(s, t, Done, reply);
    var data :| WinnerAnswered(s, row, reply.status, data) && reply.body == (if reply.source
        == Redis then data else OrEmpty(data));
    assert WinnerAnswered(s', row, reply.status, data);
  }

  lemma ReadRedisKeeps(s: State, t: nat, up: bool)
    requires Inv(s) && At(s, t, AtRedis)
    ensures Inv(StepReadRedis(s, t, up)) && Extends(s, StepReadRedis(s, t, up))
  {
    var req := s.threads[t].req;
    assert s.threads[t].reply == None by { assert ThreadOk(s, t); }
    if up && req.id in s.redis {
      var reply := ReplayFromCache(s.redis[req.id], req);
      assert CacheOk(s, req.id) && RowOk(s, req.id);
      if reply.Replayed? { ReplayOk(s, t, reply); }
      MoveKeeps(s, t, s.threads[t].(phase := Done, reply := Some(reply)));
    } else {
      MoveKeeps(s, t, s.threads[t].(phase := AtDatabase));
    }
  }

  lemma ReadDatabaseKeeps(s: State, t: nat)
    requires Inv(s) && At(s, t, AtDatabase)
    ensures Inv(StepReadDatabase(s, t)) && Extends(s, StepReadDatabase(s, t))
  {
    var req := s.threads[t].req;
    assert s.threads[t].reply == None by { assert ThreadOk(s, t); }
    if req.id in s.db {
      var reply := ReplayFromRow(s.db[req.id], req);
      assert RowOk(s, req.id);
      if reply.Replayed? { ReplayOk(s, t, reply); }
      MoveKeeps(s, t, s.threads[t].(phase := Done, reply := Some(reply)));
    } else {
      MoveKeeps(s, t, s.threads[t].(phase := AtInsert));
    }
  }

  lemma CachedRow(s: State, id: Id)
    requires Inv(s)
    ensures id in s.redis ==> id in s.db && !s.db[id].locked
  {
    assert id in s.redis ==> CacheOk(s, id);
  }

  /** An insert that takes the row. */
  lemma InsertExtends(s: State, t: nat)
    requires At(s, t, AtInsert) && s.threads[t].reply == None && s.threads[t].req.id !in s.db
    ensures var s' := StepInsert(s, t, true);
            Extends(s, s') && t in s'.threads && ThreadOk(s', t) && RowOk(s', s.threads[t].req.id)
  {
  }

  lemma InsertKeeps(s: State, t: nat, up: bool)
    requires Inv(s) && At(s, t, AtInsert)
    ensures Inv(StepInsert(s, t, up)) && Extends(s, StepInsert(s, t, up))
  {
    var s', id := StepInsert(s, t, up), s.threads[t].req.id;
    assert s.threads[t].reply == None by { assert ThreadOk(s, t); }
    if !up || id in s.db {
      MoveKeeps(s, t, s.threads[t].(phase := Done, reply := Some(if up then Conflict else Failed)));
    } else {
      CachedRow(s, id);
      InsertExtends(s, t);
      Touch(s, s', t, id);
    }
  }

  lemma PersistExtends(s: State, t: nat)
    requires Inv(s) && At(s, t, AtPersist)
    ensures Extends(s, StepPersist(s, t)) && Owns(s, t) && At(StepPersist(s, t), t, AtCache)
    ensures s.threads[t].reply.Some? && s.threads[t].reply.value.Answered? && s.db[s.threads[t].req.id].locked
  {
    assert ThreadOk(s, t);
  }

  lemma PersistKeeps(s: State, t: nat)
    requires Inv(s) && At(s, t, AtPersist)
    ensures Inv(StepPersist(s, t)) && Extends(s, StepPersist(s, t))
  {
    PersistExtends(s, t);
    var s', id := StepPersist(s, t), s.threads[t].req.id;
    var answer := s.threads[t].reply.value;
    assert RowOk(s', id) by {
      assert WinnerAnswered(s', s'.db[id], answer.status, answer.data);
    }
    CachedRow(s, id);
    Touch(s, s', t, id);
  }

  lemma WriteCacheKeeps(s: State, t: nat, up: bool)
    requires Inv(s) && At(s, t, AtCache)
    ensures Inv(StepWriteCache(s, t, up)) && Extends(s, StepWriteCache(s, t, up))
  {
    var s', id := StepWriteCache(s, t, up), s.threads[t].req.id;
    assert ThreadOk(s, t);
    MoveKeeps(s, t, s.threads[t].(phase := Done));
    var moved := Moved(s, t, Done);
    if s' != moved {
      assert CacheOk(s', id) by {
        assert WinnerAnswered(s', s'.db[id], s'.redis[id].statusCode, s'.redis[id].response);
      }
      assert Extends(moved, s');
      RowSurvives(moved, s', id);
      BystanderOk(moved, s', t);
      Touch(moved, s', t, id);
    }
  }

  lemma CrashKeeps(s: State, t: nat)
    requires Inv(s) && t in s.threads
    ensures Inv(Moved(s, t, Done)) && Extends(s, Moved(s, t, Done))
  {
    var s', th := Moved(s, t, Done), s.threads[t];
    assert ThreadOk(s, t);
    MoveExtends(s, t, th.(phase := Done));
    if th.reply.Some? && th.reply.value.Replayed? {
      ReplaySurvives(s, s', s.db[th.req.id], th.reply.value.status, th.reply.value.body, th.reply.value.source);
    }
    MoveKeeps(s, t, th.(phase := Done));
  }

  lemma EvictKeeps(s: State, id: Id)
    requires Inv(s)
    ensures Inv(Step(s, Evict(id))) && Extends(s, Step(s, Evict(id)))
  {
    var s' := Step(s, Evict(id));
    assert Extends(s, s');
    forall u | u in s'.threads ensures ThreadOk(s', u) {
      assert ThreadOk(s, u);
      BystanderOk(s, s', u);
    }
    forall i | i in s'.db ensures RowOk(s', i) { RowSurvives(s, s', i); }
    forall i | i in s'.redis ensures CacheOk(s', i) { CacheSurvives(s, s', i); }
  }

  lemma ArriveExtends(s: State, t: nat, req: Request)
    requires t !in s.threads
    ensures var s' := Step(s, Arrive(t, req));
            && Extends(s, s') && t in s'.threads && ThreadOk(s', t)
            && s'.db == s.db && s'.redis == s.redis && s'.threads == s.threads[t := Thread(req, AtRedis, None)]
  {
  }

  lemma ArriveKeeps(s: State, t: nat, req: Request)
    requires Inv(s) && t !in s.threads
    ensures Inv(Step(s, Arrive(t, req))) && Extends(s, Step(s, Arrive(t, req)))
  {
    var s' := Step(s, Arrive(t, req));
    ArriveExtends(s, t, req);
    assert req.id in s'.db ==> RowOk(s', req.id) by {
      if req.id in s.db { RowSurvives(s, s', req.id); }
    }
    assert req.id in s'.redis ==> CacheOk(s', req.id) by {
      if req.id in s.redis { CacheSurvives(s, s', req.id); }
    }
    Touch(s, s', t, req.id);
  }

  /** Starting and ending the handler move the holder of the row only. */
  lemma HandlerKeeps(s: State, e: Event)
    requires Inv(s) && (e.StartHandler? || e.HandlerReturns? || e.HandlerThrows?)
    ensures Inv(Step(s, e)) && Extends(s, Step(s, e))
  {
    if Step(s, e) != s {
      var th := s.threads[e.t];
      assert ThreadOk(s, e.t);
      MoveKeeps(s, e.t, Step(s, e).threads[e.t]);
    }
  }

  /** The invariant after a step, and nothing taken back. */
  ghost predicate Kept(s: State, s': State) { Inv(s') && Extends(s, s') }

  lemma Stays(s: State)
    requires Inv(s)
    ensures Kept(s, s)
  {
  }

  lemma EarlyKeeps(s: State, t: nat, up: bool)
    requires Inv(s)
    ensures Kept(s, Step(s, ReadRedis(t, up))) && Kept(s, Step(s, ReadDatabase(t)))
  {
    Stays(s);
    if At(s, t, AtRedis) { ReadRedisKeeps(s, t, up); }
    if At(s, t, AtDatabase) { ReadDatabaseKeeps(s, t); }
  }

  lemma InsertStep(s: State, t: nat, up: bool)
    requires Inv(s)
    ensures Kept(s, Step(s, InsertRow(t, up)))
  {
    if At(s, t, AtInsert) { InsertKeeps(s, t, up); } else { Stays(s); }
  }

  lemma PersistStep(s: State, t: nat)
    requires Inv(s)
    ensures Kept(s, Step(s, Persist(t)))
  {
    if At(s, t, AtPersist) { PersistKeeps(s, t); } else { Stays(s); }
  }

  lemma CacheStep(s: State, t: nat, up: bool)
    requires Inv(s)
    ensures Kept(s, Step(s, WriteCache(t, up)))
  {
    if At(s, t, AtCache) { WriteCacheKeeps(s, t, up); } else { Stays(s); }
  }

  lemma EndsKeep(s: State, t: nat, req: Request)
    requires Inv(s)
    ensures Kept(s, Step(s, Arrive(t, req))) && Kept(s, Step(s, Crash(t)))
  {
    Stays(s);
    if t in s.threads { CrashKeeps(s, t); } else { ArriveKeeps(s, t, req); }
  }

  lemma StepKept(s: State, e: Event)
    requires Inv(s)
    ensures Kept(s, Step(s, e))
  {
    match e
    case Arrive(t, req) => EndsKeep(s, t, req);
    case ReadRedis(t, up) => EarlyKeeps(s, t, up);
    case ReadDatabase(t) => EarlyKeeps(s, t, true);
    case InsertRow(t, up) => InsertStep(s, t, up);
    case Persist(t) => PersistStep(s, t);
    case WriteCache(t, up) => CacheStep(s, t, up);
    case Crash(t) => EndsKeep(s, t, Request(Id("", ""), ""));
    case Evict(id) => EvictKeeps(s, id);
    case StartHandler(t) => HandlerKeeps(s, e);
    case HandlerReturns(t, status, data) => HandlerKeeps(s, e);
    case HandlerThrows(t) => HandlerKeeps(s, e);
  }

  lemma StepKeepsInv(s: State, e: Event)
    requires Inv(s)
    ensures Inv(Step(s, e)) && Extends(s, Step(s, e))
  {
    StepKept(s, e);
  }

  lemma {:induction false} RunKeepsInv(events: seq<Event>)
    ensures Inv(Run(events))
  {
    if events != [] {
      RunKeepsInv(events[..|events| - 1]);
      StepKeepsInv(Run(events[..|events| - 1]), events[|events| - 1]);
    }
  }

  // ---- at most once ---------------------------------------------------------------------------------

  /** This event starts the handler on behalf of `id`. */
  predicate Starts(s: State, e: Event, id: Id) {
    e.StartHandler? && At(s, e.t, AtHandler) && s.threads[e.t].req.id == id
  }

  /** How often the handler was started for `id` during a run. */
  function HandlerRuns(events: seq<Event>, id: Id): nat {
    if events == [] then 0
    else
      var before := events[..|events| - 1];
      HandlerRuns(before, id) + if Starts(Run(before), events[|events| - 1], id) then 1 else 0
  }

  /** The request is past the start of its handler. */
  predicate HasRun(th: Thread) {
    th.phase == InHandler || th.phase == AtPersist || th.phase == AtCache || (th.reply.Some?
        && th.reply.value.Answered?)
  }

  /** What is known of the run count from the row alone. */
  predicate CountOk(s: State, id: Id, runs: nat) {
    if id !in s.db then runs == 0
    else
      && s.db[id].rowId in s.threads && runs <= 1
      && (s.threads[s.db[id].rowId].phase == AtHandler ==> runs == 0)
      && (HasRun(s.threads[s.db[id].rowId]) ==> runs == 1)
  }

  lemma PhaseFacts(s: State, t: nat)
    requires Inv(s) && t in s.threads
    ensures var th := s.threads[t];
            && (Early(th.phase) || th.phase == AtHandler || th.phase == InHandler ==> th.reply == None)
            && (th.phase == AtPersist || th.phase == AtCache ==> th.reply.Some? && th.reply.value.Answered?)
            && (th.phase == AtPersist ==> th.req.id in s.db)
  {
    assert ThreadOk(s, t);
  }

  /** Only the insert brings a request to its handler. */
  lemma ToHandler(s: State, e: Event, t: nat)
    requires t in s.threads && t in Step(s, e).threads && Step(s, e).threads[t].phase == AtHandler
    ensures s.threads[t].phase == AtHandler || (s.threads[t].phase == AtInsert && s.threads[t].req.id !in s.db)
  {
  }

  lemma OthersStay(s: State, e: Event, t: nat)
    requires t in s.threads && (e.Evict? || e.t != t)
    ensures t in Step(s, e).threads && Step(s, e).threads[t] == s.threads[t]
  {
  }

  /** Only a start brings a request past the start of its handler. */
  lemma PastHandler(s: State, e: Event, t: nat)
    requires t in s.threads && !HasRun(s.threads[t])
    requires e != StartHandler(t)
    ensures t in Step(s, e).threads && !HasRun(Step(s, e).threads[t])
  {
    if e.Evict? || e.t != t { OthersStay(s, e, t); }
  }

  /** An insert puts its own thread in front of the handler; nothing else adds a row. */
  lemma NewRow(s: State, e: Event, id: Id)
    requires Inv(s) && id !in s.db && id in Step(s, e).db
    ensures var s' := Step(s, e);
            && s'.db[id].rowId in s'.threads && s'.threads[s'.db[id].rowId].phase == AtHandler
            && !HasRun(s'.threads[s'.db[id].rowId])
  {
    if e.Persist? && At(s, e.t, AtPersist) { PhaseFacts(s, e.t); }
    assert e.InsertRow? && At(s, e.t, AtInsert) && e.up && s.threads[e.t].req.id == id;
    PhaseFacts(s, e.t);
  }

  lemma StartCounted(s: State, t: nat, runs: nat)
    requires Inv(s) && At(s, t, AtHandler) && CountOk(s, s.threads[t].req.id, runs)
    ensures CountOk(Moved(s, t, InHandler), s.threads[t].req.id, runs + 1)
  {
    assert ThreadOk(s, t);
  }

  /** A step that does not start the handler of `id` leaves its count right. */
  lemma OwnerCounted(s: State, e: Event, id: Id, runs: nat)
    requires Inv(s) && CountOk(s, id, runs) && id in s.db && !Starts(s, e, id)
    ensures CountOk(Step(s, e), id, runs)
  {
    var owner := s.db[id].rowId;
    assert owner in s.threads && s.threads[owner].req.id == id && !Early(s.threads[owner].phase) by {
      assert RowOk(s, id);
    }
    if e == StartHandler(owner) {
      assert Step(s, e) == s;
    } else {
      var s' := Step(s, e);
      assert Extends(s, s') by { StepKeepsInv(s, e); }
      assert s'.db[id].rowId == owner;
      if s'.threads[owner].phase == AtHandler { ToHandler(s, e, owner); }
      if !HasRun(s.threads[owner]) { PastHandler(s, e, owner); }
    }
  }

  lemma CountStep(s: State, e: Event, id: Id, runs: nat)
    requires Inv(s) && CountOk(s, id, runs)
    ensures CountOk(Step(s, e), id, runs + if Starts(s, e, id) then 1 else 0)
  {
    if Starts(s, e, id) {
      StartCounted(s, e.t, runs);
    } else if id !in s.db {
      if id in Step(s, e).db { NewRow(s, e, id); }
    } else {
      OwnerCounted(s, e, id, runs);
    }
  }

  lemma {:induction false} CountAlong(events: seq<Event>, id: Id)
    ensures CountOk(Run(events), id, HandlerRuns(events, id))
  {
    if events != [] {
      var before := events[..|events| - 1];
      RunKeepsInv(before);
      CountAlong(before, id);
      CountStep(Run(before), events[|events| - 1], id, HandlerRuns(before, id));
    }
  }

  // ---- main results ------------------------------------------------------------------------------------

  /** Whatever interleaves, crashes, fails or is evicted: the handler of a key starts at most
      once, and exactly once as soon as any client got its answer or a replay of it. */
  lemma AtMostOnce(events: seq<Event>, id: Id)
    ensures HandlerRuns(events, id) <= 1
    ensures forall t :: t in Run(events).threads && Run(events).threads[t].req.id == id
                        && Run(events).threads[t].reply.Some?
                        && (Run(events).threads[t].reply.value.Answered?
                            || Run(events).threads[t].reply.value.Replayed?) ==>
                          HandlerRuns(events, id) == 1
  {
    var s := Run(events);
    CountAlong(events, id);
    RunKeepsInv(events);
    forall t | t in s.threads && s.threads[t].req.id == id && s.threads[t].reply.Some?
               && (s.threads[t].reply.value.Answered? || s.threads[t].reply.value.Replayed?)
      ensures HandlerRuns(events, id) == 1
    {
      assert ThreadOk(s, t);
      assert HasRun(s.threads[s.db[id].rowId]);
    }
  }

  /** `winner` is the request whose handler answered with `status` and `data`. */
  predicate IsWinner(s: State, winner: nat, req: Request, status: nat, data: Body) {
    winner in s.threads && s.threads[winner].req == req && s.threads[winner].reply == Some(Answered(status, data))
  }

  /** A replay carries the status and body that one request with the same key and the same
      body hash was answered with; only a null body read from the database comes back as {}. */
  lemma ReplayIsTheAnswer(events: seq<Event>, t: nat) returns (winner: nat, data: Body)
    requires var s := Run(events); t in s.threads && s.threads[t].reply.Some? && s.threads[t].reply.value.Replayed?
    ensures var s := Run(events);
            var reply := s.threads[t].reply.value;
            && winner != t
            && IsWinner(s, winner, s.threads[t].req, reply.status, data)
            && reply.body == (if reply.source == Redis then data else OrEmpty(data))
  {
    var s := Run(events);
    RunKeepsInv(events);
    var req, reply := s.threads[t].req, s.threads[t].reply.value;
    assert ThreadOk(s, t) && RowOk(s, req.id);
    var row := s.db[req.id];
    winner := row.rowId;
    data :| WinnerAnswered(s, row, reply.status, data) && reply.body == (if reply.source == Redis then data
        else OrEmpty(data));
  }

  /** Only one request of a key is ever answered by its handler. */
  lemma OneWinner(events: seq<Event>, t: nat, u: nat)
    requires var s := Run(events);
             && t in s.threads && u in s.threads && s.threads[t].req.id == s.threads[u].req.id
             && s.threads[t].reply.Some? && s.threads[t].reply.value.Answered?
             && s.threads[u].reply.Some? && s.threads[u].reply.value.Answered?
    ensures t == u
  {
    RunKeepsInv(events);
    assert ThreadOk(Run(events), t) && ThreadOk(Run(events), u);
  }

  /** Replays of one key agree on the status. They agree on the body exactly when they came
      from the same store or the handler did not return null. */
  lemma ReplaysAgree(events: seq<Event>, t: nat, u: nat) returns (data: Body)
    requires var s := Run(events);
             && t in s.threads && u in s.threads && s.threads[t].req.id == s.threads[u].req.id
             && s.threads[t].reply.Some? && s.threads[t].reply.value.Replayed?
             && s.threads[u].reply.Some? && s.threads[u].reply.value.Replayed?
    ensures var s := Run(events);
            var a, b := s.threads[t].reply.value, s.threads[u].reply.value;
            && (exists winner :: IsWinner(s, winner, s.threads[t].req, a.status, data))
            && a.status == b.status
            && (a.body == b.body <==> a.source == b.source || data != Null)
  {
    var first, dataA := ReplayIsTheAnswer(events, t);
    var second, dataB := ReplayIsTheAnswer(events, u);
    OneWinner(events, first, second);
    data := dataA;
  }

  lemma MismatchRefused(s: State, t: nat)
    requires Inv(s) && t in s.threads && s.threads[t].req.id in s.db
    requires s.db[s.threads[t].req.id].bodyHash != s.threads[t].req.bodyHash
    ensures !Working(s.threads[t].phase)
    ensures s.threads[t].reply.Some? ==> s.threads[t].reply.value.Conflict? || s.threads[t].reply.value.Failed?
  {
    assert ThreadOk(s, t);
  }

  lemma RunSnoc(events: seq<Event>, e: Event)
    ensures Run(events + [e]) == Step(Run(events), e)
  {
    assert (events + [e])[..|events|] == events;
  }

  /** One request, undisturbed, whose handler returns null. */
  lemma NullAnswered(req: Request) returns (events: seq<Event>)
    ensures Run(events) == State(map[req.id := Row(0, req.bodyHash, 200, EMPTY_OBJECT, false)],
                                 map[req.id := Record(Null, 200, req.id.userId, req.bodyHash)],
                                 map[0 := Thread(req, Done, Some(Answered(200, Null)))])
  {
    RunSnoc([], Arrive(0, req));
    var arrived := [] + [Arrive(0, req)];
    RunSnoc(arrived, ReadRedis(0, true));
    var missed := arrived + [ReadRedis(0, true)];
    RunSnoc(missed, ReadDatabase(0));
    var absent := missed + [ReadDatabase(0)];
    RunSnoc(absent, InsertRow(0, true));
    var holding := absent + [InsertRow(0, true)];
    assert Run(holding) == State(map[req.id := Row(0, req.bodyHash, 0, EMPTY_OBJECT, true)], map[],
                                 map[0 := Thread(req, AtHandler, None)]);
    events := NullHandled(holding, req);
  }

  lemma NullHandled(holding: seq<Event>, req: Request) returns (events: seq<Event>)
    requires Run(holding) == State(map[req.id := Row(0, req.bodyHash, 0, EMPTY_OBJECT, true)], map[],
                                   map[0 := Thread(req, AtHandler, None)])
    ensures Run(events) == State(map[req.id := Row(0, req.bodyHash, 200, EMPTY_OBJECT, false)],
                                 map[req.id := Record(Null, 200, req.id.userId, req.bodyHash)],
                                 map[0 := Thread(req, Done, Some(Answered(200, Null)))])
  {
    RunSnoc(holding, StartHandler(0));
    var started := holding + [StartHandler(0)];
    RunSnoc(started, HandlerReturns(0, 200, Null));
    var returned := started + [HandlerReturns(0, 200, Null)];
    RunSnoc(returned, Persist(0));
    var persisted := returned + [Persist(0)];
    assert Run(persisted).db == map[req.id := Row(0, req.bodyHash, 200, EMPTY_OBJECT, false)];
    RunSnoc(persisted, WriteCache(0, true));
    events := persisted + [WriteCache(0, true)];
  }

  /** The disagreement happens: after a null answer, a replay from Redis carries null and a
      replay from the database, while Redis is away, carries {}. */
  lemma NullReplaysDiffer(req: Request) returns (events: seq<Event>)
    ensures var s := Run(events);
            && 1 in s.threads && s.threads[1] == Thread(req, Done, Some(Replayed(200, Null, Redis)))
            && 2 in s.threads && s.threads[2] == Thread(req, Done, Some(Replayed(200, EMPTY_OBJECT, Database)))
  {
    var answered := NullAnswered(req);
    RunSnoc(answered, Arrive(1, req));
    var second := answered + [Arrive(1, req)];
    RunSnoc(second, ReadRedis(1, true));
    var cached := second + [ReadRedis(1, true)];
    RunSnoc(cached, Arrive(2, req));
    var third := cached + [Arrive(2, req)];
    RunSnoc(third, ReadRedis(2, false));
    var away := third + [ReadRedis(2, false)];
    RunSnoc(away, ReadDatabase(2));
    events := away + [ReadDatabase(2)];
  }

  /** A request whose body differs from the one that holds its key is only ever refused. */
  lemma OtherBodyRefused(events: seq<Event>, t: nat)
    requires var s := Run(events);
             && t in s.threads && s.threads[t].req.id in s.db
             && s.db[s.threads[t].req.id].bodyHash != s.threads[t].req.bodyHash
    ensures var th := Run(events).threads[t];
            && !Working(th.phase)
            && (th.reply == None || th.reply == Some(Conflict) || th.reply == Some(Failed))
  {
    RunKeepsInv(events);
    MismatchRefused(Run(events), t);
  }

  /** A released row keeps its response: later steps never change it. */
  lemma ReleasedRowStays(events: seq<Event>, more: seq<Event>, id: Id)
    requires id in Run(events).db && !Run(events).db[id].locked
    ensures id in Run(events + more).db && Run(events + more).db[id] == Run(events).db[id]
  {
    if more == [] {
      assert events + more == events;
    } else {
      var before := more[..|more| - 1];
      ReleasedRowStays(events, before, id);
      assert (events + more)[..|events + more| - 1] == events + before;
      RunKeepsInv(events + before);
      StepKeepsInv(Run(events + before), more[|more| - 1]);
    }
  }

  /** A request that dies in its handler leaves the row locked: every later request with the
      key is refused, whatever happens, for as long as the row is there. */
  lemma CrashedHolderBlocks(events: seq<Event>, more: seq<Event>, id: Id)
    requires id in Run(events).db && Run(events).db[id].locked
    requires Run(events).db[id].rowId in Run(events).threads
    requires Run(events).threads[Run(events).db[id].rowId].phase == Done
    ensures id in Run(events + more).db && Run(events + more).db[id] == Run(events).db[id]
    ensures var s := Run(events + more);
            && s.db[id].rowId in s.threads && s.threads[s.db[id].rowId].phase == Done
            && forall t :: t in s.threads && s.threads[t].req.id == id && s.threads[t].reply.Some? ==>
                 !s.threads[t].reply.value.Replayed?
  {
    if more == [] {
      assert events + more == events;
    } else {
      var before := more[..|more| - 1];
      CrashedHolderBlocks(events, before, id);
      assert (events + more)[..|events + more| - 1] == events + before;
      RunKeepsInv(events + before);
      LockedRowStays(Run(events + before), more[|more| - 1], id);
      StepKeepsInv(Run(events + before), more[|more| - 1]);
    }
    RunKeepsInv(events + more);
    NoReplayWhileLocked(Run(events + more), id);
  }

  lemma NoReplayWhileLocked(s: State, id: Id)
    requires Inv(s) && id in s.db && s.db[id].locked
    ensures forall t :: t in s.threads && s.threads[t].req.id == id && s.threads[t].reply.Some? ==>
              !s.threads[t].reply.value.Replayed?
  {
    forall t | t in s.threads && s.threads[t].req.id == id && s.threads[t].reply.Some?
      ensures !s.threads[t].reply.value.Replayed?
    {
      assert ThreadOk(s, t);
    }
  }

  lemma LockedRowStays(s: State, e: Event, id: Id)
    requires id in s.db && s.db[id].rowId in s.threads && s.threads[s.db[id].rowId].phase == Done
    ensures id in Step(s, e).db && Step(s, e).db[id] == s.db[id]
    ensures s.db[id].rowId in Step(s, e).threads && Step(s, e).threads[s.db[id].rowId].phase == Done
  {
  }
}
