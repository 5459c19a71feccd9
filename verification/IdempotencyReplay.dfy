/** What one more request gets, from any state that any interleaving can reach: the
    response that was given once, a refusal, or a run of its own handler. */
module IdempotencyReplay {
  import opened Prelude
  import opened Idempotency

  // ---- which requests are guarded ---------------------------------------------------------

  const HEX_DIGITS := "0123456789abcdefABCDEF"

  ghost predicate HexGroup(s: string, length: nat) { |s| == length && forall i :: 0 <= i < |s| ==> s[i] in HEX_DIGITS }

  ghost predicate InGroups(key: string, a: string, b: string, c: string, d: string, e: string) {
    && HexGroup(a, 8) && HexGroup(b, 4) && HexGroup(c, 4) && HexGroup(d, 4) && HexGroup(e, 12)
    && key == a + "-" + b + "-" + c + "-" + d + "-" + e
  }

  lemma HexDigits(c: char)
    ensures IsHex(c) <==> c in HEX_DIGITS
  {
    assert HEX_DIGITS[..10] == "0123456789" && HEX_DIGITS[10..16] == "abcdef" && HEX_DIGITS[16..] == "ABCDEF";
    if '0' <= c <= '9' {
      assert HEX_DIGITS[c as int - '0' as int] == c;
    } else if 'a' <= c <= 'f' {
      assert HEX_DIGITS[10 + c as int - 'a' as int] == c;
    } else if 'A' <= c <= 'F' {
      assert HEX_DIGITS[16 + c as int - 'A' as int] == c;
    }
  }

  lemma GroupsAt(key: string, a: string, b: string, c: string, d: string, e: string)
    requires |a| == 8 && |b| == 4 && |c| == 4 && |d| == 4 && |e| == 12
    requires key == a + "-" + b + "-" + c + "-" + d + "-" + e
    ensures |key| == 36
    ensures key[8] == key[13] == key[18] == key[23] == '-'
    ensures key[..8] == a && key[9..13] == b && key[14..18] == c && key[19..23] == d && key[24..] == e
  {
  }

  lemma GroupsMakeUuid(key: string, a: string, b: string, c: string, d: string, e: string)
    requires InGroups(key, a, b, c, d, e)
    ensures IsUuid(key)
  {
    GroupsAt(key, a, b, c, d, e);
    forall i | 0 <= i < 36 && i !in {8, 13, 18, 23} ensures IsHex(key[i]) {
      HexDigits(key[i]);
      assert key[i] == if i < 8 then key[..8][i] else if i < 13 then key[9..13][i - 9]
        else if i < 18 then key[14..18][i - 14] else if i < 23 then key[19..23][i - 19] else key[24..][i - 24];
    }
  }

  lemma UuidHasGroups(key: string)
    requires IsUuid(key)
    ensures InGroups(key, key[..8], key[9..13], key[14..18], key[19..23], key[24..])
  {
    forall i | 0 <= i < 36 && i !in {8, 13, 18, 23} ensures key[i] in HEX_DIGITS { HexDigits(key[i]); }
    assert key == key[..8] + "-" + key[9..13] + "-" + key[14..18] + "-" + key[19..23] + "-" + key[24..];
  }

  /** A request is guarded by a key exactly if it is a POST whose header is that key, in groups
      of 8, 4, 4, 4 and 12 hexadecimal digits; every other POST is refused, as missing its key
      or with an invalid one, and other methods pass through. */
  lemma GuardedExactly(httpMethod: string, header: Option<string>, key: string)
    ensures var grouped := header.Some? && exists a, b, c, d, e :: InGroups(header.value, a, b, c, d, e);
            && (Admit(httpMethod, header) == Guarded(key) <==>
                  httpMethod == "POST" && header == Some(key) && grouped)
            && (Admit(httpMethod, header) == PassThrough <==> httpMethod != "POST")
            && (Admit(httpMethod, header) == MissingKey <==>
                  httpMethod == "POST" && (header == None || header == Some("")))
            && (Admit(httpMethod, header) == InvalidKey <==>
                  httpMethod == "POST" && header.Some? && header != Some("") && !grouped)
  {
    if header.Some? {
      forall a, b, c, d, e | InGroups(header.value, a, b, c, d, e) ensures IsUuid(header.value) {
        GroupsMakeUuid(header.value, a, b, c, d, e);
      }
      if IsUuid(header.value) { UuidHasGroups(header.value); }
    }
  }

  // ---- one more request ------------------------------------------------------------------

  /** An undisturbed request that replies at once leaves both stores as they are. */
  lemma FromRedis(s: State, t: nat, req: Request, cacheUp: bool, handler: HandlerResult)
    requires t !in s.threads && req.id in s.redis
    ensures var after := Alone(s, t, req, true, cacheUp, handler);
            && after.db == s.db && after.redis == s.redis
            && t in after.threads && after.threads[t].reply == Some(ReplayFromCache(s.redis[req.id], req))
  {
    DoneIsQuiet(Step(Step(s, Arrive(t, req)), ReadRedis(t, true)), t, cacheUp, handler);
  }

  lemma FromDatabase(s: State, t: nat, req: Request, redisUp: bool, cacheUp: bool, handler: HandlerResult)
    requires t !in s.threads && !(redisUp && req.id in s.redis) && req.id in s.db
    ensures var after := Alone(s, t, req, redisUp, cacheUp, handler);
            && after.db == s.db && after.redis == s.redis
            && t in after.threads && after.threads[t].reply == Some(ReplayFromRow(s.db[req.id], req))
  {
    var looked := Step(Step(s, Arrive(t, req)), ReadRedis(t, redisUp));
    assert At(looked, t, AtDatabase);
    DoneIsQuiet(Step(looked, ReadDatabase(t)), t, cacheUp, handler);
  }

  /** The cached record and the released row both hold what the winner was answered. */
  lemma StoresHoldTheAnswer(s: State, id: Id)
    requires Inv(s) && id in s.db && !s.db[id].locked
    ensures exists data :: WinnerAnswered(s, s.db[id], s.db[id].statusCode, data)
                           && s.db[id].responseBody == OrEmpty(data)
    ensures id in s.redis ==>
              && s.redis[id].userId == id.userId && s.redis[id].bodyHash == s.db[id].bodyHash
              && WinnerAnswered(s, s.db[id], s.redis[id].statusCode, s.redis[id].response)
  {
    assert RowOk(s, id);
    if id in s.redis { assert CacheOk(s, id); }
  }

  /** A completed request is replayed: whenever some request was answered (status, data) and its
      row is released, any new undisturbed request with the same key and body hash gets that
      very answer - from Redis if the entry is there and Redis is up, and otherwise from the
      database, where a null body reads {} - whatever the status, the body and its own
      handler; and neither store changes. */
  lemma AnsweredIsReplayed(events: seq<Event>, winner: nat, status: nat, data: Body,
                           t: nat, req: Request, redisUp: bool, cacheUp: bool, handler: HandlerResult)
    requires var s := Run(events);
             && IsWinner(s, winner, req, status, data) && t !in s.threads
             && req.id in s.db && !s.db[req.id].locked
    ensures var s := Run(events);
            var after := Alone(s, t, req, redisUp, cacheUp, handler);
            && after.db == s.db && after.redis == s.redis
            && t in after.threads
            && after.threads[t].reply
               == Some(if redisUp && req.id in s.redis then Replayed(status, data, Redis)
                       else Replayed(status, OrEmpty(data), Database))
  {
    var s := Run(events);
    RunKeepsInv(events);
    assert Owns(s, winner) by { assert ThreadOk(s, winner); }
    StoresHoldTheAnswer(s, req.id);
    if redisUp && req.id in s.redis {
      FromRedis(s, t, req, cacheUp, handler);
    } else {
      FromDatabase(s, t, req, redisUp, cacheUp, handler);
    }
  }

  /** While the row is locked, or if it belongs to another body, a request is refused. */
  lemma HeldKeyRefuses(events: seq<Event>, t: nat, req: Request, redisUp: bool, cacheUp: bool, handler: HandlerResult)
    requires var s := Run(events);
             t !in s.threads && req.id in s.db && (s.db[req.id].locked || s.db[req.id].bodyHash != req.bodyHash)
    ensures var s := Run(events);
            var after := Alone(s, t, req, redisUp, cacheUp, handler);
            && after.db == s.db && after.redis == s.redis
            && t in after.threads && after.threads[t].reply == Some(Conflict)
  {
    var s := Run(events);
    RunKeepsInv(events);
    if redisUp && req.id in s.redis {
      CachedRow(s, req.id);
      StoresHoldTheAnswer(s, req.id);
      FromRedis(s, t, req, cacheUp, handler);
    } else {
      FromDatabase(s, t, req, redisUp, cacheUp, handler);
    }
  }

  /** With no row and no cached record, an undisturbed request takes the row. */
  lemma TakesRow(s: State, t: nat, req: Request, redisUp: bool) returns (held: State)
    requires t !in s.threads && req.id !in s.db && req.id !in s.redis
    ensures held
         == Step(Step(Step(Step(s, Arrive(t, req)), ReadRedis(t, redisUp)), ReadDatabase(t)), InsertRow(t, true))
    ensures held.db == s.db[req.id := Row(t, req.bodyHash, 0, Json("{}"), true)] && held.redis == s.redis
    ensures t in held.threads && held.threads[t] == Thread(req, AtHandler, None)
  {
    var looked := Step(Step(s, Arrive(t, req)), ReadRedis(t, redisUp));
    assert looked.threads[t] == Thread(req, AtDatabase, None) && looked.db == s.db && looked.redis == s.redis;
    var read := Step(looked, ReadDatabase(t));
    assert read.threads[t] == Thread(req, AtInsert, None) && read.db == s.db && read.redis == s.redis;
    held := Step(read, InsertRow(t, true));
  }

  /** The response of a first request, and what it leaves in both stores. */
  ghost predicate AnsweredFirst(s: State, after: State, t: nat, req: Request, cacheUp: bool, status: nat, data: Body) {
    && t in after.threads && after.threads[t].reply == Some(Answered(status, data))
    && after.db == s.db[req.id := Row(t, req.bodyHash, status, if data == Null then Json("{}") else data, false)]
    && after.redis == if cacheUp then s.redis[req.id := Record(data, status, req.id.userId, req.bodyHash)] else s.redis
  }

  /** A first request whose handler throws leaves its row locked. */
  ghost predicate FailedFirst(s: State, after: State, t: nat, req: Request) {
    && t in after.threads && after.threads[t].reply == Some(Failed) && after.redis == s.redis
    && after.db == s.db[req.id := Row(t, req.bodyHash, 0, Json("{}"), true)]
  }

  /** The first request of a key runs its handler; its response goes to its client and to the
      database, released, and to Redis if that can be written. */
  lemma FirstIsAnswered(events: seq<Event>, t: nat, req: Request, redisUp: bool, cacheUp: bool, handler: HandlerResult)
    requires t !in Run(events).threads && req.id !in Run(events).db
    ensures var s := Run(events);
            var after := Alone(s, t, req, redisUp, cacheUp, handler);
            match handler
            case Throws => FailedFirst(s, after, t, req)
            case Returns(status, data) => AnsweredFirst(s, after, t, req, cacheUp, status, data)
  {
    var s := Run(events);
    assert req.id !in s.redis by {
      RunKeepsInv(events);
      CachedRow(s, req.id);
    }
    var held := TakesRow(s, t, req, redisUp);
    FromRow(s, held, t, req, cacheUp, handler);
  }

  lemma FromRow(s: State, held: State, t: nat, req: Request, cacheUp: bool, handler: HandlerResult)
    requires req.id !in s.redis
    requires held.db == s.db[req.id := Row(t, req.bodyHash, 0, Json("{}"), true)] && held.redis == s.redis
    requires t in held.threads && held.threads[t] == Thread(req, AtHandler, None)
    ensures match handler
            case Throws => FailedFirst(s, RunHandler(held, t, cacheUp, handler), t, req)
            case Returns(status, data) =>
              AnsweredFirst(s, RunHandler(held, t, cacheUp, handler), t, req, cacheUp, status, data)
  {
    HandlerRunsThrough(held, t, cacheUp, handler);
  }

  // ---- why a request is refused, whatever interleaves -----------------------------------------

  /** Something failed for request `t` in this event. */
  predicate FailsAt(e: Event, t: nat) { e == HandlerThrows(t) || e == InsertRow(t, false) }

  ghost predicate EverFails(events: seq<Event>, t: nat) {
    exists k :: 0 <= k < |events| && FailsAt(events[k], t)
  }

  /** Somebody else holds the row of this key. */
  predicate HeldByOther(s: State, t: nat)
    requires t in s.threads
  {
    s.threads[t].req.id in s.db && s.db[s.threads[t].req.id].rowId != t
  }

  predicate HasReply(s: State, t: nat, reply: Reply) { t in s.threads && s.threads[t].reply == Some(reply) }

  /** A reply that was not there before comes from this very request's step. */
  lemma RefusalStep(s: State, e: Event, t: nat)
    requires Inv(s)
    ensures HasReply(Step(s, e), t, Failed) ==> HasReply(s, t, Failed) || FailsAt(e, t)
    ensures HasReply(Step(s, e), t, Conflict) && !HasReply(s, t, Conflict) ==> t in s.threads && HeldByOther(s, t)
  {
    if t in s.threads {
      assert ThreadOk(s, t);
      var id := s.threads[t].req.id;
      if id in s.db { assert RowOk(s, id); }
      if id in s.redis { assert CacheOk(s, id); }
      if !e.Evict? && e.t == t {
        OwnRefusal(s, e, t);
      } else {
        OthersStay(s, e, t);
      }
    }
  }

  lemma OwnRefusal(s: State, e: Event, t: nat)
    requires !e.Evict? && e.t == t && t in s.threads && ThreadOk(s, t)
    requires s.threads[t].req.id in s.db ==> RowOk(s, s.threads[t].req.id)
    requires s.threads[t].req.id in s.redis ==> CacheOk(s, s.threads[t].req.id)
    ensures HasReply(Step(s, e), t, Failed) ==> HasReply(s, t, Failed) || FailsAt(e, t)
    ensures HasReply(Step(s, e), t, Conflict) && !HasReply(s, t, Conflict) ==> HeldByOther(s, t)
  {
  }

  /** Over every run: a request fails only if its handler threw or the database was away at its
      insert, and it is refused with a conflict only if another request holds its key. */
  lemma {:induction false} RefusalsHaveACause(events: seq<Event>, t: nat)
    ensures HasReply(Run(events), t, Failed) ==> EverFails(events, t)
    ensures HasReply(Run(events), t, Conflict) ==> HeldByOther(Run(events), t)
  {
    if events != [] {
      var front, last := events[..|events| - 1], events[|events| - 1];
      RefusalsHaveACause(front, t);
      RunKeepsInv(front);
      RefusalStep(Run(front), last, t);
      if HasReply(Run(events), t, Failed) {
        if HasReply(Run(front), t, Failed) {
          var k :| 0 <= k < |front| && FailsAt(front[k], t);
          assert FailsAt(events[k], t);
        } else {
          assert FailsAt(events[|events| - 1], t);
        }
      }
      StepKeepsInv(Run(front), last);
    }
  }
}
