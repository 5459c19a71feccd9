/** The persistent webhook queue: workers claim due rows, attempt, and finalize them. */
module WebhookQueue {
  import opened Prelude

  const MINUTE: nat := 60_000
  const HOUR: nat := 3_600_000
  const STUCK_PROCESSING_MS: nat := 5 * MINUTE

  const RETRY_SCHEDULE_MS: seq<nat> := [MINUTE, 5 * MINUTE, 30 * MINUTE, 2 * HOUR, 12 * HOUR, 24 * HOUR]
  const MAX_DELIVERY_ATTEMPTS: nat := 7

  type RowId = string

  datatype Status = PENDING | PROCESSING | DELIVERED | ABANDONED

  datatype Row = Row(status: Status, attemptCount: nat, nextAttemptAt: int,
                     lockedAt: Option<int>, lastAttemptAt: Option<int>)

  /** How an attempt ended for the subscriber. */
  datatype Verdict = Revoked | Delivered | Failed

  datatype Retry = BadAttemptNumber | GiveUp | RetryIn(delayMs: nat)

  /** The delay after the failed attempt `attemptNumber`, counted from one. */
  function NextRetryDelayMs(attemptNumber: int): (r: Retry)
    ensures r.BadAttemptNumber? <==> attemptNumber < 1
    ensures r.GiveUp? <==> attemptNumber >= MAX_DELIVERY_ATTEMPTS
  {
    if attemptNumber < 1 then BadAttemptNumber
    else if attemptNumber - 1 < |RETRY_SCHEDULE_MS| then RetryIn(RETRY_SCHEDULE_MS[attemptNumber - 1])
    else GiveUp
  }

  // ---- one row -----------------------------------------------------------------------

  /** The WHERE clause of the claim. */
  predicate Due(row: Row, now: int) {
    || (row.status == PENDING && row.nextAttemptAt <= now)
    || (row.status == PROCESSING && row.lockedAt.Some? && row.lockedAt.value < now - STUCK_PROCESSING_MS)
  }

  function Claimed(row: Row, now: int): Row { row.(status := PROCESSING, lockedAt := Some(now)) }

  /** What finalizing attempt `number` writes; it does not look at the row's status. */
  function Finalized(row: Row, number: nat, verdict: Verdict, now: int): Row
    requires number >= 1
  {
    var stamped := row.(attemptCount := number, lastAttemptAt := Some(now));
    match verdict
    case Revoked => stamped.(status := ABANDONED)
    case Delivered => stamped.(status := DELIVERED)
    case Failed =>
      match NextRetryDelayMs(number)
      case RetryIn(delay) => stamped.(status := PENDING, nextAttemptAt := now + delay)
      case _ => stamped.(status := ABANDONED)
  }

  // ---- the worker -----------------------------------------------------------------------

  type Table = map<RowId, Row>

  function DueRows(rows: Table, now: int): set<RowId> { set id | id in rows && Due(rows[id], now) }

  /** The table after claiming the listed rows. */
  function MarkAll(rows: Table, ids: seq<RowId>, now: int): Table {
    if ids == [] then rows
    else
      var before, last := MarkAll(rows, ids[..|ids| - 1], now), ids[|ids| - 1];
      if last in rows then before[last := Claimed(rows[last], now)] else before
  }

  /** `claimed` lists rows out of `due`, and nothing left in `rest` is due before them. */
  ghost predicate EarliestFirst(rows: Table, claimed: seq<RowId>, rest: set<RowId>, due: set<RowId>)
    requires due <= rows.Keys
  {
    && Distinct(claimed) && rest <= due
    && Elements(claimed) == due - rest
    && forall i, j :: 0 <= i < |claimed| && j in rest && claimed[i] in due ==>
         rows[claimed[i]].nextAttemptAt <= rows[j].nextAttemptAt
  }

  lemma TakeEarliest(rows: Table, claimed: seq<RowId>, rest: set<RowId>, due: set<RowId>, id: RowId)
    requires due <= rows.Keys && EarliestFirst(rows, claimed, rest, due) && id in rest
    requires forall j :: j in rest ==> rows[id].nextAttemptAt <= rows[j].nextAttemptAt
    ensures EarliestFirst(rows, claimed + [id], rest - {id}, due)
  {
    assert id !in Elements(claimed);
    assert Elements(claimed + [id]) == Elements(claimed) + {id};
  }

  function DueTime(rows: Table, id: RowId): int { if id in rows then rows[id].nextAttemptAt else 0 }

  lemma EarliestExists(rows: Table, ids: set<RowId>)
    requires ids <= rows.Keys && |ids| > 0
    ensures exists id :: id in ids && forall j :: j in ids ==> rows[id].nextAttemptAt <= rows[j].nextAttemptAt
  {
    LeastExists(ids, id => DueTime(rows, id));
    var first :| first in ids && forall j :: j in ids ==> DueTime(rows, first) <= DueTime(rows, j);
    forall j | j in ids ensures rows[first].nextAttemptAt <= rows[j].nextAttemptAt {
      assert DueTime(rows, first) <= DueTime(rows, j);
    }
  }

  class WebhookDeliveryWorker {
    var rows: Table

    constructor ()
      ensures rows == map[]
    {
      rows := map[];
    }

    /** Claims up to `limit` due rows, earliest due first, all in one statement; `rest` are
        the due rows left for another poll. */
    method ClaimBatch(limit: nat, now: int) returns (claimed: seq<RowId>, ghost rest: set<RowId>)
      modifies this
      ensures EarliestFirst(old(rows), claimed, rest, DueRows(old(rows), now))
      ensures |claimed| <= limit && (rest == {} || |claimed| == limit)
      ensures rows == MarkAll(old(rows), claimed, now)
    {
      var table := rows;
      var due := DueRows(table, now);
      ghost var all := due;
      claimed := [];
      while |claimed| < limit && |due| > 0
        invariant table == old(rows) && |claimed| <= limit
        invariant EarliestFirst(table, claimed, due, all)
        invariant rows == MarkAll(table, claimed, now)
        decreases |due|
      {
        EarliestExists(table, due);
        var id :| id in due && forall j :: j in due ==> table[id].nextAttemptAt <= table[j].nextAttemptAt;
        TakeEarliest(table, claimed, due, all, id);
        assert (claimed + [id])[..|claimed|] == claimed;
        claimed := claimed + [id];
        rows := rows[id := Claimed(table[id], now)];
        due := due - {id};
      }
      rest := due;
    }

    /** The end of `attemptDelivery`: the attempt number is the claimed count plus one. */
    method Conclude(id: RowId, claimedCount: nat, verdict: Verdict, now: int)
      requires id in rows
      modifies this
      ensures rows == old(rows)[id := Finalized(old(rows)[id], claimedCount + 1, verdict, now)]
    {
      var attemptNumber := claimedCount + 1;
      var row := rows[id].(attemptCount := attemptNumber, lastAttemptAt := Some(now));
      if verdict == Revoked {
        row := row.(status := ABANDONED);
      } else if verdict == Delivered {
        row := row.(status := DELIVERED);
      } else {
        var retry := NextRetryDelayMs(attemptNumber);
        if retry.GiveUp? {
          row := row.(status := ABANDONED);
        } else {
          row := row.(status := PENDING, nextAttemptAt := now + retry.delayMs);
        }
      }
      rows := rows[id := row];
    }
  }

  // ---- several workers -----------------------------------------------------------------------

  /** An attempt some worker is making: which row, its number, and when it was claimed. */
  datatype Attempt = Attempt(id: RowId, number: nat, claimedAt: int)

  datatype State = State(rows: Table, live: map<nat, Attempt>, issued: nat, now: int)

  const EMPTY := State(map[], map[], 0, 0)

  datatype Event =
    | Advance(to: int)                       // the clock moves
    | Enqueue(id: RowId)                     // a delivery is queued
    | Claim(id: RowId)                       // a worker claims one due row
    | Finish(ticket: nat, verdict: Verdict)  // a worker finalizes its attempt
    | Crash(ticket: nat)                     // a worker dies

  function Step(s: State, e: Event): State {
    match e
    case Advance(t) => if t >= s.now then s.(now := t) else s
    case Enqueue(id) =>
      if id in s.rows then s else s.(rows := s.rows[id := Row(PENDING, 0, s.now, None, None)])
    case Claim(id) =>
      if id !in s.rows || !Due(s.rows[id], s.now) then s
      else
        s.(rows := s.rows[id := Claimed(s.rows[id], s.now)],
           live := s.live[s.issued := Attempt(id, s.rows[id].attemptCount + 1, s.now)],
           issued := s.issued + 1)
    case Finish(ticket, verdict) =>
      if ticket !in s.live || s.live[ticket].id !in s.rows || s.live[ticket].number < 1 then s
      else
        var a := s.live[ticket];
        s.(rows := s.rows[a.id := Finalized(s.rows[a.id], a.number, verdict, s.now)], live := s.live - {ticket})
    case Crash(ticket) => s.(live := s.live - {ticket})
  }

  function Run(events: seq<Event>): State {
    if events == [] then EMPTY else Step(Run(events[..|events| - 1]), events[|events| - 1])
  }

  function RunFrom(s: State, events: seq<Event>): State {
    if events == [] then s else Step(RunFrom(s, events[..|events| - 1]), events[|events| - 1])
  }

  /** A batch is the same as claiming its rows one by one at the same instant: SKIP LOCKED
      hands every row to one worker. */
  lemma {:induction false} BatchIsClaims(s: State, ids: seq<RowId>)
    requires Distinct(ids) && forall i :: 0 <= i < |ids| ==> ids[i] in DueRows(s.rows, s.now)
    ensures var after := RunFrom(s, seq(|ids|, i requires 0 <= i < |ids| => Claim(ids[i])));
            && after.rows == MarkAll(s.rows, ids, s.now) && after.now == s.now
            && after.issued == s.issued + |ids|
            && forall id :: id in s.rows && id !in ids ==> id in after.rows && after.rows[id] == s.rows[id]
  {
    var claims := seq(|ids|, i requires 0 <= i < |ids| => Claim(ids[i]));
    if ids != [] {
      var front, last := ids[..|ids| - 1], ids[|ids| - 1];
      assert claims[..|ids| - 1] == seq(|front|, i requires 0 <= i < |front| => Claim(front[i]));
      BatchIsClaims(s, front);
      assert last !in front;
      assert last in DueRows(s.rows, s.now);
    }
  }

  // ---- the timing hypothesis and what it keeps --------------------------------------------------

  /** Every attempt still under way was claimed at most STUCK_PROCESSING_MS ago. */
  ghost predicate Timely(s: State) {
    forall t :: t in s.live ==> s.now - s.live[t].claimedAt <= STUCK_PROCESSING_MS
  }

  ghost predicate TimelyRun(events: seq<Event>) {
    forall n :: 0 <= n <= |events| ==> Timely(Run(events[..n]))
  }

  predicate Terminal(row: Row) { row.status == DELIVERED || row.status == ABANDONED }

  ghost predicate RowOk(row: Row) {
    && row.attemptCount <= MAX_DELIVERY_ATTEMPTS
    && (!Terminal(row) ==> row.attemptCount < MAX_DELIVERY_ATTEMPTS)
    && (row.status == PROCESSING ==> row.lockedAt.Some?)
    && (row.status == PENDING && row.attemptCount > 0 ==>
          && row.lastAttemptAt.Some?
          && row.nextAttemptAt == row.lastAttemptAt.value + RETRY_SCHEDULE_MS[row.attemptCount - 1])
  }

  /** The ticket's worker owns its row. */
  ghost predicate Holds(s: State, t: nat)
    requires t in s.live
  {
    var a := s.live[t];
    && t < s.issued && a.id in s.rows
    && s.rows[a.id].status == PROCESSING
    && s.rows[a.id].lockedAt == Some(a.claimedAt)
    && a.number == s.rows[a.id].attemptCount + 1
  }

  ghost predicate Inv(s: State) {
    && (forall id :: id in s.rows ==> RowOk(s.rows[id]))
    && (forall t :: t in s.live ==> Holds(s, t))
    && (forall t, u :: t in s.live && u in s.live && t != u ==> s.live[t].id != s.live[u].id)
  }

  lemma FinalizedOk(row: Row, number: nat, verdict: Verdict, now: int)
    requires RowOk(row) && 1 <= number <= MAX_DELIVERY_ATTEMPTS
    ensures RowOk(Finalized(row, number, verdict, now))
  {
  }

  lemma StepKeepsInv(s: State, e: Event)
    requires Inv(s) && Timely(s)
    ensures Inv(Step(s, e))
  {
    match e
    case Claim(id) =>
      if id in s.rows && Due(s.rows[id], s.now) {
        forall t | t in s.live ensures s.live[t].id != id {
          assert Holds(s, t);
        }
        ClaimKeepsInv(s, id);
      }
    case Finish(t, verdict) =>
      if t in s.live {
        assert Holds(s, t);
        FinishKeepsInv(s, t, verdict);
      }
    case Crash(t) => DropKeepsInv(s, t);
    case Enqueue(id) => EnqueueKeepsInv(s, id);
    case Advance(_) =>
      var after := Step(s, e);
      forall t | t in after.live ensures Holds(after, t) { assert Holds(s, t); }
  }

  lemma ClaimKeepsInv(s: State, id: RowId)
    requires Inv(s) && id in s.rows && Due(s.rows[id], s.now)
    requires forall t :: t in s.live ==> s.live[t].id != id
    ensures Inv(Step(s, Claim(id)))
  {
    var after := Step(s, Claim(id));
    assert RowOk(s.rows[id]);
    forall t | t in after.live ensures Holds(after, t) {
      if t in s.live { assert Holds(s, t); }
    }
  }

  lemma FinishKeepsInv(s: State, t: nat, verdict: Verdict)
    requires Inv(s) && t in s.live
    ensures Inv(Step(s, Finish(t, verdict)))
  {
    var after, a := Step(s, Finish(t, verdict)), s.live[t];
    assert Holds(s, t) && RowOk(s.rows[a.id]);
    FinalizedOk(s.rows[a.id], a.number, verdict, s.now);
    forall u | u in after.live ensures Holds(after, u) {
      assert Holds(s, u);
    }
  }

  lemma DropKeepsInv(s: State, t: nat)
    requires Inv(s)
    ensures Inv(Step(s, Crash(t)))
  {
    var after := Step(s, Crash(t));
    forall u | u in after.live ensures Holds(after, u) {
      assert Holds(s, u);
    }
  }

  lemma EnqueueKeepsInv(s: State, id: RowId)
    requires Inv(s)
    ensures Inv(Step(s, Enqueue(id)))
  {
    var after := Step(s, Enqueue(id));
    forall u | u in after.live ensures Holds(after, u) {
      assert Holds(s, u);
    }
  }

  lemma {:induction false} RunKeepsInv(events: seq<Event>)
    requires TimelyRun(events)
    ensures Inv(Run(events))
  {
    if events != [] {
      var front := events[..|events| - 1];
      TimelyPrefix(events, |events| - 1);
      RunKeepsInv(front);
      assert front[..|front|] == front && Timely(Run(front[..|front|]));
      StepKeepsInv(Run(front), events[|events| - 1]);
    }
  }

  lemma TimelyPrefix(events: seq<Event>, n: nat)
    requires TimelyRun(events) && n <= |events|
    ensures TimelyRun(events[..n]) && Timely(Run(events[..n]))
  {
    forall m | 0 <= m <= n ensures Timely(Run(events[..n][..m])) {
      assert events[..n][..m] == events[..m];
    }
  }

  /** Mutual exclusion: if every attempt ends within the stuck limit, no two attempts under
      way are for the same row, and every row's count stays within seven. */
  lemma NoTwoWorkersOnOneRow(events: seq<Event>)
    requires TimelyRun(events)
    ensures forall t, u :: t in Run(events).live && u in Run(events).live && t != u ==>
              Run(events).live[t].id != Run(events).live[u].id
    ensures forall id :: id in Run(events).rows ==> Run(events).rows[id].attemptCount <= MAX_DELIVERY_ATTEMPTS
  {
    RunKeepsInv(events);
    forall id | id in Run(events).rows ensures RowOk(Run(events).rows[id]) {}
  }

  lemma TerminalStep(s: State, e: Event, id: RowId)
    requires Inv(s) && id in s.rows && Terminal(s.rows[id])
    ensures id in Step(s, e).rows && Step(s, e).rows[id] == s.rows[id]
  {
    if e.Finish? && e.ticket in s.live { assert Holds(s, e.ticket); }
  }

  /** Terminal rows are final: once DELIVERED or ABANDONED, a row never changes again. */
  lemma {:induction false} TerminalIsFinal(events: seq<Event>, k: nat, n: nat, id: RowId)
    requires TimelyRun(events) && k <= n <= |events|
    requires id in Run(events[..k]).rows && Terminal(Run(events[..k]).rows[id])
    ensures id in Run(events[..n]).rows && Run(events[..n]).rows[id] == Run(events[..k]).rows[id]
    decreases n
  {
    if k < n {
      TerminalIsFinal(events, k, n - 1, id);
      TimelyPrefix(events, n - 1);
      RunKeepsInv(events[..n - 1]);
      assert events[..n][..n - 1] == events[..n - 1];
      TerminalStep(Run(events[..n - 1]), events[n - 1], id);
    }
  }

  // ---- counting attempts -----------------------------------------------------------------------------

  /** Event `k` finalizes an attempt on `id`. */
  predicate FinishesAt(events: seq<Event>, k: nat, id: RowId)
    requires k < |events|
  {
    && events[k].Finish? && events[k].ticket in Run(events[..k]).live
    && Run(events[..k]).live[events[k].ticket].id == id
  }

  function Finishes(events: seq<Event>, n: nat, id: RowId): nat
    requires n <= |events|
  {
    if n == 0 then 0 else Finishes(events, n - 1, id) + if FinishesAt(events, n - 1, id) then 1 else 0
  }

  ghost predicate AllFailed(events: seq<Event>, n: nat, id: RowId)
    requires n <= |events|
  {
    forall k :: 0 <= k < n && FinishesAt(events, k, id) ==> events[k].verdict == Failed
  }

  lemma CountStep(s: State, e: Event, id: RowId)
    requires Inv(s)
    ensures var finishes := e.Finish? && e.ticket in s.live && s.live[e.ticket].id == id;
            && (id in s.rows ==> id in Step(s, e).rows)
            && (id in s.rows && finishes ==>
                  && s.rows[id].status == PROCESSING
                  && Step(s, e).rows[id] == Finalized(s.rows[id], s.rows[id].attemptCount + 1, e.verdict, s.now))
            && (id in s.rows && !finishes ==>
                  && Step(s, e).rows[id].attemptCount == s.rows[id].attemptCount
                  && (Terminal(Step(s, e).rows[id]) <==> Terminal(s.rows[id]))
                  && (Terminal(s.rows[id]) ==> Step(s, e).rows[id].status == s.rows[id].status))
            && (id !in s.rows && id in Step(s, e).rows ==>
                  Step(s, e).rows[id].attemptCount == 0 && Step(s, e).rows[id].status == PENDING)
            && (id !in s.rows ==> !finishes)
  {
    if e.Finish? && e.ticket in s.live { assert Holds(s, e.ticket); }
  }

  /** The stored count is the number of finalized attempts; if all of them failed, the row
      is abandoned exactly when there were seven, and never delivered. */
  lemma {:induction false} AbandonedAtSeven(events: seq<Event>, n: nat, id: RowId)
    requires TimelyRun(events) && n <= |events|
    ensures id !in Run(events[..n]).rows ==> Finishes(events, n, id) == 0
    ensures id in Run(events[..n]).rows ==> Run(events[..n]).rows[id].attemptCount == Finishes(events, n, id)
    ensures id in Run(events[..n]).rows && AllFailed(events, n, id) ==>
              && Run(events[..n]).rows[id].status != DELIVERED
              && (Run(events[..n]).rows[id].status == ABANDONED <==> Finishes(events, n, id) == MAX_DELIVERY_ATTEMPTS)
    decreases n
  {
    if n == 0 {
      assert events[..0] == [];
    } else {
      AbandonedAtSeven(events, n - 1, id);
      TimelyPrefix(events, n - 1);
      RunKeepsInv(events[..n - 1]);
      assert events[..n][..n - 1] == events[..n - 1];
      var s := Run(events[..n - 1]);
      CountStep(s, events[n - 1], id);
      if id in s.rows { assert RowOk(s.rows[id]); }
      assert AllFailed(events, n, id) ==> AllFailed(events, n - 1, id);
    }
  }

  /** A row waiting after its i-th failed attempt becomes due exactly the i-th delay of the
      schedule after that attempt ended. */
  lemma RetryOnSchedule(events: seq<Event>, id: RowId)
    requires TimelyRun(events) && id in Run(events).rows
    requires Run(events).rows[id].status == PENDING && Run(events).rows[id].attemptCount > 0
    ensures var row := Run(events).rows[id];
            && row.attemptCount <= |RETRY_SCHEDULE_MS| && row.lastAttemptAt.Some?
            && forall now: int ::
                 Due(row, now) <==> now >= row.lastAttemptAt.value + RETRY_SCHEDULE_MS[row.attemptCount - 1]
  {
    RunKeepsInv(events);
    assert RowOk(Run(events).rows[id]);
  }

  // ---- the hypothesis is needed --------------------------------------------------------------------------

  /** In a state reached in time, the next claim can put a second worker on a row exactly
      when some attempt has by now run longer than the stuck limit. */
  lemma OverlapIffLate(s: State)
    requires Inv(s)
    ensures (exists id :: HeldTwice(Step(s, Claim(id)))) <==> !Timely(s)
  {
    if !Timely(s) {
      var t :| t in s.live && s.now - s.live[t].claimedAt > STUCK_PROCESSING_MS;
      assert Holds(s, t);
      var after := Step(s, Claim(s.live[t].id));
      assert t in after.live && s.issued in after.live && after.live[t].id == after.live[s.issued].id;
      assert HeldTwice(after);
    } else {
      forall id ensures !HeldTwice(Step(s, Claim(id))) {
        StepKeepsInv(s, Claim(id));
      }
    }
  }

  ghost predicate HeldTwice(s: State) {
    exists t, u :: t in s.live && u in s.live && t != u && s.live[t].id == s.live[u].id
  }

  /** And then a late failure overwrites a delivered row, as the update is by id alone: the
      row is queued again, or abandoned if it was the seventh attempt. */
  lemma LateFailureReopens(s: State, t: nat)
    requires Inv(s) && t in s.live && s.now - s.live[t].claimedAt > STUCK_PROCESSING_MS
    ensures var id := s.live[t].id;
            var delivered := Step(Step(s, Claim(id)), Finish(s.issued, Delivered));
            var reopened := Step(delivered, Finish(t, Failed));
            && id in delivered.rows && delivered.rows[id].status == DELIVERED
            && id in reopened.rows && s.live[t].number <= MAX_DELIVERY_ATTEMPTS
            && reopened.rows[id].status == if s.live[t].number < MAX_DELIVERY_ATTEMPTS then PENDING else ABANDONED
  {
    assert Holds(s, t) && RowOk(s.rows[s.live[t].id]);
  }

  /** What workers do at one instant: claim rows and finalize attempts. */
  predicate AtOnce(e: Event) { e.Claim? || e.Finish? }

  ghost predicate AllAtOnce(events: seq<Event>) { forall i :: 0 <= i < |events| ==> AtOnce(events[i]) }

  /** The step changes a row that was DELIVERED or ABANDONED. */
  predicate Rewrites(s: State, e: Event, id: RowId) {
    id in s.rows && Terminal(s.rows[id]) && (id !in Step(s, e).rows || Step(s, e).rows[id] != s.rows[id])
  }

  lemma AtOnceKeeps(s: State, e: Event)
    requires Inv(s) && Timely(s) && AtOnce(e)
    ensures Inv(Step(s, e)) && Timely(Step(s, e))
  {
    StepKeepsInv(s, e);
  }

  lemma {:induction false} AllAtOnceKeep(s: State, events: seq<Event>)
    requires Inv(s) && Timely(s) && AllAtOnce(events)
    ensures Inv(RunFrom(s, events)) && Timely(RunFrom(s, events))
  {
    if events != [] {
      AllAtOnceKeep(s, events[..|events| - 1]);
      AtOnceKeeps(RunFrom(s, events[..|events| - 1]), events[|events| - 1]);
    }
  }

  /** Exactly when finality is at risk: from a state reached in time, claims and finishes of
      the same instant can change a terminal row if and only if some attempt has by now run
      longer than the stuck limit. */
  lemma RewritesIffLate(s: State)
    requires Inv(s)
    ensures (exists events, e, id :: AllAtOnce(events) && AtOnce(e) && Rewrites(RunFrom(s, events), e, id))
            <==> !Timely(s)
  {
    if Timely(s) {
      forall events, e, id | AllAtOnce(events) && AtOnce(e) ensures !Rewrites(RunFrom(s, events), e, id) {
        AllAtOnceKeep(s, events);
        var after := RunFrom(s, events);
        if id in after.rows && Terminal(after.rows[id]) { TerminalStep(after, e, id); }
      }
    } else {
      var t :| t in s.live && s.now - s.live[t].claimedAt > STUCK_PROCESSING_MS;
      LateRewrites(s, t);
    }
  }

  lemma LateRewrites(s: State, t: nat)
    requires Inv(s) && t in s.live && s.now - s.live[t].claimedAt > STUCK_PROCESSING_MS
    ensures exists events, e, id :: AllAtOnce(events) && AtOnce(e) && Rewrites(RunFrom(s, events), e, id)
  {
    var id := s.live[t].id;
    var events := [Claim(id), Finish(s.issued, Delivered)];
    assert events[..1] == [Claim(id)] && events[..1][..0] == [];
    assert RunFrom(s, events[..1]) == Step(s, Claim(id));
    assert RunFrom(s, events) == Step(Step(s, Claim(id)), Finish(s.issued, Delivered));
    LateFailureReopens(s, t);
    assert AllAtOnce(events) && AtOnce(Finish(t, Failed)) && Rewrites(RunFrom(s, events), Finish(t, Failed), id);
  }

  lemma RunSnoc(events: seq<Event>, e: Event)
    ensures Run(events + [e]) == Step(Run(events), e)
  {
    assert (events + [e])[..|events|] == events;
  }

  /** It happens from an empty queue: the first worker outlives the stuck limit by a
      millisecond, the second delivers, and the failure of the first makes the row due again. */
  lemma DeliveredRowReopened() returns (delivered: seq<Event>, late: Event)
    ensures Run(delivered).rows.Keys == {"d"} && Run(delivered).rows["d"].status == DELIVERED
    ensures late == Finish(0, Failed)
    ensures Run(delivered + [late]).rows.Keys == {"d"}
    ensures Run(delivered + [late]).rows["d"].status == PENDING
    ensures Due(Run(delivered + [late]).rows["d"], STUCK_PROCESSING_MS + 1 + MINUTE)
  {
    RunSnoc([], Enqueue("d"));
    var queued := [] + [Enqueue("d")];
    RunSnoc(queued, Claim("d"));
    var claimed := queued + [Claim("d")];
    RunSnoc(claimed, Advance(STUCK_PROCESSING_MS + 1));
    var stuck := claimed + [Advance(STUCK_PROCESSING_MS + 1)];
    RunSnoc(stuck, Claim("d"));
    var reclaimed := stuck + [Claim("d")];
    RunSnoc(reclaimed, Finish(1, Delivered));
    delivered, late := reclaimed + [Finish(1, Delivered)], Finish(0, Failed);
    RunSnoc(delivered, late);
  }
}
