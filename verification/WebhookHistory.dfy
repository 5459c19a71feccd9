/** The row of a delivery against its history: status, times and count are those of its
    enqueueing, its last claim and its last finished attempt. */
module WebhookHistory {
  import opened Prelude
  import opened WebhookQueue

  function Upto(events: seq<Event>, k: nat): State
    requires k <= |events|
  {
    Run(events[..k])
  }

  lemma UptoNext(events: seq<Event>, k: nat)
    requires k < |events|
    ensures Upto(events, k + 1) == Step(Upto(events, k), events[k])
  {
    assert events[..k + 1][..k] == events[..k];
  }

  /** Event `k` queues the delivery. */
  predicate EnqueuesAt(events: seq<Event>, k: nat, id: RowId)
    requires k < |events|
  {
    events[k] == Enqueue(id) && id !in Upto(events, k).rows
  }

  /** Event `k` claims the row. */
  predicate ClaimsAt(events: seq<Event>, k: nat, id: RowId)
    requires k < |events|
  {
    events[k] == Claim(id) && id in Upto(events, k).rows && Due(Upto(events, k).rows[id], Upto(events, k).now)
  }

  function LastEnqueue(events: seq<Event>, n: nat, id: RowId): (r: Option<nat>)
    requires n <= |events|
    ensures r.Some? ==> r.value < n
  {
    if n == 0 then None else if EnqueuesAt(events, n - 1, id) then Some(n - 1) else LastEnqueue(events, n - 1, id)
  }

  function LastClaim(events: seq<Event>, n: nat, id: RowId): (r: Option<nat>)
    requires n <= |events|
    ensures r.Some? ==> r.value < n
  {
    if n == 0 then None else if ClaimsAt(events, n - 1, id) then Some(n - 1) else LastClaim(events, n - 1, id)
  }

  function LastFinish(events: seq<Event>, n: nat, id: RowId): (r: Option<nat>)
    requires n <= |events|
    ensures r.Some? ==> r.value < n && FinishesAt(events, r.value, id)
  {
    if n == 0 then None else if FinishesAt(events, n - 1, id) then Some(n - 1) else LastFinish(events, n - 1, id)
  }

  /** The clock when an event happened. */
  function TimeOf(events: seq<Event>, k: Option<nat>): Option<int>
    requires k.Some? ==> k.value <= |events|
  {
    if k.None? then None else Some(Upto(events, k.value).now)
  }

  /** DELIVERED after a delivery; ABANDONED after a revocation or the seventh attempt; else
      PROCESSING or PENDING, as the row was claimed since its last attempt ended or not. */
  function StatusBy(events: seq<Event>, n: nat, id: RowId): Status
    requires n <= |events|
  {
    var claim, finish := LastClaim(events, n, id), LastFinish(events, n, id);
    if finish.Some? && events[finish.value].verdict == Delivered then DELIVERED
    else if finish.Some? && (events[finish.value].verdict == Revoked || Finishes(events, n, id) >= 7) then ABANDONED
    else if claim.Some? && (finish.None? || claim.value > finish.value) then PROCESSING
    else PENDING
  }

  /** When a row that is still to be delivered is, or was, next due. */
  function DueBy(events: seq<Event>, n: nat, id: RowId): Option<int>
    requires n <= |events|
  {
    var finish, failures := LastFinish(events, n, id), Finishes(events, n, id);
    if finish.None? then TimeOf(events, LastEnqueue(events, n, id))
    else if 1 <= failures <= 6 then Some(Upto(events, finish.value).now + DelayMs(failures))
    else None
  }

  /** One minute, five, thirty; two hours, twelve, a day. */
  function DelayMs(failures: nat): nat {
    match failures
    case 1 => 60_000
    case 2 => 300_000
    case 3 => 1_800_000
    case 4 => 7_200_000
    case 5 => 43_200_000
    case _ => 86_400_000
  }

  ghost predicate RowAgrees(events: seq<Event>, n: nat, id: RowId)
    requires n <= |events|
  {
    && (id in Upto(events, n).rows <==> LastEnqueue(events, n, id).Some?)
    && (id in Upto(events, n).rows ==>
          var row := Upto(events, n).rows[id];
          && row.status == StatusBy(events, n, id)
          && row.attemptCount == Finishes(events, n, id)
          && row.lockedAt == TimeOf(events, LastClaim(events, n, id))
          && row.lastAttemptAt == TimeOf(events, LastFinish(events, n, id))
          && (!Terminal(row) ==> DueBy(events, n, id) == Some(row.nextAttemptAt)))
    && (id !in Upto(events, n).rows ==>
          LastClaim(events, n, id).None? && LastFinish(events, n, id).None? && Finishes(events, n, id) == 0)
  }

  /** What one event does to one row. */
  lemma RowStep(events: seq<Event>, k: nat, id: RowId)
    requires k < |events| && Inv(Upto(events, k))
    ensures var s, after := Upto(events, k), Upto(events, k + 1);
            if EnqueuesAt(events, k, id) then
              && id in after.rows && after.rows[id] == Row(PENDING, 0, s.now, None, None)
              && !ClaimsAt(events, k, id) && !FinishesAt(events, k, id)
            else if ClaimsAt(events, k, id) then
              && id in s.rows && !Terminal(s.rows[id]) && !FinishesAt(events, k, id) && id in after.rows
              && after.rows[id] == s.rows[id].(status := PROCESSING, lockedAt := Some(s.now))
            else if FinishesAt(events, k, id) then
              && id in s.rows && s.rows[id].status == PROCESSING && id in after.rows
              && after.rows[id] == Finalized(s.rows[id], s.rows[id].attemptCount + 1, events[k].verdict, s.now)
            else
              && (id in after.rows <==> id in s.rows)
              && (id in s.rows ==> after.rows[id] == s.rows[id])
  {
    UptoNext(events, k);
    var s, e := Upto(events, k), events[k];
    if e.Finish? && e.ticket in s.live { assert Holds(s, e.ticket); }
  }

  lemma EnqueueAgrees(events: seq<Event>, k: nat, id: RowId)
    requires k < |events| && RowAgrees(events, k, id) && EnqueuesAt(events, k, id)
    requires id in Upto(events, k + 1).rows
    requires Upto(events, k + 1).rows[id] == Row(PENDING, 0, Upto(events, k).now, None, None)
    requires !ClaimsAt(events, k, id) && !FinishesAt(events, k, id)
    ensures RowAgrees(events, k + 1, id)
  {
  }

  lemma ClaimAgrees(events: seq<Event>, k: nat, id: RowId)
    requires k < |events| && RowAgrees(events, k, id) && ClaimsAt(events, k, id)
    requires !EnqueuesAt(events, k, id) && !FinishesAt(events, k, id) && id in Upto(events, k + 1).rows
    requires var row := Upto(events, k).rows[id];
             !Terminal(row)
             && Upto(events, k + 1).rows[id] == row.(status := PROCESSING, lockedAt := Some(Upto(events, k).now))
    ensures RowAgrees(events, k + 1, id)
  {
  }

  lemma FinishAgrees(events: seq<Event>, k: nat, id: RowId)
    requires k < |events| && RowAgrees(events, k, id) && FinishesAt(events, k, id)
    requires !EnqueuesAt(events, k, id) && !ClaimsAt(events, k, id)
    requires id in Upto(events, k).rows && id in Upto(events, k + 1).rows
    requires var row := Upto(events, k).rows[id];
             && row.status == PROCESSING && row.attemptCount < 7
             && Upto(events, k + 1).rows[id]
                == Finalized(row, row.attemptCount + 1, events[k].verdict, Upto(events, k).now)
    ensures RowAgrees(events, k + 1, id)
  {
    assert LastFinish(events, k + 1, id) == Some(k);
    assert Finishes(events, k + 1, id) == Finishes(events, k, id) + 1;
    assert LastClaim(events, k + 1, id) == LastClaim(events, k, id);
    assert LastEnqueue(events, k + 1, id) == LastEnqueue(events, k, id);
  }

  lemma QuietAgrees(events: seq<Event>, k: nat, id: RowId)
    requires k < |events| && RowAgrees(events, k, id)
    requires !EnqueuesAt(events, k, id) && !ClaimsAt(events, k, id) && !FinishesAt(events, k, id)
    requires id in Upto(events, k + 1).rows <==> id in Upto(events, k).rows
    requires id in Upto(events, k).rows ==> Upto(events, k + 1).rows[id] == Upto(events, k).rows[id]
    ensures RowAgrees(events, k + 1, id)
  {
  }

  lemma AgreesNext(events: seq<Event>, k: nat, id: RowId)
    requires k < |events| && Inv(Upto(events, k)) && RowAgrees(events, k, id)
    ensures RowAgrees(events, k + 1, id)
  {
    RowStep(events, k, id);
    if EnqueuesAt(events, k, id) {
      EnqueueAgrees(events, k, id);
    } else if ClaimsAt(events, k, id) {
      ClaimAgrees(events, k, id);
    } else if FinishesAt(events, k, id) {
      assert RowOk(Upto(events, k).rows[id]);
      FinishAgrees(events, k, id);
    } else {
      QuietAgrees(events, k, id);
    }
  }

  lemma InvUpto(events: seq<Event>, k: nat)
    requires TimelyRun(events) && k <= |events|
    ensures Inv(Upto(events, k))
  {
    TimelyPrefix(events, k);
    RunKeepsInv(events[..k]);
  }

  /** A row over every timely run: it exists once it was queued; it is DELIVERED exactly after a
      delivery, ABANDONED exactly after a revocation or the seventh attempt; it counts its
      finished attempts; and its times are those of its last claim, its last attempt and,
      while it waits, its first queueing or the scheduled delay after that attempt. */
  lemma {:induction false} RowFollowsHistory(events: seq<Event>, n: nat, id: RowId)
    requires TimelyRun(events) && n <= |events|
    ensures RowAgrees(events, n, id)
    decreases n
  {
    if n == 0 {
      assert events[..0] == [];
    } else {
      RowFollowsHistory(events, n - 1, id);
      InvUpto(events, n - 1);
      AgreesNext(events, n - 1, id);
    }
  }

  /** When the next poll claims a row, after any timely history: a waiting row from its due time
      on, and a row under way once five minutes have passed since its last claim. */
  lemma DueExactly(events: seq<Event>, n: nat, id: RowId, now: int)
    requires TimelyRun(events) && n <= |events| && id in Upto(events, n).rows
    ensures var claim, due := TimeOf(events, LastClaim(events, n, id)), DueBy(events, n, id);
            Due(Upto(events, n).rows[id], now) <==>
              match StatusBy(events, n, id)
              case PENDING => due.Some? && due.value <= now
              case PROCESSING => claim.Some? && now - claim.value > 300_000
              case _ => false
  {
    RowFollowsHistory(events, n, id);
  }

  /** A subscription revoked while its delivery is under way abandons the row for good. */
  lemma RevokedIsAbandoned(events: seq<Event>, k: nat, n: nat, id: RowId)
    requires TimelyRun(events) && k < n <= |events| && FinishesAt(events, k, id) && events[k].verdict == Revoked
    ensures id in Upto(events, n).rows && Upto(events, n).rows[id].status == ABANDONED
  {
    InvUpto(events, k);
    RowStep(events, k, id);
    TerminalIsFinal(events, k + 1, n, id);
  }
}
