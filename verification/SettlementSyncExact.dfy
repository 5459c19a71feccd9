/** What one retried settlement, one poll cycle and one backfill do, exactly: their results,
    their counters and every row, read off the fetched events and the failures alone. */
module SettlementSyncExact {
  import opened Prelude
  import opened SettlementSync

  // ---- one event with its retries --------------------------------------------------------

  /** Some attempt reaches the database. */
  ghost predicate Gets(fates: nat -> Fate, from: nat, max: int) {
    exists k: nat :: from <= k <= max && fates(k) != FailBefore
  }

  /** Some attempt is not disturbed at all. */
  ghost predicate Cleans(fates: nat -> Fate, from: nat, max: int) {
    exists k: nat :: from <= k <= max && fates(k) == Clean
  }

  /** The first attempt that reaches the database is not disturbed. */
  ghost predicate CleanFirst(fates: nat -> Fate, from: nat, max: int) {
    exists k: nat :: from <= k <= max && fates(k) == Clean && forall j: nat :: from <= j < k ==> fates(j) == FailBefore
  }

  lemma FatesStep(fates: nat -> Fate, from: nat, max: int)
    requires from <= max
    ensures Gets(fates, from, max) <==> fates(from) != FailBefore || Gets(fates, from + 1, max)
    ensures Cleans(fates, from, max) <==> fates(from) == Clean || Cleans(fates, from + 1, max)
  {
  }

  lemma CleanFirstStep(fates: nat -> Fate, from: nat, max: int)
    requires from <= max
    ensures CleanFirst(fates, from, max) <==>
              fates(from) == Clean || (fates(from) == FailBefore && CleanFirst(fates, from + 1, max))
  {
    if fates(from) == FailBefore && CleanFirst(fates, from + 1, max) {
      var k: nat :| from + 1 <= k <= max && fates(k) == Clean
        && forall j: nat :: from + 1 <= j < k ==> fates(j) == FailBefore;
      assert forall j: nat :: from <= j < k ==> fates(j) == FailBefore;
    }
  }

  predicate Settleable(db: Db, id: nat) { IsFunded(db, id) || IsRepaid(db, id) }

  function SettledDb(db: Db, id: nat, ledger: nat): Db {
    Db(db.invoices[id := Invoice(REPAID, Some(ledger))], db.audit + [AuditEntry(id, FUNDED, REPAID)])
  }

  /** What the last attempt throws. */
  function LastError(db: Db, id: nat, fate: Fate): SettlementError {
    if fate == FailBefore || Settleable(db, id) then Infrastructure
    else if id in db.invoices then UnexpectedStatus(db.invoices[id].status)
    else InvoiceNotFound
  }

  ghost predicate RetriesTo(db: Db, id: nat, ledger: nat, fates: nat -> Fate, from: nat, max: int, t: Try) {
    && (t.attempt.Resolved? <==> Settleable(db, id) && Cleans(fates, from, max))
    && (t.attempt == Resolved(SETTLED) <==> IsFunded(db, id) && CleanFirst(fates, from, max))
    && (t.attempt.Thrown? ==>
          t.attempt.error == if from > max then Infrastructure else LastError(db, id, fates(max)))
    && t.db == if IsFunded(db, id) && Gets(fates, from, max) then SettledDb(db, id, ledger) else db
  }

  /** Retries, exactly: an event resolves if and only if its invoice is FUNDED or REPAID and one
      attempt is undisturbed; it counts as settled if and only if the invoice is FUNDED and
      the first attempt to reach the database is undisturbed; the row is settled, at the
      ledger of the event, if and only if it is FUNDED and an attempt reaches the database;
      and otherwise the error is that of the last attempt. */
  lemma {:induction false} RetryExact(db: Db, id: nat, ledger: nat, fates: nat -> Fate, from: nat, max: int)
    ensures RetriesTo(db, id, ledger, fates, from, max, Retry(db, id, ledger, fates, from, max))
    decreases max - from
  {
    if from <= max {
      FatesStep(fates, from, max);
      CleanFirstStep(fates, from, max);
      var t := AttemptOnce(db, id, ledger, fates(from));
      if t.attempt.Thrown? && from < max {
        RetryExact(t.db, id, ledger, fates, from + 1, max);
      }
    }
  }

  // ---- many events ---------------------------------------------------------------------------

  /** The fates of the attempts at event `i`. */
  function FatesOf(plan: Plan, i: nat): nat -> Fate { (k: nat) => plan(i, k) }

  /** Event `i` gets settled or is found settled. */
  ghost predicate Resolves(db: Db, events: seq<LedgerEvent>, plan: Plan, max: int, i: nat)
    requires i < |events| && events[i].invoice.Some?
  {
    Settleable(db, events[i].invoice.value) && Cleans(FatesOf(plan, i), 1, max)
  }

  /** The first of `n` events for this invoice with an attempt that reaches the database. */
  ghost function FirstThrough(events: seq<LedgerEvent>, plan: Plan, max: int, n: nat, id: nat): (r: Option<nat>)
    requires n <= |events|
    ensures r.Some? ==> r.value < n
  {
    if n == 0 then None
    else
      var earlier := FirstThrough(events, plan, max, n - 1, id);
      if earlier.Some? then earlier
      else if events[n - 1].invoice == Some(id) && Gets(FatesOf(plan, n - 1), 1, max) then Some(n - 1)
      else None
  }

  /** How many of the first `n` events are settlements. */
  function Settlements(events: seq<LedgerEvent>, n: nat): nat
    requires n <= |events|
  {
    if n == 0 then 0 else Settlements(events, n - 1) + if events[n - 1].invoice.Some? then 1 else 0
  }

  /** Event `i` is counted as settled: its invoice was FUNDED to begin with, no earlier event
      reached it, and the first attempt that does is undisturbed. */
  ghost predicate Counts(db: Db, events: seq<LedgerEvent>, plan: Plan, max: int, i: nat)
    requires i < |events|
  {
    && events[i].invoice.Some? && IsFunded(db, events[i].invoice.value)
    && FirstThrough(events, plan, max, i, events[i].invoice.value).None?
    && CleanFirst(FatesOf(plan, i), 1, max)
  }

  ghost function SettledCount(db: Db, events: seq<LedgerEvent>, plan: Plan, max: int, n: nat): nat
    requires n <= |events|
  {
    if n == 0 then 0
    else SettledCount(db, events, plan, max, n - 1) + if Counts(db, events, plan, max, n - 1) then 1 else 0
  }

  /** The row of an invoice after `n` events: REPAID at the ledger of the first event that
      reached it if it was FUNDED, and as it was otherwise. */
  ghost predicate RowExact(db: Db, after: Db, events: seq<LedgerEvent>, plan: Plan, max: int, n: nat, id: nat)
    requires n <= |events|
  {
    && (id in after.invoices <==> id in db.invoices)
    && (id in db.invoices ==>
          var first := FirstThrough(events, plan, max, n, id);
          after.invoices[id] == if db.invoices[id].status == FUNDED && first.Some?
                                then Invoice(REPAID, Some(events[first.value].ledger)) else db.invoices[id])
  }

  ghost predicate RowsExact(db: Db, after: Db, events: seq<LedgerEvent>, plan: Plan, max: int, n: nat)
    requires n <= |events|
  {
    forall id :: RowExact(db, after, events, plan, max, n, id)
  }

  lemma RowStep(db: Db, now: Db, events: seq<LedgerEvent>, plan: Plan, max: int, n: nat, after: Db, id: nat)
    requires n < |events| && RowExact(db, now, events, plan, max, n, id)
    requires after.invoices == if events[n].invoice.Some? && IsFunded(now, events[n].invoice.value)
                                  && Gets(FatesOf(plan, n), 1, max)
                               then now.invoices[events[n].invoice.value := Invoice(REPAID, Some(events[n].ledger))]
                               else now.invoices
    ensures RowExact(db, after, events, plan, max, n + 1, id)
  {
  }

  /** One more event, handled. */
  lemma EventExact(db: Db, now: Db, events: seq<LedgerEvent>, plan: Plan, max: int, n: nat)
    requires n < |events| && events[n].invoice.Some? && RowsExact(db, now, events, plan, max, n)
    ensures var t := SettleEvent(now, events[n], n, plan, max);
            && (t.attempt.Resolved? <==> Resolves(db, events, plan, max, n))
            && (t.attempt == Resolved(SETTLED) <==> Counts(db, events, plan, max, n))
            && RowsExact(db, t.db, events, plan, max, n + 1)
  {
    var id, fates := events[n].invoice.value, FatesOf(plan, n);
    var t := SettleEvent(now, events[n], n, plan, max);
    assert t == Retry(now, id, events[n].ledger, fates, 1, max);
    RetryExact(now, id, events[n].ledger, fates, 1, max);
    assert RowExact(db, now, events, plan, max, n, id);
    assert Settleable(now, id) <==> Settleable(db, id);
    assert IsFunded(now, id) <==> IsFunded(db, id) && FirstThrough(events, plan, max, n, id).None?;
    var next: nat := n + 1;
    forall other ensures RowExact(db, t.db, events, plan, max, next, other) {
      RowStep(db, now, events, plan, max, n, t.db, other);
    }
  }

  lemma QuietEvent(db: Db, now: Db, events: seq<LedgerEvent>, plan: Plan, max: int, n: nat)
    requires n < |events| && events[n].invoice.None? && RowsExact(db, now, events, plan, max, n)
    ensures RowsExact(db, now, events, plan, max, n + 1)
  {
    var next: nat := n + 1;
    forall id ensures RowExact(db, now, events, plan, max, next, id) {
      assert RowExact(db, now, events, plan, max, n, id);
    }
  }

  /** A backfill, exactly: every row, how many settlements it processed, how many it settled. */
  lemma {:induction false} BackfillExact(db: Db, events: seq<LedgerEvent>, plan: Plan, max: int, n: nat)
    requires n <= |events|
    ensures var r := Refilled(db, events, plan, max, n);
            && RowsExact(db, r.db, events, plan, max, n)
            && r.processed == Settlements(events, n) && r.settled == SettledCount(db, events, plan, max, n)
  {
    if n > 0 {
      BackfillExact(db, events, plan, max, n - 1);
      var now := Refilled(db, events, plan, max, n - 1).db;
      if events[n - 1].invoice.Some? {
        EventExact(db, now, events, plan, max, n - 1);
      } else {
        QuietEvent(db, now, events, plan, max, n - 1);
      }
    }
  }

  /** A cycle gives up at `i`: the first settlement that does not resolve. */
  ghost predicate GivesUpAt(db: Db, events: seq<LedgerEvent>, plan: Plan, max: int, n: nat, i: nat)
    requires n <= |events|
  {
    && i < n && events[i].invoice.Some? && !Resolves(db, events, plan, max, i)
    && forall j: nat :: j < i && events[j].invoice.Some? ==> Resolves(db, events, plan, max, j)
  }

  /** How many events a cycle looked at, the one it gave up on included. */
  function Handled(p: Progress, n: nat): nat { if p.failedAt.Some? then p.failedAt.value + 1 else n }

  /** A poll cycle, exactly: it gives up at the first settlement whose invoice is neither FUNDED
      nor REPAID or whose attempts were all disturbed, and otherwise handles all events;
      every row, and both counters, are those of the events handled. */
  lemma {:induction false} CycleExact(db: Db, start: nat, events: seq<LedgerEvent>, plan: Plan, max: int, n: nat)
    requires n <= |events|
    ensures var p := After(db, start, events, plan, max, n);
            && (match p.failedAt
                case Some(i) => GivesUpAt(db, events, plan, max, n, i)
                case None => forall j: nat :: j < n && events[j].invoice.Some? ==> Resolves(db, events, plan, max, j))
            && Handled(p, n) <= n
            && RowsExact(db, p.db, events, plan, max, Handled(p, n))
            && p.processed == Settlements(events, Handled(p, n))
            && p.settled == SettledCount(db, events, plan, max, Handled(p, n))
  {
    if n > 0 {
      CycleExact(db, start, events, plan, max, n - 1);
      var p := After(db, start, events, plan, max, n - 1);
      if p.failedAt.None? {
        if events[n - 1].invoice.Some? {
          EventExact(db, p.db, events, plan, max, n - 1);
        } else {
          QuietEvent(db, p.db, events, plan, max, n - 1);
        }
      }
    }
  }

  /** The cursor a cycle stores: of an ordered fetch, the ledger of the last event before the
      one it gave up on, or else the last event or the newest ledger, whichever is later. */
  lemma CursorExact(db: Db, start: nat, response: Response, plan: Plan, max: int)
    requires OrderedFrom(response.events, start)
    ensures var events := response.events;
            var p := After(db, start, events, plan, max, |events|);
            var cursor, before := NextCursor(p, response.latestLedger), if start == 0 then 0 else start - 1;
            match p.failedAt
            case Some(i) => i < |events| && cursor == if i == 0 then before else events[i - 1].ledger
            case None =>
              var last := if events == [] then before else events[|events| - 1].ledger;
              cursor == if last > response.latestLedger then last else response.latestLedger
  {
    CycleExact(db, start, response.events, plan, max, |response.events|);
    SafeIsLastHandled(db, start, response.events, plan, max, |response.events|);
  }
}
