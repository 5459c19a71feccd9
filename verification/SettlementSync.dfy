/** Settlement sync: the conditional settlement write, its retries, the poll cycle with its
    ledger cursor, backfills, and all of them interleaved. */
module SettlementSync {
  import opened Prelude

  // ---- the mirror database --------------------------------------------------------------

  datatype InvoiceStatus = PENDING | FUNDED | REPAID | DEFAULTED

  datatype Invoice = Invoice(status: InvoiceStatus, settledLedger: Option<nat>)

  datatype AuditEntry = AuditEntry(id: nat, previous: InvoiceStatus, current: InvoiceStatus)

  datatype Db = Db(invoices: map<nat, Invoice>, audit: seq<AuditEntry>)

  datatype SettlementResult = SETTLED | ALREADY_REPAID

  datatype SettlementError = InvoiceNotFound | UnexpectedStatus(status: InvoiceStatus) | Infrastructure

  datatype Attempt = Resolved(result: SettlementResult) | Thrown(error: SettlementError)

  datatype Try = Try(db: Db, attempt: Attempt)

  /** What the infrastructure does to one attempt: nothing; fail before the inner
      transaction commits; or fail after it, in the webhook dispatch or the outer commit. */
  datatype Fate = Clean | FailBefore | FailAfter

  /** `updateMany` guarded on FUNDED, with the audit row in the same transaction. */
  function SettleInTx(db: Db, id: nat, ledger: nat): Try {
    if id !in db.invoices then Try(db, Thrown(InvoiceNotFound))
    else match db.invoices[id].status
      case FUNDED =>
        Try(Db(db.invoices[id := Invoice(REPAID, Some(ledger))], db.audit + [AuditEntry(id, FUNDED, REPAID)]),
            Resolved(SETTLED))
      case REPAID => Try(db, Resolved(ALREADY_REPAID))
      case other => Try(db, Thrown(UnexpectedStatus(other)))
  }

  function AttemptOnce(db: Db, id: nat, ledger: nat, fate: Fate): Try {
    var t := SettleInTx(db, id, ledger);
    if fate == FailBefore then Try(db, Thrown(Infrastructure))
    else if fate == FailAfter && t.attempt.Resolved? then t.(attempt := Thrown(Infrastructure))
    else t
  }

  /** `withRetry` from attempt number `attempt` on; the last error is rethrown. */
  function Retry(db: Db, id: nat, ledger: nat, fates: nat -> Fate, attempt: nat, maxAttempts: int): Try
    decreases maxAttempts - attempt
  {
    if attempt > maxAttempts then Try(db, Thrown(Infrastructure))
    else
      var t := AttemptOnce(db, id, ledger, fates(attempt));
      if t.attempt.Resolved? || attempt >= maxAttempts then t
      else Retry(t.db, id, ledger, fates, attempt + 1, maxAttempts)
  }

  // ---- one poll cycle ----------------------------------------------------------------------

  /** A normalized contract event; `invoice` is the id when it parses as a settlement. */
  datatype LedgerEvent = LedgerEvent(ledger: nat, invoice: Option<nat>)

  datatype Response = Response(events: seq<LedgerEvent>, latestLedger: nat)

  /** The fate of every attempt of every event, by position and attempt number. */
  type Plan = (nat, nat) -> Fate

  function Max(a: int, b: int): int { if a >= b then a else b }

  function StartLedger(cursor: nat, networkTip: nat): nat { if cursor > 0 then cursor + 1 else networkTip }

  datatype Progress = Progress(db: Db, safe: int, processed: nat, settled: nat, failedAt: Option<nat>)

  function SettleEvent(db: Db, e: LedgerEvent, i: nat, plan: Plan, maxAttempts: int): Try
    requires e.invoice.Some?
  {
    Retry(db, e.invoice.value, e.ledger, (k: nat) => plan(i, k), 1, maxAttempts)
  }

  /** One turn of the loop of `syncOnce`; once it gave up on an event it does nothing more. */
  function Next(p: Progress, e: LedgerEvent, i: nat, plan: Plan, maxAttempts: int): Progress {
    if p.failedAt.Some? then p
    else if e.invoice.None? then p.(safe := Max(p.safe, e.ledger))
    else
      var t := SettleEvent(p.db, e, i, plan, maxAttempts);
      if t.attempt.Resolved?
      then Progress(t.db, Max(p.safe, e.ledger), p.processed + 1, p.settled + (if t.attempt.result
          == SETTLED then 1 else 0), None)
      else p.(db := t.db, processed := p.processed + 1, failedAt := Some(i))
  }

  /** The loop of `syncOnce` after `n` events. */
  function After(db: Db, start: nat, events: seq<LedgerEvent>, plan: Plan, maxAttempts: int, n: nat): Progress
    requires n <= |events|
  {
    if n == 0 then Progress(db, start - 1, 0, 0, None)
    else Next(After(db, start, events, plan, maxAttempts, n - 1), events[n - 1], n - 1, plan, maxAttempts)
  }

  function NextCursor(p: Progress, latestLedger: nat): nat {
    if p.failedAt.Some? then Max(0, p.safe) else Max(p.safe, latestLedger)
  }

  // ---- one backfill ---------------------------------------------------------------------------

  function InRange(events: seq<LedgerEvent>, fromLedger: nat, toLedger: nat): seq<LedgerEvent> {
    if events == [] then []
    else
      var before, e := InRange(events[..|events| - 1], fromLedger, toLedger), events[|events| - 1];
      if fromLedger <= e.ledger <= toLedger then before + [e] else before
  }

  datatype Refill = Refill(db: Db, processed: nat, settled: nat)

  function Refilled(db: Db, events: seq<LedgerEvent>, plan: Plan, maxAttempts: int, n: nat): Refill
    requires n <= |events|
  {
    if n == 0 then Refill(db, 0, 0)
    else
      var r, e := Refilled(db, events, plan, maxAttempts, n - 1), events[n - 1];
      if e.invoice.None? then r
      else
        var t := SettleEvent(r.db, e, n - 1, plan, maxAttempts);
        Refill(t.db, r.processed + 1, r.settled + (if t.attempt == Resolved(SETTLED) then 1 else 0))
  }

  // ---- the services -----------------------------------------------------------------------------

  class SettlementSyncService {
    const maxAttempts: int
    var invoices: map<nat, Invoice>
    var audit: seq<AuditEntry>
    var cursor: nat

    constructor (maxAttempts: int)
      ensures this.maxAttempts == maxAttempts && invoices == map[] && audit == [] && cursor == 0
    {
      this.maxAttempts := maxAttempts;
      invoices, audit, cursor := map[], [], 0;
    }

    function Database(): Db reads this { Db(invoices, audit) }

    /** `settleInvoice`. */
    method SettleInvoice(id: nat, ledger: nat, fate: Fate) returns (attempt: Attempt)
      modifies this
      ensures Try(Database(), attempt) == AttemptOnce(old(Database()), id, ledger, fate)
      ensures cursor == old(cursor)
    {
      if fate == FailBefore { return Thrown(Infrastructure); }
      if id in invoices && invoices[id].status == FUNDED {
        invoices := invoices[id := invoices[id].(status := REPAID, settledLedger := Some(ledger))];
        audit := audit + [AuditEntry(id, FUNDED, REPAID)];
        attempt := Resolved(SETTLED);
      } else if id !in invoices {
        return Thrown(InvoiceNotFound);
      } else if invoices[id].status == REPAID {
        attempt := Resolved(ALREADY_REPAID);
      } else {
        return Thrown(UnexpectedStatus(invoices[id].status));
      }
      if fate == FailAfter { attempt := Thrown(Infrastructure); }
    }

    /** `withRetry` around `settleInvoice`. */
    method SettleWithRetry(id: nat, ledger: nat, fates: nat -> Fate) returns (attempt: Attempt)
      modifies this
      ensures Try(Database(), attempt) == Retry(old(Database()), id, ledger, fates, 1, maxAttempts)
      ensures cursor == old(cursor)
    {
      attempt := Thrown(Infrastructure);
      var k: nat := 1;
      while k <= maxAttempts
        invariant cursor == old(cursor)
        invariant k > maxAttempts ==>
          Try(Database(), attempt) == Retry(old(Database()), id, ledger, fates, 1, maxAttempts)
        invariant k <= maxAttempts ==>
          Retry(Database(), id, ledger, fates, k, maxAttempts)
          == Retry(old(Database()), id, ledger, fates, 1, maxAttempts)
        decreases maxAttempts - k
      {
        attempt := SettleInvoice(id, ledger, fates(k));
        if attempt.Resolved? { return; }
        k := k + 1;
      }
    }

    /** `syncOnce`; `failedAt` is the position of the event it gave up on. */
    method SyncOnce(networkTip: nat, fetch: nat -> Response, plan: Plan)
        returns (processed: nat, settled: nat, ghost failedAt: Option<nat>)
      modifies this
      ensures var start := StartLedger(old(cursor), networkTip);
              var response := fetch(start);
              var p := After(old(Database()), start, response.events, plan, maxAttempts, |response.events|);
              && Database() == p.db && cursor == NextCursor(p, response.latestLedger)
              && processed == p.processed && settled == p.settled && failedAt == p.failedAt
    {
      var lastLedger := cursor;
      var startLedger := if lastLedger > 0 then lastLedger + 1 else networkTip;
      var response := fetch(startLedger);
      var events := response.events;
      processed, settled, failedAt := 0, 0, None;
      var safeLedger: int := startLedger - 1;
      var i := 0;
      while i < |events|
        invariant 0 <= i <= |events| && cursor == old(cursor) && failedAt == None
        invariant After(old(Database()), startLedger, events, plan, maxAttempts, i)
               == Progress(Database(), safeLedger, processed, settled, None)
      {
        var event := events[i];
        if event.invoice.None? {
          safeLedger := Max(safeLedger, event.ledger);
        } else {
          processed := processed + 1;
          var attempt := SettleWithRetry(event.invoice.value, event.ledger, (k: nat) => plan(i, k));
          if attempt.Thrown? {
            failedAt := Some(i);
            StoppedStays(old(Database()), startLedger, events, plan, maxAttempts, i + 1, |events|);
            cursor := Max(0, safeLedger);
            return;
          }
          if attempt.result == SETTLED { settled := settled + 1; }
          safeLedger := Max(safeLedger, event.ledger);
        }
        i := i + 1;
      }
      cursor := Max(safeLedger, response.latestLedger);
    }

    /** `backfill`: best effort, and the cursor stays where it is. */
    method Backfill(fromLedger: nat, toLedger: nat, fetch: nat -> Response, plan: Plan)
        returns (processed: nat, settled: nat)
      modifies this
      ensures var range := InRange(fetch(fromLedger).events, fromLedger, toLedger);
              Refill(Database(), processed, settled) == Refilled(old(Database()), range, plan, maxAttempts, |range|)
      ensures cursor == old(cursor)
    {
      var rangeEvents := InRange(fetch(fromLedger).events, fromLedger, toLedger);
      processed, settled := 0, 0;
      var i := 0;
      while i < |rangeEvents|
        invariant 0 <= i <= |rangeEvents| && cursor == old(cursor)
        invariant Refill(Database(), processed, settled) == Refilled(old(Database()), rangeEvents, plan, maxAttempts, i)
      {
        var event := rangeEvents[i];
        if event.invoice.Some? {
          processed := processed + 1;
          var attempt := SettleWithRetry(event.invoice.value, event.ledger, (k: nat) => plan(i, k));
          if attempt == Resolved(SETTLED) { settled := settled + 1; }
        }
        i := i + 1;
      }
    }
  }

  lemma {:induction false} StoppedStays(db: Db, start: nat, events: seq<LedgerEvent>, plan: Plan, maxAttempts: int,
      n: nat, m: nat)
    requires n <= m <= |events|
    requires After(db, start, events, plan, maxAttempts, n).failedAt.Some?
    ensures After(db, start, events, plan, maxAttempts, m) == After(db, start, events, plan, maxAttempts, n)
  {
    if n < m { StoppedStays(db, start, events, plan, maxAttempts, n, m - 1); }
  }

  // ---- what settling changes ------------------------------------------------------------------------

  /** How many audit rows record FUNDED -> REPAID for the invoice. */
  function Repayments(audit: seq<AuditEntry>, id: nat): nat {
    if audit == [] then 0
    else Repayments(audit[..|audit| - 1], id) + if audit[|audit| - 1] == AuditEntry(id, FUNDED, REPAID) then 1 else 0
  }

  lemma RepaymentsAppend(audit: seq<AuditEntry>, entry: AuditEntry, id: nat)
    ensures Repayments(audit + [entry], id) == Repayments(audit, id) + if entry
        == AuditEntry(id, FUNDED, REPAID) then 1 else 0
  {
    assert (audit + [entry])[..|audit|] == audit;
  }

  predicate IsRepaid(db: Db, id: nat) { id in db.invoices && db.invoices[id].status == REPAID }

  predicate IsFunded(db: Db, id: nat) { id in db.invoices && db.invoices[id].status == FUNDED }

  /** Some rows went from FUNDED to REPAID, each with exactly one audit row; nothing else moved. */
  ghost predicate OnlySettles(db: Db, after: Db) {
    && after.invoices.Keys == db.invoices.Keys
    && |db.audit| <= |after.audit|
    && (forall id :: id in db.invoices ==>
          after.invoices[id] == db.invoices[id] || (IsFunded(db, id) && IsRepaid(after, id)))
    && (forall id :: Repayments(after.audit, id)
                  == Repayments(db.audit, id) + if IsRepaid(after, id) && !IsRepaid(db, id) then 1 else 0)
  }

  lemma OnlySettlesTrans(a: Db, b: Db, c: Db)
    requires OnlySettles(a, b) && OnlySettles(b, c)
    ensures OnlySettles(a, c)
  {
    forall id ensures Repayments(c.audit, id)
                   == Repayments(a.audit, id) + if IsRepaid(c, id) && !IsRepaid(a, id) then 1 else 0
    {
      assert Repayments(b.audit, id) == Repayments(a.audit, id) + if IsRepaid(b, id) && !IsRepaid(a, id) then 1 else 0;
    }
  }

  lemma SettleEffect(db: Db, id: nat, ledger: nat)
    ensures var t := SettleInTx(db, id, ledger);
            && OnlySettles(db, t.db)
            && (t.attempt.Resolved? <==> IsRepaid(t.db, id))
            && !IsFunded(t.db, id)
            && |t.db.audit| == |db.audit| + if t.attempt == Resolved(SETTLED) then 1 else 0
  {
    forall other { RepaymentsAppend(db.audit, AuditEntry(id, FUNDED, REPAID), other); }
  }

  lemma AttemptEffect(db: Db, id: nat, ledger: nat, fate: Fate)
    ensures var t := AttemptOnce(db, id, ledger, fate);
            && OnlySettles(db, t.db)
            && (t.attempt.Resolved? ==> IsRepaid(t.db, id))
            && (fate != FailBefore ==> !IsFunded(t.db, id))
            && |t.db.audit| >= |db.audit| + (if t.attempt == Resolved(SETTLED) then 1 else 0)
            && (fate != FailAfter ==> |t.db.audit| == |db.audit| + if t.attempt == Resolved(SETTLED) then 1 else 0)
  {
    SettleEffect(db, id, ledger);
  }

  /** With its retries: an event that resolves leaves its invoice REPAID, and any attempt
      that gets through leaves it not FUNDED. */
  lemma {:induction false} RetryEffect(db: Db, id: nat, ledger: nat, fates: nat -> Fate, attempt: nat, maxAttempts: int)
    ensures var t := Retry(db, id, ledger, fates, attempt, maxAttempts);
            && OnlySettles(db, t.db)
            && (t.attempt.Resolved? ==> IsRepaid(t.db, id))
            && (!IsFunded(db, id) || (exists k: nat :: attempt <= k <= maxAttempts && fates(k) != FailBefore) ==>
                !IsFunded(t.db, id))
            && |t.db.audit| >= |db.audit| + (if t.attempt == Resolved(SETTLED) then 1 else 0)
            && ((forall k: nat :: attempt <= k <= maxAttempts ==> fates(k) != FailAfter) ==>
                  |t.db.audit| == |db.audit| + if t.attempt == Resolved(SETTLED) then 1 else 0)
    decreases maxAttempts - attempt
  {
    if attempt <= maxAttempts {
      var t := AttemptOnce(db, id, ledger, fates(attempt));
      AttemptEffect(db, id, ledger, fates(attempt));
      if !t.attempt.Resolved? && attempt < maxAttempts {
        RetryEffect(t.db, id, ledger, fates, attempt + 1, maxAttempts);
        OnlySettlesTrans(db, t.db, Retry(t.db, id, ledger, fates, attempt + 1, maxAttempts).db);
      }
    }
  }

  // ---- one cycle ----------------------------------------------------------------------------------------

  /** Everything the cycle did not give up on is REPAID when it ends, and the summary never
      counts more settlements than were written. */
  lemma {:induction false} CycleEffect(db: Db, start: nat, events: seq<LedgerEvent>, plan: Plan, maxAttempts: int,
      n: nat)
    requires n <= |events|
    ensures var p := After(db, start, events, plan, maxAttempts, n);
            && OnlySettles(db, p.db)
            && (p.failedAt.Some? ==> p.failedAt.value < n && events[p.failedAt.value].invoice.Some?)
            && (forall j :: 0 <= j < (if p.failedAt.Some? then p.failedAt.value else n) && events[j].invoice.Some? ==>
                  IsRepaid(p.db, events[j].invoice.value))
            && p.settled <= |p.db.audit| - |db.audit|
            && ((forall i: nat, k: nat :: plan(i, k) != FailAfter) ==> p.settled == |p.db.audit| - |db.audit|)
  {
    if n > 0 {
      CycleEffect(db, start, events, plan, maxAttempts, n - 1);
      var p, e := After(db, start, events, plan, maxAttempts, n - 1), events[n - 1];
      if p.failedAt.None? && e.invoice.Some? {
        RetryEffect(p.db, e.invoice.value, e.ledger, (k: nat) => plan(n - 1, k), 1, maxAttempts);
        OnlySettlesTrans(db, p.db, SettleEvent(p.db, e, n - 1, plan, maxAttempts).db);
      }
    }
  }

  lemma {:induction false} SafeNeverFalls(db: Db, start: nat, events: seq<LedgerEvent>, plan: Plan,
      maxAttempts: int, n: nat)
    requires n <= |events|
    ensures After(db, start, events, plan, maxAttempts, n).safe >= start - 1
  {
    if n > 0 { SafeNeverFalls(db, start, events, plan, maxAttempts, n - 1); }
  }

  /** Whatever the node answers and whatever fails, a cycle never moves the cursor back. */
  lemma CursorNeverFalls(db: Db, cursor: nat, networkTip: nat, response: Response, plan: Plan, maxAttempts: int)
    ensures NextCursor(After(db, StartLedger(cursor, networkTip), response.events, plan, maxAttempts,
        |response.events|),
                       response.latestLedger) >= cursor
  {
    SafeNeverFalls(db, StartLedger(cursor, networkTip), response.events, plan, maxAttempts, |response.events|);
  }

  /** A fetch from `start`: ordered by ledger, nothing before `start`; ledgers count from 1. */
  predicate OrderedFrom(events: seq<LedgerEvent>, start: nat) {
    && (forall i :: 0 <= i < |events| ==> events[i].ledger >= start && events[i].ledger > 0)
    && forall i, j :: 0 <= i < j < |events| ==> events[i].ledger <= events[j].ledger
  }

  /** `safeLedger` is the ledger of the last event handled. */
  lemma {:induction false} SafeIsLastHandled(db: Db, start: nat, events: seq<LedgerEvent>, plan: Plan,
      maxAttempts: int, n: nat)
    requires n <= |events| && OrderedFrom(events, start)
    ensures var p := After(db, start, events, plan, maxAttempts, n);
            var handled := if p.failedAt.Some? then p.failedAt.value else n;
            && handled <= n
            && p.safe == if handled == 0 then start - 1 else events[handled - 1].ledger
  {
    if n > 0 { SafeIsLastHandled(db, start, events, plan, maxAttempts, n - 1); }
  }

  /** The exact condition of "a failing event is retried on the next cycle": the next fetch
      leaves out the event a cycle gave up on if and only if an event fetched before it, of
      any kind, lies in the same ledger. */
  lemma SkippedIffLedgerShared(db: Db, start: nat, response: Response, plan: Plan, maxAttempts: int)
    requires OrderedFrom(response.events, start)
    requires After(db, start, response.events, plan, maxAttempts, |response.events|).failedAt.Some?
    ensures var events := response.events;
            var p := After(db, start, events, plan, maxAttempts, |events|);
            var i := p.failedAt.value;
            && i < |events|
            && (NextCursor(p, response.latestLedger) >= events[i].ledger
                <==> exists j :: 0 <= j < i && events[j].ledger == events[i].ledger)
  {
    var events := response.events;
    SafeIsLastHandled(db, start, events, plan, maxAttempts, |events|);
    CycleEffect(db, start, events, plan, maxAttempts, |events|);
    var i := After(db, start, events, plan, maxAttempts, |events|).failedAt.value;
    if i > 0 && events[i - 1].ledger < events[i].ledger {
      assert forall j :: 0 <= j < i ==> events[j].ledger <= events[i - 1].ledger;
    }
  }

  // ---- backfill -------------------------------------------------------------------------------------------

  lemma {:induction false} InRangeKeeps(events: seq<LedgerEvent>, fromLedger: nat, toLedger: nat, e: LedgerEvent)
    ensures e in InRange(events, fromLedger, toLedger) <==> e in events && fromLedger <= e.ledger <= toLedger
    ensures InRange([e], fromLedger, toLedger) == if fromLedger <= e.ledger <= toLedger then [e] else []
  {
    assert [e][..0] == [];
    if events != [] {
      InRangeKeeps(events[..|events| - 1], fromLedger, toLedger, e);
      assert events == events[..|events| - 1] + [events[|events| - 1]];
    }
  }

  /** Filtering goes event by event: it keeps the order and every repetition. */
  lemma {:induction false} InRangeInOrder(a: seq<LedgerEvent>, b: seq<LedgerEvent>, fromLedger: nat, toLedger: nat)
    ensures InRange(a + b, fromLedger, toLedger) == InRange(a, fromLedger, toLedger) + InRange(b, fromLedger, toLedger)
  {
    if b == [] {
      assert a + b == a;
    } else {
      InRangeInOrder(a, b[..|b| - 1], fromLedger, toLedger);
      assert (a + b)[..|a + b| - 1] == a + b[..|b| - 1];
    }
  }

  /** Some attempt of event `i` gets through to the database. */
  ghost predicate GetsThrough(plan: Plan, i: nat, maxAttempts: int) {
    exists k: nat :: 1 <= k <= maxAttempts && plan(i, k) != FailBefore
  }

  lemma SettleEventEffect(db: Db, e: LedgerEvent, i: nat, plan: Plan, maxAttempts: int)
    requires e.invoice.Some?
    ensures var after := SettleEvent(db, e, i, plan, maxAttempts).db;
            && OnlySettles(db, after)
            && (GetsThrough(plan, i, maxAttempts) ==> !IsFunded(after, e.invoice.value))
            && (forall id :: !IsFunded(db, id) ==> !IsFunded(after, id))
  {
    var fates := (k: nat) => plan(i, k);
    RetryEffect(db, e.invoice.value, e.ledger, fates, 1, maxAttempts);
    if GetsThrough(plan, i, maxAttempts) {
      var k: nat :| 1 <= k <= maxAttempts && plan(i, k) != FailBefore;
      assert fates(k) != FailBefore;
    }
  }

  lemma {:induction false} RefillEffect(db: Db, events: seq<LedgerEvent>, plan: Plan, maxAttempts: int, n: nat)
    requires n <= |events|
    ensures var r := Refilled(db, events, plan, maxAttempts, n);
            && OnlySettles(db, r.db)
            && forall j :: 0 <= j < n && events[j].invoice.Some? && GetsThrough(plan, j, maxAttempts) ==>
                 !IsFunded(r.db, events[j].invoice.value)
  {
    if n > 0 {
      RefillEffect(db, events, plan, maxAttempts, n - 1);
      var r, e := Refilled(db, events, plan, maxAttempts, n - 1), events[n - 1];
      if e.invoice.Some? {
        SettleEventEffect(r.db, e, n - 1, plan, maxAttempts);
        OnlySettlesTrans(db, r.db, SettleEvent(r.db, e, n - 1, plan, maxAttempts).db);
      }
    }
  }

  lemma {:induction false} RetryIsQuiet(db: Db, id: nat, ledger: nat, fates: nat -> Fate, attempt: nat,
      maxAttempts: int)
    requires !IsFunded(db, id)
    ensures var t := Retry(db, id, ledger, fates, attempt, maxAttempts);
            t.db == db && t.attempt != Resolved(SETTLED)
    decreases maxAttempts - attempt
  {
    if attempt < maxAttempts { RetryIsQuiet(db, id, ledger, fates, attempt + 1, maxAttempts); }
  }

  lemma {:induction false} RefillIsQuiet(db: Db, events: seq<LedgerEvent>, plan: Plan, maxAttempts: int, n: nat)
    requires n <= |events|
    requires forall j :: 0 <= j < n && events[j].invoice.Some? ==> !IsFunded(db, events[j].invoice.value)
    ensures Refilled(db, events, plan, maxAttempts, n).db == db
        && Refilled(db, events, plan, maxAttempts, n).settled == 0
  {
    if n > 0 {
      RefillIsQuiet(db, events, plan, maxAttempts, n - 1);
      if events[n - 1].invoice.Some? {
        RetryIsQuiet(db, events[n - 1].invoice.value, events[n - 1].ledger, (k: nat) => plan(n - 1, k), 1, maxAttempts);
      }
    }
  }

  /** Backfilling a range again changes nothing, provided each event of the first pass got
      through to the database at least once - even if it was reported as failed. */
  lemma BackfillIsIdempotent(db: Db, events: seq<LedgerEvent>, first: Plan, second: Plan, maxAttempts: int)
    requires forall i: nat :: i < |events| ==> GetsThrough(first, i, maxAttempts)
    ensures var once := Refilled(db, events, first, maxAttempts, |events|);
            var twice := Refilled(once.db, events, second, maxAttempts, |events|);
            twice.db == once.db && twice.settled == 0
  {
    RefillEffect(db, events, first, maxAttempts, |events|);
    RefillIsQuiet(Refilled(db, events, first, maxAttempts, |events|).db, events, second, maxAttempts, |events|);
  }
}
