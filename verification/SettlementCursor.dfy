/** Whether the ledger cursor of the settlement sync can pass a settlement it did not apply. */
module SettlementCursor {
  import opened Prelude
  import opened SettlementSync
  import opened SettlementSyncRuns

  // ---- the cursor never passes an unapplied settlement -------------------------------------------------

  predicate IsFirst(chain: seq<LedgerEvent>, i: nat)
    requires i < |chain|
  {
    i == 0 || chain[i - 1].ledger < chain[i].ledger
  }

  /** `m` opens its ledger with an event for the same invoice, at `b` or later. */
  predicate Opens(chain: seq<LedgerEvent>, b: nat, m: nat, e: LedgerEvent)
    requires m < |chain|
  {
    chain[m].ledger >= b && IsFirst(chain, m) && chain[m].invoice == e.invoice
  }

  /** Event `i` is, or comes after, an event for its invoice that opens a ledger. */
  ghost predicate IsOpened(chain: seq<LedgerEvent>, b: nat, i: nat)
    requires i < |chain|
  {
    exists m :: 0 <= m <= i && Opens(chain, b, m, chain[i])
  }

  predicate SettlesFrom(chain: seq<LedgerEvent>, b: nat, i: nat)
    requires i < |chain|
  {
    chain[i].invoice.Some? && chain[i].ledger >= b
  }

  /** So is every settlement event from ledger `b` on. */
  ghost predicate OpenedFrom(chain: seq<LedgerEvent>, b: nat) {
    forall i {:trigger SettlesFrom(chain, b, i)} :: 0 <= i < |chain| && SettlesFrom(chain, b, i) ==>
      IsOpened(chain, b, i)
  }

  /** Ledgers count from one, in order, up to `tip`. */
  ghost predicate IsChain(chain: seq<LedgerEvent>, tip: nat) {
    && (forall i :: 0 <= i < |chain| ==> 1 <= chain[i].ledger <= tip)
    && forall i, j :: 0 <= i < j < |chain| ==> chain[i].ledger <= chain[j].ledger
  }

  /** The event was applied: its invoice has an audit row for FUNDED -> REPAID. */
  predicate Applied(e: LedgerEvent, db: Db) { e.invoice.Some? ==> Repayments(db.audit, e.invoice.value) > 0 }

  ghost predicate BehindCursor(chain: seq<LedgerEvent>, db: Db, base: nat, cursor: nat) {
    && (cursor > 0 ==> base <= cursor + 1)
    && forall i :: 0 <= i < |chain| && base <= chain[i].ledger <= cursor ==> Applied(chain[i], db)
  }

  /** What the running cycle handled is applied; what it has yet to handle is ahead of
      `safe`, or applied already. */
  ghost predicate CycleIsSafe(chain: seq<LedgerEvent>, db: Db, base: nat, p: Poller)
    requires p.Running?
  {
    && p.next <= |chain| && base <= p.safe + 1
    && (forall i :: 0 <= i < p.next && base <= chain[i].ledger ==> Applied(chain[i], db))
    && (forall i :: p.next <= i < |chain| ==> chain[i].ledger >= base)
    && (forall i :: p.next <= i < |chain| && chain[i].ledger <= p.safe ==> Applied(chain[i], db))
    && (forall i :: p.upto <= i < |chain| ==> chain[i].ledger > p.latest)
  }

  ghost predicate CursorIsSafe(s: State) {
    BehindCursor(s.chain, s.db, s.origin, s.cursor) && (s.poller.Running? ==>
        CycleIsSafe(s.chain, s.db, s.origin, s.poller))
  }

  lemma RepaymentsGrow(s: State, e: Event, maxAttempts: int, id: nat)
    ensures Repayments(Step(s, e, maxAttempts).db.audit, id) >= Repayments(s.db.audit, id)
  {
    match e
    case PollerStep(fate) =>
      if HasEvent(s) && s.chain[s.poller.next].invoice.Some? {
        AttemptGrows(s.db, s.chain[s.poller.next].invoice.value, s.chain[s.poller.next].ledger, fate, id);
      }
    case BackfillStep(k, fate) =>
      if k < |s.chain| && s.chain[k].invoice.Some? {
        AttemptGrows(s.db, s.chain[k].invoice.value, s.chain[k].ledger, fate, id);
      }
    case FundWrite(t) =>
      if Step(s, e, maxAttempts) != s {
        RepaymentsAppend(s.db.audit, AuditEntry(s.funders[t].id, PENDING, FUNDED), id);
      }
    case _ =>
  }

  /** Applying more events, or stopping the poller, leaves the cursor safe. */
  lemma SafeGrow(s: State, t: State)
    requires CursorIsSafe(s) && t.chain == s.chain && t.cursor == s.cursor && t.origin == s.origin
    requires forall id :: Repayments(t.db.audit, id) >= Repayments(s.db.audit, id)
    requires t.poller.Idle? || (s.poller.Running? && t.poller.(attempts := 0) == s.poller.(attempts := 0))
    ensures CursorIsSafe(t)
  {
    forall e | Applied(e, s.db) ensures Applied(e, t.db) {
    }
  }

  lemma SafeClose(s: State, emitted: seq<Option<nat>>)
    requires Bounds(s) && CursorIsSafe(s)
    ensures CursorIsSafe(Close(s, emitted))
  {
    var t := Close(s, emitted);
    assert forall i :: |s.chain| <= i < |t.chain| ==> t.chain[i].ledger == s.tip + 1;
    assert forall i :: 0 <= i < |s.chain| ==> t.chain[i] == s.chain[i];
  }

  lemma {:induction false} FromSplits(chain: seq<LedgerEvent>, start: nat)
    requires forall i, j :: 0 <= i < j < |chain| ==> chain[i].ledger <= chain[j].ledger
    ensures forall i :: 0 <= i < From(chain, start) ==> chain[i].ledger < start
    ensures forall i :: From(chain, start) <= i < |chain| ==> chain[i].ledger >= start
  {
    var n := From(chain, start);
    assert n > 0 ==> forall i :: 0 <= i < n ==> chain[i].ledger <= chain[n - 1].ledger;
    assert n < |chain| ==> forall i :: n <= i < |chain| ==> chain[n].ledger <= chain[i].ledger;
  }

  lemma SafeStart(s: State, networkTip: nat)
    requires Bounds(s) && CursorIsSafe(s)
    ensures CursorIsSafe(Start(s, networkTip))
  {
    var t := Start(s, networkTip);
    if t != s {
      FromSplits(s.chain, StartLedger(s.cursor, networkTip));
      assert CycleIsSafe(t.chain, t.db, t.origin, t.poller);
    }
  }

  lemma LaterIsNotFirst(chain: seq<LedgerEvent>, n: nat, i: nat, m: nat)
    requires forall a, b :: 0 <= a < b < |chain| ==> chain[a].ledger <= chain[b].ledger
    requires n < m <= i < |chain| && chain[n].ledger == chain[i].ledger
    ensures !IsFirst(chain, m)
  {
    assert m - 1 == n || chain[n].ledger <= chain[m - 1].ledger;
    assert m == i || chain[m].ledger <= chain[i].ledger;
  }

  /** What shares its ledger with the event just handled is applied along with it. */
  lemma LedgerMates(s: State, i: nat)
    requires Bounds(s) && CursorIsSafe(s) && HasEvent(s) && Applied(s.chain[s.poller.next], s.db)
        && OpenedFrom(s.chain, s.origin)
    requires s.poller.next < i < |s.chain| && s.chain[i].ledger == s.chain[s.poller.next].ledger
    ensures Applied(s.chain[i], s.db)
  {
    var next, e := s.poller.next, s.chain[i];
    assert s.chain[next].ledger >= s.origin;
    if e.invoice.Some? {
      assert SettlesFrom(s.chain, s.origin, i);
      var m :| 0 <= m <= i && Opens(s.chain, s.origin, m, e);
      if m > next { LaterIsNotFirst(s.chain, next, i, m); }
      assert Applied(s.chain[m], s.db) by { assert m == next || m < next; }
    }
  }

  /** Moving past the event just handled, everything ahead is ahead of `safe` or applied. */
  lemma AheadAfterHandled(s: State, i: nat)
    requires Bounds(s) && CursorIsSafe(s) && HasEvent(s) && Applied(s.chain[s.poller.next], s.db)
        && OpenedFrom(s.chain, s.origin)
    requires s.poller.next < i < |s.chain|
    ensures s.chain[i].ledger >= s.origin
    ensures s.chain[i].ledger > Max(s.poller.safe, s.chain[s.poller.next].ledger) || Applied(s.chain[i], s.db)
  {
    if s.chain[i].ledger == s.chain[s.poller.next].ledger { LedgerMates(s, i); }
  }

  lemma SafeHandled(s: State)
    requires Bounds(s) && CursorIsSafe(s) && HasEvent(s) && Applied(s.chain[s.poller.next], s.db)
        && OpenedFrom(s.chain, s.origin)
    ensures CursorIsSafe(Handled(s))
  {
    var p := Handled(s).poller;
    forall i | p.next <= i < |s.chain|
      ensures s.chain[i].ledger >= s.origin && (s.chain[i].ledger > p.safe || Applied(s.chain[i], s.db))
    {
      AheadAfterHandled(s, i);
    }
    assert CycleIsSafe(s.chain, s.db, s.origin, p);
  }

  lemma SafeGiveUp(s: State)
    requires Bounds(s) && CursorIsSafe(s) && s.poller.Running?
    ensures CursorIsSafe(GiveUp(s))
  {
  }

  lemma SafeEnd(s: State)
    requires Bounds(s) && CursorIsSafe(s)
    ensures CursorIsSafe(End(s))
  {
  }

  lemma SafeAttempt(s: State, fate: Fate)
    requires Bounds(s) && CursorIsSafe(s) && HasEvent(s) && s.chain[s.poller.next].invoice.Some?
    requires forall id :: Extra(s.db, id) >= 0
    ensures var e := s.chain[s.poller.next];
            var t := AttemptOnce(s.db, e.invoice.value, e.ledger, fate);
            var tried := s.(db := t.db);
            Bounds(tried) && CursorIsSafe(tried) && (t.attempt.Resolved? ==> Applied(e, t.db))
  {
    var e := s.chain[s.poller.next];
    AttemptEffect(s.db, e.invoice.value, e.ledger, fate);
    AttemptKeepsExtra(s.db, e.invoice.value, e.ledger, fate, e.invoice.value);
    SafeGrow(s, s.(db := AttemptOnce(s.db, e.invoice.value, e.ledger, fate).db));
  }

  lemma SafeOutcome(s: State, resolved: bool, maxAttempts: int)
    requires Bounds(s) && CursorIsSafe(s) && HasEvent(s) && OpenedFrom(s.chain, s.origin)
    requires resolved ==> Applied(s.chain[s.poller.next], s.db)
    ensures CursorIsSafe(AfterAttempt(s, resolved, maxAttempts))
  {
    if resolved {
      SafeHandled(s);
    } else if s.poller.attempts + 1 >= maxAttempts {
      SafeGiveUp(s);
    } else {
      SafeGrow(s, s.(poller := s.poller.(attempts := s.poller.attempts + 1)));
    }
  }

  lemma SafePoller(s: State, fate: Fate, maxAttempts: int)
    requires Bounds(s) && CursorIsSafe(s) && HasEvent(s) && OpenedFrom(s.chain, s.origin)
    requires forall id :: Extra(s.db, id) >= 0
    ensures CursorIsSafe(StepPoller(s, fate, maxAttempts))
  {
    var e := s.chain[s.poller.next];
    if e.invoice.None? {
      SafeHandled(s);
    } else if maxAttempts < 1 {
      SafeGiveUp(s);
    } else {
      var t := AttemptOnce(s.db, e.invoice.value, e.ledger, fate);
      SafeAttempt(s, fate);
      SafeOutcome(s.(db := t.db), t.attempt.Resolved?, maxAttempts);
    }
  }

  lemma SafeStep(s: State, e: Event, maxAttempts: int)
    requires Bounds(s) && CursorIsSafe(s) && (s.poller.Running? ==> OpenedFrom(s.chain, s.origin))
    requires forall id :: Extra(s.db, id) >= 0
    ensures CursorIsSafe(Step(s, e, maxAttempts))
  {
    match e
    case CloseLedger(emitted) => SafeClose(s, emitted);
    case StartCycle(networkTip) => SafeStart(s, networkTip);
    case EndCycle => SafeEnd(s);
    case PollerStep(fate) => if HasEvent(s) { SafePoller(s, fate, maxAttempts); }
    case _ =>
      forall id { RepaymentsGrow(s, e, maxAttempts, id); }
      SafeGrow(s, Step(s, e, maxAttempts));
  }

  // ---- over runs from a seeded cursor -----------------------------------------------------------------

  lemma OpenedPrefix(chain: seq<LedgerEvent>, more: seq<LedgerEvent>, b: nat)
    requires chain <= more && OpenedFrom(more, b)
    ensures OpenedFrom(chain, b)
  {
    forall i | 0 <= i < |chain| && SettlesFrom(chain, b, i) ensures IsOpened(chain, b, i) {
      assert more[i] == chain[i] && SettlesFrom(more, b, i);
      var m :| 0 <= m <= i && Opens(more, b, m, more[i]);
      assert Opens(chain, b, m, chain[i]);
    }
  }

  /** A listener that was never restarted without a stored cursor runs from its first start;
      one that never started has nothing stored. */
  ghost predicate StartKept(s: State) {
    !s.restarted ==>
      if s.first.Some? then s.origin == s.first.value else s.poller.Idle? && s.cursor == 0
  }

  lemma StartKeptStep(s: State, e: Event, maxAttempts: int)
    requires StartKept(s)
    ensures var t := Step(s, e, maxAttempts);
            && StartKept(t) && (s.restarted ==> t.restarted) && (s.first.Some? ==> t.first == s.first)
            && (s.cursor > 0 ==> t.origin == s.origin)
  {
    match e
    case StartCycle(networkTip) =>
    case PollerStep(fate) =>
    case CloseLedger(emitted) =>
    case EndCycle =>
    case Crash =>
    case _ => AroundFrame(s, e);
  }

  lemma {:induction false} SeededFacts(c: nat, events: seq<Event>, maxAttempts: int)
    ensures var s := RunFrom(Seeded(c), events, maxAttempts);
            && Bounds(s) && StartKept(s) && s.cursor >= c && forall id :: Extra(s.db, id) >= 0
    ensures var s := RunFrom(Seeded(c), events, maxAttempts);
            c > 0 ==> s.first == Some(c + 1) && s.origin == c + 1 && !s.restarted
  {
    if events != [] {
      var s, e := RunFrom(Seeded(c), events[..|events| - 1], maxAttempts), events[|events| - 1];
      SeededFacts(c, events[..|events| - 1], maxAttempts);
      BoundsStep(s, e, maxAttempts);
      StartKeptStep(s, e, maxAttempts);
      if c > 0 { SeededStays(s, e, maxAttempts); }
      forall id ensures Extra(Step(s, e, maxAttempts).db, id) >= 0 { ExtraStep(s, e, maxAttempts, id); }
    }
  }

  lemma SeededStays(s: State, e: Event, maxAttempts: int)
    requires s.cursor > 0
    ensures Step(s, e, maxAttempts).restarted == s.restarted
  {
    match e
    case StartCycle(networkTip) =>
    case PollerStep(fate) =>
    case CloseLedger(emitted) =>
    case EndCycle =>
    case Crash =>
    case _ => AroundFrame(s, e);
  }
}
