/** For which chains the ledger cursor of the settlement sync never passes a settlement it
    did not apply: exact conditions, and the runs that break them. */
module SettlementCursorExact {
  import opened Prelude
  import opened SettlementSync
  import opened SettlementSyncRuns
  import opened SettlementCursor

  /** A settlement at or after the listener's first start is behind the cursor and was never
      applied. */
  ghost predicate Skipped(s: State, i: nat) {
    && i < |s.chain| && s.chain[i].invoice.Some?
    && s.first.Some? && s.first.value <= s.chain[i].ledger <= s.cursor
    && Repayments(s.db.audit, s.chain[i].invoice.value) == 0
  }

  predicate SettlesSameLedger(first: LedgerEvent, e: LedgerEvent) {
    e.invoice.Some? && e.ledger == first.ledger
  }

  /** Every settlement event names the same invoice as the first contract event of its ledger. */
  ghost predicate LedgersAgree(chain: seq<LedgerEvent>) {
    forall i, j :: 0 <= i < j < |chain| && IsFirst(chain, i) && SettlesSameLedger(chain[i], chain[j]) ==>
      chain[i].invoice == chain[j].invoice
  }

  // ---- chains that are safe -----------------------------------------------------------------------------

  /** The listener keeps its start, and the chain opens the ledgers from there on. */
  lemma {:induction false} SafeOnceStarted(c: nat, events: seq<Event>, maxAttempts: int)
    requires var s := RunFrom(Seeded(c), events, maxAttempts);
             !s.restarted && (s.first.Some? ==> OpenedFrom(s.chain, s.first.value))
    ensures CursorIsSafe(RunFrom(Seeded(c), events, maxAttempts))
  {
    if events != [] {
      var before, e := events[..|events| - 1], events[|events| - 1];
      var s := RunFrom(Seeded(c), before, maxAttempts);
      SeededFacts(c, before, maxAttempts);
      BoundsStep(s, e, maxAttempts);
      StartKeptStep(s, e, maxAttempts);
      if s.first.Some? { OpenedPrefix(s.chain, Step(s, e, maxAttempts).chain, s.first.value); }
      SafeOnceStarted(c, before, maxAttempts);
      SafeStep(s, e, maxAttempts);
    }
  }

  lemma AgreeOpens(chain: seq<LedgerEvent>, tip: nat, b: nat)
    requires IsChain(chain, tip) && LedgersAgree(chain)
    ensures OpenedFrom(chain, b)
  {
    forall i | 0 <= i < |chain| && SettlesFrom(chain, b, i) ensures IsOpened(chain, b, i) {
      var f := FirstOfLedger(chain, i);
      assert Opens(chain, b, f, chain[i]);
    }
  }

  lemma {:induction false} FirstOfLedger(chain: seq<LedgerEvent>, n: nat) returns (f: nat)
    requires n < |chain| && forall i, j :: 0 <= i < j < |chain| ==> chain[i].ledger <= chain[j].ledger
    ensures f <= n && IsFirst(chain, f) && chain[f].ledger == chain[n].ledger
  {
    if IsFirst(chain, n) { f := n; } else { f := FirstOfLedger(chain, n - 1); }
  }

  lemma AgreePrefix(chain: seq<LedgerEvent>, more: seq<LedgerEvent>)
    requires chain <= more && LedgersAgree(more)
    ensures LedgersAgree(chain)
  {
    forall i, j | 0 <= i < j < |chain| && IsFirst(chain, i) && SettlesSameLedger(chain[i], chain[j])
      ensures chain[i].invoice == chain[j].invoice
    {
      assert more[i] == chain[i] && more[j] == chain[j] && IsFirst(more, i);
    }
  }

  /** On a chain whose ledgers agree even restarts keep the cursor safe - from the last start. */
  lemma {:induction false} SafeFromLastStart(events: seq<Event>, maxAttempts: int)
    requires LedgersAgree(Run(events, maxAttempts).chain)
    ensures CursorIsSafe(Run(events, maxAttempts)) && Run(events, maxAttempts).origin <= Run(events, maxAttempts).tip
  {
    if events != [] {
      var before, e := events[..|events| - 1], events[|events| - 1];
      var s := Run(before, maxAttempts);
      SeededFacts(0, before, maxAttempts);
      BoundsStep(s, e, maxAttempts);
      AgreePrefix(s.chain, Step(s, e, maxAttempts).chain);
      AgreeOpens(s.chain, s.tip, s.origin);
      SafeFromLastStart(before, maxAttempts);
      SafeStep(s, e, maxAttempts);
      OriginStep(s, e, maxAttempts);
    }
  }

  lemma OriginStep(s: State, e: Event, maxAttempts: int)
    requires s.origin <= s.tip
    ensures Step(s, e, maxAttempts).origin <= Step(s, e, maxAttempts).tip
  {
    match e
    case StartCycle(networkTip) =>
    case PollerStep(fate) =>
    case CloseLedger(emitted) =>
    case EndCycle =>
    case Crash =>
    case _ => AroundFrame(s, e);
  }

  // ---- runs that skip --------------------------------------------------------------------------------------

  lemma SnocFrom(s: State, events: seq<Event>, e: Event, maxAttempts: int)
    ensures RunFrom(s, events + [e], maxAttempts) == Step(RunFrom(s, events, maxAttempts), e, maxAttempts)
  {
    assert (events + [e])[..|events|] == events;
  }

  lemma Emitted(events: seq<LedgerEvent>, ledger: nat) returns (emitted: seq<Option<nat>>)
    requires forall i :: 0 <= i < |events| ==> events[i].ledger == ledger
    ensures Emit(ledger, emitted) == events
  {
    emitted := seq(|events|, i requires 0 <= i < |events| => events[i].invoice);
  }

  /** All its ledgers come after `c`. */
  ghost predicate LiesAfter(chain: seq<LedgerEvent>, c: nat) { forall i :: 0 <= i < |chain| ==> chain[i].ledger > c }

  lemma LastLedger(chain: seq<LedgerEvent>, tip: nat) returns (before: seq<LedgerEvent>, emitted: seq<Option<nat>>)
    requires IsChain(chain, tip) && tip > 0
    ensures IsChain(before, tip - 1) && before + Emit(tip, emitted) == chain
  {
    var m := From(chain, tip);
    FromSplits(chain, tip);
    before := chain[..m];
    ChainBefore(chain, tip, m);
    AllAtTip(chain, tip, m);
    emitted := Emitted(chain[m..], tip);
    assert chain[..m] + chain[m..] == chain;
  }

  lemma ChainBefore(chain: seq<LedgerEvent>, tip: nat, m: nat)
    requires IsChain(chain, tip) && tip > 0 && m <= |chain| && forall i :: 0 <= i < m ==> chain[i].ledger < tip
    ensures IsChain(chain[..m], tip - 1)
  {
  }

  lemma AllAtTip(chain: seq<LedgerEvent>, tip: nat, m: nat)
    requires IsChain(chain, tip) && m <= |chain| && forall i :: m <= i < |chain| ==> chain[i].ledger >= tip
    ensures forall i :: 0 <= i < |chain[m..]| ==> chain[m..][i].ledger == tip
  {
  }

  /** Every chain is produced by closing its ledgers one by one. */
  lemma {:induction false} BuildChain(c: nat, chain: seq<LedgerEvent>, tip: nat, maxAttempts: int)
      returns (events: seq<Event>)
    requires IsChain(chain, tip) && LiesAfter(chain, c) && c <= tip
    ensures RunFrom(Seeded(c), events, maxAttempts) == Seeded(c).(chain := chain, tip := tip)
    decreases tip
  {
    if tip == c {
      NothingAfterTip(chain, tip);
      events := [];
    } else {
      var earlier, emitted := LastLedger(chain, tip);
      assert forall i :: 0 <= i < |earlier| ==> earlier[i] == chain[i];
      var before := BuildChain(c, earlier, tip - 1, maxAttempts);
      SnocFrom(Seeded(c), before, CloseLedger(emitted), maxAttempts);
      events := before + [CloseLedger(emitted)];
    }
  }

  lemma NothingAfterTip(chain: seq<LedgerEvent>, tip: nat)
    requires IsChain(chain, tip)
    ensures LiesAfter(chain, tip) ==> chain == []
  {
    assert |chain| > 0 ==> chain[0].ledger <= tip;
  }

  /** All rows are FUNDED and nothing was ever repaid. */
  ghost predicate Fresh(db: Db) {
    db.audit == [] && forall id :: id in db.invoices ==> IsFunded(db, id)
  }

  lemma {:induction false} MirrorAll(s: State, n: nat, maxAttempts: int) returns (events: seq<Event>, db: Db)
    requires Fresh(s.db) && n <= |s.chain|
    ensures RunFrom(s, events, maxAttempts) == s.(db := db) && Fresh(db)
    ensures forall i :: 0 <= i < n && s.chain[i].invoice.Some? ==> s.chain[i].invoice.value in db.invoices
  {
    if n == 0 {
      events, db := [], s.db;
    } else {
      events, db := MirrorAll(s, n - 1, maxAttempts);
      if s.chain[n - 1].invoice.Some? {
        var mirror := Mirror(s.chain[n - 1].invoice.value, FUNDED);
        SnocFrom(s, events, mirror, maxAttempts);
        events, db := events + [mirror], StepAround(s.(db := db), mirror).db;
      }
    }
  }

  predicate Settleable(db: Db, id: nat) { IsFunded(db, id) || IsRepaid(db, id) }

  lemma CleanFirst(db: Db, e: LedgerEvent, i: nat, plan: Plan, maxAttempts: int)
    requires e.invoice.Some? && Settleable(db, e.invoice.value) && plan(i, 1) == Clean && maxAttempts >= 1
    ensures SettleEvent(db, e, i, plan, maxAttempts) == SettleInTx(db, e.invoice.value, e.ledger)
  {
  }

  /** A clean first attempt settles a known invoice and leaves every other one alone. */
  lemma CleanSettle(db: Db, e: LedgerEvent, i: nat, plan: Plan, maxAttempts: int, id: nat)
    requires e.invoice.Some? && e.invoice.value != id && Settleable(db, e.invoice.value)
    requires plan(i, 1) == Clean && maxAttempts >= 1
    ensures var t := SettleEvent(db, e, i, plan, maxAttempts);
            && t.attempt.Resolved? && Repayments(t.db.audit, id) == Repayments(db.audit, id)
            && (forall other :: Settleable(db, other) ==> Settleable(t.db, other))
  {
    CleanFirst(db, e, i, plan, maxAttempts);
    RepaymentsAppend(db.audit, AuditEntry(e.invoice.value, FUNDED, REPAID), id);
  }

  /** With nothing going wrong, known invoices that are FUNDED or REPAID all resolve, and an
      invoice that does not occur gets no audit row. */
  lemma {:induction false} CleanPrefix(db: Db, start: nat, events: seq<LedgerEvent>, plan: Plan, maxAttempts: int,
      n: nat, id: nat)
    requires n <= |events| && maxAttempts >= 1
    requires forall i: nat :: i < n ==> plan(i, 1) == Clean
    requires forall i :: 0 <= i < n ==> events[i].invoice != Some(id)
    requires forall i :: 0 <= i < n && events[i].invoice.Some? ==> Settleable(db, events[i].invoice.value)
    ensures var p := After(db, start, events, plan, maxAttempts, n);
            && p.failedAt.None? && Repayments(p.db.audit, id) == Repayments(db.audit, id)
            && forall other :: Settleable(db, other) ==> Settleable(p.db, other)
  {
    if n > 0 {
      CleanPrefix(db, start, events, plan, maxAttempts, n - 1, id);
      var p, e := After(db, start, events, plan, maxAttempts, n - 1), events[n - 1];
      if e.invoice.Some? { CleanSettle(p.db, e, n - 1, plan, maxAttempts, id); }
    }
  }

  lemma {:induction false} AllAttemptsFail(db: Db, id: nat, ledger: nat, fates: nat -> Fate, attempt: nat,
      maxAttempts: int)
    requires forall k: nat :: fates(k) == FailBefore
    ensures Retry(db, id, ledger, fates, attempt, maxAttempts) == Try(db, Thrown(Infrastructure))
    decreases maxAttempts - attempt
  {
    if attempt < maxAttempts { AllAttemptsFail(db, id, ledger, fates, attempt + 1, maxAttempts); }
  }

  /** A cycle in which event `n` alone always fails stops there, and passes it if an earlier
      event lies in the same ledger. */
  lemma CycleStopsAt(db: Db, start: nat, events: seq<LedgerEvent>, n: nat, maxAttempts: int) returns (plan: Plan)
    requires n < |events| && maxAttempts >= 1 && Fresh(db) && OrderedFrom(events, start)
    requires 0 < n && events[n - 1].ledger == events[n].ledger && events[n].invoice.Some?
    requires forall i :: 0 <= i < n ==> events[i].invoice != events[n].invoice
    requires forall i :: 0 <= i <= n && events[i].invoice.Some? ==> events[i].invoice.value in db.invoices
    ensures var p := After(db, start, events, plan, maxAttempts, |events|);
            && p.failedAt.Some? && p.safe == events[n].ledger
            && Repayments(p.db.audit, events[n].invoice.value) == 0
  {
    plan := (i: nat, k: nat) => if i == n then FailBefore else Clean;
    CleanPrefix(db, start, events, plan, maxAttempts, n, events[n].invoice.value);
    var p := After(db, start, events, plan, maxAttempts, n);
    AllAttemptsFail(p.db, events[n].invoice.value, events[n].ledger, (k: nat) => plan(n, k), 1, maxAttempts);
    StoppedStays(db, start, events, plan, maxAttempts, n + 1, |events|);
    SafeIsLastHandled(db, start, events, plan, maxAttempts, n);
  }

  /** The earliest settlement from `b` on that no opening event precedes; its invoice was not
      named before it. */
  lemma {:induction false} FirstUnopened(chain: seq<LedgerEvent>, b: nat, i: nat) returns (n: nat)
    requires i < |chain| && SettlesFrom(chain, b, i) && !IsOpened(chain, b, i)
    ensures n <= i && SettlesFrom(chain, b, n) && !IsFirst(chain, n)
    ensures forall m :: 0 <= m < n && chain[m].ledger >= b ==> chain[m].invoice != chain[n].invoice
    decreases i
  {
    if m :| 0 <= m < i && chain[m].ledger >= b && chain[m].invoice == chain[i].invoice {
      assert !IsOpened(chain, b, m) by {
        forall k | 0 <= k <= m ensures !Opens(chain, b, k, chain[m]) {
          assert !Opens(chain, b, k, chain[i]);
        }
      }
      n := FirstUnopened(chain, b, m);
    } else {
      n := i;
      assert !Opens(chain, b, i, chain[i]);
    }
  }

  lemma NotFirstShares(chain: seq<LedgerEvent>, tip: nat, n: nat)
    requires IsChain(chain, tip) && n < |chain| && !IsFirst(chain, n)
    ensures n > 0 && chain[n - 1].ledger == chain[n].ledger
  {
  }

  lemma FetchOrdered(chain: seq<LedgerEvent>, tip: nat, b: nat)
    requires IsChain(chain, tip)
    ensures OrderedFrom(chain[From(chain, b)..], b)
  {
    FromSplits(chain, b);
  }

  lemma StartsAtOrBefore(chain: seq<LedgerEvent>, tip: nat, b: nat, n: nat)
    requires IsChain(chain, tip) && n < |chain| && chain[n].ledger >= b
    ensures From(chain, b) <= n
    ensures forall i :: From(chain, b) <= i < |chain| ==> chain[i].ledger >= b
  {
    FromSplits(chain, b);
  }

  /** What a fetch from `b` holds of the chain. */
  lemma Fetched(chain: seq<LedgerEvent>, tip: nat, b: nat, n: nat) returns (k: nat)
    requires IsChain(chain, tip) && n < |chain| && chain[n].ledger >= b && !IsFirst(chain, n)
    requires forall m :: 0 <= m < n && chain[m].ledger >= b ==> chain[m].invoice != chain[n].invoice
    ensures From(chain, b) + k == n && k > 0
    ensures var fetched := chain[From(chain, b)..];
            && fetched[k] == chain[n] && fetched[k - 1].ledger == fetched[k].ledger
            && forall m :: 0 <= m < k ==> fetched[m].invoice != fetched[k].invoice
  {
    var start := From(chain, b);
    NotFirstShares(chain, tip, n);
    StartsAtOrBefore(chain, tip, b, n - 1);
    k := n - start;
    var fetched := chain[start..];
    assert fetched[k] == chain[start + k] && fetched[k - 1] == chain[start + (k - 1)];
    NamedOnce(chain, start, b, n);
  }

  lemma NamedOnce(chain: seq<LedgerEvent>, start: nat, b: nat, n: nat)
    requires start <= n < |chain| && forall i :: start <= i < |chain| ==> chain[i].ledger >= b
    requires forall m :: 0 <= m < n && chain[m].ledger >= b ==> chain[m].invoice != chain[n].invoice
    ensures forall m :: 0 <= m < n - start ==> chain[start..][m].invoice != chain[start..][n - start].invoice
  {
    forall m | 0 <= m < n - start ensures chain[start..][m].invoice != chain[start..][n - start].invoice {
      assert chain[start..][m] == chain[start + m] && chain[start..][n - start] == chain[n];
    }
  }

  lemma FetchedKnown(chain: seq<LedgerEvent>, start: nat, k: nat, invoices: map<nat, Invoice>)
    requires start + k < |chain|
    requires forall i :: 0 <= i < |chain| && chain[i].invoice.Some? ==> chain[i].invoice.value in invoices
    ensures forall m :: 0 <= m <= k && chain[start..][m].invoice.Some? ==> chain[start..][m].invoice.value in invoices
  {
    forall m | 0 <= m <= k && chain[start..][m].invoice.Some? ensures chain[start..][m].invoice.value in invoices {
      assert chain[start..][m] == chain[start + m];
    }
  }

  /** One cycle from ledger `b`, all of whose attempts on event `n` fail, skips it. */
  lemma CycleSkips(s: State, b: nat, n: nat, maxAttempts: int) returns (after: State)
    requires IsChain(s.chain, s.tip) && s.poller.Idle? && StartLedger(s.cursor, b) == b
    requires Fresh(s.db) && maxAttempts >= 1
    requires n < |s.chain| && SettlesFrom(s.chain, b, n) && !IsFirst(s.chain, n)
    requires forall m :: 0 <= m < n && s.chain[m].ledger >= b ==> s.chain[m].invoice != s.chain[n].invoice
    requires forall i :: 0 <= i < |s.chain| && s.chain[i].invoice.Some? ==> s.chain[i].invoice.value in s.db.invoices
    ensures Reaches(s, after, maxAttempts)
    ensures after == Noted(s, b).(db := after.db, cursor := s.chain[n].ledger)
    ensures Repayments(after.db.audit, s.chain[n].invoice.value) == 0
  {
    var k := Fetched(s.chain, s.tip, b, n);
    FetchOrdered(s.chain, s.tip, b);
    var start := From(s.chain, b);
    FetchedKnown(s.chain, start, k, s.db.invoices);
    var plan := CycleStopsAt(s.db, b, s.chain[start..], k, maxAttempts);
    after := CycleState(s, b, plan, maxAttempts);
  }

  /** Where an undisturbed cycle from `b` that gives up leaves the machine. */
  lemma CycleState(s: State, b: nat, plan: Plan, maxAttempts: int) returns (after: State)
    requires s.poller.Idle? && b <= s.tip && StartLedger(s.cursor, b) == b
    ensures Reaches(s, after, maxAttempts)
    ensures var fetched := s.chain[From(s.chain, b)..];
            var p := After(s.db, b, fetched, plan, maxAttempts, |fetched|);
            after == Noted(s, b).(db := p.db, cursor := NextCursor(p, s.tip))
  {
    CycleIsARun(s, b, plan, maxAttempts);
    var fetched := s.chain[From(s.chain, b)..];
    var p := After(s.db, b, fetched, plan, maxAttempts, |fetched|);
    after := Noted(s, b).(db := p.db, cursor := NextCursor(p, s.tip));
  }

  /** A chain that does not open its ledgers from `b` on has a run that starts at `b` and skips. */
  lemma UnopenedSkips(c: nat, chain: seq<LedgerEvent>, tip: nat, b: nat, maxAttempts: int)
      returns (events: seq<Event>, n: nat)
    requires IsChain(chain, tip) && LiesAfter(chain, c) && c <= tip && (c > 0 ==> b == c + 1) && maxAttempts >= 1
    requires !OpenedFrom(chain, b)
    ensures var s := RunFrom(Seeded(c), events, maxAttempts);
            s.chain == chain && s.tip == tip && s.first == Some(b) && !s.restarted && Skipped(s, n)
  {
    var i :| 0 <= i < |chain| && SettlesFrom(chain, b, i) && !IsOpened(chain, b, i);
    n := FirstUnopened(chain, b, i);
    var built := BuildChain(c, chain, tip, maxAttempts);
    var s := Seeded(c).(chain := chain, tip := tip);
    var mirrored, db := MirrorAll(s, |chain|, maxAttempts);
    RunFromConcat(Seeded(c), built, mirrored, maxAttempts);
    var after := CycleSkips(s.(db := db), b, n, maxAttempts);
    var steps :| RunFrom(s.(db := db), steps, maxAttempts) == after;
    RunFromConcat(Seeded(c), built + mirrored, steps, maxAttempts);
    events := built + mirrored + steps;
  }

  /** On any chain where some ledger's settlement differs from its first event, a settlement
      that fails at the wrong moment is skipped. */
  lemma DisagreementSkips(chain: seq<LedgerEvent>, tip: nat, maxAttempts: int) returns (events: seq<Event>, n: nat)
    requires IsChain(chain, tip) && maxAttempts >= 1 && !LedgersAgree(chain)
    ensures var s := Run(events, maxAttempts); s.chain == chain && s.tip == tip && !s.restarted && Skipped(s, n)
  {
    var b := UnopenedStart(chain, tip);
    events, n := UnopenedSkips(0, chain, tip, b, maxAttempts);
  }

  lemma UnopenedStart(chain: seq<LedgerEvent>, tip: nat) returns (b: nat)
    requires IsChain(chain, tip) && !LedgersAgree(chain)
    ensures !OpenedFrom(chain, b)
  {
    var i, j :| 0 <= i < j < |chain| && IsFirst(chain, i) && SettlesSameLedger(chain[i], chain[j])
                && chain[i].invoice != chain[j].invoice;
    b := chain[j].ledger;
    assert SettlesFrom(chain, b, j);
    assert !IsOpened(chain, b, j) by {
      forall m | 0 <= m <= j ensures !Opens(chain, b, m, chain[j]) { NoOpener(chain, i, j, m); }
    }
  }

  /** The first event of the ledger names another invoice, so no event opens it for `j`. */
  lemma NoOpener(chain: seq<LedgerEvent>, i: nat, j: nat, m: nat)
    requires forall a, b :: 0 <= a < b < |chain| ==> chain[a].ledger <= chain[b].ledger
    requires m <= j < |chain| && i < j && IsFirst(chain, i) && chain[i].ledger == chain[j].ledger
    requires chain[i].invoice != chain[j].invoice
    ensures !Opens(chain, chain[j].ledger, m, chain[j])
  {
    if chain[m].ledger >= chain[j].ledger && IsFirst(chain, m) { OneFirst(chain, i, m); }
  }

  lemma OneFirst(chain: seq<LedgerEvent>, i: nat, m: nat)
    requires forall a, b :: 0 <= a < b < |chain| ==> chain[a].ledger <= chain[b].ledger
    requires i < |chain| && m < |chain| && chain[i].ledger == chain[m].ledger
    requires IsFirst(chain, i) && IsFirst(chain, m)
    ensures i == m
  {
    if i < m { LaterIsNotFirst(chain, i, m, m); }
    if m < i { LaterIsNotFirst(chain, m, i, i); }
  }

  lemma DiesAtOnce(chain: seq<LedgerEvent>, tip: nat, start: nat, maxAttempts: int) returns (events: seq<Event>)
    requires IsChain(chain, tip) && start <= tip
    ensures Run(events, maxAttempts) == EMPTY.(chain := chain, tip := tip, first := Some(start), origin := start)
  {
    var built := BuildChain(0, chain, tip, maxAttempts);
    var s := EMPTY.(chain := chain, tip := tip);
    SnocFrom(EMPTY, built, StartCycle(start), maxAttempts);
    var begun := built + [StartCycle(start)];
    assert Run(begun, maxAttempts) == Start(s, start);
    SnocFrom(EMPTY, begun, Crash, maxAttempts);
    events := begun + [Crash];
    assert Start(s, start).(poller := Idle) == Noted(s, start);
  }

  /** Started at the ledger of `n`, dead at once, restarted at the tip. */
  lemma RestartSkips(chain: seq<LedgerEvent>, tip: nat, n: nat, maxAttempts: int) returns (events: seq<Event>)
    requires IsChain(chain, tip) && n < |chain| && chain[n].invoice.Some? && chain[n].ledger < tip
    ensures var s := Run(events, maxAttempts);
            s.chain == chain && s.tip == tip && s.restarted && Skipped(s, n)
  {
    var ledger := chain[n].ledger;
    var died := DiesAtOnce(chain, tip, ledger, maxAttempts);
    var s := EMPTY.(chain := chain, tip := tip, first := Some(ledger), origin := ledger);
    var plan: Plan := (i: nat, k: nat) => Clean;
    var after := CycleState(s, tip, plan, maxAttempts);
    CycleUnknown(s, tip, plan, maxAttempts, chain[n].invoice.value);
    var steps :| RunFrom(s, steps, maxAttempts) == after;
    RunFromConcat(EMPTY, died, steps, maxAttempts);
    events := died + steps;
  }

  /** With no invoice row at all, a cycle repays nothing, and its cursor is no lower than the
      ledger before its start. */
  lemma CycleUnknown(s: State, b: nat, plan: Plan, maxAttempts: int, id: nat)
    requires s.db == Db(map[], [])
    ensures var fetched := s.chain[From(s.chain, b)..];
            var p := After(s.db, b, fetched, plan, maxAttempts, |fetched|);
            Repayments(p.db.audit, id) == 0 && p.safe >= b - 1
  {
    var fetched := s.chain[From(s.chain, b)..];
    var p := After(s.db, b, fetched, plan, maxAttempts, |fetched|);
    CycleEffect(s.db, b, fetched, plan, maxAttempts, |fetched|);
    SafeNeverFalls(s.db, b, fetched, plan, maxAttempts, |fetched|);
    assert Repayments(p.db.audit, id)
        == Repayments(s.db.audit, id) + if IsRepaid(p.db, id) && !IsRepaid(s.db, id) then 1 else 0;
  }

  // ---- main results -----------------------------------------------------------------------------------------

  /** A run that keeps its start on a chain that opens its ledgers from there skips nothing. */
  lemma NothingSkipped(c: nat, events: seq<Event>, n: nat, maxAttempts: int)
    requires var s := RunFrom(Seeded(c), events, maxAttempts);
             !s.restarted && (s.first.Some? ==> OpenedFrom(s.chain, s.first.value))
    ensures !Skipped(RunFrom(Seeded(c), events, maxAttempts), n)
  {
    var s := RunFrom(Seeded(c), events, maxAttempts);
    SeededFacts(c, events, maxAttempts);
    SafeOnceStarted(c, events, maxAttempts);
    if n < |s.chain| && s.first.Some? && s.first.value <= s.chain[n].ledger <= s.cursor {
      assert Applied(s.chain[n], s.db);
    }
  }

  /** A listener with a stored cursor `c`: whatever fails, crashes and interleaves, no run moves
      the cursor past an unapplied settlement, exactly for the chains in which every
      settlement event is, or comes after, an event for its invoice that opens its ledger. */
  lemma SeededCursorExact(c: nat, chain: seq<LedgerEvent>, tip: nat, maxAttempts: int)
    requires c > 0 && IsChain(chain, tip) && LiesAfter(chain, c) && c <= tip && maxAttempts >= 1
    ensures OpenedFrom(chain, c + 1) <==>
              forall events, n: nat :: RunFrom(Seeded(c), events, maxAttempts).chain == chain ==>
                !Skipped(RunFrom(Seeded(c), events, maxAttempts), n)
  {
    if OpenedFrom(chain, c + 1) {
      forall events, n: nat | RunFrom(Seeded(c), events, maxAttempts).chain == chain
        ensures !Skipped(RunFrom(Seeded(c), events, maxAttempts), n)
      {
        SeededFacts(c, events, maxAttempts);
        NothingSkipped(c, events, n, maxAttempts);
      }
    } else {
      var events, n := UnopenedSkips(c, chain, tip, c + 1, maxAttempts);
    }
  }

  /** The listener started at `b` and was not restarted since. */
  predicate KeptStart(s: State, b: nat) { s.first == Some(b) && !s.restarted }

  /** The same for a listener without a stored cursor that starts at ledger `b` and is not
      restarted before it stored a positive one. */
  lemma StartedCursorExact(chain: seq<LedgerEvent>, tip: nat, b: nat, maxAttempts: int)
    requires IsChain(chain, tip) && maxAttempts >= 1
    ensures OpenedFrom(chain, b) <==>
              forall events, n: nat ::
                Run(events, maxAttempts).chain == chain && KeptStart(Run(events, maxAttempts), b) ==>
                  !Skipped(Run(events, maxAttempts), n)
  {
    if OpenedFrom(chain, b) {
      forall events, n: nat | Run(events, maxAttempts).chain == chain && KeptStart(Run(events, maxAttempts), b)
        ensures !Skipped(Run(events, maxAttempts), n)
      {
        NothingSkipped(0, events, n, maxAttempts);
      }
    } else {
      var events, n := UnopenedSkips(0, chain, tip, b, maxAttempts);
      assert Run(events, maxAttempts).chain == chain && KeptStart(Run(events, maxAttempts), b);
    }
  }

  /** Wherever a listener without a stored cursor may start: the chains safe for all such
      runs, without restarts, are those in which every settlement event names the invoice of
      the first contract event of its ledger. */
  lemma CursorNeverSkips(chain: seq<LedgerEvent>, tip: nat, maxAttempts: int)
    requires IsChain(chain, tip) && maxAttempts >= 1
    ensures LedgersAgree(chain) <==>
              forall events, n: nat ::
                Run(events, maxAttempts).chain == chain && !Run(events, maxAttempts).restarted ==>
                  !Skipped(Run(events, maxAttempts), n)
  {
    if LedgersAgree(chain) {
      forall events, n: nat | Run(events, maxAttempts).chain == chain && !Run(events, maxAttempts).restarted
        ensures !Skipped(Run(events, maxAttempts), n)
      {
        var first := Run(events, maxAttempts).first;
        if first.Some? { AgreeOpens(chain, tip, first.value); }
        NothingSkipped(0, events, n, maxAttempts);
      }
    } else {
      var events, n := DisagreementSkips(chain, tip, maxAttempts);
      assert Run(events, maxAttempts).chain == chain && !Run(events, maxAttempts).restarted;
    }
  }

  /** All settlements lie in the newest ledger. */
  ghost predicate SettlesAtTip(chain: seq<LedgerEvent>, tip: nat) {
    forall i :: 0 <= i < |chain| && chain[i].invoice.Some? ==> chain[i].ledger == tip
  }

  lemma SafeAtTip(events: seq<Event>, n: nat, maxAttempts: int)
    requires var s := Run(events, maxAttempts); LedgersAgree(s.chain) && SettlesAtTip(s.chain, s.tip)
    ensures !Skipped(Run(events, maxAttempts), n)
  {
    var s := Run(events, maxAttempts);
    SafeFromLastStart(events, maxAttempts);
    if n < |s.chain| && s.chain[n].invoice.Some? && s.chain[n].ledger <= s.cursor {
      assert Applied(s.chain[n], s.db);
    }
  }

  /** `s` is a run over the whole chain. */
  predicate Covers(s: State, chain: seq<LedgerEvent>, tip: nat) { s.chain == chain && s.tip == tip }

  /** If the listener may also die before it stored a positive cursor, and is then restarted at
      the tip, only chains without any settlement below the tip are safe. */
  lemma RestartsExact(chain: seq<LedgerEvent>, tip: nat, maxAttempts: int)
    requires IsChain(chain, tip) && maxAttempts >= 1
    ensures LedgersAgree(chain) && SettlesAtTip(chain, tip) <==>
              forall events, n: nat :: Covers(Run(events, maxAttempts), chain, tip) ==>
                !Skipped(Run(events, maxAttempts), n)
  {
    if !LedgersAgree(chain) {
      var events, n := DisagreementSkips(chain, tip, maxAttempts);
      assert Covers(Run(events, maxAttempts), chain, tip);
    } else if !SettlesAtTip(chain, tip) {
      var n: nat :| n < |chain| && chain[n].invoice.Some? && chain[n].ledger != tip;
      var events := RestartSkips(chain, tip, n, maxAttempts);
      assert Covers(Run(events, maxAttempts), chain, tip);
    } else {
      forall events, n: nat | Covers(Run(events, maxAttempts), chain, tip)
        ensures !Skipped(Run(events, maxAttempts), n)
      {
        SafeAtTip(events, n, maxAttempts);
      }
    }
  }

  // ---- the smallest runs ------------------------------------------------------------------------------------

  /** One unrelated event before the only settlement, in the same ledger. */
  lemma UnrelatedEventSkips() returns (events: seq<Event>, n: nat)
    ensures var s := Run(events, 3);
            s.chain == [LedgerEvent(1, None), LedgerEvent(1, Some(7))] && !s.restarted && Skipped(s, n)
  {
    var chain := [LedgerEvent(1, None), LedgerEvent(1, Some(7))];
    assert SettlesFrom(chain, 1, 1) && !IsOpened(chain, 1, 1) by {
      assert !Opens(chain, 1, 0, chain[1]) && !Opens(chain, 1, 1, chain[1]);
    }
    events, n := UnopenedSkips(0, chain, 1, 1, 3);
  }

  /** A settlement alone in its ledger: the first cycle fetches it, fails once and dies before
      any cursor is stored; the next one starts at the new tip and never fetches it. */
  lemma DiedBeforeFirstCursor() returns (events: seq<Event>)
    ensures events == [Mirror(7, FUNDED), CloseLedger([Some(7)]), StartCycle(1), PollerStep(FailBefore), Crash,
                       CloseLedger([]), StartCycle(2), EndCycle]
    ensures var s := Run(events, 3);
            && s.chain == [LedgerEvent(1, Some(7))] && LedgersAgree(s.chain) && s.first == Some(1) && s.restarted
            && s.cursor == 2 && IsFunded(s.db, 7) && Skipped(s, 0)
  {
    var died := DiesInFirstCycle();
    SnocFrom(EMPTY, died, CloseLedger([]), 3);
    var closed := died + [CloseLedger([])];
    assert Run(closed, 3).chain == [LedgerEvent(1, Some(7))];
    SnocFrom(EMPTY, closed, StartCycle(2), 3);
    var begun := closed + [StartCycle(2)];
    SnocFrom(EMPTY, begun, EndCycle, 3);
    events := begun + [EndCycle];
  }

  lemma FirstLedgerClosed() returns (events: seq<Event>)
    ensures events == [Mirror(7, FUNDED), CloseLedger([Some(7)])]
    ensures Run(events, 3)
         == EMPTY.(db := Db(map[7 := Invoice(FUNDED, None)], []), chain := [LedgerEvent(1, Some(7))], tip := 1)
  {
    SnocFrom(EMPTY, [], Mirror(7, FUNDED), 3);
    var mirrored := [] + [Mirror(7, FUNDED)];
    SnocFrom(EMPTY, mirrored, CloseLedger([Some(7)]), 3);
    events := mirrored + [CloseLedger([Some(7)])];
    assert Run(events, 3).chain == [LedgerEvent(1, Some(7))];
  }

  lemma DiesInFirstCycle() returns (events: seq<Event>)
    ensures events == [Mirror(7, FUNDED), CloseLedger([Some(7)]), StartCycle(1), PollerStep(FailBefore), Crash]
    ensures Run(events, 3)
         == EMPTY.(db := Db(map[7 := Invoice(FUNDED, None)], []), chain := [LedgerEvent(1, Some(7))], tip := 1,
                   first := Some(1), origin := 1)
  {
    var closed := FirstLedgerClosed();
    SnocFrom(EMPTY, closed, StartCycle(1), 3);
    var begun := closed + [StartCycle(1)];
    SnocFrom(EMPTY, begun, PollerStep(FailBefore), 3);
    var failed := begun + [PollerStep(FailBefore)];
    SnocFrom(EMPTY, failed, Crash, 3);
    events := failed + [Crash];
  }
}
