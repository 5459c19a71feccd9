/** Settlement sync over whole runs: a poller that may die at any point, backfills, funding
    writes by the rest of the backend, and a chain that keeps closing ledgers. */
module SettlementSyncRuns {
  import opened Prelude
  import opened SettlementSync

  // ---- the machine ------------------------------------------------------------------------

  /** A cycle handles `chain[next..upto]`; `attempts` failed so far on the event at `next`. */
  datatype Poller = Idle | Running(next: nat, upto: nat, safe: int, latest: nat, attempts: nat)

  /** A funding request of the backend: it read the row as PENDING, and then its on-chain
      call succeeded. */
  datatype Funder = Checked(id: nat) | Paid(id: nat)

  /** `funded` holds an invoice once for each successful on-chain funding call.  `first` is
      the ledger the listener first started at, and `origin` that of its last start without a
      stored cursor; `restarted` says that there was such a start after the first one, because
      the cycles before it died or gave up without storing a positive cursor. */
  datatype State = State(db: Db, cursor: nat, chain: seq<LedgerEvent>, tip: nat, poller: Poller,
                         funders: map<nat, Funder>, funded: multiset<nat>,
                         first: Option<nat>, origin: nat, restarted: bool)

  /** No events yet, and the cursor at `c`, which is also the tip; zero is no stored cursor. */
  function Seeded(c: nat): State {
    State(Db(map[], []), c, [], c, Idle, map[], multiset{}, if c > 0 then Some(c + 1) else None,
          if c > 0 then c + 1 else 0, false)
  }

  const EMPTY := Seeded(0)

  datatype Event =
    | CloseLedger(emitted: seq<Option<nat>>)      // the next ledger and its contract events
    | StartCycle(networkTip: nat)                 // cursor read, tip read, fetch
    | PollerStep(fate: Fate)                      // skip an event, or attempt it once
    | EndCycle                                    // nothing failed: store the cursor
    | Crash                                       // the cycle dies, or its cursor write does
    | BackfillStep(k: nat, fate: Fate)            // some backfill attempts event `k`
    | Mirror(id: nat, status: InvoiceStatus)      // an invoice row appears
    | FundCheck(t: nat, id: nat)                  // a funding request reads the status
    | FundChain(t: nat)                           // its on-chain call succeeds
    | FundWrite(t: nat)                           // its write, unconditional on the status
    | FundEnd(t: nat)                             // it dies, or its call or write fails

  function Emit(ledger: nat, emitted: seq<Option<nat>>): seq<LedgerEvent> {
    seq(|emitted|, i requires 0 <= i < |emitted| => LedgerEvent(ledger, emitted[i]))
  }

  /** Where the events from `start` on begin. */
  function From(chain: seq<LedgerEvent>, start: nat): (n: nat)
    ensures n <= |chain|
    ensures n > 0 ==> chain[n - 1].ledger < start
    ensures n < |chain| ==> chain[n].ledger >= start
  {
    if chain == [] then 0
    else if chain[|chain| - 1].ledger < start then |chain|
    else From(chain[..|chain| - 1], start)
  }

  predicate HasEvent(s: State) { s.poller.Running? && s.poller.next < s.poller.upto <= |s.chain| }

  function GiveUp(s: State): State
    requires s.poller.Running?
  {
    s.(cursor := Max(0, s.poller.safe), poller := Idle)
  }

  function Handled(s: State): State
    requires s.poller.Running? && s.poller.next < |s.chain|
  {
    var p := s.poller;
    s.(poller := Running(p.next + 1, p.upto, Max(p.safe, s.chain[p.next].ledger), p.latest, 0))
  }

  function AfterAttempt(s: State, resolved: bool, maxAttempts: int): State
    requires s.poller.Running? && s.poller.next < |s.chain|
  {
    if resolved then Handled(s)
    else if s.poller.attempts + 1 >= maxAttempts then GiveUp(s)
    else s.(poller := s.poller.(attempts := s.poller.attempts + 1))
  }

  function StepPoller(s: State, fate: Fate, maxAttempts: int): State
    requires s.poller.Running? && s.poller.next < |s.chain|
  {
    var e := s.chain[s.poller.next];
    if e.invoice.None? then Handled(s)
    else if maxAttempts < 1 then GiveUp(s)
    else
      var t := AttemptOnce(s.db, e.invoice.value, e.ledger, fate);
      AfterAttempt(s.(db := t.db), t.attempt.Resolved?, maxAttempts)
  }

  /** The funding write: FUNDED whatever the row said, and an audit row from PENDING. */
  function Refunded(db: Db, id: nat): Db
    requires id in db.invoices
  {
    Db(db.invoices[id := db.invoices[id].(status := FUNDED)], db.audit + [AuditEntry(id, PENDING, FUNDED)])
  }

  function Check(s: State, t: nat, id: nat): State {
    if t in s.funders || id !in s.db.invoices || s.db.invoices[id].status != PENDING then s
    else s.(funders := s.funders[t := Checked(id)])
  }

  function Pay(s: State, t: nat): State {
    if t in s.funders && s.funders[t].Checked?
    then s.(funders := s.funders[t := Paid(s.funders[t].id)], funded := s.funded + multiset{s.funders[t].id}) else s
  }

  function Write(s: State, t: nat): State {
    if t in s.funders && s.funders[t].Paid? && s.funders[t].id in s.db.invoices
    then s.(db := Refunded(s.db, s.funders[t].id), funders := s.funders - {t}) else s
  }

  /** The steps that neither the chain nor the poller takes. */
  function StepAround(s: State, e: Event): State {
    match e
    case BackfillStep(k, fate) =>
      if k < |s.chain| && s.chain[k].invoice.Some?
      then s.(db := AttemptOnce(s.db, s.chain[k].invoice.value, s.chain[k].ledger, fate).db) else s
    case Mirror(id, status) =>
      if id in s.db.invoices || status == REPAID then s
      else s.(db := s.db.(invoices := s.db.invoices[id := Invoice(status, None)]))
    case FundCheck(t, id) => Check(s, t, id)
    case FundChain(t) => Pay(s, t)
    case FundWrite(t) => Write(s, t)
    case FundEnd(t) => s.(funders := s.funders - {t})
    case _ => s
  }

  function Close(s: State, emitted: seq<Option<nat>>): State {
    s.(tip := s.tip + 1, chain := s.chain + Emit(s.tip + 1, emitted))
  }

  /** What is remembered of a start at ledger `start`. */
  function Noted(s: State, start: nat): State {
    s.(first := if s.first.None? then Some(start) else s.first,
       origin := if s.cursor == 0 then start else s.origin,
       restarted := s.restarted || (s.cursor == 0 && s.first.Some?))
  }

  function Start(s: State, networkTip: nat): State {
    if s.poller.Idle? && networkTip <= s.tip then
      var start := StartLedger(s.cursor, networkTip);
      Noted(s, start).(poller := Running(From(s.chain, start), |s.chain|, start - 1, s.tip, 0))
    else s
  }

  function End(s: State): State {
    if s.poller.Running? && s.poller.next >= s.poller.upto
    then s.(cursor := Max(0, Max(s.poller.safe, s.poller.latest)), poller := Idle) else s
  }

  function Step(s: State, e: Event, maxAttempts: int): State {
    match e
    case CloseLedger(emitted) => Close(s, emitted)
    case StartCycle(networkTip) => Start(s, networkTip)
    case PollerStep(fate) => if HasEvent(s) then StepPoller(s, fate, maxAttempts) else s
    case EndCycle => End(s)
    case Crash => s.(poller := Idle)
    case _ => StepAround(s, e)
  }

  function RunFrom(s: State, events: seq<Event>, maxAttempts: int): State {
    if events == [] then s else Step(RunFrom(s, events[..|events| - 1], maxAttempts), events[|events| - 1], maxAttempts)
  }

  function Run(events: seq<Event>, maxAttempts: int): State { RunFrom(EMPTY, events, maxAttempts) }

  lemma {:induction false} RunFromConcat(s: State, a: seq<Event>, b: seq<Event>, maxAttempts: int)
    ensures RunFrom(s, a + b, maxAttempts) == RunFrom(RunFrom(s, a, maxAttempts), b, maxAttempts)
  {
    if b == [] {
      assert a + b == a;
    } else {
      RunFromConcat(s, a, b[..|b| - 1], maxAttempts);
      assert (a + b)[..|a + b| - 1] == a + b[..|b| - 1];
    }
  }

  lemma RunOne(s: State, e: Event, maxAttempts: int)
    ensures RunFrom(s, [e], maxAttempts) == Step(s, e, maxAttempts)
  {
    assert [e][..0] == [];
    assert RunFrom(s, [], maxAttempts) == s;
  }

  lemma RunSnoc(events: seq<Event>, e: Event, maxAttempts: int)
    ensures Run(events + [e], maxAttempts) == Step(Run(events, maxAttempts), e, maxAttempts)
  {
    assert (events + [e])[..|events|] == events;
  }

  // ---- a cycle nobody disturbs is a run of the machine -----------------------------------------

  ghost predicate Reaches(a: State, b: State, maxAttempts: int) {
    exists steps :: RunFrom(a, steps, maxAttempts) == b
  }

  lemma ReachesOne(s: State, e: Event, maxAttempts: int)
    ensures Reaches(s, Step(s, e, maxAttempts), maxAttempts)
  {
    RunOne(s, e, maxAttempts);
  }

  lemma ReachesTrans(a: State, b: State, c: State, maxAttempts: int)
    requires Reaches(a, b, maxAttempts) && Reaches(b, c, maxAttempts)
    ensures Reaches(a, c, maxAttempts)
  {
    var first :| RunFrom(a, first, maxAttempts) == b;
    var second :| RunFrom(b, second, maxAttempts) == c;
    RunFromConcat(a, first, second, maxAttempts);
  }

  lemma ReachesSelf(s: State, maxAttempts: int)
    ensures Reaches(s, s, maxAttempts)
  {
    assert RunFrom(s, [], maxAttempts) == s;
  }

  /** Where the poller stands once `withRetry` has returned or thrown. */
  function Concluded(s: State, t: Try): State
    requires HasEvent(s)
  {
    if t.attempt.Resolved? then Handled(s.(db := t.db)) else GiveUp(s.(db := t.db))
  }

  /** Attempt by attempt, the retries of one event. */
  lemma {:induction false} RetrySteps(s: State, e: LedgerEvent, fates: nat -> Fate, attempt: nat, maxAttempts: int)
    requires HasEvent(s) && s.chain[s.poller.next] == e && e.invoice.Some?
    requires attempt == s.poller.attempts + 1 && (attempt <= maxAttempts || attempt == 1)
    ensures Reaches(s, Concluded(s, Retry(s.db, e.invoice.value, e.ledger, fates, attempt, maxAttempts)), maxAttempts)
    decreases maxAttempts - attempt
  {
    ReachesOne(s, PollerStep(fates(attempt)), maxAttempts);
    var t := AttemptOnce(s.db, e.invoice.value, e.ledger, fates(attempt));
    if attempt < maxAttempts && !t.attempt.Resolved? {
      var after := s.(db := t.db, poller := s.poller.(attempts := attempt));
      assert Step(s, PollerStep(fates(attempt)), maxAttempts) == after;
      RetrySteps(after, e, fates, attempt + 1, maxAttempts);
      var last := Retry(t.db, e.invoice.value, e.ledger, fates, attempt + 1, maxAttempts);
      ConcludedIgnoresAttempts(s, t.db, attempt, last);
      ReachesTrans(s, after, Concluded(s, last), maxAttempts);
    }
  }

  lemma ConcludedIgnoresAttempts(s: State, db: Db, attempts: nat, t: Try)
    requires HasEvent(s)
    ensures Concluded(s.(db := db, poller := s.poller.(attempts := attempts)), t) == Concluded(s, t)
  {
  }

  /** Where the poller stands after `n` events of its cycle. */
  function Reached(s: State, p: Progress, n: nat): State
    requires s.poller.Running?
  {
    if p.failedAt.Some? then s.(db := p.db, cursor := Max(0, p.safe), poller := Idle)
    else s.(db := p.db, poller := Running(s.poller.next + n, s.poller.upto, p.safe, s.poller.latest, 0))
  }

  lemma LoopStep(s: State, p: Progress, e: LedgerEvent, n: nat, plan: Plan, maxAttempts: int)
    requires s.poller.Running? && s.poller.upto == |s.chain| && s.poller.next + n < |s.chain|
    requires s.chain[s.poller.next + n] == e
    ensures Reaches(Reached(s, p, n), Reached(s, Next(p, e, n, plan, maxAttempts), n + 1), maxAttempts)
  {
    var mid := Reached(s, p, n);
    if p.failedAt.Some? {
      assert RunFrom(mid, [], maxAttempts) == mid;
    } else if e.invoice.None? {
      ReachesOne(mid, PollerStep(Clean), maxAttempts);
    } else {
      var t := SettleEvent(p.db, e, n, plan, maxAttempts);
      RetrySteps(mid, e, (k: nat) => plan(n, k), 1, maxAttempts);
      assert Concluded(mid, t) == Reached(s, Next(p, e, n, plan, maxAttempts), n + 1);
    }
  }

  /** Where a cycle that began in `s` stands after `n` of its events. */
  function CycleAfter(s: State, start: nat, plan: Plan, maxAttempts: int, n: nat): State
    requires s.poller.Running? && s.poller.next + n <= |s.chain|
  {
    Reached(s, After(s.db, start, s.chain[s.poller.next..], plan, maxAttempts, n), n)
  }

  lemma CycleBegins(s: State, start: nat, plan: Plan, maxAttempts: int)
    requires s.poller.Running? && s.poller.next <= |s.chain| && s.poller.attempts == 0 && s.poller.safe == start - 1
    ensures CycleAfter(s, start, plan, maxAttempts, 0) == s
  {
  }

  lemma CycleTurn(s: State, start: nat, plan: Plan, maxAttempts: int, n: nat)
    requires s.poller.Running? && s.poller.upto == |s.chain| && s.poller.next + n < |s.chain|
    ensures Reaches(CycleAfter(s, start, plan, maxAttempts, n), CycleAfter(s, start, plan, maxAttempts, n + 1),
        maxAttempts)
  {
    var events := s.chain[s.poller.next..];
    LoopStep(s, After(s.db, start, events, plan, maxAttempts, n), events[n], n, plan, maxAttempts);
  }

  lemma LoopExtends(s: State, start: nat, plan: Plan, maxAttempts: int, n: nat)
    requires s.poller.Running? && s.poller.upto == |s.chain| && s.poller.next + n < |s.chain|
    requires Reaches(CycleAfter(s, start, plan, maxAttempts, 0),
                     CycleAfter(s, start, plan, maxAttempts, n), maxAttempts)
    ensures Reaches(CycleAfter(s, start, plan, maxAttempts, 0),
                    CycleAfter(s, start, plan, maxAttempts, n + 1), maxAttempts)
  {
    CycleTurn(s, start, plan, maxAttempts, n);
    ReachesTrans(CycleAfter(s, start, plan, maxAttempts, 0), CycleAfter(s, start, plan, maxAttempts, n),
                 CycleAfter(s, start, plan, maxAttempts, n + 1), maxAttempts);
  }

  lemma {:induction false} LoopSteps(s: State, start: nat, plan: Plan, maxAttempts: int, n: nat)
    requires s.poller.Running? && s.poller.upto == |s.chain| && s.poller.next + n <= |s.chain|
    ensures Reaches(CycleAfter(s, start, plan, maxAttempts, 0), CycleAfter(s, start, plan, maxAttempts, n), maxAttempts)
  {
    if n == 0 {
      ReachesSelf(CycleAfter(s, start, plan, maxAttempts, 0), maxAttempts);
    } else {
      LoopSteps(s, start, plan, maxAttempts, n - 1);
      LoopExtends(s, start, plan, maxAttempts, n - 1);
    }
  }

  /** `syncOnce` without interference, as the service computes it, is a run of the machine. */
  lemma CycleIsARun(s: State, networkTip: nat, plan: Plan, maxAttempts: int)
    requires s.poller.Idle? && networkTip <= s.tip
    ensures var start := StartLedger(s.cursor, networkTip);
            var fetched := s.chain[From(s.chain, start)..];
            var p := After(s.db, start, fetched, plan, maxAttempts, |fetched|);
            Reaches(s, Noted(s, start).(db := p.db, cursor := NextCursor(p, s.tip)), maxAttempts)
  {
    var start := StartLedger(s.cursor, networkTip);
    var from := From(s.chain, start);
    var begun := Start(s, networkTip);
    ReachesOne(s, StartCycle(networkTip), maxAttempts);
    CycleBegins(begun, start, plan, maxAttempts);
    LoopSteps(begun, start, plan, maxAttempts, |s.chain| - from);
    var p := After(s.db, start, s.chain[from..], plan, maxAttempts, |s.chain| - from);
    var looped := Reached(begun, p, |s.chain| - from);
    ReachesTrans(s, begun, looped, maxAttempts);
    CycleEnds(s, begun, start, p, maxAttempts);
    ReachesTrans(s, looped, Noted(s, start).(db := p.db, cursor := NextCursor(p, s.tip)), maxAttempts);
  }

  /** The end of a cycle: nothing is left to do, or the cursor is stored. */
  lemma CycleEnds(s: State, begun: State, start: nat, p: Progress, maxAttempts: int)
    requires s.poller.Idle?
    requires begun == Noted(s, start).(poller := Running(From(s.chain, start), |s.chain|, start - 1, s.tip, 0))
    ensures Reaches(Reached(begun, p, |s.chain| - From(s.chain, start)),
                    Noted(s, start).(db := p.db, cursor := NextCursor(p, s.tip)), maxAttempts)
  {
    var looped := Reached(begun, p, |s.chain| - From(s.chain, start));
    if p.failedAt.Some? {
      ReachesSelf(looped, maxAttempts);
    } else {
      ReachesOne(looped, EndCycle, maxAttempts);
      assert End(looped) == Noted(s, start).(db := p.db, cursor := NextCursor(p, s.tip));
    }
  }

  // ---- exactly once ------------------------------------------------------------------------------

  /** This step overwrites a REPAID row with FUNDED. */
  predicate Overwrites(s: State, e: Event, id: nat) {
    e.FundWrite? && e.t in s.funders && s.funders[e.t] == Paid(id) && IsRepaid(s.db, id)
  }

  function Overwritten(events: seq<Event>, maxAttempts: int, id: nat): nat {
    if events == [] then 0
    else
      var before := events[..|events| - 1];
      Overwritten(before, maxAttempts, id) + if Overwrites(Run(before, maxAttempts), events[|events| - 1], id)
          then 1 else 0
  }

  /** Repayments recorded so far, less the row's present one. */
  function Extra(db: Db, id: nat): int { Repayments(db.audit, id) - if IsRepaid(db, id) then 1 else 0 }

  lemma AttemptKeepsExtra(db: Db, id: nat, ledger: nat, fate: Fate, other: nat)
    ensures Extra(AttemptOnce(db, id, ledger, fate).db, other) == Extra(db, other)
  {
    AttemptEffect(db, id, ledger, fate);
    var after := AttemptOnce(db, id, ledger, fate).db;
    assert Repayments(after.audit, other)
        == Repayments(db.audit, other) + if IsRepaid(after, other) && !IsRepaid(db, other) then 1 else 0;
  }

  lemma AttemptGrows(db: Db, id: nat, ledger: nat, fate: Fate, other: nat)
    ensures Repayments(AttemptOnce(db, id, ledger, fate).db.audit, other) >= Repayments(db.audit, other)
  {
    AttemptEffect(db, id, ledger, fate);
    var after := AttemptOnce(db, id, ledger, fate).db;
    assert Repayments(after.audit, other)
        == Repayments(db.audit, other) + if IsRepaid(after, other) && !IsRepaid(db, other) then 1 else 0;
  }

  lemma PollerKeepsExtra(s: State, fate: Fate, maxAttempts: int, id: nat)
    requires HasEvent(s)
    ensures Extra(StepPoller(s, fate, maxAttempts).db, id) == Extra(s.db, id)
  {
    var e := s.chain[s.poller.next];
    if e.invoice.Some? { AttemptKeepsExtra(s.db, e.invoice.value, e.ledger, fate, id); }
  }

  lemma WriteExtra(s: State, t: nat, id: nat)
    ensures Extra(Write(s, t).db, id) == Extra(s.db, id) + if Overwrites(s, FundWrite(t), id) then 1 else 0
  {
    if t in s.funders && s.funders[t].Paid? && s.funders[t].id in s.db.invoices {
      RepaymentsAppend(s.db.audit, AuditEntry(s.funders[t].id, PENDING, FUNDED), id);
    }
  }

  lemma AroundExtra(s: State, e: Event, id: nat)
    ensures Extra(StepAround(s, e).db, id) == Extra(s.db, id) + if Overwrites(s, e, id) then 1 else 0
  {
    match e
    case BackfillStep(k, fate) =>
      if k < |s.chain| && s.chain[k].invoice.Some? {
        AttemptKeepsExtra(s.db, s.chain[k].invoice.value, s.chain[k].ledger, fate, id);
      }
    case FundWrite(t) => WriteExtra(s, t, id);
    case _ =>
  }

  lemma ExtraStep(s: State, e: Event, maxAttempts: int, id: nat)
    ensures Extra(Step(s, e, maxAttempts).db, id) == Extra(s.db, id) + if Overwrites(s, e, id) then 1 else 0
  {
    match e
    case PollerStep(fate) => if HasEvent(s) { PollerKeepsExtra(s, fate, maxAttempts, id); }
    case CloseLedger(emitted) =>
    case StartCycle(networkTip) =>
    case EndCycle =>
    case Crash =>
    case _ => AroundExtra(s, e, id);
  }

  /** Whatever polls, retries, crashes, backfills and fundings interleave, an invoice has one
      FUNDED -> REPAID audit row if it is REPAID and none if it is not - plus one for each
      time a funding write landed on a REPAID row. */
  lemma {:induction false} RepaymentsCounted(events: seq<Event>, maxAttempts: int, id: nat)
    ensures var db := Run(events, maxAttempts).db;
            Repayments(db.audit, id) == (if IsRepaid(db, id) then 1 else 0) + Overwritten(events, maxAttempts, id)
  {
    if events != [] {
      RepaymentsCounted(events[..|events| - 1], maxAttempts, id);
      ExtraStep(Run(events[..|events| - 1], maxAttempts), events[|events| - 1], maxAttempts, id);
    }
  }

  /** No invoice was funded on the chain more than `n` times. */
  ghost predicate FundingsUpTo(s: State, n: nat) { forall id :: s.funded[id] <= n }

  /** While the chain funds each invoice at most once, a request past its call is the only
      one, and nothing has moved its row away from PENDING. */
  ghost predicate FundersOk(s: State) {
    && (forall t :: t in s.funders ==> s.funders[t].id in s.db.invoices)
    && (forall t :: t in s.funders && (s.funders[t].Paid? || s.funded[s.funders[t].id] == 0) ==>
          s.db.invoices[s.funders[t].id].status == PENDING)
    && (forall t :: t in s.funders && s.funders[t].Paid? ==> s.funded[s.funders[t].id] > 0)
    && (forall t, u :: t in s.funders && u in s.funders && t != u && s.funders[t].Paid? ==>
          s.funders[u] != s.funders[t])
  }

  lemma FundedGrows(s: State, e: Event, maxAttempts: int, n: nat)
    requires FundingsUpTo(Step(s, e, maxAttempts), n)
    ensures FundingsUpTo(s, n)
  {
    forall id ensures s.funded[id] <= n {
      assert s.funded[id] <= Step(s, e, maxAttempts).funded[id];
    }
  }

  /** A settlement attempt leaves every PENDING row alone. */
  lemma AttemptLeavesPending(db: Db, id: nat, ledger: nat, fate: Fate, other: nat)
    requires other in db.invoices
    ensures other in AttemptOnce(db, id, ledger, fate).db.invoices
    ensures db.invoices[other].status == PENDING ==>
              AttemptOnce(db, id, ledger, fate).db.invoices[other] == db.invoices[other]
  {
  }

  lemma DbKeepsFunders(s: State, t: State)
    requires FundersOk(s) && t.funders == s.funders && t.funded == s.funded
    requires forall id :: id in s.db.invoices ==>
               id in t.db.invoices && (s.db.invoices[id].status == PENDING ==> t.db.invoices[id] == s.db.invoices[id])
    ensures FundersOk(t)
  {
  }

  lemma CheckKeepsFunders(s: State, t: nat, id: nat)
    requires FundersOk(s)
    ensures FundersOk(Check(s, t, id))
  {
  }

  lemma PayKeepsFunders(s: State, t: nat)
    requires FundersOk(s) && FundingsUpTo(Pay(s, t), 1)
    ensures FundersOk(Pay(s, t))
  {
    var after := Pay(s, t);
    if after != s {
      assert after.funded[s.funders[t].id] == s.funded[s.funders[t].id] + 1;
    }
  }

  lemma WriteKeepsFunders(s: State, t: nat)
    requires FundersOk(s)
    ensures FundersOk(Write(s, t))
    ensures t in s.funders && s.funders[t].Paid? ==> !IsRepaid(s.db, s.funders[t].id)
  {
    var after := Write(s, t);
    if after != s {
      forall u | u in after.funders && after.funders[u].id == s.funders[t].id ensures after.funders[u].Checked? {
        assert s.funders[u] != s.funders[t];
      }
    }
  }

  lemma AttemptKeepsFunders(s: State, id: nat, ledger: nat, fate: Fate, after: State)
    requires FundersOk(s) && after.funders == s.funders && after.funded == s.funded
    requires after.db == AttemptOnce(s.db, id, ledger, fate).db
    ensures FundersOk(after)
  {
    forall other | other in s.db.invoices
      ensures other in after.db.invoices
      ensures s.db.invoices[other].status == PENDING ==> after.db.invoices[other] == s.db.invoices[other]
    {
      AttemptLeavesPending(s.db, id, ledger, fate, other);
    }
    DbKeepsFunders(s, after);
  }

  lemma PollerKeepsFunders(s: State, fate: Fate, maxAttempts: int)
    requires FundersOk(s) && HasEvent(s)
    ensures FundersOk(StepPoller(s, fate, maxAttempts))
  {
    var e := s.chain[s.poller.next];
    if e.invoice.Some? && maxAttempts >= 1 {
      AttemptKeepsFunders(s, e.invoice.value, e.ledger, fate, StepPoller(s, fate, maxAttempts));
    }
  }

  lemma AroundKeepsFunders(s: State, e: Event)
    requires FundersOk(s) && FundingsUpTo(StepAround(s, e), 1)
    ensures FundersOk(StepAround(s, e))
  {
    match e
    case FundCheck(t, id) => CheckKeepsFunders(s, t, id);
    case FundChain(t) => PayKeepsFunders(s, t);
    case FundWrite(t) => WriteKeepsFunders(s, t);
    case BackfillStep(k, fate) =>
      if k < |s.chain| && s.chain[k].invoice.Some? {
        AttemptKeepsFunders(s, s.chain[k].invoice.value, s.chain[k].ledger, fate, StepAround(s, e));
      }
    case Mirror(id, status) => DbKeepsFunders(s, StepAround(s, e));
    case _ =>
  }

  lemma FundersStep(s: State, e: Event, maxAttempts: int)
    requires FundersOk(s) && FundingsUpTo(Step(s, e, maxAttempts), 1)
    ensures FundersOk(Step(s, e, maxAttempts))
    ensures forall id :: !Overwrites(s, e, id)
  {
    if e.FundWrite? { WriteKeepsFunders(s, e.t); }
    match e
    case CloseLedger(emitted) =>
    case StartCycle(networkTip) =>
    case PollerStep(fate) => if HasEvent(s) { PollerKeepsFunders(s, fate, maxAttempts); }
    case EndCycle =>
    case Crash =>
    case _ => AroundKeepsFunders(s, e);
  }

  lemma {:induction false} NothingOverwritten(events: seq<Event>, maxAttempts: int, id: nat)
    requires FundingsUpTo(Run(events, maxAttempts), 1)
    ensures FundersOk(Run(events, maxAttempts)) && Overwritten(events, maxAttempts, id) == 0
  {
    if events != [] {
      var before, last := events[..|events| - 1], events[|events| - 1];
      FundedGrows(Run(before, maxAttempts), last, maxAttempts, 1);
      NothingOverwritten(before, maxAttempts, id);
      FundersStep(Run(before, maxAttempts), last, maxAttempts);
    }
  }

  /** Exactly once: as long as the chain funds no invoice twice, an invoice has one
      FUNDED -> REPAID audit row if it is REPAID and none if it is not, whatever interleaves. */
  lemma ExactlyOnce(events: seq<Event>, maxAttempts: int, id: nat)
    requires FundingsUpTo(Run(events, maxAttempts), 1)
    ensures var db := Run(events, maxAttempts).db;
            Repayments(db.audit, id) == if IsRepaid(db, id) then 1 else 0
  {
    NothingOverwritten(events, maxAttempts, id);
    RepaymentsCounted(events, maxAttempts, id);
  }

  /** Two requests read PENDING, the chain accepts both, and the second writes only after
      the settlement of the first: the invoice is repaid twice. */
  lemma DoubleFundingRepaysTwice(maxAttempts: int) returns (events: seq<Event>)
    ensures FundingsUpTo(Run(events, maxAttempts), 2)
    ensures Repayments(Run(events, maxAttempts).db.audit, 7) == 2
  {
    var funded := DoubleFunding(maxAttempts);
    RunSnoc(funded, FundWrite(0), maxAttempts);
    var written := funded + [FundWrite(0)];
    RunSnoc(written, CloseLedger([Some(7)]), maxAttempts);
    var closed := written + [CloseLedger([Some(7)])];
    assert Run(closed, maxAttempts).chain == [LedgerEvent(1, Some(7))];
    events := RepayRefundRepay(closed, maxAttempts);
  }

  lemma TwoRequests(maxAttempts: int) returns (events: seq<Event>)
    ensures Run(events, maxAttempts)
         == EMPTY.(db := Db(map[7 := Invoice(PENDING, None)], []), funders := map[0 := Checked(7), 1 := Checked(7)])
  {
    RunSnoc([], Mirror(7, PENDING), maxAttempts);
    var mirrored := [] + [Mirror(7, PENDING)];
    RunSnoc(mirrored, FundCheck(0, 7), maxAttempts);
    var one := mirrored + [FundCheck(0, 7)];
    RunSnoc(one, FundCheck(1, 7), maxAttempts);
    events := one + [FundCheck(1, 7)];
  }

  lemma DoubleFunding(maxAttempts: int) returns (events: seq<Event>)
    ensures Run(events, maxAttempts)
         == EMPTY.(db := Db(map[7 := Invoice(PENDING, None)], []), funders := map[0 := Paid(7), 1 := Paid(7)],
                   funded := multiset{7, 7})
  {
    var both := TwoRequests(maxAttempts);
    RunSnoc(both, FundChain(0), maxAttempts);
    var paid := both + [FundChain(0)];
    RunSnoc(paid, FundChain(1), maxAttempts);
    events := paid + [FundChain(1)];
  }

  lemma RepayRefundRepay(closed: seq<Event>, maxAttempts: int) returns (events: seq<Event>)
    requires var s := Run(closed, maxAttempts);
             && s.chain == [LedgerEvent(1, Some(7))] && s.db.invoices == map[7 := Invoice(FUNDED, None)]
             && s.db.audit == [AuditEntry(7, PENDING, FUNDED)]
             && s.funders == map[1 := Paid(7)] && s.funded == multiset{7, 7}
    ensures Run(events, maxAttempts).funded == multiset{7, 7}
    ensures Repayments(Run(events, maxAttempts).db.audit, 7) == 2
  {
    var funding, settling := AuditEntry(7, PENDING, FUNDED), AuditEntry(7, FUNDED, REPAID);
    RunSnoc(closed, BackfillStep(0, Clean), maxAttempts);
    var repaid := closed + [BackfillStep(0, Clean)];
    RunSnoc(repaid, FundWrite(1), maxAttempts);
    var refunded := repaid + [FundWrite(1)];
    RunSnoc(refunded, BackfillStep(0, Clean), maxAttempts);
    events := refunded + [BackfillStep(0, Clean)];
    assert Run(events, maxAttempts).db.audit == [funding] + [settling] + [funding] + [settling];
    assert [] + [funding] == [funding];
    RepaymentsAppend([], funding, 7);
    RepaymentsAppend([funding], settling, 7);
    RepaymentsAppend([funding] + [settling], funding, 7);
    RepaymentsAppend([funding] + [settling] + [funding], settling, 7);
  }

  /** The exact condition on the chain: in every run each invoice is repaid at most once if
      and only if the chain accepts at most one funding of an invoice. */
  lemma RepaidOnceExactly(maxAttempts: int, n: nat)
    ensures n <= 1 <==>
              forall events, id :: FundingsUpTo(Run(events, maxAttempts), n) ==>
                Repayments(Run(events, maxAttempts).db.audit, id) <= 1
  {
    if n <= 1 {
      forall events, id | FundingsUpTo(Run(events, maxAttempts), n)
        ensures Repayments(Run(events, maxAttempts).db.audit, id) <= 1
      {
        assert FundingsUpTo(Run(events, maxAttempts), 1);
        ExactlyOnce(events, maxAttempts, id);
      }
    } else {
      var events := DoubleFundingRepaysTwice(maxAttempts);
      assert FundingsUpTo(Run(events, maxAttempts), n);
    }
  }

  // ---- order, bounds and provenance -----------------------------------------------------------------

  /** Every settled row names a ledger in which the chain really settled that invoice. */
  ghost predicate Backed(chain: seq<LedgerEvent>, id: nat, row: Invoice) {
    && (row.status == REPAID ==> row.settledLedger.Some?)
    && (row.settledLedger.Some? ==> LedgerEvent(row.settledLedger.value, Some(id)) in chain)
  }

  ghost predicate Bounds(s: State) {
    && (forall i :: 0 <= i < |s.chain| ==> 1 <= s.chain[i].ledger <= s.tip)
    && (forall i, j :: 0 <= i < j < |s.chain| ==> s.chain[i].ledger <= s.chain[j].ledger)
    && s.cursor <= s.tip
    && (s.poller.Running? ==>
          && s.poller.next <= s.poller.upto <= |s.chain|
          && s.cursor <= Max(0, s.poller.safe) && s.poller.safe <= s.poller.latest <= s.tip
          && (forall i :: 0 <= i < s.poller.upto ==> s.chain[i].ledger <= s.poller.latest))
  }

  lemma BoundsClose(s: State, emitted: seq<Option<nat>>)
    requires Bounds(s)
    ensures Bounds(Close(s, emitted)) && s.chain <= Close(s, emitted).chain
  {
    var t := Close(s, emitted);
    assert forall i :: |s.chain| <= i < |t.chain| ==> t.chain[i].ledger == t.tip;
  }

  lemma BoundsStart(s: State, networkTip: nat)
    requires Bounds(s)
    ensures Bounds(Start(s, networkTip))
  {
  }

  lemma BoundsEnd(s: State)
    requires Bounds(s)
    ensures Bounds(End(s)) && s.cursor <= End(s).cursor
  {
  }

  lemma AroundFrame(s: State, e: Event)
    ensures var t := StepAround(s, e);
            && t.chain == s.chain && t.tip == s.tip && t.cursor == s.cursor && t.poller == s.poller
            && t.first == s.first && t.origin == s.origin && t.restarted == s.restarted
  {
  }

  lemma BoundsElse(s: State, after: State)
    requires Bounds(s) && (after.poller == s.poller || after.poller.Idle?)
    requires after.chain == s.chain && after.tip == s.tip && after.cursor == s.cursor
    ensures Bounds(after) && s.chain <= after.chain
  {
  }

  lemma BoundsHandled(s: State)
    requires Bounds(s) && HasEvent(s)
    ensures Bounds(Handled(s)) && Handled(s).cursor == s.cursor && Handled(s).chain == s.chain
  {
  }

  lemma BoundsAfterAttempt(s: State, resolved: bool, maxAttempts: int)
    requires Bounds(s) && HasEvent(s)
    ensures var after := AfterAttempt(s, resolved, maxAttempts);
            Bounds(after) && s.cursor <= after.cursor && after.chain == s.chain
  {
    BoundsHandled(s);
  }

  lemma BoundsPoller(s: State, fate: Fate, maxAttempts: int)
    requires Bounds(s) && HasEvent(s)
    ensures Bounds(StepPoller(s, fate, maxAttempts)) && s.cursor <= StepPoller(s, fate, maxAttempts).cursor
    ensures StepPoller(s, fate, maxAttempts).chain == s.chain
  {
    var e := s.chain[s.poller.next];
    if e.invoice.None? {
      BoundsHandled(s);
    } else if maxAttempts >= 1 {
      var t := AttemptOnce(s.db, e.invoice.value, e.ledger, fate);
      BoundsElse(s, s.(db := t.db));
      BoundsAfterAttempt(s.(db := t.db), t.attempt.Resolved?, maxAttempts);
    }
  }

  lemma BoundsStep(s: State, e: Event, maxAttempts: int)
    requires Bounds(s)
    ensures Bounds(Step(s, e, maxAttempts))
    ensures s.cursor <= Step(s, e, maxAttempts).cursor && s.chain <= Step(s, e, maxAttempts).chain
  {
    match e
    case CloseLedger(emitted) => BoundsClose(s, emitted);
    case StartCycle(networkTip) => BoundsStart(s, networkTip);
    case PollerStep(fate) => if HasEvent(s) { BoundsPoller(s, fate, maxAttempts); }
    case EndCycle => BoundsEnd(s);
    case _ =>
      AroundFrame(s, e);
      BoundsElse(s, Step(s, e, maxAttempts));
  }

  lemma {:induction false} BoundsAlong(s: State, events: seq<Event>, maxAttempts: int)
    requires Bounds(s)
    ensures Bounds(RunFrom(s, events, maxAttempts))
  {
    if events != [] {
      BoundsAlong(s, events[..|events| - 1], maxAttempts);
      BoundsStep(RunFrom(s, events[..|events| - 1], maxAttempts), events[|events| - 1], maxAttempts);
    }
  }

  lemma {:induction false} CursorGrows(s: State, events: seq<Event>, maxAttempts: int)
    requires Bounds(s)
    ensures s.cursor <= RunFrom(s, events, maxAttempts).cursor
  {
    if events != [] {
      CursorGrows(s, events[..|events| - 1], maxAttempts);
      BoundsAlong(s, events[..|events| - 1], maxAttempts);
      BoundsStep(RunFrom(s, events[..|events| - 1], maxAttempts), events[|events| - 1], maxAttempts);
    }
  }

  /** Over any run, the stored cursor never moves back. */
  lemma CursorNeverDecreases(events: seq<Event>, more: seq<Event>, maxAttempts: int)
    ensures Run(events, maxAttempts).cursor <= Run(events + more, maxAttempts).cursor
  {
    RunFromConcat(EMPTY, events, more, maxAttempts);
    BoundsAlong(EMPTY, events, maxAttempts);
    CursorGrows(Run(events, maxAttempts), more, maxAttempts);
  }

  lemma AttemptKeepsBacked(chain: seq<LedgerEvent>, db: Db, id: nat, ledger: nat, fate: Fate)
    requires LedgerEvent(ledger, Some(id)) in chain
    requires forall i :: i in db.invoices ==> Backed(chain, i, db.invoices[i])
    ensures var after := AttemptOnce(db, id, ledger, fate).db;
            forall i :: i in after.invoices ==> Backed(chain, i, after.invoices[i])
  {
  }

  lemma BackedStep(s: State, e: Event, maxAttempts: int)
    requires Bounds(s) && forall i :: i in s.db.invoices ==> Backed(s.chain, i, s.db.invoices[i])
    ensures var t := Step(s, e, maxAttempts);
            forall i :: i in t.db.invoices ==> Backed(t.chain, i, t.db.invoices[i])
  {
    match e
    case PollerStep(fate) =>
      if HasEvent(s) && s.chain[s.poller.next].invoice.Some? {
        var event := s.chain[s.poller.next];
        assert event == LedgerEvent(event.ledger, Some(event.invoice.value));
        AttemptKeepsBacked(s.chain, s.db, event.invoice.value, event.ledger, fate);
      }
    case BackfillStep(k, fate) =>
      if k < |s.chain| && s.chain[k].invoice.Some? {
        assert s.chain[k] == LedgerEvent(s.chain[k].ledger, Some(s.chain[k].invoice.value));
        AttemptKeepsBacked(s.chain, s.db, s.chain[k].invoice.value, s.chain[k].ledger, fate);
      }
    case _ =>
  }

  /** No invoice turns REPAID without a settlement event for it, in the ledger the row names. */
  lemma {:induction false} RepaidIsBacked(events: seq<Event>, maxAttempts: int)
    ensures var s := Run(events, maxAttempts);
            forall id :: id in s.db.invoices ==> Backed(s.chain, id, s.db.invoices[id])
  {
    if events != [] {
      RepaidIsBacked(events[..|events| - 1], maxAttempts);
      BoundsAlong(EMPTY, events[..|events| - 1], maxAttempts);
      BackedStep(Run(events[..|events| - 1], maxAttempts), events[|events| - 1], maxAttempts);
    }
  }
}
