/** The settlement ledger against its history: every stored value and every answer, from
    the log of accepted calls alone. */
module SettlementLedgerHistory {
  import opened Prelude
  import opened CheckedMath
  import opened SettlementLedger
  import AC = AccessControl
  import Runs = AccessControlRuns

  // ---- the log of accepted calls ------------------------------------------------

  /** The calls of a run that did not fail. */
  ghost function Accepted(due: DueDates, calls: seq<Invocation>): seq<Invocation> {
    if calls == [] then []
    else
      var front, last := calls[..|calls| - 1], calls[|calls| - 1];
      Accepted(due, front) + if Execute(Run(due, front), last).Ok? then [last] else []
  }

  /** The part of the log that concerns the access-control block. */
  ghost function AccessCalls(log: seq<Invocation>): seq<AC.Invocation> {
    if log == [] then []
    else
      var front, last := AccessCalls(log[..|log| - 1]), log[|log| - 1];
      match last.call
      case Init(signers, threshold, timelockLedgers) =>
        front + [AC.Invocation(AC.Initialize(signers, threshold, timelockLedgers), last.auth, last.ledger)]
      case Administer(call) => front + [AC.Invocation(call, last.auth, last.ledger)]
      case _ => front
  }

  ghost function AccessIn(log: seq<Invocation>): AC.State { Runs.Run(AC.EMPTY, AccessCalls(log)) }

  /** The fee rate set last. */
  ghost function RateIn(log: seq<Invocation>): nat {
    if log == [] then 0
    else
      match log[|log| - 1].call
      case SetFeeRate(_, feeRate) => feeRate
      case _ => RateIn(log[..|log| - 1])
  }

  /** All fees charged, each payment at the rate then in force. */
  ghost function ChargedIn(log: seq<Invocation>): int {
    if log == [] then 0
    else
      var front, call := log[..|log| - 1], log[|log| - 1].call;
      ChargedIn(front) + if call.SettleInvoice? then call.amount * RateIn(front) / 10_000 else 0
  }

  ghost function WithdrawnIn(log: seq<Invocation>): int {
    if log == [] then 0
    else
      var front, call := log[..|log| - 1], log[|log| - 1].call;
      WithdrawnIn(front) + if call.WithdrawFees? then call.amount else 0
  }

  /** The amount an invoice was last registered with. */
  ghost function AmountIn(log: seq<Invocation>, id: Symbol): Option<int> {
    if log == [] then None
    else
      match log[|log| - 1].call
      case SetInvoiceData(_, registered, amount) =>
        if registered == id then Some(amount) else AmountIn(log[..|log| - 1], id)
      case _ => AmountIn(log[..|log| - 1], id)
  }

  /** The nets paid on an invoice since it was last registered. */
  ghost function PrincipalIn(log: seq<Invocation>, id: Symbol): int {
    if log == [] then 0
    else
      var front := log[..|log| - 1];
      match log[|log| - 1].call
      case SetInvoiceData(_, registered, _) => if registered == id then 0 else PrincipalIn(front, id)
      case SettleInvoice(_, paid, _, amount) =>
        if paid == id then PrincipalIn(front, id) + amount - amount * RateIn(front) / 10_000
        else PrincipalIn(front, id)
      case _ => PrincipalIn(front, id)
  }

  /** Some payment since its registration left the principal at the amount or above. */
  ghost predicate SettledIn(log: seq<Invocation>, id: Symbol) {
    if log == [] then false
    else
      var front := log[..|log| - 1];
      match log[|log| - 1].call
      case SetInvoiceData(_, registered, _) => registered != id && SettledIn(front, id)
      case SettleInvoice(_, paid, _, _) =>
        SettledIn(front, id)
        || (paid == id && AmountIn(log, id).Some? && PrincipalIn(log, id) >= AmountIn(log, id).value)
      case _ => SettledIn(front, id)
  }

  /** The nonces of all payments on an invoice. */
  ghost function NoncesIn(log: seq<Invocation>, id: Symbol): seq<nat> {
    if log == [] then []
    else
      var front, call := log[..|log| - 1], log[|log| - 1].call;
      NoncesIn(front, id) + if call.SettleInvoice? && call.id == id then [call.nonce] else []
  }

  // ---- the state is the log --------------------------------------------------------

  ghost predicate RecordAgrees(st: State, log: seq<Invocation>, id: Symbol) {
    && (AmountIn(log, id).Some? <==> id in st.invoices)
    && (id in st.invoices ==>
          var record := st.invoices[id];
          && AmountIn(log, id) == Some(record.amount) && record.principalPaid == PrincipalIn(log, id)
          && (record.status == Settled <==> SettledIn(log, id)))
    && LoadNonces(st, id) == NonceMeta(NoncesIn(log, id), st.dueDates(id))
  }

  ghost predicate SettingsAgree(st: State, log: seq<Invocation>) {
    && st.access == AccessIn(log) && st.feeRate == RateIn(log)
  }

  ghost predicate Agrees(st: State, log: seq<Invocation>) {
    && SettingsAgree(st, log)
    && st.collected == ChargedIn(log) - WithdrawnIn(log) && st.withdrawn == WithdrawnIn(log)
    && forall id :: RecordAgrees(st, log, id)
  }

  lemma AccessStep(log: seq<Invocation>, inv: Invocation)
    ensures AccessIn(log + [inv])
         == match inv.call
            case Init(signers, threshold, timelockLedgers) =>
              AC.Next(AccessIn(log), AC.Invocation(AC.Initialize(signers, threshold, timelockLedgers), inv.auth,
                                                   inv.ledger))
            case Administer(call) => AC.Next(AccessIn(log), AC.Invocation(call, inv.auth, inv.ledger))
            case _ => AccessIn(log)
  {
    assert (log + [inv])[..|log|] == log;
    var more := AccessCalls(log + [inv]);
    if inv.call.Init? || inv.call.Administer? {
      assert more[..|more| - 1] == AccessCalls(log);
    }
  }

  /** Before initialization the ledger has accepted nothing. */
  ghost predicate BlankBeforeInit(st: State) {
    st.access.multisig.None? ==> st.feeRate == 0 && st.collected == 0 && st.withdrawn == 0
  }

  /** Payments and withdrawals leave the settings and the access-control block alone. */
  lemma MoneyLeavesSettings(st: State, inv: Invocation)
    requires (inv.call.SettleInvoice? || inv.call.WithdrawFees?) && Execute(st, inv).Ok?
    ensures Execute(st, inv).value.access == st.access && Execute(st, inv).value.feeRate == st.feeRate
  {
    if inv.call.SettleInvoice? { var split := SettleEffect(st, inv); }
  }

  /** What an accepted call does to the access-control block. */
  lemma AccessEffect(st: State, inv: Invocation)
    requires Execute(st, inv).Ok?
    ensures var after := Execute(st, inv).value.access;
            match inv.call
            case Init(signers, threshold, timelockLedgers) =>
              after == AC.Next(st.access, AC.Invocation(AC.Initialize(signers, threshold, timelockLedgers), inv.auth,
                                                        inv.ledger))
            case Administer(call) => after == AC.Next(st.access, AC.Invocation(call, inv.auth, inv.ledger))
            case _ => after == st.access
  {
    if inv.call.SettleInvoice? || inv.call.WithdrawFees? { MoneyLeavesSettings(st, inv); }
  }

  lemma RateStep(st: State, log: seq<Invocation>, inv: Invocation)
    requires st.feeRate == RateIn(log) && BlankBeforeInit(st) && Execute(st, inv).Ok?
    ensures Execute(st, inv).value.feeRate == RateIn(log + [inv])
  {
    assert (log + [inv])[..|log|] == log;
    if inv.call.SettleInvoice? || inv.call.WithdrawFees? { MoneyLeavesSettings(st, inv); }
  }

  lemma SettingsStep(st: State, log: seq<Invocation>, inv: Invocation)
    requires SettingsAgree(st, log) && BlankBeforeInit(st) && Execute(st, inv).Ok?
    ensures SettingsAgree(Execute(st, inv).value, log + [inv])
  {
    AccessStep(log, inv);
    AccessEffect(st, inv);
    RateStep(st, log, inv);
  }

  /** An accepted initialization finds no access-control block, every other accepted call
      but a payment one that is there. */
  lemma BlankStep(st: State, inv: Invocation)
    requires Fresh(st) && BlankBeforeInit(st) && Execute(st, inv).Ok?
    ensures BlankBeforeInit(Execute(st, inv).value)
  {
    if inv.call.SettleInvoice? { var split := SettleEffect(st, inv); }
  }

  lemma FeesStep(st: State, log: seq<Invocation>, inv: Invocation)
    requires Execute(st, inv).Ok? && st.feeRate == RateIn(log) && BlankBeforeInit(st)
    requires st.collected == ChargedIn(log) - WithdrawnIn(log) && st.withdrawn == WithdrawnIn(log)
    ensures var after := Execute(st, inv).value;
            after.collected == ChargedIn(log + [inv]) - WithdrawnIn(log + [inv])
            && after.withdrawn == WithdrawnIn(log + [inv])
  {
    assert (log + [inv])[..|log|] == log;
    if inv.call.SettleInvoice? { var split := SettleEffect(st, inv); }
  }

  /** What one call does to the records, as the log has it. */
  lemma RecordSnoc(log: seq<Invocation>, inv: Invocation, id: Symbol)
    ensures var call, after := inv.call, log + [inv];
            if call.SetInvoiceData? && call.id == id then
              && AmountIn(after, id) == Some(call.amount) && PrincipalIn(after, id) == 0 && !SettledIn(after, id)
              && NoncesIn(after, id) == NoncesIn(log, id)
            else if call.SettleInvoice? && call.id == id then
              && AmountIn(after, id) == AmountIn(log, id)
              && PrincipalIn(after, id) == PrincipalIn(log, id) + call.amount - call.amount * RateIn(log) / 10_000
              && (SettledIn(after, id) <==>
                    (SettledIn(log, id)
                     || (AmountIn(log, id).Some? && PrincipalIn(after, id) >= AmountIn(log, id).value)))
              && NoncesIn(after, id) == NoncesIn(log, id) + [call.nonce]
            else
              && AmountIn(after, id) == AmountIn(log, id) && PrincipalIn(after, id) == PrincipalIn(log, id)
              && (SettledIn(after, id) <==> SettledIn(log, id)) && NoncesIn(after, id) == NoncesIn(log, id)
  {
    assert (log + [inv])[..|log|] == log;
  }

  lemma PaidRecordStep(st: State, log: seq<Invocation>, inv: Invocation, id: Symbol)
    requires inv.call.SettleInvoice? && Execute(st, inv).Ok? && st.feeRate == RateIn(log)
    requires RecordAgrees(st, log, id)
    ensures RecordAgrees(Execute(st, inv).value, log + [inv], id)
  {
    var split := SettleEffect(st, inv);
    RecordSnoc(log, inv, id);
  }

  lemma RegisteredStep(st: State, log: seq<Invocation>, inv: Invocation, id: Symbol)
    requires inv.call.SetInvoiceData? && RecordAgrees(st, log, id)
    ensures RecordAgrees(WithRecord(st, inv.call.id, inv.call.amount), log + [inv], id)
  {
    RecordSnoc(log, inv, id);
  }

  lemma QuietRecord(st: State, log: seq<Invocation>, inv: Invocation, id: Symbol, after: State)
    requires !inv.call.SetInvoiceData? && !inv.call.SettleInvoice? && RecordAgrees(st, log, id)
    requires after.invoices == st.invoices && after.nonces == st.nonces && after.dueDates == st.dueDates
    ensures RecordAgrees(after, log + [inv], id)
  {
    RecordSnoc(log, inv, id);
  }

  lemma OtherRecordStep(st: State, log: seq<Invocation>, inv: Invocation, id: Symbol)
    requires !inv.call.SettleInvoice? && Execute(st, inv).Ok?
    requires RecordAgrees(st, log, id)
    ensures RecordAgrees(Execute(st, inv).value, log + [inv], id)
  {
    if inv.call.SetInvoiceData? {
      RegisteredStep(st, log, inv, id);
    } else {
      QuietRecord(st, log, inv, id, Execute(st, inv).value);
    }
  }

  lemma RecordsStep(st: State, log: seq<Invocation>, inv: Invocation)
    requires Agrees(st, log) && Execute(st, inv).Ok?
    ensures forall id :: RecordAgrees(Execute(st, inv).value, log + [inv], id)
  {
    forall id ensures RecordAgrees(Execute(st, inv).value, log + [inv], id) {
      assert RecordAgrees(st, log, id);
      if inv.call.SettleInvoice? { PaidRecordStep(st, log, inv, id); } else { OtherRecordStep(st, log, inv, id); }
    }
  }

  /** Everything the ledger stores is determined by the calls it accepted: fee rate, fees
      collected and withdrawn, every invoice's amount, principal, status and nonces; the
      access-control block is in the state its own part of the log leads to. */
  lemma {:induction false} StateIsTheLog(due: DueDates, calls: seq<Invocation>)
    ensures Agrees(Run(due, calls), Accepted(due, calls)) && BlankBeforeInit(Run(due, calls))
  {
    if calls != [] {
      var front, last := calls[..|calls| - 1], calls[|calls| - 1];
      StateIsTheLog(due, front);
      var st, log := Run(due, front), Accepted(due, front);
      if Execute(st, last).Ok? {
        SettingsStep(st, log, last);
        assert Fresh(st) by { LedgerAgrees(due, front); }
        BlankStep(st, last);
        FeesStep(st, log, last);
        RecordsStep(st, log, last);
      } else {
        assert Accepted(due, calls) == log;
      }
    }
  }

  // ---- every answer -------------------------------------------------------------------

  ghost function SettleAnswer(log: seq<Invocation>, dueDate: nat, id: Symbol, nonce: nat, amount: int, now: nat)
    : Outcome<(), Fault>
  {
    var fee := amount * RateIn(log) / 10_000;
    var principal := PrincipalIn(log, id) + amount - fee;
    if nonce in NoncesIn(log, id) || (now > dueDate + 2_592_000 || now > U64_MAX) then Err(NonceReplay)
    else if AmountIn(log, id).None? then Err(InvoiceNotFound)
    else if !(1 <= amount <= AmountIn(log, id).value) then Err(InvalidAmount)
    else if amount * RateIn(log) > I128_MAX then Err(Math(Overflow))
    else if ChargedIn(log) - WithdrawnIn(log) + fee > I128_MAX then Err(Math(Overflow))
    else if principal > I128_MAX then Err(Math(Overflow))
    else if principal < I128_MIN then Err(Math(Underflow))
    else Ok(())
  }

  ghost function WithdrawAnswer(log: seq<Invocation>, amount: int): Outcome<(), Fault> {
    var collected, withdrawn := ChargedIn(log) - WithdrawnIn(log), WithdrawnIn(log);
    if amount > collected then Err(InsufficientFees)
    else if collected - amount > I128_MAX || withdrawn + amount > I128_MAX then Err(Math(Overflow))
    else if withdrawn + amount < I128_MIN then Err(Math(Underflow))
    else Ok(())
  }

  /** Signed, and by a current signer. */
  ghost function SignerAnswer(log: seq<Invocation>, caller: Address, auth: set<Address>): Outcome<(), Fault> {
    var access := AccessIn(log);
    if caller !in auth then Trap
    else if access.multisig.Some? && caller in access.multisig.value.signers then Ok(())
    else Err(Access(AC.NotASigner))
  }

  ghost function AccessAnswer(o: Outcome<AC.State, AC.AcError>): Outcome<(), Fault> {
    match o
    case Ok(_) => Ok(())
    case Err(e) => Err(Access(e))
    case Trap => Trap
  }

  /** The answer the log calls for. */
  ghost function Answer(log: seq<Invocation>, due: DueDates, inv: Invocation): Outcome<(), Fault> {
    var access := AccessIn(log);
    match inv.call
    case Init(signers, threshold, timelockLedgers) =>
      var call := AC.Initialize(signers, threshold, timelockLedgers);
      AccessAnswer(AC.Execute(access, AC.Invocation(call, inv.auth, inv.ledger)))
    case SetInvoiceData(caller, _, _) => SignerAnswer(log, caller, inv.auth)
    case SetFeeRate(caller, _) => SignerAnswer(log, caller, inv.auth)
    case SettleInvoice(caller, id, nonce, amount) =>
      if caller !in inv.auth then Trap
      else if access.paused then Err(Access(AC.ContractPaused))
      else SettleAnswer(log, due(id), id, nonce, amount, inv.timestamp)
    case WithdrawFees(caller, amount) =>
      if !SignerAnswer(log, caller, inv.auth).Ok? then SignerAnswer(log, caller, inv.auth)
      else if access.paused then Err(Access(AC.ContractPaused))
      else WithdrawAnswer(log, amount)
    case Administer(call) =>
      if call.Initialize? then Trap else AccessAnswer(AC.Execute(access, AC.Invocation(call, inv.auth, inv.ledger)))
  }

  lemma SplitAnswers(amount: I128, rate: U32)
    requires amount > 0
    ensures var split := SplitPayment(amount, rate);
            && !split.Trap?
            && (split.Ok? <==> amount * rate <= I128_MAX)
            && (split.Ok? ==> split.value.fee == amount * rate / 10_000 >= 0
                              && split.value.net == amount - split.value.fee)
            && (split.Err? ==> split.error == Math(Overflow))
  {
    assert amount * rate >= 0;
    if amount * rate <= I128_MAX { SplitExact(amount, rate); }
  }

  lemma SettleAnswers(st: State, log: seq<Invocation>, id: Symbol, nonce: nat, amount: I128, now: nat)
    requires Agrees(st, log) && !st.locked && st.collected >= 0
    ensures Verdict(ExecuteSettle(st, id, nonce, amount, now))
         == SettleAnswer(log, st.dueDates(id), id, nonce, amount, now)
  {
    assert RecordAgrees(st, log, id);
    if amount > 0 { SplitAnswers(amount, st.feeRate); }
  }

  lemma WithdrawAnswers(st: State, log: seq<Invocation>, amount: I128)
    requires Agrees(st, log) && st.collected >= 0
    ensures Verdict(ExecuteWithdraw(st, amount)) == WithdrawAnswer(log, amount)
  {
  }

  lemma SettleCallAnswers(st: State, log: seq<Invocation>, inv: Invocation)
    requires Agrees(st, log) && !st.locked && st.collected >= 0 && inv.call.SettleInvoice?
    ensures Verdict(Execute(st, inv)) == Answer(log, st.dueDates, inv)
  {
    SettleAnswers(st, log, inv.call.id, inv.call.nonce, inv.call.amount, inv.timestamp);
  }

  lemma WithdrawCallAnswers(st: State, log: seq<Invocation>, inv: Invocation)
    requires Agrees(st, log) && st.collected >= 0 && inv.call.WithdrawFees?
    ensures Verdict(Execute(st, inv)) == Answer(log, st.dueDates, inv)
  {
    WithdrawAnswers(st, log, inv.call.amount);
  }

  lemma OtherCallAnswers(st: State, log: seq<Invocation>, inv: Invocation)
    requires SettingsAgree(st, log) && !inv.call.SettleInvoice? && !inv.call.WithdrawFees?
    ensures Verdict(Execute(st, inv)) == Answer(log, st.dueDates, inv)
  {
  }

  /** Every entry point answers what the log of accepted calls so far calls for; in particular
      only a current signer registers an invoice, sets the rate or withdraws fees. */
  lemma AnswersFollowTheLog(due: DueDates, calls: seq<Invocation>, inv: Invocation)
    ensures Verdict(Execute(Run(due, calls), inv)) == Answer(Accepted(due, calls), due, inv)
  {
    var st, log := Run(due, calls), Accepted(due, calls);
    assert Agrees(st, log) by { StateIsTheLog(due, calls); }
    assert !st.locked by { LedgerAgrees(due, calls); }
    assert st.collected >= 0 by { FeesSolvent(due, calls); }
    assert st.dueDates == due by { DueDatesStay(due, calls); }
    if inv.call.SettleInvoice? {
      SettleCallAnswers(st, log, inv);
    } else if inv.call.WithdrawFees? {
      WithdrawCallAnswers(st, log, inv);
    } else {
      OtherCallAnswers(st, log, inv);
    }
  }
}
