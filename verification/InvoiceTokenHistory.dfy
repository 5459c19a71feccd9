/** The invoice contract against its history: every record, token and approval and every
    answer, from the log of accepted calls alone. */
module InvoiceTokenHistory {
  import opened Prelude
  import opened InvoiceToken
  import AC = AccessControl
  import Runs = AccessControlRuns

  // ---- the log of accepted calls ------------------------------------------------

  /** The calls of a run that did not fail. */
  ghost function Accepted(calls: seq<Invocation>): seq<Invocation> {
    if calls == [] then []
    else
      var front, last := calls[..|calls| - 1], calls[|calls| - 1];
      Accepted(front) + if Execute(Run(front), last).Ok? then [last] else []
  }

  /** The part of the log that concerns the access-control block. */
  ghost function AccessCalls(log: seq<Invocation>): seq<AC.Invocation> {
    if log == [] then []
    else
      var front, last := AccessCalls(log[..|log| - 1]), log[|log| - 1];
      match last.call
      case Initialize(signers, threshold, timelockLedgers) =>
        front + [AC.Invocation(AC.Initialize(signers, threshold, timelockLedgers), last.auth, last.ledger)]
      case Administer(call) => front + [AC.Invocation(call, last.auth, last.ledger)]
      case _ => front
  }

  ghost function AccessIn(log: seq<Invocation>): AC.State { Runs.Run(AC.EMPTY, AccessCalls(log)) }

  /** How many invoices were minted. */
  ghost function MintedIn(log: seq<Invocation>): nat {
    if log == [] then 0 else MintedIn(log[..|log| - 1]) + if log[|log| - 1].call.Mint? then 1 else 0
  }

  /** The call that minted invoice `id`: the `id`-th mint of the log. */
  ghost function MintOf(log: seq<Invocation>, id: nat): Option<Call> {
    if log == [] then None
    else if log[|log| - 1].call.Mint? && MintedIn(log) == id then Some(log[|log| - 1].call)
    else MintOf(log[..|log| - 1], id)
  }

  predicate IsMove(call: Call, id: nat) { (call.Transfer? || call.TransferFrom?) && call.id == id }

  /** The receiver of the last transfer of `id`, or else the account it was minted for. */
  ghost function OwnerIn(log: seq<Invocation>, id: nat): Option<Address> {
    if log == [] then None
    else
      var call := log[|log| - 1].call;
      if call.Mint? && MintedIn(log) == id then Some(call.owner)
      else if IsMove(call, id) then Some(call.to)
      else OwnerIn(log[..|log| - 1], id)
  }

  /** Pending from the mint on, Funded from the funding on, then what it was updated to. */
  ghost function StatusIn(log: seq<Invocation>, id: nat): Option<Status> {
    if log == [] then None
    else
      var call := log[|log| - 1].call;
      if call.Mint? && MintedIn(log) == id then Some(Pending)
      else if call.Fund? && call.id == id then Some(Funded)
      else if call.UpdateStatus? && call.id == id then Some(call.newStatus)
      else StatusIn(log[..|log| - 1], id)
  }

  /** The discount rate `id` was funded at. */
  ghost function RateIn(log: seq<Invocation>, id: nat): Option<nat> {
    if log == [] then None
    else
      var call := log[|log| - 1].call;
      if call.Fund? && call.id == id then Some(call.discountRate) else RateIn(log[..|log| - 1], id)
  }

  /** The spender approved last, unless the invoice was transferred since. */
  ghost function ApprovedIn(log: seq<Invocation>, id: nat): Option<Address> {
    if log == [] then None
    else
      var call := log[|log| - 1].call;
      if call.Approve? && call.id == id then Some(call.spender)
      else if IsMove(call, id) then None
      else ApprovedIn(log[..|log| - 1], id)
  }

  // ---- the state is the log --------------------------------------------------------

  ghost predicate InvoiceAgrees(st: State, log: seq<Invocation>, id: nat) {
    && (id in st.invoices <==> MintOf(log, id).Some?)
    && (id in st.invoices ==>
          && MintOf(log, id).value.Mint?
          && OwnerIn(log, id) == Some(st.invoices[id].owner) && StatusIn(log, id) == Some(st.invoices[id].status)
          && st.invoices[id].id == id && st.invoices[id].amount == MintOf(log, id).value.amount
          && st.invoices[id].dueDate == MintOf(log, id).value.dueDate)
  }

  ghost predicate TokenAgrees(st: State, log: seq<Invocation>, id: nat) {
    && (id in st.tokens <==> RateIn(log, id).Some?)
    && (id in st.tokens ==>
          && MintOf(log, id).Some? && MintOf(log, id).value.Mint?
          && st.tokens[id] == Token(id, MintOf(log, id).value.amount, RateIn(log, id).value,
                                    MintOf(log, id).value.dueDate))
  }

  ghost predicate ApprovalAgrees(st: State, log: seq<Invocation>, id: nat) {
    ApprovedIn(log, id) == if id in st.approvals then Some(st.approvals[id]) else None
  }

  ghost predicate Agrees(st: State, log: seq<Invocation>) {
    && st.access == AccessIn(log) && st.counter == MintedIn(log)
    && forall id :: InvoiceAgrees(st, log, id) && TokenAgrees(st, log, id) && ApprovalAgrees(st, log, id)
  }

  /** What one more accepted call adds to the log of an invoice. */
  lemma LogSnoc(log: seq<Invocation>, inv: Invocation, id: nat)
    ensures var call, after := inv.call, log + [inv];
            && MintedIn(after) == MintedIn(log) + (if call.Mint? then 1 else 0)
            && MintOf(after, id) == (if call.Mint? && MintedIn(log) + 1 == id then Some(call) else MintOf(log, id))
            && OwnerIn(after, id) == (if call.Mint? && MintedIn(log) + 1 == id then Some(call.owner)
                                      else if IsMove(call, id) then Some(call.to) else OwnerIn(log, id))
            && StatusIn(after, id) == (if call.Mint? && MintedIn(log) + 1 == id then Some(Pending)
                                       else if call.Fund? && call.id == id then Some(Funded)
                                       else if call.UpdateStatus? && call.id == id then Some(call.newStatus)
                                       else StatusIn(log, id))
            && RateIn(after, id) == (if call.Fund? && call.id == id then Some(call.discountRate) else RateIn(log, id))
            && ApprovedIn(after, id) == (if call.Approve? && call.id == id then Some(call.spender)
                                         else if IsMove(call, id) then None else ApprovedIn(log, id))
  {
    assert (log + [inv])[..|log|] == log;
  }

  lemma AccessStep(log: seq<Invocation>, inv: Invocation)
    ensures AccessIn(log + [inv])
         == match inv.call
            case Initialize(signers, threshold, timelockLedgers) =>
              AC.Next(AccessIn(log), AC.Invocation(AC.Initialize(signers, threshold, timelockLedgers), inv.auth,
                                                   inv.ledger))
            case Administer(call) => AC.Next(AccessIn(log), AC.Invocation(call, inv.auth, inv.ledger))
            case _ => AccessIn(log)
  {
    assert (log + [inv])[..|log|] == log;
    var more := AccessCalls(log + [inv]);
    if inv.call.Initialize? || inv.call.Administer? {
      assert more[..|more| - 1] == AccessCalls(log);
    }
  }

  lemma AccessEffect(st: State, inv: Invocation)
    requires Body(st, inv).Ok?
    ensures var after := Body(st, inv).value.access;
            match inv.call
            case Initialize(signers, threshold, timelockLedgers) =>
              after == AC.Next(st.access, AC.Invocation(AC.Initialize(signers, threshold, timelockLedgers), inv.auth,
                                                        inv.ledger))
            case Administer(call) => after == AC.Next(st.access, AC.Invocation(call, inv.auth, inv.ledger))
            case _ => after == st.access
  {
  }

  lemma SettingsStep(st: State, log: seq<Invocation>, inv: Invocation)
    requires st.access == AccessIn(log) && Execute(st, inv).Ok?
    ensures Execute(st, inv).value.access == AccessIn(log + [inv])
  {
    NextIsBody(st, inv);
    AccessEffect(st, inv);
    AccessStep(log, inv);
  }

  lemma MintStep(st: State, log: seq<Invocation>, inv: Invocation, id: nat)
    requires inv.call.Mint? && st.counter == MintedIn(log) && st.counter + 1 < U64_COUNT && IdsDense(st)
    requires InvoiceAgrees(st, log, id) && TokenAgrees(st, log, id) && ApprovalAgrees(st, log, id)
    requires forall token :: token in st.tokens ==> token in st.invoices
    requires Body(st, inv).Ok?
    ensures var after := Body(st, inv).value;
            && InvoiceAgrees(after, log + [inv], id) && TokenAgrees(after, log + [inv], id)
            && ApprovalAgrees(after, log + [inv], id)
  {
    LogSnoc(log, inv, id);
    assert (st.counter + 1) % U64_COUNT == st.counter + 1;
  }

  lemma MoveEffect(st: State, inv: Invocation)
    requires (inv.call.Transfer? || inv.call.TransferFrom?) && Body(st, inv).Ok?
    ensures inv.call.id in st.invoices
    ensures Body(st, inv).value == HandedOver(st, inv.call.id, inv.call.to)
  {
  }

  ghost function HandedOver(st: State, id: nat, to: Address): State
    requires id in st.invoices
  {
    st.(invoices := st.invoices[id := st.invoices[id].(owner := to)], approvals := st.approvals - {id})
  }

  lemma MovedStep(st: State, log: seq<Invocation>, inv: Invocation, id: nat)
    requires (inv.call.Transfer? || inv.call.TransferFrom?) && inv.call.id in st.invoices
    requires InvoiceAgrees(st, log, id) && TokenAgrees(st, log, id) && ApprovalAgrees(st, log, id)
    ensures var after := HandedOver(st, inv.call.id, inv.call.to);
            && InvoiceAgrees(after, log + [inv], id) && TokenAgrees(after, log + [inv], id)
            && ApprovalAgrees(after, log + [inv], id)
  {
    LogSnoc(log, inv, id);
  }

  lemma ChangeStep(st: State, log: seq<Invocation>, inv: Invocation, id: nat)
    requires !inv.call.Mint? && Body(st, inv).Ok?
    requires InvoiceAgrees(st, log, id) && TokenAgrees(st, log, id) && ApprovalAgrees(st, log, id)
    ensures var after := Body(st, inv).value;
            && InvoiceAgrees(after, log + [inv], id) && TokenAgrees(after, log + [inv], id)
            && ApprovalAgrees(after, log + [inv], id)
  {
    if inv.call.Transfer? || inv.call.TransferFrom? {
      MoveEffect(st, inv);
      MovedStep(st, log, inv, id);
    } else {
      LogSnoc(log, inv, id);
    }
  }

  lemma LogStep(st: State, log: seq<Invocation>, inv: Invocation)
    requires Agrees(st, log) && Inv(st) && st.counter + 1 < U64_COUNT && Execute(st, inv).Ok?
    ensures Agrees(Execute(st, inv).value, log + [inv])
  {
    var after := Execute(st, inv).value;
    SettingsStep(st, log, inv);
    NextIsBody(st, inv);
    NextKeepsInv(st, inv);
    LogSnoc(log, inv, 0);
    forall id
      ensures InvoiceAgrees(after, log + [inv], id) && TokenAgrees(after, log + [inv], id)
      ensures ApprovalAgrees(after, log + [inv], id)
    {
      assert InvoiceAgrees(st, log, id) && TokenAgrees(st, log, id) && ApprovalAgrees(st, log, id);
      if inv.call.Mint? { MintStep(st, log, inv, id); } else { ChangeStep(st, log, inv, id); }
    }
  }

  /** Everything the contract stores is determined by the calls it accepted: the terms of an
      invoice are those of the mint with its number, its owner, status and approval follow
      its transfers, updates and approvals, and its token has the rate it was funded at. */
  lemma {:induction false} StateIsTheLog(calls: seq<Invocation>)
    requires |calls| < U64_COUNT
    ensures Agrees(Run(calls), Accepted(calls))
  {
    if calls != [] {
      var front, last := calls[..|calls| - 1], calls[|calls| - 1];
      StateIsTheLog(front);
      RunKeepsInv(front);
      if Execute(Run(front), last).Ok? {
        LogStep(Run(front), Accepted(front), last);
      } else {
        assert Accepted(calls) == Accepted(front);
      }
    }
  }

  // ---- every answer -------------------------------------------------------------------

  ghost function AccessAnswer(o: Outcome<AC.State, AC.AcError>): Outcome<(), Error> {
    match o
    case Ok(_) => Ok(())
    case Err(e) => Err(Access(e))
    case Trap => Trap
  }

  /** The answer to an account that has to be entitled: initialized, signed, entitled, not
      paused, in this order. */
  ghost function EntitledAnswer(access: AC.State, caller: Address, auth: set<Address>, entitled: bool,
                                refusal: AC.AcError): Outcome<(), Error> {
    if access.multisig.None? then Err(Access(AC.NotInitialized))
    else if caller !in auth then Trap
    else if !entitled then Err(Access(refusal))
    else if access.paused then Err(Access(AC.ContractPaused))
    else Ok(())
  }

  /** The answer to an account that acts for itself. */
  ghost function OpenAnswer(access: AC.State, a: Address, auth: set<Address>): Outcome<(), Error> {
    if access.paused then Err(Access(AC.ContractPaused)) else if a in auth then Ok(()) else Trap
  }

  ghost predicate IsSignerOf(access: AC.State, a: Address) {
    access.multisig.Some? && a in access.multisig.value.signers
  }

  /** Whether the block lets the call in. */
  ghost function GateAnswer(log: seq<Invocation>, inv: Invocation): Outcome<(), Error> {
    var access, auth := AccessIn(log), inv.auth;
    match inv.call
    case Mint(owner, _, _) =>
      if access.multisig.None? then Err(Access(AC.NotInitialized)) else OpenAnswer(access, owner, auth)
    case Fund(caller, _, _) =>
      EntitledAnswer(access, caller, auth,
                     IsSignerOf(access, caller) || (AC.LiquidityManager, caller) in access.roles, AC.Unauthorized)
    case Approve(owner, _, _) => OpenAnswer(access, owner, auth)
    case Transfer(from, _, _) => OpenAnswer(access, from, auth)
    case TransferFrom(spender, _, _, _) => OpenAnswer(access, spender, auth)
    case UpdateStatus(caller, _, _) =>
      EntitledAnswer(access, caller, auth, IsSignerOf(access, caller), AC.NotASigner)
    case Initialize(_, _, _) => Ok(())
    case Administer(call) => if call.Initialize? then Trap else Ok(())
  }

  ghost function MoveAnswer(log: seq<Invocation>, from: Address, to: Address, id: nat): Outcome<(), Error> {
    if from == to then Err(SameOwnerTransfer)
    else if StatusIn(log, id) == Some(Settled) then Err(TransferAfterRepayment)
    else Ok(())
  }

  /** What a call is answered once it is let in. */
  ghost function AdmittedAnswer(log: seq<Invocation>, inv: Invocation): Outcome<(), Error> {
    var access := AccessIn(log);
    match inv.call
    case Initialize(signers, threshold, timelockLedgers) =>
      var call := AC.Initialize(signers, threshold, timelockLedgers);
      AccessAnswer(AC.Execute(access, AC.Invocation(call, inv.auth, inv.ledger)))
    case Administer(call) => AccessAnswer(AC.Execute(access, AC.Invocation(call, inv.auth, inv.ledger)))
    case Mint(_, amount, _) => if amount < 1 then Err(InvalidAmount) else Ok(())
    case Fund(_, id, discountRate) =>
      if discountRate > 9_999 then Err(InvalidDiscountRate)
      else if MintOf(log, id).None? then Err(InvoiceNotFound)
      else if StatusIn(log, id) == Some(Pending) then Ok(())
      else Err(InvalidTransition)
    case Approve(owner, _, id) =>
      if MintOf(log, id).None? then Err(InvoiceNotFound)
      else if RateIn(log, id).None? then Err(NotTokenized)
      else if OwnerIn(log, id) == Some(owner) then Ok(())
      else Err(NotOwner)
    case Transfer(from, to, id) =>
      if MintOf(log, id).None? then Err(InvoiceNotFound)
      else if OwnerIn(log, id) != Some(from) then Err(NotOwner)
      else MoveAnswer(log, from, to, id)
    case TransferFrom(spender, from, to, id) =>
      if MintOf(log, id).None? then Err(InvoiceNotFound)
      else if RateIn(log, id).None? then Err(NotTokenized)
      else if OwnerIn(log, id) != Some(from) then Err(NotOwner)
      else if ApprovedIn(log, id) != Some(spender) then Err(NotApproved)
      else MoveAnswer(log, from, to, id)
    case UpdateStatus(_, id, to) =>
      if MintOf(log, id).None? then Err(InvoiceNotFound)
      else
        var from := StatusIn(log, id);
        if (from == Some(Pending) && to == Defaulted) || (from == Some(Funded) && to in {Settled, Defaulted})
        then Ok(()) else Err(InvalidTransition)
  }

  lemma GateAnswers(st: State, log: seq<Invocation>, inv: Invocation)
    requires st.access == AccessIn(log)
    ensures match Guard(st, inv.call, inv.auth)
            case Ok(_) => GateAnswer(log, inv).Ok?
            case Err(e) => GateAnswer(log, inv) == Err(Access(e))
            case Trap => GateAnswer(log, inv) == Trap
  {
  }

  lemma InvoiceCallAnswers(st: State, log: seq<Invocation>, inv: Invocation, id: nat)
    requires !inv.call.Initialize? && !inv.call.Administer? && (inv.call.Mint? || inv.call.id == id)
    requires InvoiceAgrees(st, log, id) && TokenAgrees(st, log, id) && ApprovalAgrees(st, log, id)
    ensures Verdict(Body(st, inv)) == AdmittedAnswer(log, inv)
  {
  }

  lemma AccessCallAnswers(st: State, log: seq<Invocation>, inv: Invocation)
    requires inv.call.Initialize? || inv.call.Administer?
    requires st.access == AccessIn(log)
    ensures Verdict(Body(st, inv)) == AdmittedAnswer(log, inv)
  {
  }

  /** Every entry point answers what the log of accepted calls so far calls for. */
  lemma AnswersFollowTheLog(calls: seq<Invocation>, inv: Invocation)
    requires |calls| < U64_COUNT
    ensures var gate := GateAnswer(Accepted(calls), inv);
            Verdict(Execute(Run(calls), inv)) == if gate.Ok? then AdmittedAnswer(Accepted(calls), inv) else gate
  {
    StateIsTheLog(calls);
    var st, log := Run(calls), Accepted(calls);
    GateAnswers(st, log, inv);
    if inv.call.Initialize? || inv.call.Administer? {
      AccessCallAnswers(st, log, inv);
    } else {
      var id := if inv.call.Mint? then 0 else inv.call.id;
      assert InvoiceAgrees(st, log, id) && TokenAgrees(st, log, id) && ApprovalAgrees(st, log, id);
      InvoiceCallAnswers(st, log, inv, id);
    }
  }
}
