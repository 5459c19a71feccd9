/** The invoice contract: minting, funding, approvals, transfers and the lifecycle. */
module InvoiceToken {
  import opened Prelude
  import AC = AccessControl

  const U64_COUNT: nat := 0x1_0000_0000_0000_0000
  const MAX_DISCOUNT_BPS: nat := 10_000

  datatype Error =
    | Access(ac: AC.AcError)
    | InvoiceNotFound | InvalidAmount | NotOwner | InvalidTransition | SameOwnerTransfer
    | NotTokenized | InvalidDiscountRate | TransferAfterRepayment | NotApproved

  datatype Status = Pending | Funded | Settled | Defaulted

  datatype Invoice = Invoice(id: nat, owner: Address, amount: I128, dueDate: nat, status: Status)
  datatype Token = Token(invoiceId: nat, faceValue: I128, discountRate: nat, dueDate: nat)

  datatype State = State(access: AC.State, counter: nat, invoices: map<nat, Invoice>,
                         tokens: map<nat, Token>, approvals: map<nat, Address>)

  const EMPTY := State(AC.EMPTY, 0, map[], map[], map[])

  datatype Call =
    | Initialize(signers: seq<Address>, threshold: nat, timelockLedgers: nat)
    | Mint(owner: Address, amount: I128, dueDate: nat)
    | Fund(caller: Address, id: nat, discountRate: nat)
    | Approve(owner: Address, spender: Address, id: nat)
    | Transfer(from: Address, to: Address, id: nat)
    | TransferFrom(spender: Address, from: Address, to: Address, id: nat)
    | UpdateStatus(caller: Address, id: nat, newStatus: Status)
    | Administer(ac: AC.Call)

  datatype Invocation = Invocation(call: Call, auth: set<Address>, ledger: nat)

  type Result = Outcome<State, Error>

  // ---- specification -----------------------------------------------------------------

  predicate TransitionAllowed(from: Status, to: Status) {
    || (from == Pending && to == Defaulted)
    || (from == Funded && to == Settled)
    || (from == Funded && to == Defaulted)
  }

  function Both(first: Outcome<(), AC.AcError>, second: Outcome<(), AC.AcError>): Outcome<(), AC.AcError> {
    if first.Ok? then second else first
  }

  function Initialized(st: State): Outcome<(), AC.AcError> {
    if st.access.multisig.None? then Err(AC.NotInitialized) else Ok(())
  }

  /** Not paused, and signed by the account that acts. */
  function OpenFor(st: State, a: Address, auth: set<Address>): Outcome<(), AC.AcError> {
    if st.access.paused then Err(AC.ContractPaused) else if a !in auth then Trap else Ok(())
  }

  function WithStatus(st: State, id: nat, status: Status): State
    requires id in st.invoices
  {
    st.(invoices := st.invoices[id := st.invoices[id].(status := status)])
  }

  function ExecuteMint(st: State, owner: Address, amount: I128, dueDate: nat): Result {
    if amount <= 0 then Err(InvalidAmount)
    else
      var next := (st.counter + 1) % U64_COUNT;
      Ok(st.(counter := next, invoices := st.invoices[next := Invoice(next, owner, amount, dueDate, Pending)]))
  }

  function ExecuteFund(st: State, id: nat, discountRate: nat): Result {
    if discountRate >= MAX_DISCOUNT_BPS then Err(InvalidDiscountRate)
    else if id !in st.invoices then Err(InvoiceNotFound)
    else if st.invoices[id].status != Pending then Err(InvalidTransition)
    else
      var invoice := st.invoices[id];
      Ok(WithStatus(st, id, Funded)
         .(tokens := st.tokens[id := Token(id, invoice.amount, discountRate, invoice.dueDate)]))
  }

  function ExecuteApprove(st: State, owner: Address, spender: Address, id: nat): Result {
    if id !in st.invoices then Err(InvoiceNotFound)
    else if id !in st.tokens then Err(NotTokenized)
    else if st.invoices[id].owner != owner then Err(NotOwner)
    else Ok(st.(approvals := st.approvals[id := spender]))
  }

  /** The shared body of both transfers. */
  function Move(st: State, from: Address, to: Address, id: nat): Result
    requires id in st.invoices
  {
    if from == to then Err(SameOwnerTransfer)
    else if st.invoices[id].status == Settled then Err(TransferAfterRepayment)
    else Ok(st.(invoices := st.invoices[id := st.invoices[id].(owner := to)], approvals := st.approvals - {id}))
  }

  function ExecuteTransfer(st: State, from: Address, to: Address, id: nat): Result {
    if id !in st.invoices then Err(InvoiceNotFound)
    else if st.invoices[id].owner != from then Err(NotOwner)
    else Move(st, from, to, id)
  }

  function ExecuteTransferFrom(st: State, spender: Address, from: Address, to: Address, id: nat): Result {
    if id !in st.invoices then Err(InvoiceNotFound)
    else if id !in st.tokens then Err(NotTokenized)
    else if st.invoices[id].owner != from then Err(NotOwner)
    else if id !in st.approvals || st.approvals[id] != spender then Err(NotApproved)
    else Move(st, from, to, id)
  }

  function ExecuteUpdateStatus(st: State, id: nat, newStatus: Status): Result {
    if id !in st.invoices then Err(InvoiceNotFound)
    else if !TransitionAllowed(st.invoices[id].status, newStatus) then Err(InvalidTransition)
    else Ok(WithStatus(st, id, newStatus))
  }

  /** The admission checks of each entry point, in the order the contract makes them. */
  function Guard(st: State, call: Call, auth: set<Address>): Outcome<(), AC.AcError> {
    match call
    case Initialize(_, _, _) => Ok(())
    case Mint(owner, _, _) => Both(Initialized(st), OpenFor(st, owner, auth))
    case Fund(caller, _, _) =>
      Both(Initialized(st),
      Both(AC.RequireRole(st.access, AC.LiquidityManager, caller, auth), AC.RequireNotPaused(st.access)))
    case Approve(owner, _, _) => OpenFor(st, owner, auth)
    case Transfer(from, _, _) => OpenFor(st, from, auth)
    case TransferFrom(spender, _, _, _) => OpenFor(st, spender, auth)
    case UpdateStatus(caller, _, _) =>
      Both(Initialized(st), Both(AC.RequireAdmin(st.access, caller, auth), AC.RequireNotPaused(st.access)))
    case Administer(ac) => if ac.Initialize? then Trap else Ok(())
  }

  function ExecuteAccess(st: State, call: AC.Call, auth: set<Address>, ledger: nat): Result {
    match AC.Execute(st.access, AC.Invocation(call, auth, ledger))
    case Ok(access) => Ok(st.(access := access, counter := if call.Initialize? then 0 else st.counter))
    case Err(e) => Err(Access(e))
    case Trap => Trap
  }

  /** What an admitted call would commit. */
  function Body(st: State, inv: Invocation): Result {
    match inv.call
    case Initialize(signers, threshold, timelockLedgers) =>
      ExecuteAccess(st, AC.Initialize(signers, threshold, timelockLedgers), inv.auth, inv.ledger)
    case Mint(owner, amount, dueDate) => ExecuteMint(st, owner, amount, dueDate)
    case Fund(_, id, discountRate) => ExecuteFund(st, id, discountRate)
    case Approve(owner, spender, id) => ExecuteApprove(st, owner, spender, id)
    case Transfer(from, to, id) => ExecuteTransfer(st, from, to, id)
    case TransferFrom(spender, from, to, id) => ExecuteTransferFrom(st, spender, from, to, id)
    case UpdateStatus(_, id, newStatus) => ExecuteUpdateStatus(st, id, newStatus)
    case Administer(ac) => ExecuteAccess(st, ac, inv.auth, inv.ledger)
  }

  function Execute(st: State, inv: Invocation): Result {
    match Guard(st, inv.call, inv.auth)
    case Ok(_) => Body(st, inv)
    case Err(e) => Err(Access(e))
    case Trap => Trap
  }

  function Next(st: State, inv: Invocation): State { Committed(st, Execute(st, inv)) }

  // ---- the contract ---------------------------------------------------------------------

  class InvoiceContract {
    var access: AC.State
    var counter: nat
    var invoices: map<nat, Invoice>
    var tokens: map<nat, Token>
    var approvals: map<nat, Address>

    ghost function Model(): State reads this { State(access, counter, invoices, tokens, approvals) }

    constructor ()
      ensures Model() == EMPTY
    {
      access, counter, invoices, tokens, approvals := AC.EMPTY, 0, map[], map[], map[];
    }

    method Mint(owner: Address, amount: I128, dueDate: nat, auth: set<Address>, ledger: nat)
      returns (r: Outcome<nat, Error>)
      modifies this
      ensures var body := Execute(old(Model()), Invocation(Call.Mint(owner, amount, dueDate), auth, ledger));
              && Model() == Committed(old(Model()), body)
              && (match body
                  case Ok(st) => r == Ok(st.counter)
                  case Err(e) => r == Err(e)
                  case Trap => r == Trap)
    {
      if access.multisig.None? { return Err(Access(AC.NotInitialized)); }
      if access.paused { return Err(Access(AC.ContractPaused)); }
      if owner !in auth { return Trap; }
      if amount <= 0 { return Err(InvalidAmount); }
      var next := (counter + 1) % U64_COUNT;
      counter := next;
      invoices := invoices[next := Invoice(next, owner, amount, dueDate, Pending)];
      return Ok(next);
    }

    method Fund(caller: Address, id: nat, discountRate: nat, auth: set<Address>, ledger: nat)
      returns (r: Outcome<(), Error>)
      modifies this
      ensures var body := Execute(old(Model()), Invocation(Call.Fund(caller, id, discountRate), auth, ledger));
              Model() == Committed(old(Model()), body) && r == Verdict(body)
    {
      if access.multisig.None? { return Err(Access(AC.NotInitialized)); }
      match AC.RequireRole(access, AC.LiquidityManager, caller, auth) {
        case Err(e) => return Err(Access(e));
        case Trap => return Trap;
        case Ok(_) =>
      }
      if access.paused { return Err(Access(AC.ContractPaused)); }
      if discountRate >= MAX_DISCOUNT_BPS { return Err(InvalidDiscountRate); }
      if id !in invoices { return Err(InvoiceNotFound); }
      var invoice := invoices[id];
      if invoice.status != Pending { return Err(InvalidTransition); }
      invoice := invoice.(status := Funded);
      invoices := invoices[id := invoice];
      tokens := tokens[id := Token(id, invoice.amount, discountRate, invoice.dueDate)];
      return Ok(());
    }

    method Approve(owner: Address, spender: Address, id: nat, auth: set<Address>, ledger: nat)
      returns (r: Outcome<(), Error>)
      modifies this
      ensures var body := Execute(old(Model()), Invocation(Call.Approve(owner, spender, id), auth, ledger));
              Model() == Committed(old(Model()), body) && r == Verdict(body)
    {
      if access.paused { return Err(Access(AC.ContractPaused)); }
      if owner !in auth { return Trap; }
      if id !in invoices { return Err(InvoiceNotFound); }
      if id !in tokens { return Err(NotTokenized); }
      if invoices[id].owner != owner { return Err(NotOwner); }
      approvals := approvals[id := spender];
      return Ok(());
    }

    method DoTransfer(from: Address, to: Address, id: nat) returns (r: Outcome<(), Error>)
      requires id in invoices
      modifies this
      ensures var body := Move(old(Model()), from, to, id);
              Model() == Committed(old(Model()), body) && r == Verdict(body)
    {
      if from == to { return Err(SameOwnerTransfer); }
      if invoices[id].status == Settled { return Err(TransferAfterRepayment); }
      invoices := invoices[id := invoices[id].(owner := to)];
      approvals := approvals - {id};
      return Ok(());
    }

    method Transfer(from: Address, to: Address, id: nat, auth: set<Address>, ledger: nat)
      returns (r: Outcome<(), Error>)
      modifies this
      ensures var body := Execute(old(Model()), Invocation(Call.Transfer(from, to, id), auth, ledger));
              Model() == Committed(old(Model()), body) && r == Verdict(body)
    {
      if access.paused { return Err(Access(AC.ContractPaused)); }
      if from !in auth { return Trap; }
      if id !in invoices { return Err(InvoiceNotFound); }
      if invoices[id].owner != from { return Err(NotOwner); }
      r := DoTransfer(from, to, id);
    }

    method TransferFrom(spender: Address, from: Address, to: Address, id: nat, auth: set<Address>, ledger: nat)
      returns (r: Outcome<(), Error>)
      modifies this
      ensures var body := Execute(old(Model()), Invocation(Call.TransferFrom(spender, from, to, id), auth, ledger));
              Model() == Committed(old(Model()), body) && r == Verdict(body)
    {
      if access.paused { return Err(Access(AC.ContractPaused)); }
      if spender !in auth { return Trap; }
      if id !in invoices { return Err(InvoiceNotFound); }
      if id !in tokens { return Err(NotTokenized); }
      if invoices[id].owner != from { return Err(NotOwner); }
      if id !in approvals || approvals[id] != spender { return Err(NotApproved); }
      r := DoTransfer(from, to, id);
    }

    method UpdateStatus(caller: Address, id: nat, newStatus: Status, auth: set<Address>, ledger: nat)
      returns (r: Outcome<(), Error>)
      modifies this
      ensures var body := Execute(old(Model()), Invocation(Call.UpdateStatus(caller, id, newStatus), auth, ledger));
              Model() == Committed(old(Model()), body) && r == Verdict(body)
    {
      if access.multisig.None? { return Err(Access(AC.NotInitialized)); }
      match AC.RequireAdmin(access, caller, auth) {
        case Err(e) => return Err(Access(e));
        case Trap => return Trap;
        case Ok(_) =>
      }
      if access.paused { return Err(Access(AC.ContractPaused)); }
      if id !in invoices { return Err(InvoiceNotFound); }
      if !TransitionAllowed(invoices[id].status, newStatus) { return Err(InvalidTransition); }
      invoices := invoices[id := invoices[id].(status := newStatus)];
      return Ok(());
    }
  }

  // ---- every reachable state ----------------------------------------------------------------

  function Run(calls: seq<Invocation>): State {
    if calls == [] then EMPTY else Next(Run(calls[..|calls| - 1]), calls[|calls| - 1])
  }

  function Upto(calls: seq<Invocation>, k: nat): State
    requires k <= |calls|
  {
    Run(calls[..k])
  }

  predicate Succeeds(calls: seq<Invocation>, k: nat)
    requires k < |calls|
  {
    Execute(Upto(calls, k), calls[k]).Ok?
  }

  lemma UptoNext(calls: seq<Invocation>, k: nat)
    requires k < |calls|
    ensures Upto(calls, k + 1) == Next(Upto(calls, k), calls[k])
  {
    assert calls[..k + 1][..k] == calls[..k];
  }

  ghost predicate IdsDense(st: State) {
    forall id :: id in st.invoices <==> 1 <= id <= st.counter
  }

  ghost predicate InvoiceOk(st: State, id: nat)
    requires id in st.invoices
  {
    var invoice := st.invoices[id];
    && invoice.id == id && invoice.amount > 0
    && (invoice.status == Pending ==> id !in st.tokens)
    && (invoice.status == Funded || invoice.status == Settled ==> id in st.tokens)
    && (id in st.tokens ==>
          st.tokens[id].invoiceId == id && st.tokens[id].faceValue == invoice.amount
          && st.tokens[id].dueDate == invoice.dueDate && st.tokens[id].discountRate < MAX_DISCOUNT_BPS)
  }

  /** Ids are dense, tokens belong to invoices and match them, approvals need a token. */
  ghost predicate Inv(st: State) {
    && IdsDense(st)
    && (st.access.multisig.None? ==> st.counter == 0)
    && (forall id :: id in st.tokens ==> id in st.invoices)
    && (forall id :: id in st.approvals ==> id in st.tokens)
    && (forall id :: id in st.invoices ==> InvoiceOk(st, id))
  }

  lemma MintKeepsInv(st: State, owner: Address, amount: I128, dueDate: nat)
    requires Inv(st) && st.counter + 1 < U64_COUNT && st.access.multisig.Some?
        && ExecuteMint(st, owner, amount, dueDate).Ok?
    ensures Inv(ExecuteMint(st, owner, amount, dueDate).value)
    ensures ExecuteMint(st, owner, amount, dueDate).value.counter == st.counter + 1
  {
    assert (st.counter + 1) % U64_COUNT == st.counter + 1;
    var after := ExecuteMint(st, owner, amount, dueDate).value;
    forall id | id in after.invoices ensures InvoiceOk(after, id) {
      if id != st.counter + 1 { assert InvoiceOk(st, id); }
    }
  }

  lemma FundKeepsInv(st: State, id: nat, discountRate: nat)
    requires Inv(st) && ExecuteFund(st, id, discountRate).Ok?
    ensures Inv(ExecuteFund(st, id, discountRate).value)
  {
    var after := ExecuteFund(st, id, discountRate).value;
    forall other | other in after.invoices ensures InvoiceOk(after, other) {
      assert InvoiceOk(st, other);
    }
  }

  /** Rewriting the owner or an allowed status of one invoice, and dropping approvals. */
  lemma RewriteKeepsInv(st: State, id: nat, invoice: Invoice, approvals: map<nat, Address>)
    requires Inv(st) && id in st.invoices && forall k :: k in approvals ==> k in st.tokens
    requires var was := st.invoices[id];
             && invoice.id == was.id && invoice.amount == was.amount && invoice.dueDate == was.dueDate
             && (invoice.status == was.status || TransitionAllowed(was.status, invoice.status))
    ensures Inv(st.(invoices := st.invoices[id := invoice], approvals := approvals))
  {
    var after := st.(invoices := st.invoices[id := invoice], approvals := approvals);
    assert InvoiceOk(st, id);
    forall other | other in after.invoices ensures InvoiceOk(after, other) {
      assert InvoiceOk(st, other);
    }
  }

  lemma AccessKeepsInv(st: State, call: AC.Call, auth: set<Address>, ledger: nat)
    requires Inv(st) && ExecuteAccess(st, call, auth, ledger).Ok?
    ensures Inv(ExecuteAccess(st, call, auth, ledger).value)
    ensures ExecuteAccess(st, call, auth, ledger).value.counter == st.counter
  {
    var after := ExecuteAccess(st, call, auth, ledger).value;
    assert after.counter == st.counter;
    forall id | id in after.invoices ensures InvoiceOk(after, id) {
      assert InvoiceOk(st, id);
    }
  }

  lemma NextKeepsInv(st: State, inv: Invocation)
    requires Inv(st) && st.counter + 1 < U64_COUNT
    ensures Inv(Next(st, inv)) && st.counter <= Next(st, inv).counter <= st.counter + 1
    ensures Next(st, inv).counter == st.counter + 1 <==> inv.call.Mint? && Execute(st, inv).Ok?
  {
    if Execute(st, inv).Ok? {
      match inv.call
      case Initialize(signers, threshold, timelockLedgers) =>
        AccessKeepsInv(st, AC.Initialize(signers, threshold, timelockLedgers), inv.auth, inv.ledger);
      case Administer(ac) => AccessKeepsInv(st, ac, inv.auth, inv.ledger);
      case Mint(owner, amount, dueDate) => MintKeepsInv(st, owner, amount, dueDate);
      case Fund(_, id, discountRate) => FundKeepsInv(st, id, discountRate);
      case Approve(_, spender, id) => RewriteKeepsInv(st, id, st.invoices[id], st.approvals[id := spender]);
        assert st.invoices[id := st.invoices[id]] == st.invoices;
      case Transfer(_, to, id) =>
        RewriteKeepsInv(st, id, st.invoices[id].(owner := to), st.approvals - {id});
      case TransferFrom(_, _, to, id) =>
        RewriteKeepsInv(st, id, st.invoices[id].(owner := to), st.approvals - {id});
      case UpdateStatus(_, id, newStatus) =>
        RewriteKeepsInv(st, id, st.invoices[id].(status := newStatus), st.approvals);
    }
  }

  lemma {:induction false} RunKeepsInv(calls: seq<Invocation>)
    requires |calls| < U64_COUNT
    ensures Inv(Run(calls)) && Run(calls).counter <= |calls|
  {
    if calls != [] {
      RunKeepsInv(calls[..|calls| - 1]);
      NextKeepsInv(Run(calls[..|calls| - 1]), calls[|calls| - 1]);
    }
  }

  /** Over every run shorter than 2^64 calls: the invoices are exactly 1..counter, and every
      token matches its invoice's amount and due date. */
  lemma MintedIdsAreDense(calls: seq<Invocation>)
    requires |calls| < U64_COUNT
    ensures forall id :: id in Run(calls).invoices <==> 1 <= id <= Run(calls).counter
    ensures forall id :: id in Run(calls).tokens ==>
              && id in Run(calls).invoices
              && Run(calls).tokens[id].faceValue == Run(calls).invoices[id].amount
              && Run(calls).tokens[id].dueDate == Run(calls).invoices[id].dueDate
  {
    RunKeepsInv(calls);
    forall id | id in Run(calls).tokens ensures InvoiceOk(Run(calls), id) {}
  }

  /** A mint that succeeds next takes counter + 1, an id never used before. */
  lemma NextMintIsFresh(calls: seq<Invocation>, next: Invocation)
    requires |calls| + 1 < U64_COUNT && next.call.Mint? && Execute(Run(calls), next).Ok?
    ensures Execute(Run(calls), next).value.counter == Run(calls).counter + 1
    ensures Run(calls).counter + 1 !in Run(calls).invoices
  {
    RunKeepsInv(calls);
    NextKeepsInv(Run(calls), next);
  }

  // ---- tokens are minted by funding, once ------------------------------------------------------

  predicate FundedAt(calls: seq<Invocation>, k: nat, id: nat)
    requires k < |calls|
  {
    calls[k].call.Fund? && calls[k].call.id == id && Succeeds(calls, k)
  }

  lemma TokenStep(st: State, inv: Invocation, id: nat)
    requires id in st.invoices ==> InvoiceOk(st, id)
    ensures id in Next(st, inv).tokens <==>
              id in st.tokens || (inv.call.Fund? && inv.call.id == id && Execute(st, inv).Ok?)
    ensures id in st.tokens ==>
              id in Next(st, inv).tokens && Next(st, inv).tokens[id] == st.tokens[id]
  {
  }

  ghost predicate EverFunded(calls: seq<Invocation>, n: nat, id: nat)
    requires n <= |calls|
  {
    exists k :: 0 <= k < n && FundedAt(calls, k, id)
  }

  lemma EverFundedStep(calls: seq<Invocation>, n: nat, id: nat)
    requires n < |calls|
    ensures EverFunded(calls, n + 1, id) <==> EverFunded(calls, n, id) || FundedAt(calls, n, id)
  {
  }

  /** A token exists if and only if its invoice was funded at some point of the run. */
  lemma {:induction false} TokenIffFunded(calls: seq<Invocation>, n: nat, id: nat)
    requires n <= |calls| < U64_COUNT
    ensures id in Upto(calls, n).tokens <==> EverFunded(calls, n, id)
    decreases n
  {
    if n == 0 {
      assert calls[..0] == [];
    } else {
      TokenIffFunded(calls, n - 1, id);
      EverFundedStep(calls, n - 1, id);
      assert id in Upto(calls, n).tokens <==> id in Upto(calls, n - 1).tokens || FundedAt(calls, n - 1, id) by {
        RunKeepsInv(calls[..n - 1]);
        UptoNext(calls, n - 1);
        TokenStep(Upto(calls, n - 1), calls[n - 1], id);
      }
    }
  }

  // ---- approvals die with the ownership they were given in ----------------------------------------

  predicate MovesAt(calls: seq<Invocation>, k: nat, id: nat)
    requires k < |calls|
  {
    && Succeeds(calls, k)
    && (calls[k].call.Transfer? || calls[k].call.TransferFrom?) && calls[k].call.id == id
  }

  lemma NextIsBody(st: State, inv: Invocation)
    ensures Next(st, inv) == if Execute(st, inv).Ok? then Body(st, inv).value else st
    ensures Execute(st, inv).Ok? ==> Body(st, inv).Ok?
  {
  }

  lemma ApprovalBody(st: State, inv: Invocation, id: nat)
    requires IdsDense(st) && st.counter + 1 < U64_COUNT && Body(st, inv).Ok? && id in Body(st, inv).value.approvals
    requires id in st.approvals ==> id in st.invoices
    ensures var after := Body(st, inv).value;
            && id in st.invoices && id in after.invoices
            && after.invoices[id].owner == st.invoices[id].owner
            && !((inv.call.Transfer? || inv.call.TransferFrom?) && inv.call.id == id)
            && if inv.call.Approve? && inv.call.id == id
               then inv.call.owner == st.invoices[id].owner && after.approvals[id] == inv.call.spender
               else id in st.approvals && st.approvals[id] == after.approvals[id]
  {
  }

  lemma ApprovalStep(st: State, inv: Invocation, id: nat)
    requires IdsDense(st) && st.counter + 1 < U64_COUNT && id in Next(st, inv).approvals
    requires id in st.approvals ==> id in st.invoices
    ensures id in st.invoices && id in Next(st, inv).invoices
    ensures Next(st, inv).invoices[id].owner == st.invoices[id].owner
    ensures !(Execute(st, inv).Ok? && (inv.call.Transfer? || inv.call.TransferFrom?) && inv.call.id == id)
    ensures if Execute(st, inv).Ok? && inv.call.Approve? && inv.call.id == id
            then inv.call.owner == st.invoices[id].owner && Next(st, inv).approvals[id] == inv.call.spender
            else id in st.approvals && st.approvals[id] == Next(st, inv).approvals[id]
  {
    NextIsBody(st, inv);
    if Execute(st, inv).Ok? { ApprovalBody(st, inv, id); }
  }

  /** Every live approval was given by the present owner, for this spender, and the
      invoice has not changed hands since. */
  lemma {:induction false} ApprovalIsFresh(calls: seq<Invocation>, n: nat, id: nat) returns (k: nat)
    requires n <= |calls| < U64_COUNT - 1 && id in Upto(calls, n).approvals
    ensures k < n && Succeeds(calls, k) && calls[k].call.Approve? && calls[k].call.id == id
    ensures id in Upto(calls, n).invoices && calls[k].call.owner == Upto(calls, n).invoices[id].owner
    ensures calls[k].call.spender == Upto(calls, n).approvals[id]
    ensures forall j :: k < j < n ==> !MovesAt(calls, j, id)
    decreases n
  {
    assert calls[..0] == [];
    var before := Upto(calls, n - 1);
    UptoNext(calls, n - 1);
    assert IdsDense(before) && before.counter + 1 < U64_COUNT && (id in before.approvals ==> id in before.invoices) by {
      RunKeepsInv(calls[..n - 1]);
    }
    ApprovalStep(before, calls[n - 1], id);
    if Succeeds(calls, n - 1) && calls[n - 1].call.Approve? && calls[n - 1].call.id == id {
      k := n - 1;
    } else {
      k := ApprovalIsFresh(calls, n - 1, id);
    }
  }

  // ---- settled is final --------------------------------------------------------------------------

  /** The lifecycle order: Pending, then Funded, then Settled or Defaulted. */
  predicate NotBefore(from: Status, to: Status) {
    || from == to || from == Pending || (from == Funded && to != Pending)
  }

  lemma InvoiceBody(st: State, inv: Invocation, id: nat)
    requires IdsDense(st) && st.counter + 1 < U64_COUNT && id in st.invoices && Body(st, inv).Ok?
    ensures id in Body(st, inv).value.invoices
    ensures var before, after := st.invoices[id], Body(st, inv).value.invoices[id];
            && NotBefore(before.status, after.status)
            && after.amount == before.amount && after.dueDate == before.dueDate
            && (before.status == Settled ==> after == before)
  {
  }

  lemma InvoiceStep(st: State, inv: Invocation, id: nat)
    requires IdsDense(st) && st.counter + 1 < U64_COUNT && id in st.invoices
    ensures id in Next(st, inv).invoices
    ensures var before, after := st.invoices[id], Next(st, inv).invoices[id];
            && NotBefore(before.status, after.status)
            && after.amount == before.amount && after.dueDate == before.dueDate
            && (before.status == Settled ==> after == before)
  {
    NextIsBody(st, inv);
    if Execute(st, inv).Ok? { InvoiceBody(st, inv, id); }
  }

  /** The record of an invoice over the rest of a run: its terms never change, its status
      only moves forward, and once Settled neither owner nor status changes again. */
  lemma {:induction false} InvoiceOverTime(calls: seq<Invocation>, k: nat, n: nat, id: nat)
    requires k <= n <= |calls| < U64_COUNT - 1 && id in Upto(calls, k).invoices
    ensures id in Upto(calls, n).invoices
    ensures var was, now := Upto(calls, k).invoices[id], Upto(calls, n).invoices[id];
            && NotBefore(was.status, now.status)
            && now.amount == was.amount && now.dueDate == was.dueDate
            && (was.status == Settled ==> now == was)
    decreases n - k
  {
    if k < n {
      InvoiceOverTime(calls, k, n - 1, id);
      RunKeepsInv(calls[..n - 1]);
      UptoNext(calls, n - 1);
      InvoiceStep(Upto(calls, n - 1), calls[n - 1], id);
    }
  }
}
