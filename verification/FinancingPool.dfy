/** The liquidity pool: deposits, withdrawals and discounted advances. */
module FinancingPool {
  import opened Prelude
  import opened CheckedMath
  import opened MapSum
  import AC = AccessControl

  const BPS: int := 10_000
  const MAX_PRICE_AGE: nat := 100

  /** A discount below 100%, in basis points. */
  type DiscountBps = n: nat | n < 10_000

  datatype Error =
    | Access(ac: AC.AcError)
    | InvalidAmount | InvalidDiscount | InsufficientBalance | InsufficientLiquidity
    | AlreadyFunded | ReentrancyDetected | StalePriceFeed

  datatype Funding = Funding(faceValue: I128, advance: I128, recipient: Address)
  datatype Feed = Feed(price: I128, timestamp: nat)

  datatype State = State(access: AC.State, discountBps: DiscountBps, available: I128, balances: map<Address, I128>,
                         fundings: map<nat, Funding>, feed: Option<Feed>, locked: bool)

  const EMPTY := State(AC.EMPTY, 0, 0, map[], map[], None, false)

  datatype Call =
    | Initialize(signers: seq<Address>, threshold: nat, timelockLedgers: nat, discountBps: nat)
    | Deposit(from: Address, amount: I128)
    | Withdraw(to: Address, amount: I128)
    | FundInvoice(caller: Address, invoiceId: nat, faceValue: I128, recipient: Address)
    | SetPriceFeed(caller: Address, price: I128, timestamp: nat)
    | Administer(ac: AC.Call)

  datatype Invocation = Invocation(call: Call, auth: set<Address>, ledger: nat)

  type Result = Outcome<State, Error>

  // ---- pricing ------------------------------------------------------------------

  lemma KeptIsPositive(face: int, keepBps: int)
    requires keepBps >= 0
    ensures face > 0 ==> face * keepBps >= 0
  {
  }

  /** `face` less the discount, by the contract's checked steps. */
  function AdvanceFor(discountBps: DiscountBps, face: I128): (r: Outcome<I128, Error>)
    ensures r.Ok? && face > 0 ==> r.value >= 0
  {
    KeptIsPositive(face, BPS - discountBps);
    match CheckedMul(face, BPS - discountBps)
    case Ok(numerator) =>
      (match CheckedDiv(numerator, BPS)
       case Ok(advance) => Ok(advance)
       case _ => Err(InvalidAmount))
    case _ => Err(InvalidAmount)
  }

  function Quote(discountBps: DiscountBps, face: I128): Outcome<I128, Error>
  {
    if face <= 0 then Err(InvalidAmount) else AdvanceFor(discountBps, face)
  }

  function DiscountAmount(discountBps: DiscountBps, face: I128): Outcome<I128, Error>
  {
    match Quote(discountBps, face)
    case Ok(advance) =>
      if FitsI128(face - advance) then Ok(face - advance) else Err(InvalidAmount)
    case Err(e) => Err(e)
    case Trap => Trap
  }

  // ---- specification of the entry points --------------------------------------------

  function BalanceOf(st: State, a: Address): I128 { if a in st.balances then st.balances[a] else 0 }

  function Lift<T>(o: Outcome<T, AC.AcError>): Outcome<T, Error> {
    match o
    case Ok(v) => Ok(v)
    case Err(e) => Err(Access(e))
    case Trap => Trap
  }

  /** Initialized, not paused, and signed by the account that acts. */
  function OpenFor(st: State, a: Address, auth: set<Address>): Outcome<(), Error> {
    if st.access.multisig.None? then Err(Access(AC.NotInitialized))
    else if st.access.paused then Err(Access(AC.ContractPaused))
    else if a !in auth then Trap
    else Ok(())
  }

  function FreshFeed(st: State, now: nat): bool {
    st.feed.Some? && (if now >= st.feed.value.timestamp then now - st.feed.value.timestamp else 0) <= MAX_PRICE_AGE
  }

  /** Moves `delta` into (or out of) one claim and the un-deployed liquidity. */
  function Moved(st: State, a: Address, claim: I128, available: I128): State {
    st.(balances := st.balances[a := claim], available := available)
  }

  function ExecuteDeposit(st: State, from: Address, amount: I128): Result {
    if amount <= 0 then Err(InvalidAmount)
    else if st.locked then Err(ReentrancyDetected)
    else if !FitsI128(BalanceOf(st, from) + amount) || !FitsI128(st.available + amount) then Err(InvalidAmount)
    else Ok(Moved(st, from, BalanceOf(st, from) + amount, st.available + amount))
  }

  function ExecuteWithdraw(st: State, to: Address, amount: I128): Result {
    if amount <= 0 then Err(InvalidAmount)
    else if st.locked then Err(ReentrancyDetected)
    else if BalanceOf(st, to) < amount then Err(InsufficientBalance)
    else if st.available < amount then Err(InsufficientLiquidity)
    else Ok(Moved(st, to, BalanceOf(st, to) - amount, st.available - amount))
  }

  function ExecuteFund(st: State, invoiceId: nat, face: I128, recipient: Address, now: nat): Result
  {
    if face <= 0 then Err(InvalidAmount)
    else if invoiceId in st.fundings then Err(AlreadyFunded)
    else if !FreshFeed(st, now) then Err(StalePriceFeed)
    else
      match AdvanceFor(st.discountBps, face)
      case Err(e) => Err(e)
      case Trap => Trap
      case Ok(advance) =>
        if st.available < advance then Err(InsufficientLiquidity)
        else if !FitsI128(BalanceOf(st, recipient) + advance) then Err(InvalidAmount)
        else Ok(Moved(st, recipient, BalanceOf(st, recipient) + advance, st.available - advance)
                .(fundings := st.fundings[invoiceId := Funding(face, advance, recipient)]))
  }

  function After(guard: Outcome<(), Error>, body: Result): Result {
    match guard
    case Ok(_) => body
    case Err(e) => Err(e)
    case Trap => Trap
  }

  function Execute(st: State, inv: Invocation): Result
  {
    match inv.call
    case Initialize(signers, threshold, timelockLedgers, discountBps) =>
      if discountBps >= BPS then Err(InvalidDiscount)
      else
        (match AC.Execute(st.access, AC.Invocation(AC.Initialize(signers, threshold, timelockLedgers), inv.auth,
            inv.ledger))
         case Ok(access) => Ok(st.(access := access, discountBps := discountBps, available := 0, locked := false))
         case Err(e) => Err(Access(e))
         case Trap => Trap)
    case Deposit(from, amount) => After(OpenFor(st, from, inv.auth), ExecuteDeposit(st, from, amount))
    case Withdraw(to, amount) => After(OpenFor(st, to, inv.auth), ExecuteWithdraw(st, to, amount))
    case FundInvoice(caller, invoiceId, face, recipient) =>
      if st.access.multisig.None? then Err(Access(AC.NotInitialized))
      else
        After(Lift(AC.RequireRole(st.access, AC.LiquidityManager, caller, inv.auth)),
        After(Lift(AC.RequireNotPaused(st.access)), ExecuteFund(st, invoiceId, face, recipient, inv.ledger)))
    case SetPriceFeed(caller, price, timestamp) =>
      if st.access.multisig.None? then Err(Access(AC.NotInitialized))
      else After(Lift(AC.RequireAdmin(st.access, caller, inv.auth)), Ok(st.(feed := Some(Feed(price, timestamp)))))
    case Administer(call) =>
      if call.Initialize? then Trap
      else
        (match AC.Execute(st.access, AC.Invocation(call, inv.auth, inv.ledger))
         case Ok(access) => Ok(st.(access := access))
         case Err(e) => Err(Access(e))
         case Trap => Trap)
  }

  // ---- the contract --------------------------------------------------------------------

  class Pool {
    var access: AC.State
    var discountBps: DiscountBps
    var available: I128
    var balances: map<Address, I128>
    var fundings: map<nat, Funding>
    var feed: Option<Feed>
    var locked: bool

    ghost function Model(): State reads this {
      State(access, discountBps, available, balances, fundings, feed, locked)
    }

    constructor ()
      ensures Model() == EMPTY
    {
      access, discountBps, available, balances := AC.EMPTY, 0, 0, map[];
      fundings, feed, locked := map[], None, false;
    }

    function Balance(a: Address): I128 reads this { if a in balances then balances[a] else 0 }

    method Initialize(signers: seq<Address>, threshold: nat, timelockLedgers: nat, bps: nat,
                      auth: set<Address>, ledger: nat) returns (r: Outcome<(), Error>)
      modifies this
      ensures var body := Execute(old(Model()), Invocation(Call.Initialize(signers, threshold, timelockLedgers,
          bps), auth, ledger));
              Model() == Committed(old(Model()), body) && r == Verdict(body)
    {
      if bps >= BPS { return Err(InvalidDiscount); }
      var init := AC.Execute(access, AC.Invocation(AC.Initialize(signers, threshold, timelockLedgers), auth, ledger));
      match init {
        case Err(e) => return Err(Access(e));
        case Trap => return Trap;
        case Ok(configured) =>
          access := configured;
          discountBps := bps;
          available := 0;
          locked := false;
          return Ok(());
      }
    }

    method Deposit(from: Address, amount: I128, auth: set<Address>, ledger: nat) returns (r: Outcome<(), Error>)
      modifies this
      ensures var body := Execute(old(Model()), Invocation(Call.Deposit(from, amount), auth, ledger));
              Model() == Committed(old(Model()), body) && r == Verdict(body)
    {
      if access.multisig.None? { return Err(Access(AC.NotInitialized)); }
      if access.paused { return Err(Access(AC.ContractPaused)); }
      if from !in auth { return Trap; }
      if amount <= 0 { return Err(InvalidAmount); }
      if locked { return Err(ReentrancyDetected); }
      var claim := CheckedAdd(Balance(from), amount);
      if !claim.Ok? { return Err(InvalidAmount); }
      var liquidity := CheckedAdd(available, amount);
      if !liquidity.Ok? { return Err(InvalidAmount); }
      balances := balances[from := claim.value];
      available := liquidity.value;
      locked := true;
      // The token transfer happens here; the guard is released after it.
      locked := false;
      return Ok(());
    }

    method Withdraw(to: Address, amount: I128, auth: set<Address>, ledger: nat) returns (r: Outcome<(), Error>)
      modifies this
      ensures var body := Execute(old(Model()), Invocation(Call.Withdraw(to, amount), auth, ledger));
              Model() == Committed(old(Model()), body) && r == Verdict(body)
    {
      if access.multisig.None? { return Err(Access(AC.NotInitialized)); }
      if access.paused { return Err(Access(AC.ContractPaused)); }
      if to !in auth { return Trap; }
      if amount <= 0 { return Err(InvalidAmount); }
      if locked { return Err(ReentrancyDetected); }
      if Balance(to) < amount { return Err(InsufficientBalance); }
      if available < amount { return Err(InsufficientLiquidity); }
      var claim, liquidity := CheckedSub(Balance(to), amount), CheckedSub(available, amount);
      balances := balances[to := claim.value];
      available := liquidity.value;
      locked := true;
      locked := false;
      return Ok(());
    }

    method FundInvoice(caller: Address, invoiceId: nat, face: I128, recipient: Address,
                       auth: set<Address>, ledger: nat) returns (r: Outcome<I128, Error>)
      modifies this
      ensures var body := Execute(old(Model()), Invocation(Call.FundInvoice(caller, invoiceId, face, recipient),
          auth, ledger));
              && Model() == Committed(old(Model()), body)
              && (match body
                  case Ok(st) => invoiceId in st.fundings && r == Ok(st.fundings[invoiceId].advance)
                  case Err(e) => r == Err(e)
                  case Trap => r == Trap)
    {
      if access.multisig.None? { return Err(Access(AC.NotInitialized)); }
      match AC.RequireRole(access, AC.LiquidityManager, caller, auth) {
        case Err(e) => return Err(Access(e));
        case Trap => return Trap;
        case Ok(_) =>
      }
      if access.paused { return Err(Access(AC.ContractPaused)); }
      if face <= 0 { return Err(InvalidAmount); }
      if invoiceId in fundings { return Err(AlreadyFunded); }
      if feed.None? { return Err(StalePriceFeed); }
      var age := if ledger >= feed.value.timestamp then ledger - feed.value.timestamp else 0;
      if age > MAX_PRICE_AGE { return Err(StalePriceFeed); }
      var quoted := AdvanceFor(discountBps, face);
      match quoted {
        case Err(e) => return Err(e);
        case Trap => return Trap;
        case Ok(advance) =>
          if available < advance { return Err(InsufficientLiquidity); }
          AdvanceBounds(discountBps, face);
          var liquidity := CheckedSub(available, advance);
          var claim := CheckedAdd(Balance(recipient), advance);
          if !claim.Ok? { return Err(InvalidAmount); }
          available := liquidity.value;
          balances := balances[recipient := claim.value];
          fundings := fundings[invoiceId := Funding(face, advance, recipient)];
          return Ok(advance);
      }
    }

    method SetPriceFeed(caller: Address, price: I128, timestamp: nat, auth: set<Address>, ledger: nat)
      returns (r: Outcome<(), Error>)
      modifies this
      ensures var body := Execute(old(Model()), Invocation(Call.SetPriceFeed(caller, price, timestamp), auth, ledger));
              Model() == Committed(old(Model()), body) && r == Verdict(body)
    {
      if access.multisig.None? { return Err(Access(AC.NotInitialized)); }
      var admin := AC.RequireAdmin(access, caller, auth);
      match admin {
        case Err(e) => return Err(Access(e));
        case Trap => return Trap;
        case Ok(_) => feed := Some(Feed(price, timestamp)); return Ok(());
      }
    }
  }

  // ---- every reachable state ------------------------------------------------------------

  function Run(calls: seq<Invocation>): State {
    if calls == [] then EMPTY
    else
      var st := Run(calls[..|calls| - 1]);
      Committed(st, Execute(st, calls[|calls| - 1]))
  }

  /** What successful calls moved: LP capital in, claims out, advances granted. */
  datatype Flows = Flows(deposited: int, withdrawn: int, advanced: int)

  function CallFlow(st: State, inv: Invocation): Flows {
    var body := Execute(st, inv);
    if !body.Ok? then Flows(0, 0, 0)
    else match inv.call
      case Deposit(_, amount) => Flows(amount, 0, 0)
      case Withdraw(_, amount) => Flows(0, amount, 0)
      case FundInvoice(_, invoiceId, _, _) =>
        Flows(0, 0, if invoiceId in body.value.fundings then body.value.fundings[invoiceId].advance else 0)
      case _ => Flows(0, 0, 0)
  }

  function FlowsOf(calls: seq<Invocation>): Flows {
    if calls == [] then Flows(0, 0, 0)
    else
      var front := calls[..|calls| - 1];
      Plus(FlowsOf(front), CallFlow(Run(front), calls[|calls| - 1]))
  }

  function Advances(fundings: map<nat, Funding>): map<nat, int> {
    map id | id in fundings :: fundings[id].advance
  }

  /** The books balance: un-deployed liquidity is what came in less what went out or was
      advanced, and the claims exceed it by twice the advances - an advance is credited to
      its recipient while the LP's claim stands. */
  ghost predicate Balanced(st: State, f: Flows) {
    && st.available == f.deposited - f.withdrawn - f.advanced
    && Sum(st.balances) == st.available + 2 * f.advanced
    && Sum(Advances(st.fundings)) == f.advanced
  }

  ghost predicate NonNegative(balances: map<Address, I128>) {
    forall a :: a in balances ==> 0 <= balances[a]
  }

  ghost predicate InRange(fundings: map<nat, Funding>) {
    forall id :: id in fundings ==> 0 <= fundings[id].advance <= fundings[id].faceValue && 0 < fundings[id].faceValue
  }

  ghost predicate Sound(st: State) {
    && 0 <= st.available && !st.locked
    && NonNegative(st.balances) && InRange(st.fundings)
    && (st.access.multisig.None? ==> st.available == 0)
  }

  lemma ClaimUpdate(balances: map<Address, I128>, a: Address, claim: I128)
    requires NonNegative(balances) && 0 <= claim
    ensures NonNegative(balances[a := claim])
    ensures Sum(balances[a := claim]) == Sum(balances) - ValueAt(balances, a) + claim
  {
    SumUpdate(balances, a, claim);
  }

  lemma DepositKeepsBooks(st: State, from: Address, amount: I128, f: Flows)
    requires Sound(st) && Balanced(st, f) && st.access.multisig.Some? && ExecuteDeposit(st, from, amount).Ok?
    ensures Sound(ExecuteDeposit(st, from, amount).value)
    ensures Balanced(ExecuteDeposit(st, from, amount).value, f.(deposited := f.deposited + amount))
  {
    ClaimUpdate(st.balances, from, BalanceOf(st, from) + amount);
  }

  lemma WithdrawKeepsBooks(st: State, to: Address, amount: I128, f: Flows)
    requires Sound(st) && Balanced(st, f) && st.access.multisig.Some? && ExecuteWithdraw(st, to, amount).Ok?
    ensures Sound(ExecuteWithdraw(st, to, amount).value)
    ensures Balanced(ExecuteWithdraw(st, to, amount).value, f.(withdrawn := f.withdrawn + amount))
  {
    ClaimUpdate(st.balances, to, BalanceOf(st, to) - amount);
  }

  lemma AdvancesUpdate(fundings: map<nat, Funding>, id: nat, funding: Funding)
    requires id !in fundings
    ensures Sum(Advances(fundings[id := funding])) == Sum(Advances(fundings)) + funding.advance
  {
    SumUpdate(Advances(fundings), id, funding.advance);
    assert Advances(fundings[id := funding]) == Advances(fundings)[id := funding.advance];
  }

  /** A granted advance: fresh invoice, within the liquidity, and the floor of the quote. */
  lemma FundEffect(st: State, invoiceId: nat, face: I128, recipient: Address, now: nat) returns (advance: I128)
    requires ExecuteFund(st, invoiceId, face, recipient, now).Ok?
    ensures 0 < face && 0 <= advance <= face && advance <= st.available && invoiceId !in st.fundings
    ensures FitsI128(BalanceOf(st, recipient) + advance) && FitsI128(st.available - advance)
    ensures ExecuteFund(st, invoiceId, face, recipient, now).value
         == Moved(st, recipient, BalanceOf(st, recipient) + advance, st.available - advance)
            .(fundings := st.fundings[invoiceId := Funding(face, advance, recipient)])
  {
    advance := AdvanceFor(st.discountBps, face).value;
    AdvanceBounds(st.discountBps, face);
  }

  lemma FundKeepsBooks(st: State, id: nat, face: I128, recipient: Address, advance: I128, f: Flows)
    requires Sound(st) && Balanced(st, f) && st.access.multisig.Some? && id !in st.fundings
    requires 0 < face && 0 <= advance <= face && advance <= st.available
    requires FitsI128(BalanceOf(st, recipient) + advance) && FitsI128(st.available - advance)
    ensures var after := Moved(st, recipient, BalanceOf(st, recipient) + advance, st.available - advance)
                         .(fundings := st.fundings[id := Funding(face, advance, recipient)]);
            Sound(after) && Balanced(after, f.(advanced := f.advanced + advance))
  {
    ClaimUpdate(st.balances, recipient, BalanceOf(st, recipient) + advance);
    AdvancesUpdate(st.fundings, id, Funding(face, advance, recipient));
  }

  function Plus(f: Flows, g: Flows): Flows {
    Flows(f.deposited + g.deposited, f.withdrawn + g.withdrawn, f.advanced + g.advanced)
  }

  lemma CallKeepsBooks(st: State, inv: Invocation, f: Flows)
    requires Sound(st) && Balanced(st, f)
    ensures Sound(Committed(st, Execute(st, inv)))
    ensures Balanced(Committed(st, Execute(st, inv)), Plus(f, CallFlow(st, inv)))
  {
    if Execute(st, inv).Ok? {
      match inv.call
      case Deposit(from, amount) => DepositKeepsBooks(st, from, amount, f);
      case Withdraw(to, amount) => WithdrawKeepsBooks(st, to, amount, f);
      case FundInvoice(_, _, _, _) => FundCallKeepsBooks(st, inv, f);
      case _ => OtherKeepsBooks(st, inv, f);
    }
  }

  lemma FundCallKeepsBooks(st: State, inv: Invocation, f: Flows)
    requires Sound(st) && Balanced(st, f) && inv.call.FundInvoice? && Execute(st, inv).Ok?
    ensures Sound(Execute(st, inv).value)
    ensures Balanced(Execute(st, inv).value, Plus(f, CallFlow(st, inv)))
  {
    var FundInvoice(_, invoiceId, face, recipient) := inv.call;
    var advance := FundEffect(st, invoiceId, face, recipient, inv.ledger);
    FundKeepsBooks(st, invoiceId, face, recipient, advance, f);
  }

  lemma OtherKeepsBooks(st: State, inv: Invocation, f: Flows)
    requires Sound(st) && Balanced(st, f) && Execute(st, inv).Ok?
    requires inv.call.Initialize? || inv.call.SetPriceFeed? || inv.call.Administer?
    ensures Sound(Execute(st, inv).value) && Balanced(Execute(st, inv).value, f)
  {
  }

  /** Conservation, over every run of calls by anyone. */
  lemma {:induction false} PoolConservation(calls: seq<Invocation>)
    ensures Sound(Run(calls)) && Balanced(Run(calls), FlowsOf(calls))
  {
    if calls == [] {
    } else {
      PoolConservation(calls[..|calls| - 1]);
      CallKeepsBooks(Run(calls[..|calls| - 1]), calls[|calls| - 1], FlowsOf(calls[..|calls| - 1]));
    }
  }

  /** A funding record is written once and never again. */
  lemma FundingStep(st: State, inv: Invocation, id: nat)
    requires id in st.fundings
    ensures var after := Committed(st, Execute(st, inv));
            id in after.fundings && after.fundings[id] == st.fundings[id]
    ensures inv.call.FundInvoice? && inv.call.invoiceId == id ==> !Execute(st, inv).Ok?
  {
  }

  lemma FundingWritten(st: State, inv: Invocation) returns (record: Funding)
    requires inv.call.FundInvoice? && Execute(st, inv).Ok?
    ensures HasFunding(Execute(st, inv).value, inv.call.invoiceId, record)
    ensures record.faceValue == inv.call.faceValue && record.recipient == inv.call.recipient
  {
    var advance := FundEffect(st, inv.call.invoiceId, inv.call.faceValue, inv.call.recipient, inv.ledger);
    record := Funding(inv.call.faceValue, advance, inv.call.recipient);
  }

  predicate HasFunding(st: State, id: nat, record: Funding) { id in st.fundings && st.fundings[id] == record }

  lemma {:induction false} FundingsStay(calls: seq<Invocation>, k: nat, id: nat, record: Funding)
    requires k <= |calls| && HasFunding(Run(calls[..k]), id, record)
    ensures HasFunding(Run(calls), id, record)
  {
    if k < |calls| {
      var front := calls[..|calls| - 1];
      assert front[..k] == calls[..k];
      FundingsStay(front, k, id, record);
      FundingStep(Run(front), calls[|calls| - 1], id);
    } else {
      assert calls[..k] == calls;
    }
  }

  predicate Funds(calls: seq<Invocation>, k: nat)
    requires k < |calls|
  {
    calls[k].call.FundInvoice? && Execute(Run(calls[..k]), calls[k]).Ok?
  }

  /** Each invoice is funded at most once: after a call that funds an invoice its record
      stays as it is for the rest of the run, and no later call funds that invoice again. */
  lemma FundedAtMostOnce(calls: seq<Invocation>, i: nat) returns (record: Funding)
    requires i < |calls| && Funds(calls, i)
    ensures record.faceValue == calls[i].call.faceValue && record.recipient == calls[i].call.recipient
    ensures forall k :: i < k <= |calls| ==> HasFunding(Run(calls[..k]), calls[i].call.invoiceId, record)
    ensures forall j :: i < j < |calls| && Funds(calls, j) ==> calls[j].call.invoiceId != calls[i].call.invoiceId
  {
    var id := calls[i].call.invoiceId;
    record := FundingWritten(Run(calls[..i]), calls[i]);
    assert calls[..i + 1][..i] == calls[..i];
    forall k | i < k <= |calls| ensures HasFunding(Run(calls[..k]), id, record) {
      assert calls[..k][..i + 1] == calls[..i + 1];
      FundingsStay(calls[..k], i + 1, id, record);
    }
    forall j | i < j < |calls| && Funds(calls, j) ensures calls[j].call.invoiceId != id {
      assert HasFunding(Run(calls[..j]), id, record);
      FundingStep(Run(calls[..j]), calls[j], id);
    }
  }

  // ---- rounding ---------------------------------------------------------------------------

  /** The exact advance of a quote that fits: the floor of the discounted face value. */
  function Floored(face: int, keepBps: int): int { face * keepBps / BPS }

  /** A quote succeeds exactly when the scaled face value fits, and is its floor. */
  lemma QuoteExact(discountBps: DiscountBps, face: I128)
    requires face > 0
    ensures Quote(discountBps, face).Ok? <==> face * (BPS - discountBps) <= I128_MAX
    ensures Quote(discountBps, face).Ok? ==> Quote(discountBps, face).value == Floored(face, BPS - discountBps)
    ensures !Quote(discountBps, face).Trap?
  {
    var product := face * (BPS - discountBps);
    assert product > 0;
    assert CheckedMul(face, BPS - discountBps) == if product <= I128_MAX then Ok(product) else Err(Overflow);
  }

  lemma AdvanceBounds(discountBps: DiscountBps, face: I128)
    requires face > 0
    ensures AdvanceFor(discountBps, face).Ok? ==> 0 <= AdvanceFor(discountBps, face).value <= face
  {
    QuoteExact(discountBps, face);
    if AdvanceFor(discountBps, face).Ok? { KeepAtMostFace(face, BPS - discountBps); }
  }

  lemma KeepAtMostFace(face: int, keepBps: int)
    requires face > 0 && 0 < keepBps <= BPS
    ensures 0 <= Floored(face, keepBps) <= face
  {
    assert 0 < face * keepBps <= face * BPS;
  }

  /** Advance and discount split the face value; the discount is the exact discount
      rounded up, so rounding never favours the recipient. */
  lemma DiscountRoundsUp(discountBps: DiscountBps, face: I128)
    requires face > 0
    requires Quote(discountBps, face).Ok?
    ensures var advance, discount := Quote(discountBps, face).value, DiscountAmount(discountBps, face);
            && discount.Ok? && advance + discount.value == face
            && discount.value == (face * discountBps + BPS - 1) / BPS
            && 0 <= discount.value <= face
  {
    QuoteExact(discountBps, face);
    AdvanceBounds(discountBps, face);
    CeilOfRest(face, discountBps);
  }

  lemma CeilOfRest(face: int, discountBps: DiscountBps)
    requires face > 0
    ensures face - Floored(face, BPS - discountBps) == (face * discountBps + BPS - 1) / BPS
  {
    var kept, lost := face * (BPS - discountBps), face * discountBps;
    assert kept + lost == face * BPS;
  }

  /** A larger face value never gets a smaller advance. */
  lemma AdvanceMonotone(discountBps: DiscountBps, a: I128, b: I128)
    requires 0 < a <= b
    requires Quote(discountBps, b).Ok?
    ensures Quote(discountBps, a).Ok? && Quote(discountBps, a).value <= Quote(discountBps, b).value
  {
    QuoteExact(discountBps, a);
    QuoteExact(discountBps, b);
    assert a * (BPS - discountBps) <= b * (BPS - discountBps);
  }

  function Total(parts: seq<int>): int {
    if parts == [] then 0 else Total(parts[..|parts| - 1]) + parts[|parts| - 1]
  }

  /** What the parts get when each is quoted on its own. */
  function TotalAdvance(discountBps: DiscountBps, parts: seq<int>): int
  {
    if parts == [] then 0
    else TotalAdvance(discountBps, parts[..|parts| - 1]) + Floored(parts[|parts| - 1], BPS - discountBps)
  }

  lemma FloorSplit(a: int, b: int, keepBps: int)
    ensures Floored(a, keepBps) + Floored(b, keepBps) <= Floored(a + b, keepBps)
         <= Floored(a, keepBps) + Floored(b, keepBps) + 1
  {
    var x, y := a * keepBps, b * keepBps;
    assert (a + b) * keepBps == x + y;
  }

  lemma {:induction false} SplitBounds(discountBps: DiscountBps, parts: seq<int>)
    requires parts != []
    ensures var whole := Floored(Total(parts), BPS - discountBps);
            TotalAdvance(discountBps, parts) <= whole <= TotalAdvance(discountBps, parts) + |parts| - 1
  {
    var front, last := parts[..|parts| - 1], parts[|parts| - 1];
    if front == [] {
      assert Total(front) == 0 && TotalAdvance(discountBps, front) == 0;
    } else {
      SplitBounds(discountBps, front);
      FloorSplit(Total(front), last, BPS - discountBps);
    }
  }

  lemma {:induction false} PartBelowTotal(parts: seq<int>, i: nat)
    requires i < |parts| && forall j :: 0 <= j < |parts| ==> parts[j] > 0
    ensures parts[i] <= Total(parts)
  {
    var front := parts[..|parts| - 1];
    if i < |front| {
      PartBelowTotal(front, i);
    } else if front != [] {
      PartBelowTotal(front, 0);
    }
  }

  /** Splitting an invoice into n positive parts: every part can be quoted when the whole
      can, the parts never get more in total, and they lose at most n - 1 units. */
  lemma SplittingNeverGains(discountBps: DiscountBps, parts: seq<int>)
    requires parts != [] && FitsI128(Total(parts))
    requires forall i :: 0 <= i < |parts| ==> parts[i] > 0
    requires Total(parts) > 0 && Quote(discountBps, Total(parts)).Ok?
    ensures forall i :: 0 <= i < |parts| ==>
              FitsI128(parts[i]) && Quote(discountBps, parts[i]) == Ok(Floored(parts[i], BPS - discountBps))
    ensures TotalAdvance(discountBps, parts) <= Quote(discountBps, Total(parts)).value
         <= TotalAdvance(discountBps, parts) + |parts| - 1
  {
    QuoteExact(discountBps, Total(parts));
    SplitBounds(discountBps, parts);
    forall i | 0 <= i < |parts|
      ensures FitsI128(parts[i]) && Quote(discountBps, parts[i]) == Ok(Floored(parts[i], BPS - discountBps))
    {
      PartBelowTotal(parts, i);
      AdvanceMonotone(discountBps, parts[i], Total(parts));
      QuoteExact(discountBps, parts[i]);
    }
  }
}
