/** The pool against its history: every account's claim, the liquidity, the funding records
    and every answer, computed from the log of accepted calls alone. */
module FinancingPoolHistory {
  import opened Prelude
  import opened FinancingPool
  import AC = AccessControl
  import Runs = AccessControlRuns

  // ---- the log of accepted calls ------------------------------------------------

  /** The calls of a run that did not fail. */
  ghost function Accepted(calls: seq<Invocation>): seq<Invocation> {
    if calls == [] then []
    else
      var front, last := calls[..|calls| - 1], calls[|calls| - 1];
      Accepted(front) + if Execute(Run(front), last).Ok? then [last] else []
  }

  /** The part of the log that concerns the access-control block. */
  ghost function AccessCalls(log: seq<Invocation>): seq<AC.Invocation> {
    if log == [] then []
    else
      var front, last := AccessCalls(log[..|log| - 1]), log[|log| - 1];
      match last.call
      case Initialize(signers, threshold, timelockLedgers, _) =>
        front + [AC.Invocation(AC.Initialize(signers, threshold, timelockLedgers), last.auth, last.ledger)]
      case Administer(call) => front + [AC.Invocation(call, last.auth, last.ledger)]
      case _ => front
  }

  ghost function AccessIn(log: seq<Invocation>): AC.State { Runs.Run(AC.EMPTY, AccessCalls(log)) }

  ghost function DiscountIn(log: seq<Invocation>): nat {
    if log == [] then 0
    else
      match log[|log| - 1].call
      case Initialize(_, _, _, discountBps) => discountBps
      case _ => DiscountIn(log[..|log| - 1])
  }

  ghost function FeedIn(log: seq<Invocation>): Option<Feed> {
    if log == [] then None
    else
      match log[|log| - 1].call
      case SetPriceFeed(_, price, timestamp) => Some(Feed(price, timestamp))
      case _ => FeedIn(log[..|log| - 1])
  }

  /** The advance on `face` under the discount of the log: the floor of the discounted value. */
  ghost function AdvanceIn(log: seq<Invocation>, face: int): int { face * (10_000 - DiscountIn(log)) / 10_000 }

  /** What an account deposited. */
  ghost function Deposited(log: seq<Invocation>, a: Address): int {
    if log == [] then 0
    else
      var call := log[|log| - 1].call;
      Deposited(log[..|log| - 1], a) + if call.Deposit? && call.from == a then call.amount else 0
  }

  /** What an account withdrew. */
  ghost function Withdrawn(log: seq<Invocation>, a: Address): int {
    if log == [] then 0
    else
      var call := log[|log| - 1].call;
      Withdrawn(log[..|log| - 1], a) + if call.Withdraw? && call.to == a then call.amount else 0
  }

  /** What an account was advanced, each time under the discount then in force. */
  ghost function Advanced(log: seq<Invocation>, a: Address): int {
    if log == [] then 0
    else
      var front, call := log[..|log| - 1], log[|log| - 1].call;
      Advanced(front, a) + if call.FundInvoice? && call.recipient == a then AdvanceIn(front, call.faceValue) else 0
  }

  ghost function ClaimIn(log: seq<Invocation>, a: Address): int {
    Deposited(log, a) - Withdrawn(log, a) + Advanced(log, a)
  }

  /** Everybody's deposits less everybody's withdrawals and advances. */
  ghost function LiquidityIn(log: seq<Invocation>): int {
    if log == [] then 0 else LiquidityIn(log[..|log| - 1]) + Inflow(log[..|log| - 1], log[|log| - 1].call)
  }

  ghost function Inflow(before: seq<Invocation>, call: Call): int {
    match call
    case Deposit(_, amount) => amount
    case Withdraw(_, amount) => 0 - amount
    case FundInvoice(_, _, face, _) => -AdvanceIn(before, face)
    case _ => 0
  }

  ghost function FundingIn(log: seq<Invocation>, id: nat): Option<Funding> {
    if log == [] then None
    else
      var front := log[..|log| - 1];
      match log[|log| - 1].call
      case FundInvoice(_, invoiceId, face, recipient) =>
        if invoiceId == id && FitsI128(AdvanceIn(front, face))
        then Some(Funding(face, AdvanceIn(front, face), recipient))
        else FundingIn(front, id)
      case _ => FundingIn(front, id)
  }

  // ---- the state is the log --------------------------------------------------------

  ghost predicate ClaimsAgree(st: State, log: seq<Invocation>) {
    forall a: Address :: ClaimIn(log, a) == BalanceOf(st, a)
  }

  ghost predicate FundingsAgree(st: State, log: seq<Invocation>) {
    forall id: nat :: FundingIn(log, id) == if id in st.fundings then Some(st.fundings[id]) else None
  }

  ghost predicate SettingsAgree(st: State, log: seq<Invocation>) {
    && st.access == AccessIn(log) && st.discountBps == DiscountIn(log) && st.feed == FeedIn(log)
  }

  ghost predicate Agrees(st: State, log: seq<Invocation>) {
    && SettingsAgree(st, log) && st.available == LiquidityIn(log)
    && ClaimsAgree(st, log) && FundingsAgree(st, log)
  }

  lemma AccessStep(log: seq<Invocation>, inv: Invocation)
    ensures AccessIn(log + [inv])
         == match inv.call
            case Initialize(signers, threshold, timelockLedgers, _) =>
              AC.Next(AccessIn(log), AC.Invocation(AC.Initialize(signers, threshold, timelockLedgers), inv.auth,
                                                   inv.ledger))
            case Administer(call) => AC.Next(AccessIn(log), AC.Invocation(call, inv.auth, inv.ledger))
            case _ => AccessIn(log)
  {
    assert (log + [inv])[..|log|] == log;
    var more := AccessCalls(log + [inv]);
    if inv.call.Initialize? || inv.call.Administer? {
      assert more[..|more| - 1] == AccessCalls(log);
    }
  }

  lemma SettingsStep(st: State, log: seq<Invocation>, inv: Invocation)
    requires SettingsAgree(st, log) && Execute(st, inv).Ok?
    ensures SettingsAgree(Execute(st, inv).value, log + [inv])
  {
    assert (log + [inv])[..|log|] == log;
    AccessStep(log, inv);
    if inv.call.FundInvoice? {
      var advance := FundEffect(st, inv.call.invoiceId, inv.call.faceValue, inv.call.recipient, inv.ledger);
    }
  }

  lemma AdvanceAgrees(st: State, log: seq<Invocation>, face: I128)
    requires st.discountBps == DiscountIn(log) && face > 0
    ensures var quoted := AdvanceFor(st.discountBps, face);
            && !quoted.Trap?
            && (quoted.Ok? <==> face * (10_000 - DiscountIn(log)) <= I128_MAX)
            && (quoted.Ok? ==> quoted.value == AdvanceIn(log, face))
            && (quoted.Err? ==> quoted.error == InvalidAmount)
  {
    QuoteExact(st.discountBps, face);
  }

  /** What an accepted funding does, in terms of the log. */
  lemma FundAgrees(st: State, log: seq<Invocation>, inv: Invocation) returns (advance: I128)
    requires st.discountBps == DiscountIn(log) && inv.call.FundInvoice? && Execute(st, inv).Ok?
    ensures advance == AdvanceIn(log, inv.call.faceValue)
    ensures FitsI128(BalanceOf(st, inv.call.recipient) + advance) && FitsI128(st.available - advance)
    ensures var FundInvoice(_, id, face, recipient) := inv.call;
            && id !in st.fundings
            && Execute(st, inv).value
               == Moved(st, recipient, BalanceOf(st, recipient) + advance, st.available - advance)
                  .(fundings := st.fundings[id := Funding(face, advance, recipient)])
  {
    advance := FundEffect(st, inv.call.invoiceId, inv.call.faceValue, inv.call.recipient, inv.ledger);
    AdvanceAgrees(st, log, inv.call.faceValue);
  }

  /** What one call adds to the claim of an account. */
  ghost function Credit(before: seq<Invocation>, call: Call, a: Address): int {
    match call
    case Deposit(from, amount) => if from == a then amount else 0
    case Withdraw(to, amount) => if to == a then 0 - amount else 0
    case FundInvoice(_, _, face, recipient) => if recipient == a then AdvanceIn(before, face) else 0
    case _ => 0
  }

  lemma LogSnoc(log: seq<Invocation>, inv: Invocation, a: Address)
    ensures ClaimIn(log + [inv], a) == ClaimIn(log, a) + Credit(log, inv.call, a)
    ensures LiquidityIn(log + [inv]) == LiquidityIn(log) + Inflow(log, inv.call)
  {
    assert (log + [inv])[..|log|] == log;
  }

  /** What a call does to the claims and the liquidity is what the log says it does. */
  ghost predicate Moves(st: State, log: seq<Invocation>, call: Call, after: State) {
    && after.available == st.available + Inflow(log, call)
    && forall a: Address :: BalanceOf(after, a) == BalanceOf(st, a) + Credit(log, call, a)
  }

  lemma TransferMoves(st: State, log: seq<Invocation>, inv: Invocation)
    requires Sound(st) && Execute(st, inv).Ok? && (inv.call.Deposit? || inv.call.Withdraw?)
    ensures Moves(st, log, inv.call, Execute(st, inv).value)
    ensures Execute(st, inv).value.fundings == st.fundings
  {
  }

  lemma FundMoves(st: State, log: seq<Invocation>, inv: Invocation)
    requires st.discountBps == DiscountIn(log) && inv.call.FundInvoice? && Execute(st, inv).Ok?
    ensures Moves(st, log, inv.call, Execute(st, inv).value)
  {
    var advance := FundAgrees(st, log, inv);
  }

  lemma OtherMoves(st: State, log: seq<Invocation>, inv: Invocation)
    requires Sound(st) && Execute(st, inv).Ok?
    requires inv.call.Initialize? || inv.call.SetPriceFeed? || inv.call.Administer?
    ensures Moves(st, log, inv.call, Execute(st, inv).value)
    ensures Execute(st, inv).value.fundings == st.fundings
  {
    if inv.call.Initialize? { InitializedOnce(st, inv); }
  }

  lemma MovesAgree(st: State, log: seq<Invocation>, inv: Invocation, after: State)
    requires ClaimsAgree(st, log) && st.available == LiquidityIn(log) && Moves(st, log, inv.call, after)
    ensures ClaimsAgree(after, log + [inv]) && after.available == LiquidityIn(log + [inv])
  {
    LogSnoc(log, inv, 0);
    forall a: Address ensures ClaimIn(log + [inv], a) == BalanceOf(after, a) {
      assert BalanceOf(after, a) == BalanceOf(st, a) + Credit(log, inv.call, a);
      assert ClaimIn(log, a) == BalanceOf(st, a);
      LogSnoc(log, inv, a);
    }
  }

  lemma FundingWrites(st: State, log: seq<Invocation>, inv: Invocation)
    requires Execute(st, inv).Ok? && inv.call.FundInvoice?
    requires st.discountBps == DiscountIn(log) && FundingsAgree(st, log)
    ensures FundingsAgree(Execute(st, inv).value, log + [inv])
  {
    assert (log + [inv])[..|log|] == log;
    var advance := FundAgrees(st, log, inv);
    var after := Execute(st, inv).value.fundings;
    forall id: nat
      ensures FundingIn(log + [inv], id) == if id in after then Some(after[id]) else None
    {
      assert FundingIn(log, id) == if id in st.fundings then Some(st.fundings[id]) else None;
    }
  }

  lemma FundingsStay(st: State, log: seq<Invocation>, inv: Invocation, after: State)
    requires !inv.call.FundInvoice? && FundingsAgree(st, log) && after.fundings == st.fundings
    ensures FundingsAgree(after, log + [inv])
  {
    assert (log + [inv])[..|log|] == log;
  }

  lemma MoneyStep(st: State, log: seq<Invocation>, inv: Invocation)
    requires Sound(st) && Agrees(st, log) && Execute(st, inv).Ok?
    ensures var after := Execute(st, inv).value;
            && ClaimsAgree(after, log + [inv]) && after.available == LiquidityIn(log + [inv])
            && FundingsAgree(after, log + [inv])
  {
    var after := Execute(st, inv).value;
    if inv.call.FundInvoice? {
      FundMoves(st, log, inv);
      FundingWrites(st, log, inv);
    } else {
      if inv.call.Deposit? || inv.call.Withdraw? {
        TransferMoves(st, log, inv);
      } else {
        OtherMoves(st, log, inv);
      }
      FundingsStay(st, log, inv, after);
    }
    MovesAgree(st, log, inv, after);
  }

  lemma InitializedOnce(st: State, inv: Invocation)
    requires inv.call.Initialize? && Execute(st, inv).Ok?
    ensures st.access.multisig.None?
  {
  }

  /** Everything the pool stores is determined by the calls it accepted: each account's claim
      is what it deposited, less what it withdrew, plus what it was advanced; the
      liquidity, the discount, the feed and the funding records follow the log too, and
      the access-control block is in the state its own part of the log leads to. */
  lemma {:induction false} StateIsTheLog(calls: seq<Invocation>)
    ensures Agrees(Run(calls), Accepted(calls))
  {
    if calls != [] {
      var front, last := calls[..|calls| - 1], calls[|calls| - 1];
      StateIsTheLog(front);
      PoolConservation(front);
      var st, log := Run(front), Accepted(front);
      if Execute(st, last).Ok? {
        SettingsStep(st, log, last);
        MoneyStep(st, log, last);
      } else {
        assert Accepted(calls) == log;
      }
    }
  }

  /** Every account's books, over every run. */
  lemma ClaimsFollowHistory(calls: seq<Invocation>, a: Address)
    ensures BalanceOf(Run(calls), a)
         == Deposited(Accepted(calls), a) - Withdrawn(Accepted(calls), a) + Advanced(Accepted(calls), a)
  {
    StateIsTheLog(calls);
    assert ClaimIn(Accepted(calls), a) == BalanceOf(Run(calls), a);
  }

  // ---- every answer -------------------------------------------------------------------

  /** What the log says about the account that acts. */
  ghost function OpenAnswer(log: seq<Invocation>, a: Address, auth: set<Address>): Outcome<(), Error> {
    var access := AccessIn(log);
    if access.multisig.None? then Err(Access(AC.NotInitialized))
    else if access.paused then Err(Access(AC.ContractPaused))
    else if a in auth then Ok(()) else Trap
  }

  ghost function DepositAnswer(log: seq<Invocation>, from: Address, amount: int): Outcome<(), Error> {
    if amount < 1 || ClaimIn(log, from) + amount > I128_MAX || LiquidityIn(log) + amount > I128_MAX
    then Err(InvalidAmount) else Ok(())
  }

  ghost function WithdrawAnswer(log: seq<Invocation>, to: Address, amount: int): Outcome<(), Error> {
    if amount < 1 then Err(InvalidAmount)
    else if amount > ClaimIn(log, to) then Err(InsufficientBalance)
    else if amount > LiquidityIn(log) then Err(InsufficientLiquidity)
    else Ok(())
  }

  /** The feed was set, for a time at most 100 ledgers ago. */
  ghost predicate FreshIn(log: seq<Invocation>, now: nat) {
    FeedIn(log).Some? && now <= FeedIn(log).value.timestamp + 100
  }

  ghost function FundAnswer(log: seq<Invocation>, id: nat, face: int, recipient: Address, now: nat)
    : Outcome<(), Error>
  {
    var advance := AdvanceIn(log, face);
    if face < 1 then Err(InvalidAmount)
    else if FundingIn(log, id).Some? then Err(AlreadyFunded)
    else if !FreshIn(log, now) then Err(StalePriceFeed)
    else if face * (10_000 - DiscountIn(log)) > I128_MAX then Err(InvalidAmount)
    else if advance > LiquidityIn(log) then Err(InsufficientLiquidity)
    else if ClaimIn(log, recipient) + advance > I128_MAX then Err(InvalidAmount)
    else Ok(())
  }

  ghost function AccessAnswer(o: Outcome<AC.State, AC.AcError>): Outcome<(), Error> {
    match o
    case Ok(_) => Ok(())
    case Err(e) => Err(Access(e))
    case Trap => Trap
  }

  /** The answer the log calls for. */
  ghost function Answer(log: seq<Invocation>, inv: Invocation): Outcome<(), Error> {
    var access := AccessIn(log);
    match inv.call
    case Initialize(signers, threshold, timelockLedgers, discountBps) =>
      if discountBps > 9_999 then Err(InvalidDiscount)
      else
        var call := AC.Initialize(signers, threshold, timelockLedgers);
        AccessAnswer(AC.Execute(access, AC.Invocation(call, inv.auth, inv.ledger)))
    case Deposit(from, amount) =>
      var open := OpenAnswer(log, from, inv.auth);
      if open.Ok? then DepositAnswer(log, from, amount) else open
    case Withdraw(to, amount) =>
      var open := OpenAnswer(log, to, inv.auth);
      if open.Ok? then WithdrawAnswer(log, to, amount) else open
    case FundInvoice(caller, id, face, recipient) =>
      if access.multisig.None? then Err(Access(AC.NotInitialized))
      else if caller !in inv.auth then Trap
      else if caller !in access.multisig.value.signers && (AC.LiquidityManager, caller) !in access.roles
      then Err(Access(AC.Unauthorized))
      else if access.paused then Err(Access(AC.ContractPaused))
      else FundAnswer(log, id, face, recipient, inv.ledger)
    case SetPriceFeed(caller, _, _) =>
      if access.multisig.None? then Err(Access(AC.NotInitialized))
      else if caller !in inv.auth then Trap
      else if caller in access.multisig.value.signers then Ok(())
      else Err(Access(AC.NotASigner))
    case Administer(call) =>
      if call.Initialize? then Trap else AccessAnswer(AC.Execute(access, AC.Invocation(call, inv.auth, inv.ledger)))
  }

  lemma MoneyAnswers(st: State, log: seq<Invocation>, inv: Invocation)
    requires Agrees(st, log) && Sound(st) && (inv.call.Deposit? || inv.call.Withdraw?)
    ensures Verdict(Execute(st, inv)) == Answer(log, inv)
  {
    var a := if inv.call.Deposit? then inv.call.from else inv.call.to;
    assert ClaimIn(log, a) == BalanceOf(st, a);
  }

  lemma FundAnswers(st: State, log: seq<Invocation>, id: nat, face: I128, recipient: Address, now: nat)
    requires Agrees(st, log) && Sound(st)
    ensures Verdict(ExecuteFund(st, id, face, recipient, now)) == FundAnswer(log, id, face, recipient, now)
  {
    assert ClaimIn(log, recipient) == BalanceOf(st, recipient);
    assert FundingIn(log, id).Some? <==> id in st.fundings;
    if face > 0 {
      AdvanceAgrees(st, log, face);
      AdvanceBounds(st.discountBps, face);
    }
  }

  lemma FundCallAnswers(st: State, log: seq<Invocation>, inv: Invocation)
    requires Agrees(st, log) && Sound(st) && inv.call.FundInvoice?
    ensures Verdict(Execute(st, inv)) == Answer(log, inv)
  {
    FundAnswers(st, log, inv.call.invoiceId, inv.call.faceValue, inv.call.recipient, inv.ledger);
  }

  lemma OtherAnswers(st: State, log: seq<Invocation>, inv: Invocation)
    requires SettingsAgree(st, log) && (inv.call.Initialize? || inv.call.SetPriceFeed? || inv.call.Administer?)
    ensures Verdict(Execute(st, inv)) == Answer(log, inv)
  {
  }

  /** Every entry point answers what the log of accepted calls so far calls for; in particular
      an advance is granted only on a feed that is fresh. */
  lemma AnswersFollowTheLog(calls: seq<Invocation>, inv: Invocation)
    ensures Verdict(Execute(Run(calls), inv)) == Answer(Accepted(calls), inv)
  {
    StateIsTheLog(calls);
    PoolConservation(calls);
    if inv.call.Deposit? || inv.call.Withdraw? {
      MoneyAnswers(Run(calls), Accepted(calls), inv);
    } else if inv.call.FundInvoice? {
      FundCallAnswers(Run(calls), Accepted(calls), inv);
    } else {
      OtherAnswers(Run(calls), Accepted(calls), inv);
    }
  }
}
