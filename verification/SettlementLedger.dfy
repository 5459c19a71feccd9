/** The settlement contract's ledger: fees, per-invoice principal, and used nonces. */
module SettlementLedger {
  import opened Prelude
  import opened CheckedMath
  import AC = AccessControl

  const BPS: I128 := 10_000
  const NONCE_GRACE_SECONDS: nat := 2_592_000

  datatype Fault =
    | Access(ac: AC.AcError) | Math(math: MathError)
    | NonceReplay | InvoiceNotFound | InvalidAmount | InsufficientFees | ReentrancyDetected

  datatype Status = ApprovedForSettlement | Settled

  datatype Record = Record(amount: I128, principalPaid: I128, status: Status)

  datatype NonceMeta = NonceMeta(used: seq<nat>, dueDate: nat) {
    predicate IsValid(nonce: nat, now: nat) {
      nonce !in used && now <= SaturatingAdd(dueDate, NONCE_GRACE_SECONDS, U64_MAX)
    }

    function MarkUsed(nonce: nat): NonceMeta { this.(used := used + [nonce]) }
  }

  /** The due date the nonce list of an invoice starts with. */
  type DueDates = Symbol -> nat

  /** What the contract stores: no entry point ever passes another due date than zero. */
  const NO_DUE_DATES: DueDates := (id: Symbol) => 0

  datatype State = State(access: AC.State, feeRate: U32, collected: I128, withdrawn: I128,
                         invoices: map<Symbol, Record>, nonces: map<Symbol, NonceMeta>, locked: bool,
                         dueDates: DueDates)

  function Empty(due: DueDates): State { State(AC.EMPTY, 0, 0, 0, map[], map[], false, due) }

  datatype Call =
    | Init(signers: seq<Address>, threshold: nat, timelockLedgers: nat)
    | SetInvoiceData(caller: Address, id: Symbol, amount: I128)
    | SetFeeRate(caller: Address, feeRate: U32)
    | SettleInvoice(caller: Address, id: Symbol, nonce: nat, amount: I128)
    | WithdrawFees(caller: Address, amount: I128)
    | Administer(ac: AC.Call)

  datatype Invocation = Invocation(call: Call, auth: set<Address>, ledger: nat, timestamp: nat)

  type Result = Outcome<State, Fault>

  // ---- specification ----------------------------------------------------------------

  function LoadNonces(st: State, id: Symbol): NonceMeta {
    if id in st.nonces then st.nonces[id] else NonceMeta([], st.dueDates(id))
  }

  /** How one payment splits into fee and net, in checked steps. */
  datatype Split = Split(fee: I128, net: I128)

  function SplitPayment(amount: I128, feeRate: I128): Outcome<Split, Fault> {
    match CheckedMul(amount, feeRate)
    case Trap => Trap
    case Err(e) => Err(Math(e))
    case Ok(numerator) =>
      match CheckedDiv(numerator, BPS)
      case Trap => Trap
      case Err(e) => Err(Math(e))
      case Ok(fee) =>
        match CheckedSub(amount, fee)
        case Trap => Trap
        case Err(e) => Err(Math(e))
        case Ok(net) => Ok(Split(fee, net))
  }

  /** (Re)registration of an invoice: nothing paid yet, ready to settle. */
  function WithRecord(st: State, id: Symbol, amount: I128): State {
    st.(invoices := st.invoices[id := Record(amount, 0, ApprovedForSettlement)])
  }

  /** The effect of an accepted payment on the books. */
  function Booked(st: State, id: Symbol, nonce: nat, split: Split): State
    requires id in st.invoices
    requires FitsI128(st.collected + split.fee) && FitsI128(st.invoices[id].principalPaid + split.net)
  {
    var record := st.invoices[id];
    var principal := record.principalPaid + split.net;
    st.(collected := st.collected + split.fee,
        invoices := st.invoices[id := record.(principalPaid := principal,
                                              status := if principal >= record.amount then Settled else record.status)],
        nonces := st.nonces[id := LoadNonces(st, id).MarkUsed(nonce)])
  }

  function ExecuteSettle(st: State, id: Symbol, nonce: nat, amount: I128, now: nat): Result {
    if st.locked then Err(ReentrancyDetected)
    else if !LoadNonces(st, id).IsValid(nonce, now) then Err(NonceReplay)
    else if id !in st.invoices then Err(InvoiceNotFound)
    else if amount <= 0 || amount > st.invoices[id].amount then Err(InvalidAmount)
    else
      match SplitPayment(amount, st.feeRate)
      case Trap => Trap
      case Err(e) => Err(e)
      case Ok(split) =>
        if !FitsI128(st.collected + split.fee) then Err(Math(CheckedAdd(st.collected, split.fee).error))
        else if !FitsI128(st.invoices[id].principalPaid + split.net)
        then Err(Math(CheckedAdd(st.invoices[id].principalPaid, split.net).error))
        else Ok(Booked(st, id, nonce, split))
  }

  function ExecuteWithdraw(st: State, amount: I128): Result {
    if amount > st.collected then Err(InsufficientFees)
    else
      match CheckedSub(st.collected, amount)
      case Trap => Trap
      case Err(e) => Err(Math(e))
      case Ok(collected) =>
        match CheckedAdd(st.withdrawn, amount)
        case Trap => Trap
        case Err(e) => Err(Math(e))
        case Ok(withdrawn) => Ok(st.(collected := collected, withdrawn := withdrawn))
  }

  function After(guard: Outcome<(), AC.AcError>, body: Result): Result {
    match guard
    case Ok(_) => body
    case Err(e) => Err(Access(e))
    case Trap => Trap
  }

  function Execute(st: State, inv: Invocation): Result {
    match inv.call
    case Init(signers, threshold, timelockLedgers) =>
      (match AC.Execute(st.access, AC.Invocation(AC.Initialize(signers, threshold, timelockLedgers), inv.auth,
          inv.ledger))
       case Ok(access) => Ok(st.(access := access, feeRate := 0, collected := 0, withdrawn := 0, locked := false))
       case Err(e) => Err(Access(e))
       case Trap => Trap)
    case SetInvoiceData(caller, id, amount) =>
      After(AC.RequireAdmin(st.access, caller, inv.auth),
            Ok(WithRecord(st, id, amount)))
    case SetFeeRate(caller, feeRate) =>
      After(AC.RequireAdmin(st.access, caller, inv.auth), Ok(st.(feeRate := feeRate)))
    case SettleInvoice(caller, id, nonce, amount) =>
      if caller !in inv.auth then Trap
      else After(AC.RequireNotPaused(st.access), ExecuteSettle(st, id, nonce, amount, inv.timestamp))
    case WithdrawFees(caller, amount) =>
      After(AC.RequireAdmin(st.access, caller, inv.auth),
      After(AC.RequireNotPaused(st.access), ExecuteWithdraw(st, amount)))
    case Administer(call) =>
      if call.Initialize? then Trap
      else
        (match AC.Execute(st.access, AC.Invocation(call, inv.auth, inv.ledger))
         case Ok(access) => Ok(st.(access := access))
         case Err(e) => Err(Access(e))
         case Trap => Trap)
  }

  // ---- the contract ------------------------------------------------------------------

  class SettlementContract {
    var access: AC.State
    var feeRate: U32
    var collected: I128
    var withdrawn: I128
    var invoices: map<Symbol, Record>
    var nonces: map<Symbol, NonceMeta>
    var locked: bool
    const dueDates: DueDates

    ghost function Model(): State reads this {
      State(access, feeRate, collected, withdrawn, invoices, nonces, locked, dueDates)
    }

    constructor (dueDates: DueDates)
      ensures Model() == Empty(dueDates)
    {
      this.dueDates := dueDates;
      access, feeRate, collected, withdrawn := AC.EMPTY, 0, 0, 0;
      invoices, nonces, locked := map[], map[], false;
    }

    method SetInvoiceData(caller: Address, id: Symbol, amount: I128, auth: set<Address>, ledger: nat, timestamp: nat)
      returns (r: Outcome<(), Fault>)
      modifies this
      ensures var body := Execute(old(Model()), Invocation(Call.SetInvoiceData(caller, id, amount), auth, ledger,
          timestamp));
              Model() == Committed(old(Model()), body) && r == Verdict(body)
    {
      match AC.RequireAdmin(access, caller, auth) {
        case Err(e) => return Err(Access(e));
        case Trap => return Trap;
        case Ok(_) =>
      }
      invoices := invoices[id := Record(amount, 0, ApprovedForSettlement)];
      return Ok(());
    }

    method SetFeeRate(caller: Address, rate: U32, auth: set<Address>, ledger: nat, timestamp: nat)
      returns (r: Outcome<(), Fault>)
      modifies this
      ensures var body := Execute(old(Model()), Invocation(Call.SetFeeRate(caller, rate), auth, ledger, timestamp));
              Model() == Committed(old(Model()), body) && r == Verdict(body)
    {
      match AC.RequireAdmin(access, caller, auth) {
        case Err(e) => return Err(Access(e));
        case Trap => return Trap;
        case Ok(_) =>
      }
      feeRate := rate;
      return Ok(());
    }

    /** The payment of one invoice.  State is written before the reentrancy guard is taken
        and released around the notification. */
    method SettleInvoice(caller: Address, id: Symbol, nonce: nat, amount: I128, auth: set<Address>, ledger: nat,
        timestamp: nat)
      returns (r: Outcome<(), Fault>)
      modifies this
      ensures var body := Execute(old(Model()), Invocation(Call.SettleInvoice(caller, id, nonce, amount), auth,
          ledger, timestamp));
              Model() == Committed(old(Model()), body) && r == Verdict(body)
    {
      if caller !in auth { return Trap; }
      if access.paused { return Err(Access(AC.ContractPaused)); }
      if locked { return Err(ReentrancyDetected); }
      var meta := if id in nonces then nonces[id] else NonceMeta([], dueDates(id));
      if !meta.IsValid(nonce, timestamp) { return Err(NonceReplay); }
      meta := meta.MarkUsed(nonce);
      if id !in invoices { return Err(InvoiceNotFound); }
      var record := invoices[id];
      if amount <= 0 || amount > record.amount { return Err(InvalidAmount); }
      var feeNumerator := CheckedMul(amount, feeRate);
      if !feeNumerator.Ok? { return Err(Math(feeNumerator.error)); }
      var fee := CheckedDiv(feeNumerator.value, BPS);
      var net := CheckedSub(amount, fee.value);
      if !net.Ok? { return Err(Math(net.error)); }
      var newCollected := CheckedAdd(collected, fee.value);
      if !newCollected.Ok? { return Err(Math(newCollected.error)); }
      var newPrincipal := CheckedAdd(record.principalPaid, net.value);
      if !newPrincipal.Ok? { return Err(Math(newPrincipal.error)); }
      collected := newCollected.value;
      record := record.(principalPaid := newPrincipal.value);
      if newPrincipal.value >= record.amount { record := record.(status := Settled); }
      invoices := invoices[id := record];
      nonces := nonces[id := meta];
      locked := true;
      locked := false;
      return Ok(());
    }

    method WithdrawFees(caller: Address, amount: I128, auth: set<Address>, ledger: nat, timestamp: nat)
      returns (r: Outcome<(), Fault>)
      modifies this
      ensures var body := Execute(old(Model()), Invocation(Call.WithdrawFees(caller, amount), auth, ledger, timestamp));
              Model() == Committed(old(Model()), body) && r == Verdict(body)
    {
      match AC.RequireAdmin(access, caller, auth) {
        case Err(e) => return Err(Access(e));
        case Trap => return Trap;
        case Ok(_) =>
      }
      if access.paused { return Err(Access(AC.ContractPaused)); }
      if amount > collected { return Err(InsufficientFees); }
      var newCollected := CheckedSub(collected, amount);
      if !newCollected.Ok? { return Err(Math(newCollected.error)); }
      var newWithdrawn := CheckedAdd(withdrawn, amount);
      if !newWithdrawn.Ok? { return Err(Math(newWithdrawn.error)); }
      collected := newCollected.value;
      withdrawn := newWithdrawn.value;
      return Ok(());
    }
  }

  // ---- runs and their history ------------------------------------------------------------

  function Run(due: DueDates, calls: seq<Invocation>): State {
    if calls == [] then Empty(due)
    else
      var st := Run(due, calls[..|calls| - 1]);
      Committed(st, Execute(st, calls[|calls| - 1]))
  }

  /** What a successful call did, as an outside observer would log it. */
  datatype Entry =
    | Registered(id: Symbol, amount: int)
    | Paid(id: Symbol, nonce: nat, amount: int, fee: int, net: int)
    | Withdrew(amount: int)

  /** The fee of a payment by its definition, the floor of `amount * feeRate / 10000`. */
  function FeeOf(amount: int, feeRate: int): int { amount * feeRate / 10_000 }

  function EntryOf(st: State, inv: Invocation): seq<Entry> {
    if !Execute(st, inv).Ok? then []
    else match inv.call
      case SetInvoiceData(_, id, amount) => [Registered(id, amount)]
      case SettleInvoice(_, id, nonce, amount) =>
        var fee := FeeOf(amount, st.feeRate);
        [Paid(id, nonce, amount, fee, amount - fee)]
      case WithdrawFees(_, amount) => [Withdrew(amount)]
      case _ => []
  }

  function History(due: DueDates, calls: seq<Invocation>): seq<Entry> {
    if calls == [] then []
    else History(due, calls[..|calls| - 1]) + EntryOf(Run(due, calls[..|calls| - 1]), calls[|calls| - 1])
  }

  function FeesCharged(h: seq<Entry>): int {
    if h == [] then 0
    else FeesCharged(h[..|h| - 1]) + if h[|h| - 1].Paid? then h[|h| - 1].fee else 0
  }

  function FeesWithdrawn(h: seq<Entry>): int {
    if h == [] then 0
    else FeesWithdrawn(h[..|h| - 1]) + if h[|h| - 1].Withdrew? then h[|h| - 1].amount else 0
  }

  /** The nets paid on `id` since it was last registered. */
  function NetsSince(h: seq<Entry>, id: Symbol): int {
    if h == [] then 0
    else
      var last, before := h[|h| - 1], NetsSince(h[..|h| - 1], id);
      if last.Registered? && last.id == id then 0
      else if last.Paid? && last.id == id then before + last.net
      else before
  }

  function NoncesPaid(h: seq<Entry>, id: Symbol): seq<nat> {
    if h == [] then []
    else NoncesPaid(h[..|h| - 1], id)
         + if h[|h| - 1].Paid? && h[|h| - 1].id == id then [h[|h| - 1].nonce] else []
  }

  // ---- the ledger agrees with its history ---------------------------------------------------

  /** A payment that goes through charges exactly the floored fee. */
  lemma SplitExact(amount: I128, feeRate: I128)
    requires 0 < amount && 0 <= feeRate && SplitPayment(amount, feeRate).Ok?
    ensures SplitPayment(amount, feeRate).value.fee == FeeOf(amount, feeRate) >= 0
    ensures SplitPayment(amount, feeRate).value.net == amount - FeeOf(amount, feeRate)
  {
    var product := amount * feeRate;
    assert product >= 0;
    assert CheckedMul(amount, feeRate) == Ok(product);
  }

  ghost predicate FeesAgree(st: State, h: seq<Entry>) {
    && st.collected + st.withdrawn == FeesCharged(h)
    && st.withdrawn == FeesWithdrawn(h)
  }

  ghost predicate InvoiceAgrees(st: State, h: seq<Entry>, id: Symbol) {
    && (id in st.invoices ==> st.invoices[id].principalPaid == NetsSince(h, id))
    && LoadNonces(st, id) == NonceMeta(NoncesPaid(h, id), st.dueDates(id))
    && Distinct(NoncesPaid(h, id))
  }

  /** Nothing is registered or paid before initialization. */
  ghost predicate Fresh(st: State) {
    && !st.locked
    && (st.access.multisig.None? ==> st.collected == 0 && st.withdrawn == 0 && st.invoices.Keys == {})
  }

  ghost predicate Agrees(st: State, h: seq<Entry>) {
    FeesAgree(st, h) && Fresh(st) && forall id :: InvoiceAgrees(st, h, id)
  }

  /** A settlement that succeeds, spelled out. */
  lemma SettleEffect(st: State, inv: Invocation) returns (split: Split)
    requires inv.call.SettleInvoice? && Execute(st, inv).Ok?
    ensures inv.call.id in st.invoices && 0 < inv.call.amount
    ensures LoadNonces(st, inv.call.id).IsValid(inv.call.nonce, inv.timestamp)
    ensures split.fee == FeeOf(inv.call.amount, st.feeRate) && split.net == inv.call.amount - split.fee
    ensures FitsI128(st.collected + split.fee) && FitsI128(st.invoices[inv.call.id].principalPaid + split.net)
    ensures Execute(st, inv).value == Booked(st, inv.call.id, inv.call.nonce, split)
  {
    split := SplitPayment(inv.call.amount, st.feeRate).value;
    SplitExact(inv.call.amount, st.feeRate);
  }

  lemma LastEntry(h: seq<Entry>, e: Entry)
    ensures (h + [e])[..|h + [e]| - 1] == h && (h + [e])[|h + [e]| - 1] == e
  {
  }

  lemma PaymentAgrees(st: State, h: seq<Entry>, id: Symbol, nonce: nat, now: nat, amount: int, split: Split,
      other: Symbol)
    requires id in st.invoices && LoadNonces(st, id).IsValid(nonce, now)
    requires FitsI128(st.collected + split.fee) && FitsI128(st.invoices[id].principalPaid + split.net)
    requires InvoiceAgrees(st, h, other)
    ensures InvoiceAgrees(Booked(st, id, nonce, split), h + [Paid(id, nonce, amount, split.fee, split.net)], other)
  {
    LastEntry(h, Paid(id, nonce, amount, split.fee, split.net));
    if other == id {
      assert nonce !in NoncesPaid(h, id);
    }
  }

  lemma SettleAgrees(st: State, h: seq<Entry>, inv: Invocation)
    requires Agrees(st, h) && inv.call.SettleInvoice? && Execute(st, inv).Ok?
    ensures Agrees(Execute(st, inv).value, h + EntryOf(st, inv))
  {
    var split := SettleEffect(st, inv);
    var SettleInvoice(_, id, nonce, amount) := inv.call;
    var after := Booked(st, id, nonce, split);
    var e := Paid(id, nonce, amount, split.fee, split.net);
    LastEntry(h, e);
    forall other ensures InvoiceAgrees(after, h + [e], other) {
      PaymentAgrees(st, h, id, nonce, inv.timestamp, amount, split, other);
    }
  }

  lemma RegisterAgreesOn(st: State, h: seq<Entry>, id: Symbol, amount: I128, other: Symbol)
    requires InvoiceAgrees(st, h, other)
    ensures InvoiceAgrees(WithRecord(st, id, amount), h + [Registered(id, amount)], other)
  {
    LastEntry(h, Registered(id, amount));
  }

  lemma RegisterAgrees(st: State, h: seq<Entry>, id: Symbol, amount: I128)
    requires Agrees(st, h) && st.access.multisig.Some?
    ensures Agrees(WithRecord(st, id, amount), h + [Registered(id, amount)])
  {
    LastEntry(h, Registered(id, amount));
    forall other ensures InvoiceAgrees(WithRecord(st, id, amount), h + [Registered(id, amount)], other) {
      RegisterAgreesOn(st, h, id, amount, other);
    }
  }

  lemma WithdrawAgrees(st: State, h: seq<Entry>, amount: I128)
    requires Agrees(st, h) && st.access.multisig.Some? && ExecuteWithdraw(st, amount).Ok?
    ensures Agrees(ExecuteWithdraw(st, amount).value, h + [Withdrew(amount)])
  {
    LastEntry(h, Withdrew(amount));
    forall id ensures InvoiceAgrees(ExecuteWithdraw(st, amount).value, h + [Withdrew(amount)], id) {
      assert InvoiceAgrees(st, h, id);
    }
  }

  lemma QuietAgrees(st: State, after: State, h: seq<Entry>)
    requires Agrees(st, h) && Fresh(after)
    requires after.collected == st.collected && after.withdrawn == st.withdrawn
    requires after.invoices == st.invoices && after.nonces == st.nonces && after.dueDates == st.dueDates
    ensures Agrees(after, h)
  {
    forall id ensures InvoiceAgrees(after, h, id) {
      assert InvoiceAgrees(st, h, id);
    }
  }

  lemma OtherCallAgrees(st: State, h: seq<Entry>, inv: Invocation)
    requires Agrees(st, h) && !inv.call.SettleInvoice? && Execute(st, inv).Ok?
    ensures Agrees(Execute(st, inv).value, h + EntryOf(st, inv))
  {
    if inv.call.SetInvoiceData? {
      RegisterAgrees(st, h, inv.call.id, inv.call.amount);
    } else if inv.call.WithdrawFees? {
      WithdrawAgrees(st, h, inv.call.amount);
    } else {
      assert h + [] == h;
      QuietAgrees(st, Execute(st, inv).value, h);
    }
  }

  /** The ledger refines its history, over every run: collected plus withdrawn fees are the
      fees charged, each invoice's principal is the nets since its registration, and its
      used nonces are those of its payments, in order and without repetition. */
  lemma {:induction false} LedgerAgrees(due: DueDates, calls: seq<Invocation>)
    ensures Agrees(Run(due, calls), History(due, calls))
  {
    if calls == [] {
      assert forall id :: InvoiceAgrees(Empty(due), [], id);
    } else {
      var front, last := calls[..|calls| - 1], calls[|calls| - 1];
      LedgerAgrees(due, front);
      if !Execute(Run(due, front), last).Ok? {
        assert History(due, front) + [] == History(due, front);
      } else if last.call.SettleInvoice? {
        SettleAgrees(Run(due, front), History(due, front), last);
      } else {
        OtherCallAgrees(Run(due, front), History(due, front), last);
      }
    }
  }

  lemma {:induction false} DueDatesStay(due: DueDates, calls: seq<Invocation>)
    ensures Run(due, calls).dueDates == due
  {
    if calls != [] { DueDatesStay(due, calls[..|calls| - 1]); }
  }

  // ---- fee solvency ---------------------------------------------------------------------------

  lemma SolventStep(st: State, inv: Invocation)
    requires st.collected >= 0
    ensures Committed(st, Execute(st, inv)).collected >= 0
  {
    if inv.call.SettleInvoice? && Execute(st, inv).Ok? { var split := SettleEffect(st, inv); FeeIsNatural(inv, st); }
  }

  lemma FeeIsNatural(inv: Invocation, st: State)
    requires inv.call.SettleInvoice? && inv.call.amount > 0
    ensures FeeOf(inv.call.amount, st.feeRate) >= 0
  {
    assert inv.call.amount * st.feeRate >= 0;
  }

  /** Fee solvency, over every run: what is left of the collected fees is never negative, so
      the withdrawals, each with its sign, never add up to more than the fees charged. */
  lemma {:induction false} FeesSolvent(due: DueDates, calls: seq<Invocation>)
    ensures Run(due, calls).collected >= 0
    ensures FeesWithdrawn(History(due, calls)) <= FeesCharged(History(due, calls))
  {
    if calls != [] {
      FeesSolvent(due, calls[..|calls| - 1]);
      SolventStep(Run(due, calls[..|calls| - 1]), calls[|calls| - 1]);
    }
    LedgerAgrees(due, calls);
  }

  /** The payouts alone: what positive withdrawals took, with nothing given back. */
  function GrossPayouts(h: seq<Entry>): int {
    if h == [] then 0
    else GrossPayouts(h[..|h| - 1]) + if h[|h| - 1].Withdrew? && h[|h| - 1].amount > 0 then h[|h| - 1].amount else 0
  }

  /** Every withdrawal asked for is at least `floor`. */
  ghost predicate WithdrawalsFrom(calls: seq<Invocation>, floor: int) {
    forall i :: 0 <= i < |calls| && calls[i].call.WithdrawFees? ==> calls[i].call.amount >= floor
  }

  lemma GrossStep(h: seq<Entry>, st: State, inv: Invocation)
    requires inv.call.WithdrawFees? ==> inv.call.amount >= 0
    ensures GrossPayouts(h + EntryOf(st, inv)) - GrossPayouts(h)
         == FeesWithdrawn(h + EntryOf(st, inv)) - FeesWithdrawn(h)
  {
    var entry := EntryOf(st, inv);
    if entry == [] {
      assert h + entry == h;
    } else {
      assert entry == [entry[0]];
      LastEntry(h, entry[0]);
    }
  }

  lemma {:induction false} GrossIsNet(due: DueDates, calls: seq<Invocation>)
    requires WithdrawalsFrom(calls, 0)
    ensures GrossPayouts(History(due, calls)) == FeesWithdrawn(History(due, calls))
  {
    if calls != [] {
      var front, last := calls[..|calls| - 1], calls[|calls| - 1];
      GrossIsNet(due, front);
      GrossStep(History(due, front), Run(due, front), last);
    }
  }

  lemma RunSnoc(due: DueDates, calls: seq<Invocation>, inv: Invocation)
    ensures Run(due, calls + [inv]) == Committed(Run(due, calls), Execute(Run(due, calls), inv))
    ensures History(due, calls + [inv]) == History(due, calls) + EntryOf(Run(due, calls), inv)
  {
    assert (calls + [inv])[..|calls|] == calls;
  }

  /** A call of the only signer, signed, at the beginning of time. */
  function Sole(call: Call): Invocation { Invocation(call, {1}, 0, 0) }

  const SETUP: seq<Invocation> := [Sole(Init([1], 1, AC.MIN_TIMELOCK))]

  lemma SetupRuns(due: DueDates)
    ensures History(due, SETUP) == []
    ensures Run(due, SETUP)
         == Empty(due).(access := AC.EMPTY.(multisig := Some(AC.Multisig([1], 1)), timelock := Some(AC.MIN_TIMELOCK)))
  {
    assert SETUP == [] + SETUP;
    RunSnoc(due, [], SETUP[0]);
  }

  lemma RefillPays()
    ensures GrossPayouts([Withdrew(-1)] + [Withdrew(1)]) == 1 && FeesCharged([Withdrew(-1)] + [Withdrew(1)]) == 0
  {
    LastEntry([Withdrew(-1)], Withdrew(1));
    LastEntry([], Withdrew(-1));
    assert [] + [Withdrew(-1)] == [Withdrew(-1)];
  }

  /** A negative withdrawal is accepted and refills the fees: two calls pay out one unit
      although nothing was ever charged. */
  lemma NegativeWithdrawalPays(due: DueDates) returns (calls: seq<Invocation>)
    ensures WithdrawalsFrom(calls, -1)
    ensures GrossPayouts(History(due, calls)) == 1 && FeesCharged(History(due, calls)) == 0
  {
    var refill, pay := Sole(WithdrawFees(1, -1)), Sole(WithdrawFees(1, 1));
    SetupRuns(due);
    var refilled := SETUP + [refill];
    RunSnoc(due, SETUP, refill);
    assert History(due, refilled) == [Withdrew(-1)];
    calls := refilled + [pay];
    RunSnoc(due, refilled, pay);
    assert History(due, calls) == [Withdrew(-1)] + [Withdrew(1)];
    RefillPays();
  }

  /** The exact bound on withdrawals: the payouts of every run stay within the fees charged
      if and only if no withdrawal may be negative. */
  lemma PayoutsCoveredExactly(due: DueDates, floor: int)
    ensures floor >= 0 <==>
              forall calls :: WithdrawalsFrom(calls, floor) ==>
                GrossPayouts(History(due, calls)) <= FeesCharged(History(due, calls))
  {
    if floor >= 0 {
      forall calls | WithdrawalsFrom(calls, floor)
        ensures GrossPayouts(History(due, calls)) <= FeesCharged(History(due, calls))
      {
        assert WithdrawalsFrom(calls, 0);
        GrossIsNet(due, calls);
        FeesSolvent(due, calls);
      }
    } else {
      var calls := NegativeWithdrawalPays(due);
      assert WithdrawalsFrom(calls, floor);
    }
  }

  // ---- settled means fully paid ---------------------------------------------------------------

  /** No fee rate above `cap` was ever set. */
  ghost predicate FeesUpTo(calls: seq<Invocation>, cap: int) {
    forall i :: 0 <= i < |calls| && calls[i].call.SetFeeRate? ==> calls[i].call.feeRate <= cap
  }

  /** An invoice with a positive amount is Settled if and only if its principal covers it. */
  ghost predicate StatusExact(st: State) {
    forall id :: id in st.invoices && st.invoices[id].amount > 0 ==>
      (st.invoices[id].status == Settled <==> st.invoices[id].principalPaid >= st.invoices[id].amount)
  }

  lemma FeeAtMostAmount(amount: int, feeRate: int)
    requires 0 < amount && 0 <= feeRate
    ensures feeRate <= 10_000 ==> FeeOf(amount, feeRate) <= amount
  {
    if feeRate <= 10_000 { assert amount * feeRate <= amount * 10_000; }
  }

  lemma StatusStep(st: State, inv: Invocation)
    requires StatusExact(st) && st.feeRate <= 10_000 && (inv.call.SetFeeRate? ==> inv.call.feeRate <= 10_000)
    ensures StatusExact(Committed(st, Execute(st, inv))) && Committed(st, Execute(st, inv)).feeRate <= 10_000
  {
    if inv.call.SettleInvoice? && Execute(st, inv).Ok? {
      var split := SettleEffect(st, inv);
      FeeAtMostAmount(inv.call.amount, st.feeRate);
    }
  }

  /** With fee rates never above 100%, an invoice registered with a positive amount is
      Settled if and only if its principal covers the amount - in every reachable state. */
  lemma {:induction false} SettledMeansPaid(due: DueDates, calls: seq<Invocation>)
    requires FeesUpTo(calls, 10_000)
    ensures StatusExact(Run(due, calls)) && Run(due, calls).feeRate <= 10_000
  {
    if calls != [] {
      SettledMeansPaid(due, calls[..|calls| - 1]);
      StatusStep(Run(due, calls[..|calls| - 1]), calls[|calls| - 1]);
    }
  }

  /** Exactly when a payment takes principal away: its fee exceeds it.  The status is not
      taken back, so this is where Settled and fully paid come apart. */
  lemma PaymentLowersPrincipal(st: State, inv: Invocation)
    requires inv.call.SettleInvoice? && Execute(st, inv).Ok?
    ensures var id, after := inv.call.id, Execute(st, inv).value;
            && id in st.invoices && id in after.invoices
            && (after.invoices[id].principalPaid < st.invoices[id].principalPaid
                <==> FeeOf(inv.call.amount, st.feeRate) > inv.call.amount)
            && (st.invoices[id].status == Settled ==> after.invoices[id].status == Settled)
  {
    var split := SettleEffect(st, inv);
  }

  const ID: Symbol := "invoice"

  /** Pay an invoice of 10000 in full without a fee, set the rate, pay it once more. */
  function OverpaidRun(rate: U32): seq<Invocation> {
    SETUP + [Sole(SetInvoiceData(1, ID, 10_000))] + [Sole(SettleInvoice(1, ID, 0, 10_000))]
    + [Sole(SetFeeRate(1, rate))]
  }

  lemma OverpaidState(due: DueDates, rate: U32)
    ensures var st := Run(due, OverpaidRun(rate));
            && st.invoices == map[ID := Record(10_000, 10_000, Settled)] && st.feeRate == rate && st.collected == 0
            && st.access == AC.EMPTY.(multisig := Some(AC.Multisig([1], 1)), timelock := Some(AC.MIN_TIMELOCK))
            && !st.locked && LoadNonces(st, ID) == NonceMeta([0], due(ID))
  {
    SetupRuns(due);
    var registered := SETUP + [Sole(SetInvoiceData(1, ID, 10_000))];
    RunSnoc(due, SETUP, Sole(SetInvoiceData(1, ID, 10_000)));
    var paid := registered + [Sole(SettleInvoice(1, ID, 0, 10_000))];
    RunSnoc(due, registered, Sole(SettleInvoice(1, ID, 0, 10_000)));
    assert SplitPayment(10_000, 0) == Ok(Split(0, 10_000));
    RunSnoc(due, paid, Sole(SetFeeRate(1, rate)));
  }

  /** The second payment at `rate`. */
  lemma PaidAgain(st: State, rate: U32)
    requires st.invoices == map[ID := Record(10_000, 10_000, Settled)] && st.feeRate == rate && st.collected == 0
    requires !st.locked && !st.access.paused && LoadNonces(st, ID).IsValid(1, 0)
    ensures var after := Execute(st, Sole(SettleInvoice(1, ID, 1, 10_000)));
            after.Ok? && after.value.invoices == map[ID := Record(10_000, 20_000 - rate, Settled)]
  {
    assert SplitPayment(10_000, rate) == Ok(Split(rate, 10_000 - rate));
  }

  /** Every rate above 100% has a run that leaves a Settled invoice short of its amount,
      by a payment that lowers the principal. */
  lemma RateAboveTotalBreaks(due: DueDates, rate: U32) returns (calls: seq<Invocation>, pay: Invocation)
    requires rate > 10_000
    ensures FeesUpTo(calls + [pay], rate) && pay.call.SettleInvoice? && Execute(Run(due, calls), pay).Ok?
    ensures var before, after := Run(due, calls), Run(due, calls + [pay]);
            && ID in before.invoices && ID in after.invoices && pay.call.id == ID
            && after.invoices[ID] == Record(10_000, 20_000 - rate, Settled)
            && after.invoices[ID].principalPaid < before.invoices[ID].principalPaid
            && !StatusExact(after)
  {
    calls, pay := OverpaidRun(rate), Sole(SettleInvoice(1, ID, 1, 10_000));
    OverpaidState(due, rate);
    PaidAgain(Run(due, calls), rate);
    RunSnoc(due, calls, pay);
  }

  /** The exact bound on fee rates: "Settled exactly when paid" holds in every reachable
      state if and only if no rate above 100% may be set. */
  lemma StatusCapExact(due: DueDates, cap: int)
    ensures cap <= 10_000 <==> forall calls :: FeesUpTo(calls, cap) ==> StatusExact(Run(due, calls))
  {
    if cap <= 10_000 {
      forall calls | FeesUpTo(calls, cap) ensures StatusExact(Run(due, calls)) {
        assert FeesUpTo(calls, 10_000);
        SettledMeansPaid(due, calls);
      }
    } else {
      var calls, pay := RateAboveTotalBreaks(due, 10_001);
      assert FeesUpTo(calls + [pay], cap);
    }
  }

  /** This payment takes principal away from its invoice. */
  ghost predicate LowersPrincipal(st: State, inv: Invocation) {
    && inv.call.SettleInvoice? && Execute(st, inv).Ok?
    && inv.call.id in st.invoices && inv.call.id in Execute(st, inv).value.invoices
    && Execute(st, inv).value.invoices[inv.call.id].principalPaid < st.invoices[inv.call.id].principalPaid
  }

  /** The same bound for the monotonicity of the principal: no payment of any run lowers it
      if and only if no rate above 100% may be set. */
  lemma PrincipalCapExact(due: DueDates, cap: int)
    ensures cap <= 10_000 <==>
              forall calls, inv :: FeesUpTo(calls, cap) ==> !LowersPrincipal(Run(due, calls), inv)
  {
    if cap <= 10_000 {
      forall calls, inv | FeesUpTo(calls, cap) ensures !LowersPrincipal(Run(due, calls), inv) {
        assert FeesUpTo(calls, 10_000);
        SettledMeansPaid(due, calls);
        if LowersPrincipal(Run(due, calls), inv) {
          PaymentLowersPrincipal(Run(due, calls), inv);
          FeeAtMostAmount(inv.call.amount, Run(due, calls).feeRate);
        }
      }
    } else {
      var calls, pay := RateAboveTotalBreaks(due, 10_001);
      RunSnoc(due, calls, pay);
      assert FeesUpTo(calls, cap);
      assert LowersPrincipal(Run(due, calls), pay);
    }
  }

  // ---- the nonce deadline -----------------------------------------------------------------------

  /** After any run a nonce is accepted exactly if no payment on the invoice since the
      beginning used it, and the grace period after the due date is not over. */
  lemma NonceAcceptedExactly(due: DueDates, calls: seq<Invocation>, id: Symbol, nonce: nat, now: nat)
    ensures LoadNonces(Run(due, calls), id).IsValid(nonce, now) <==>
              && nonce !in NoncesPaid(History(due, calls), id)
              && now <= SaturatingAdd(due(id), NONCE_GRACE_SECONDS, U64_MAX)
  {
    LedgerAgrees(due, calls);
    DueDatesStay(due, calls);
    assert InvoiceAgrees(Run(due, calls), History(due, calls), id);
  }

  /** No entry point stores a nonce due date, so as deployed a nonce is accepted exactly if
      it is unused and the ledger time is at most 2592000 seconds after the epoch. */
  lemma DeployedDeadline(calls: seq<Invocation>, id: Symbol, nonce: nat, now: nat)
    ensures LoadNonces(Run(NO_DUE_DATES, calls), id).IsValid(nonce, now) <==>
              nonce !in NoncesPaid(History(NO_DUE_DATES, calls), id) && now <= 2_592_000
  {
    NonceAcceptedExactly(NO_DUE_DATES, calls, id, nonce, now);
  }

  /** Later, no settlement succeeds. */
  lemma NothingSettlesAfterGrace(calls: seq<Invocation>, inv: Invocation)
    requires inv.call.SettleInvoice? && inv.timestamp > NONCE_GRACE_SECONDS
    ensures !Execute(Run(NO_DUE_DATES, calls), inv).Ok?
  {
    var st := Run(NO_DUE_DATES, calls);
    DeployedDeadline(calls, inv.call.id, inv.call.nonce, inv.timestamp);
    assert !ExecuteSettle(st, inv.call.id, inv.call.nonce, inv.call.amount, inv.timestamp).Ok?;
  }
}
