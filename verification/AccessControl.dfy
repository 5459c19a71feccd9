/** The shared access-control block: an n-of-m signer set, roles, pause, and the
    time-locked transfer of the signer set. */
module AccessControl {
  import opened Prelude

  const MIN_TIMELOCK: nat := 34_560

  datatype Role = Admin | OracleWriter | Pauser | LiquidityManager

  datatype AcError =
    | AlreadyInitialized | NotInitialized | Unauthorized | NotASigner | InvalidThreshold
    | DuplicateSigner | InvalidTimelock | ContractPaused | NotPaused | NoPendingTransfer
    | AlreadyConfirmed | ThresholdNotMet | TimelockNotElapsed | CannotGrantAdminRole | AlreadyPaused

  datatype Multisig = Multisig(signers: seq<Address>, threshold: nat)

  datatype Pending =
    Pending(newSigners: seq<Address>, newThreshold: nat, proposedAt: nat, confirmations: seq<Address>)

  datatype State = State(multisig: Option<Multisig>, timelock: Option<nat>, paused: bool,
                         pending: Option<Pending>, roles: set<(Role, Address)>)

  const EMPTY := State(None, None, false, None, {})

  datatype Call =
    | Initialize(signers: seq<Address>, threshold: nat, timelockLedgers: nat)
    | GrantRole(caller: Address, role: Role, grantee: Address)
    | RevokeRole(caller: Address, role: Role, grantee: Address)
    | Pause(caller: Address)
    | Unpause(caller: Address)
    | Propose(caller: Address, newSigners: seq<Address>, newThreshold: nat)
    | Confirm(caller: Address)
    | Transfer(caller: Address)
    | Cancel(caller: Address)

  /** A call, the addresses that signed it, and the ledger it runs in. */
  datatype Invocation = Invocation(call: Call, auth: set<Address>, ledger: nat)

  // ---- specification --------------------------------------------------------------

  predicate IsSigner(st: State, a: Address) {
    st.multisig.Some? && a in st.multisig.value.signers
  }

  function HasRole(st: State, role: Role, a: Address): bool {
    if role == Admin then IsSigner(st, a) else (role, a) in st.roles
  }

  function RequireRole(st: State, role: Role, caller: Address, auth: set<Address>): Outcome<(), AcError> {
    if caller !in auth then Trap
    else if IsSigner(st, caller) || HasRole(st, role, caller) then Ok(())
    else Err(Unauthorized)
  }

  function RequireAdmin(st: State, caller: Address, auth: set<Address>): Outcome<(), AcError> {
    if caller !in auth then Trap else if IsSigner(st, caller) then Ok(()) else Err(NotASigner)
  }

  function RequireNotPaused(st: State): Outcome<(), AcError> {
    if st.paused then Err(ContractPaused) else Ok(())
  }

  /** A signer set the contract accepts: no repetition and a reachable threshold. */
  predicate ValidSignerSet(signers: seq<Address>, threshold: nat) {
    1 <= threshold <= |signers| && Distinct(signers)
  }

  function CheckSignerSet(signers: seq<Address>, threshold: nat): Outcome<(), AcError> {
    if threshold == 0 || threshold > |signers| then Err(InvalidThreshold)
    else if !Distinct(signers) then Err(DuplicateSigner)
    else Ok(())
  }

  function TimelockOf(st: State): nat {
    if st.timelock.Some? then st.timelock.value else MIN_TIMELOCK
  }

  /** The first ledger at which a proposal made in `proposedAt` may execute. */
  function UnlocksAt(proposedAt: nat, timelock: nat): nat {
    SaturatingAdd(proposedAt, timelock, U32_MAX)
  }

  function ExecuteTransfer(st: State, now: nat): Outcome<State, AcError> {
    if st.pending.None? then Err(NoPendingTransfer)
    else if st.multisig.None? then Err(NotInitialized)
    else
      var p := st.pending.value;
      if |p.confirmations| < st.multisig.value.threshold then Err(ThresholdNotMet)
      else if now < UnlocksAt(p.proposedAt, TimelockOf(st)) then Err(TimelockNotElapsed)
      else Ok(st.(multisig := Some(Multisig(p.newSigners, p.newThreshold)), pending := None))
  }

  function ExecuteConfirm(st: State, caller: Address): Outcome<State, AcError> {
    if st.pending.None? then Err(NoPendingTransfer)
    else
      var p := st.pending.value;
      if caller in p.confirmations then Err(AlreadyConfirmed)
      else Ok(st.(pending := Some(p.(confirmations := p.confirmations + [caller]))))
  }

  /** The admission check of each entry point. */
  function Guard(st: State, call: Call, auth: set<Address>): Outcome<(), AcError> {
    match call
    case Initialize(_, _, _) => if st.multisig.Some? then Err(AlreadyInitialized) else Ok(())
    case Pause(caller) => RequireRole(st, Pauser, caller, auth)
    case Unpause(caller) => RequireRole(st, Pauser, caller, auth)
    case _ => RequireAdmin(st, call.caller, auth)
  }

  /** What an admitted call would commit. */
  function Body(st: State, call: Call, now: nat): Outcome<State, AcError> {
    match call
    case Initialize(signers, threshold, timelockLedgers) =>
      (match CheckSignerSet(signers, threshold)
       case Trap => Trap
       case Err(e) => Err(e)
       case Ok(_) =>
         if timelockLedgers < MIN_TIMELOCK then Err(InvalidTimelock)
         else Ok(st.(multisig := Some(Multisig(signers, threshold)),
                     timelock := Some(timelockLedgers), paused := false)))
    case GrantRole(_, role, grantee) =>
      if role == Admin then Err(CannotGrantAdminRole)
      else Ok(st.(roles := st.roles + {(role, grantee)}))
    case RevokeRole(_, role, grantee) => Ok(st.(roles := st.roles - {(role, grantee)}))
    case Pause(_) => if st.paused then Err(AlreadyPaused) else Ok(st.(paused := true))
    case Unpause(_) => if !st.paused then Err(NotPaused) else Ok(st.(paused := false))
    case Propose(caller, newSigners, newThreshold) =>
      (match CheckSignerSet(newSigners, newThreshold)
       case Trap => Trap
       case Err(e) => Err(e)
       case Ok(_) => Ok(st.(pending := Some(Pending(newSigners, newThreshold, now, [caller])))))
    case Confirm(caller) => ExecuteConfirm(st, caller)
    case Transfer(_) => ExecuteTransfer(st, now)
    case Cancel(_) => if st.pending.None? then Err(NoPendingTransfer) else Ok(st.(pending := None))
  }

  function Execute(st: State, inv: Invocation): Outcome<State, AcError> {
    match Guard(st, inv.call, inv.auth)
    case Trap => Trap
    case Err(e) => Err(e)
    case Ok(_) => Body(st, inv.call, inv.ledger)
  }

  function Next(st: State, inv: Invocation): State { Committed(st, Execute(st, inv)) }

  // ---- the block --------------------------------------------------------------------

  class AccessControlStore {
    var multisig: Option<Multisig>
    var timelock: Option<nat>
    var paused: bool
    var pending: Option<Pending>
    var roles: set<(Role, Address)>

    ghost function Model(): State reads this { State(multisig, timelock, paused, pending, roles) }

    constructor ()
      ensures Model() == EMPTY
    {
      multisig, timelock, paused, pending, roles := None, None, false, None, {};
    }

    /** The nested index loop over the proposed signers. */
    static method ValidateSignerSet(signers: seq<Address>, threshold: nat) returns (r: Outcome<(), AcError>)
      ensures r == CheckSignerSet(signers, threshold)
      ensures r.Ok? <==> ValidSignerSet(signers, threshold)
    {
      if |signers| == 0 || threshold == 0 || threshold > |signers| { return Err(InvalidThreshold); }
      for i := 0 to |signers|
        invariant forall p, q :: 0 <= p < i && p < q < |signers| ==> signers[p] != signers[q]
      {
        for j := i + 1 to |signers|
          invariant forall q :: i < q < j ==> signers[i] != signers[q]
        {
          if signers[j] == signers[i] { return Err(DuplicateSigner); }
        }
      }
      return Ok(());
    }

    method CheckAdmin(caller: Address, auth: set<Address>) returns (r: Outcome<(), AcError>)
      ensures r == RequireAdmin(Model(), caller, auth)
    {
      if caller !in auth { return Trap; }
      if multisig.Some? && caller in multisig.value.signers { return Ok(()); }
      return Err(NotASigner);
    }

    method CheckRole(role: Role, caller: Address, auth: set<Address>) returns (r: Outcome<(), AcError>)
      ensures r == RequireRole(Model(), role, caller, auth)
    {
      if caller !in auth { return Trap; }
      if multisig.Some? && caller in multisig.value.signers { return Ok(()); }
      if role != Admin && (role, caller) in roles { return Ok(()); }
      return Err(Unauthorized);
    }

    method Initialize(signers: seq<Address>, threshold: nat, timelockLedgers: nat, auth: set<Address>, ledger: nat)
      returns (r: Outcome<(), AcError>)
      modifies this
      ensures var body := Execute(old(Model()), Invocation(Call.Initialize(signers, threshold, timelockLedgers),
          auth, ledger));
              Model() == Committed(old(Model()), body) && r == Verdict(body)
    {
      if multisig.Some? { return Err(AlreadyInitialized); }
      r := ValidateSignerSet(signers, threshold);
      if !r.Ok? { return r; }
      if timelockLedgers < MIN_TIMELOCK { return Err(InvalidTimelock); }
      multisig := Some(Multisig(signers, threshold));
      timelock := Some(timelockLedgers);
      paused := false;
    }

    method GrantRole(caller: Address, role: Role, grantee: Address, auth: set<Address>, ledger: nat)
      returns (r: Outcome<(), AcError>)
      modifies this
      ensures var body := Execute(old(Model()), Invocation(Call.GrantRole(caller, role, grantee), auth, ledger));
              Model() == Committed(old(Model()), body) && r == Verdict(body)
    {
      r := CheckAdmin(caller, auth);
      if !r.Ok? { return r; }
      if role == Admin { return Err(CannotGrantAdminRole); }
      roles := roles + {(role, grantee)};
    }

    method RevokeRole(caller: Address, role: Role, grantee: Address, auth: set<Address>, ledger: nat)
      returns (r: Outcome<(), AcError>)
      modifies this
      ensures var body := Execute(old(Model()), Invocation(Call.RevokeRole(caller, role, grantee), auth, ledger));
              Model() == Committed(old(Model()), body) && r == Verdict(body)
    {
      r := CheckAdmin(caller, auth);
      if !r.Ok? { return r; }
      roles := roles - {(role, grantee)};
    }

    method Pause(caller: Address, auth: set<Address>, ledger: nat) returns (r: Outcome<(), AcError>)
      modifies this
      ensures var body := Execute(old(Model()), Invocation(Call.Pause(caller), auth, ledger));
              Model() == Committed(old(Model()), body) && r == Verdict(body)
    {
      r := CheckRole(Pauser, caller, auth);
      if !r.Ok? { return r; }
      if paused { return Err(AlreadyPaused); }
      paused := true;
    }

    method Unpause(caller: Address, auth: set<Address>, ledger: nat) returns (r: Outcome<(), AcError>)
      modifies this
      ensures var body := Execute(old(Model()), Invocation(Call.Unpause(caller), auth, ledger));
              Model() == Committed(old(Model()), body) && r == Verdict(body)
    {
      r := CheckRole(Pauser, caller, auth);
      if !r.Ok? { return r; }
      if !paused { return Err(NotPaused); }
      paused := false;
    }

    method ProposeAdminTransfer(caller: Address, newSigners: seq<Address>, newThreshold: nat,
                                auth: set<Address>, ledger: nat) returns (r: Outcome<(), AcError>)
      modifies this
      ensures var body := Execute(old(Model()), Invocation(Call.Propose(caller, newSigners, newThreshold), auth,
          ledger));
              Model() == Committed(old(Model()), body) && r == Verdict(body)
    {
      r := CheckAdmin(caller, auth);
      if !r.Ok? { return r; }
      r := ValidateSignerSet(newSigners, newThreshold);
      if !r.Ok? { return r; }
      pending := Some(Pending(newSigners, newThreshold, ledger, [caller]));
    }

    method ConfirmAdminTransfer(caller: Address, auth: set<Address>, ledger: nat) returns (r: Outcome<(), AcError>)
      modifies this
      ensures var body := Execute(old(Model()), Invocation(Call.Confirm(caller), auth, ledger));
              Model() == Committed(old(Model()), body) && r == Verdict(body)
    {
      r := CheckAdmin(caller, auth);
      if !r.Ok? { return r; }
      if pending.None? { return Err(NoPendingTransfer); }
      var p := pending.value;
      if caller in p.confirmations { return Err(AlreadyConfirmed); }
      pending := Some(p.(confirmations := p.confirmations + [caller]));
    }

    method ExecuteAdminTransfer(caller: Address, auth: set<Address>, ledger: nat) returns (r: Outcome<(), AcError>)
      modifies this
      ensures var body := Execute(old(Model()), Invocation(Call.Transfer(caller), auth, ledger));
              Model() == Committed(old(Model()), body) && r == Verdict(body)
    {
      r := CheckAdmin(caller, auth);
      if !r.Ok? { return r; }
      if pending.None? { return Err(NoPendingTransfer); }
      var p := pending.value;
      if multisig.None? { return Err(NotInitialized); }
      if |p.confirmations| < multisig.value.threshold { return Err(ThresholdNotMet); }
      var lock := if timelock.Some? then timelock.value else MIN_TIMELOCK;
      if ledger < SaturatingAdd(p.proposedAt, lock, U32_MAX) { return Err(TimelockNotElapsed); }
      multisig := Some(Multisig(p.newSigners, p.newThreshold));
      pending := None;
    }

    method CancelAdminTransfer(caller: Address, auth: set<Address>, ledger: nat) returns (r: Outcome<(), AcError>)
      modifies this
      ensures var body := Execute(old(Model()), Invocation(Call.Cancel(caller), auth, ledger));
              Model() == Committed(old(Model()), body) && r == Verdict(body)
    {
      r := CheckAdmin(caller, auth);
      if !r.Ok? { return r; }
      if pending.None? { return Err(NoPendingTransfer); }
      pending := None;
    }
  }
}
