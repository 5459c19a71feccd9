/** The access-control block against its history: what is in force is what the last
    accepted call that set it asked for, and every answer follows from the log of
    accepted calls. */
module AccessControlHistory {
  import opened Prelude
  import opened AccessControl
  import opened AccessControlRuns

  // ---- the log of accepted calls ------------------------------------------------

  /** The calls of a run that did not fail. */
  ghost function Accepted(calls: seq<Invocation>): seq<Invocation> {
    if calls == [] then []
    else
      var front, last := calls[..|calls| - 1], calls[|calls| - 1];
      Accepted(front) + if Execute(Run(EMPTY, front), last).Ok? then [last] else []
  }

  /** The proposal the log leaves open, with everyone who stands behind it. */
  ghost function ProposalIn(log: seq<Invocation>): Option<Pending> {
    if log == [] then None
    else
      var before, last := ProposalIn(log[..|log| - 1]), log[|log| - 1];
      match last.call
      case Propose(caller, signers, threshold) => Some(Pending(signers, threshold, last.ledger, [caller]))
      case Confirm(caller) =>
        if before.None? then None
        else Some(before.value.(confirmations := before.value.confirmations + [caller]))
      case Transfer(_) => None
      case Cancel(_) => None
      case _ => before
  }

  /** The signers and threshold the log installed last. */
  ghost function MultisigIn(log: seq<Invocation>): Option<Multisig> {
    if log == [] then None
    else
      var front := log[..|log| - 1];
      match log[|log| - 1].call
      case Initialize(signers, threshold, _) => Some(Multisig(signers, threshold))
      case Transfer(_) =>
        (match ProposalIn(front)
         case None => MultisigIn(front)
         case Some(p) => Some(Multisig(p.newSigners, p.newThreshold)))
      case _ => MultisigIn(front)
  }

  ghost function TimelockIn(log: seq<Invocation>): Option<nat> {
    if log == [] then None
    else
      match log[|log| - 1].call
      case Initialize(_, _, timelockLedgers) => Some(timelockLedgers)
      case _ => TimelockIn(log[..|log| - 1])
  }

  ghost predicate PausedIn(log: seq<Invocation>) {
    if log == [] then false
    else
      match log[|log| - 1].call
      case Pause(_) => true
      case Unpause(_) => false
      case _ => PausedIn(log[..|log| - 1])
  }

  ghost predicate GrantedIn(log: seq<Invocation>, role: Role, a: Address) {
    if log == [] then false
    else
      match log[|log| - 1].call
      case GrantRole(_, r, grantee) => (r == role && grantee == a) || GrantedIn(log[..|log| - 1], role, a)
      case RevokeRole(_, r, grantee) => !(r == role && grantee == a) && GrantedIn(log[..|log| - 1], role, a)
      case _ => GrantedIn(log[..|log| - 1], role, a)
  }

  ghost predicate RolesAgree(roles: set<(Role, Address)>, log: seq<Invocation>) {
    forall role: Role, a: Address :: GrantedIn(log, role, a) <==> (role, a) in roles
  }

  ghost predicate Agrees(st: State, log: seq<Invocation>) {
    && st.multisig == MultisigIn(log) && st.pending == ProposalIn(log) && st.timelock == TimelockIn(log)
    && st.paused == PausedIn(log) && RolesAgree(st.roles, log)
    && (log == [] <==> st.multisig.None?)
  }

  lemma RolesStep(st: State, log: seq<Invocation>, inv: Invocation)
    requires RolesAgree(st.roles, log) && Execute(st, inv).Ok?
    ensures RolesAgree(Execute(st, inv).value.roles, log + [inv])
  {
    assert (log + [inv])[..|log|] == log;
    forall role: Role, a: Address
      ensures GrantedIn(log + [inv], role, a) <==> (role, a) in Execute(st, inv).value.roles
    {
      assert GrantedIn(log, role, a) <==> (role, a) in st.roles;
    }
  }

  lemma EmptyRoles(roles: set<(Role, Address)>)
    requires RolesAgree(roles, [])
    ensures roles == {}
  {
    forall entry: (Role, Address) ensures entry !in roles {
      assert GrantedIn([], entry.0, entry.1) <==> (entry.0, entry.1) in roles;
    }
  }

  lemma LogStep(st: State, log: seq<Invocation>, inv: Invocation)
    requires Agrees(st, log) && Execute(st, inv).Ok?
    ensures Agrees(Execute(st, inv).value, log + [inv])
  {
    assert (log + [inv])[..|log|] == log;
    RolesStep(st, log, inv);
    if log == [] { EmptyRoles(st.roles); }
  }

  /** Everything the contract stores is determined by the calls it accepted. */
  lemma {:induction false} StateIsTheLog(calls: seq<Invocation>)
    ensures Agrees(Run(EMPTY, calls), Accepted(calls))
  {
    if calls != [] {
      var front, last := calls[..|calls| - 1], calls[|calls| - 1];
      StateIsTheLog(front);
      if Execute(Run(EMPTY, front), last).Ok? {
        LogStep(Run(EMPTY, front), Accepted(front), last);
      } else {
        assert Accepted(calls) == Accepted(front);
      }
    }
  }

  // ---- every answer -------------------------------------------------------------

  ghost predicate SignerIn(log: seq<Invocation>, a: Address) {
    MultisigIn(log).Some? && a in MultisigIn(log).value.signers
  }

  /** What is wrong with a signer set, if anything. */
  ghost function SetAnswer(signers: seq<Address>, threshold: nat): Outcome<(), AcError> {
    if !(1 <= threshold <= |signers|) then Err(InvalidThreshold)
    else if exists i, j :: 0 <= i < j < |signers| && signers[i] == signers[j] then Err(DuplicateSigner)
    else Ok(())
  }

  ghost function TransferAnswer(m: Multisig, timelock: Option<nat>, open: Option<Pending>, ledger: nat)
    : Outcome<(), AcError>
  {
    if open.None? then Err(NoPendingTransfer)
    else if |open.value.confirmations| < m.threshold then Err(ThresholdNotMet)
    else
      var unlocked := open.value.proposedAt + if timelock.Some? then timelock.value else 34_560;
      if ledger < unlocked && ledger < 4_294_967_295 then Err(TimelockNotElapsed) else Ok(())
  }

  /** What a signed call by someone entitled to it is answered. */
  ghost function EntitledAnswer(log: seq<Invocation>, inv: Invocation): Outcome<(), AcError> {
    var open := ProposalIn(log);
    match inv.call
    case Initialize(signers, threshold, timelockLedgers) =>
      if log != [] then Err(AlreadyInitialized)
      else if !SetAnswer(signers, threshold).Ok? then SetAnswer(signers, threshold)
      else if timelockLedgers < 34_560 then Err(InvalidTimelock)
      else Ok(())
    case GrantRole(_, role, _) => if role == Admin then Err(CannotGrantAdminRole) else Ok(())
    case RevokeRole(_, _, _) => Ok(())
    case Pause(_) => if PausedIn(log) then Err(AlreadyPaused) else Ok(())
    case Unpause(_) => if PausedIn(log) then Ok(()) else Err(NotPaused)
    case Propose(_, signers, threshold) => SetAnswer(signers, threshold)
    case Confirm(caller) =>
      if open.None? then Err(NoPendingTransfer)
      else if caller in open.value.confirmations then Err(AlreadyConfirmed)
      else Ok(())
    case Transfer(_) =>
      if MultisigIn(log).None? then Err(NotASigner)
      else TransferAnswer(MultisigIn(log).value, TimelockIn(log), open, inv.ledger)
    case Cancel(_) => if open.None? then Err(NoPendingTransfer) else Ok(())
  }

  /** The answer the log calls for. */
  ghost function Answer(log: seq<Invocation>, inv: Invocation): Outcome<(), AcError> {
    if inv.call.Initialize? then EntitledAnswer(log, inv)
    else
      var caller := inv.call.caller;
      if caller !in inv.auth then Trap
      else if SignerIn(log, caller) then EntitledAnswer(log, inv)
      else if inv.call.Pause? || inv.call.Unpause? then
        (if GrantedIn(log, Pauser, caller) then EntitledAnswer(log, inv) else Err(Unauthorized))
      else Err(NotASigner)
  }

  lemma SetAnswers(signers: seq<Address>, threshold: nat)
    ensures CheckSignerSet(signers, threshold) == SetAnswer(signers, threshold)
  {
  }

  lemma BodyAnswers(st: State, log: seq<Invocation>, inv: Invocation)
    requires Agrees(st, log) && Guard(st, inv.call, inv.auth).Ok?
    requires inv.call.Transfer? ==> st.multisig.Some?
    ensures Verdict(Body(st, inv.call, inv.ledger)) == EntitledAnswer(log, inv)
  {
    match inv.call
    case Initialize(signers, threshold, _) => SetAnswers(signers, threshold);
    case Propose(_, signers, threshold) => SetAnswers(signers, threshold);
    case _ =>
  }

  /** Every entry point answers what the log of accepted calls so far calls for. */
  lemma AnswersFollowTheLog(calls: seq<Invocation>, inv: Invocation)
    ensures Verdict(Execute(Run(EMPTY, calls), inv)) == Answer(Accepted(calls), inv)
  {
    StateIsTheLog(calls);
    var st, log := Run(EMPTY, calls), Accepted(calls);
    if Guard(st, inv.call, inv.auth).Ok? { BodyAnswers(st, log, inv); }
    if inv.call.Pause? || inv.call.Unpause? {
      assert GrantedIn(log, Pauser, inv.call.caller) <==> (Pauser, inv.call.caller) in st.roles;
    }
  }

  // ---- the setting in force, call by call ------------------------------------------

  /** Call `k` installed `m`: an accepted initialization asked for it, or an executed transfer
      closed the accepted proposal of it that was open. */
  ghost predicate Installs(calls: seq<Invocation>, k: nat, m: Multisig)
    requires k < |calls|
  {
    Succeeds(calls, k)
    && ((calls[k].call.Initialize? && m == Multisig(calls[k].call.signers, calls[k].call.threshold))
        || (calls[k].call.Transfer? && exists p :: Proposes(calls, p, k, m)))
  }

  /** The proposal of `m` at `p` is still open at `k`. */
  ghost predicate Proposes(calls: seq<Invocation>, p: nat, k: nat, m: Multisig)
    requires k < |calls|
  {
    && p < k && Succeeds(calls, p) && calls[p].call.Propose?
    && m == Multisig(calls[p].call.newSigners, calls[p].call.newThreshold)
    && forall j :: p < j < k ==> !Closes(calls, j)
  }

  ghost predicate Sets(calls: seq<Invocation>, k: nat)
    requires k < |calls|
  {
    Succeeds(calls, k) && (calls[k].call.Initialize? || calls[k].call.Transfer?)
  }

  lemma SettingStep(calls: seq<Invocation>, k: nat)
    requires k < |calls|
    ensures var before, after := StateBefore(calls, k).multisig, StateBefore(calls, k + 1).multisig;
            if Sets(calls, k) then after.Some? && Installs(calls, k, after.value) else after == before
  {
    StateBeforeNext(calls, k);
    if Succeeds(calls, k) && calls[k].call.Transfer? {
      var p := PendingHasOrigin(calls, k);
      assert Proposes(calls, p, k, StateBefore(calls, k + 1).multisig.value);
    }
  }

  /** The signers and the threshold in force are, at every point of every run, those that the
      last accepted call that sets them installed; before the first one there are none. */
  lemma {:induction false} SignersFollowHistory(calls: seq<Invocation>, n: nat)
    requires n <= |calls|
    ensures match StateBefore(calls, n).multisig
            case None => forall k :: 0 <= k < n ==> !Sets(calls, k)
            case Some(m) => exists k :: 0 <= k < n && Installs(calls, k, m) && forall j :: k < j < n ==> !Sets(calls, j)
  {
    if n == 0 {
      assert calls[..0] == [];
    } else {
      SignersFollowHistory(calls, n - 1);
      SettingStep(calls, n - 1);
      if Sets(calls, n - 1) {
        assert Installs(calls, n - 1, StateBefore(calls, n).multisig.value);
      } else if StateBefore(calls, n).multisig.Some? {
        var m := StateBefore(calls, n).multisig.value;
        var k :| 0 <= k < n - 1 && Installs(calls, k, m) && forall j :: k < j < n - 1 ==> !Sets(calls, j);
        assert forall j :: k < j < n ==> !Sets(calls, j);
      }
    }
  }

  /** Initialization succeeds at most once, and the timelock in force is the one it asked for. */
  lemma {:induction false} InitializedOnce(calls: seq<Invocation>, k: nat, n: nat)
    requires k < n <= |calls| && Succeeds(calls, k) && calls[k].call.Initialize?
    ensures StateBefore(calls, n).multisig.Some?
    ensures StateBefore(calls, n).timelock == Some(calls[k].call.timelockLedgers)
    ensures forall j :: k < j < n && Succeeds(calls, j) ==> !calls[j].call.Initialize?
  {
    StateBeforeNext(calls, n - 1);
    if n > k + 1 { InitializedOnce(calls, k, n - 1); }
  }
}
