/** Whole-run properties of the access-control block: who can change the signer set,
    what every change was preceded by, and that a change is always possible. */
module AccessControlRuns {
  import opened Prelude
  import opened AccessControl

  function Run(st: State, calls: seq<Invocation>): State {
    if calls == [] then st else Next(Run(st, calls[..|calls| - 1]), calls[|calls| - 1])
  }

  /** Ledger sequences are u32, never go back, and lie between `from` and `to`. */
  ghost predicate Clocked(calls: seq<Invocation>, from: nat, to: nat) {
    && from <= to <= U32_MAX
    && (forall i :: 0 <= i < |calls| ==> from <= calls[i].ledger <= to)
    && (forall i, j :: 0 <= i < j < |calls| ==> calls[i].ledger <= calls[j].ledger)
  }

  lemma {:induction false} RunConcat(st: State, a: seq<Invocation>, b: seq<Invocation>)
    ensures Run(st, a + b) == Run(Run(st, a), b)
  {
    if b == [] {
      assert a + b == a;
    } else {
      RunConcat(st, a, b[..|b| - 1]);
      assert (a + b)[..|a + b| - 1] == a + b[..|b| - 1];
    }
  }

  lemma RunOne(st: State, inv: Invocation)
    ensures Run(st, [inv]) == Next(st, inv)
  {
    assert [inv][..0] == [];
  }

  // ---- what every call keeps ------------------------------------------------------

  ghost predicate PendingOk(p: Pending, signers: seq<Address>, now: nat) {
    && ValidSignerSet(p.newSigners, p.newThreshold)
    && p.proposedAt <= now
    && Distinct(p.confirmations)
    && Elements(p.confirmations) <= Elements(signers)
  }

  /** No lock-out: the signers are distinct and can reach the threshold, a pending
      transfer is to such a set too, and only current signers have confirmed it, once each. */
  ghost predicate Inv(st: State, now: nat) {
    && (st.multisig.Some? ==>
          && ValidSignerSet(st.multisig.value.signers, st.multisig.value.threshold)
          && st.timelock.Some? && st.timelock.value >= MIN_TIMELOCK)
    && (st.pending.Some? ==>
          st.multisig.Some? && PendingOk(st.pending.value, st.multisig.value.signers, now))
    && (forall a :: (Admin, a) !in st.roles)
  }

  lemma NextKeepsInv(st: State, inv: Invocation)
    requires Inv(st, inv.ledger)
    ensures Inv(Next(st, inv), inv.ledger)
  {
    var body := Execute(st, inv);
    if body.Ok? && inv.call.Confirm? {
      var p, q := st.pending.value, body.value.pending.value;
      assert Elements(q.confirmations) == Elements(p.confirmations) + {inv.call.caller};
    } else if body.Ok? && inv.call.Propose? {
      assert Elements([inv.call.caller]) == {inv.call.caller};
    }
  }

  lemma {:induction false} RunKeepsInv(st: State, calls: seq<Invocation>, from: nat, to: nat)
    requires Inv(st, from) && Clocked(calls, from, to)
    ensures Inv(Run(st, calls), to)
  {
    if calls != [] {
      var last := calls[|calls| - 1];
      RunKeepsInv(st, calls[..|calls| - 1], from, last.ledger);
      NextKeepsInv(Run(st, calls[..|calls| - 1]), last);
    }
  }

  /** Every reachable state satisfies the invariant. */
  lemma {:induction false} ReachableInv(calls: seq<Invocation>, now: nat)
    requires Clocked(calls, 0, now)
    ensures Inv(Run(EMPTY, calls), now)
  {
    RunKeepsInv(EMPTY, calls, 0, now);
  }

  // ---- coalition safety -------------------------------------------------------------

  /** Every call that carries its caller's signature comes from the coalition. */
  ghost predicate OnlyFrom(calls: seq<Invocation>, coalition: set<Address>) {
    forall i :: 0 <= i < |calls| && !calls[i].call.Initialize? ==>
      calls[i].call.caller in calls[i].auth ==> calls[i].call.caller in coalition
  }

  ghost predicate TooFew(m: Multisig, coalition: set<Address>) {
    |coalition * Elements(m.signers)| < m.threshold
  }

  /** Whatever is pending was confirmed by the coalition alone. */
  ghost predicate ConfirmedBy(st: State, coalition: set<Address>) {
    st.pending.Some? ==> Elements(st.pending.value.confirmations) <= coalition
  }

  lemma CoalitionStep(st: State, inv: Invocation, coalition: set<Address>)
    requires Inv(st, inv.ledger) && st.multisig.Some? && TooFew(st.multisig.value, coalition)
    requires ConfirmedBy(st, coalition) && OnlyFrom([inv], coalition)
    ensures Next(st, inv).multisig == st.multisig && ConfirmedBy(Next(st, inv), coalition)
  {
    var body := Execute(st, inv);
    assert [inv][0] == inv;
    if body.Ok? && inv.call.Transfer? {
      var p := st.pending.value;
      DistinctSize(p.confirmations);
      SubsetSize(Elements(p.confirmations), coalition * Elements(st.multisig.value.signers));
      assert false;
    } else if body.Ok? && inv.call.Confirm? {
      assert Elements(body.value.pending.value.confirmations)
          == Elements(st.pending.value.confirmations) + {inv.call.caller};
    } else if body.Ok? && inv.call.Propose? {
      assert Elements([inv.call.caller]) == {inv.call.caller};
    }
  }

  lemma {:induction false} CoalitionRun(st: State, calls: seq<Invocation>, coalition: set<Address>, from: nat, to: nat)
    requires Inv(st, from) && Clocked(calls, from, to)
    requires st.multisig.Some? && TooFew(st.multisig.value, coalition)
    requires ConfirmedBy(st, coalition) && OnlyFrom(calls, coalition)
    ensures Run(st, calls).multisig == st.multisig && ConfirmedBy(Run(st, calls), coalition)
  {
    if calls != [] {
      var front, last := calls[..|calls| - 1], calls[|calls| - 1];
      CoalitionRun(st, front, coalition, from, last.ledger);
      RunKeepsInv(st, front, from, last.ledger);
      CoalitionStep(Run(st, front), last, coalition);
    }
  }

  /** Coalition safety: from any reachable state with nothing pending, callers among whom
      fewer than `threshold` are current signers never change the signer set or the
      threshold, by any sequence of calls at any ledgers. */
  lemma CoalitionSafety(history: seq<Invocation>, calls: seq<Invocation>, coalition: set<Address>, now: nat, later: nat)
    requires Clocked(history, 0, now) && Clocked(calls, now, later)
    requires var st := Run(EMPTY, history);
             st.multisig.Some? && st.pending.None? && TooFew(st.multisig.value, coalition)
    requires OnlyFrom(calls, coalition)
    ensures Run(EMPTY, history + calls).multisig == Run(EMPTY, history).multisig
  {
    ReachableInv(history, now);
    CoalitionRun(Run(EMPTY, history), calls, coalition, now, later);
    RunConcat(EMPTY, history, calls);
  }

  // ---- every executed transfer was justified ---------------------------------------------

  function StateBefore(calls: seq<Invocation>, k: nat): State
    requires k <= |calls|
  {
    Run(EMPTY, calls[..k])
  }

  predicate Succeeds(calls: seq<Invocation>, k: nat)
    requires k < |calls|
  {
    Execute(StateBefore(calls, k), calls[k]).Ok?
  }

  /** Whether call `k` closed or replaced whatever was pending. */
  predicate Closes(calls: seq<Invocation>, k: nat)
    requires k < |calls|
  {
    Succeeds(calls, k) && (calls[k].call.Propose? || calls[k].call.Transfer? || calls[k].call.Cancel?)
  }

  /** The proposer at `p` and everyone who confirmed between `p` and `k`. */
  ghost function Voters(calls: seq<Invocation>, p: nat, k: nat): set<Address>
    requires p < k <= |calls| && calls[p].call.Propose?
  {
    {calls[p].call.caller}
    + set j | p < j < k && Succeeds(calls, j) && calls[j].call.Confirm? :: calls[j].call.caller
  }

  /** The pending transfer after `calls[..k]` is the one proposed at `p`, untouched since
      except for the confirmations of its voters. */
  ghost predicate IsOrigin(calls: seq<Invocation>, p: nat, k: nat, pending: Pending)
    requires k <= |calls|
  {
    && p < k && calls[p].call.Propose? && Succeeds(calls, p)
    && pending.newSigners == calls[p].call.newSigners
    && pending.newThreshold == calls[p].call.newThreshold
    && pending.proposedAt == calls[p].ledger
    && (forall j :: p < j < k ==> !Closes(calls, j))
    && Elements(pending.confirmations) == Voters(calls, p, k)
  }

  lemma StateBeforeNext(calls: seq<Invocation>, k: nat)
    requires k < |calls|
    ensures StateBefore(calls, k + 1) == Next(StateBefore(calls, k), calls[k])
  {
    assert calls[..k + 1][..k] == calls[..k];
  }

  lemma OriginOfProposal(calls: seq<Invocation>, k: nat)
    requires k < |calls| && calls[k].call.Propose? && Succeeds(calls, k)
    ensures StateBefore(calls, k + 1).pending.Some?
    ensures IsOrigin(calls, k, k + 1, StateBefore(calls, k + 1).pending.value)
  {
    StateBeforeNext(calls, k);
    assert Elements([calls[k].call.caller]) == {calls[k].call.caller};
    assert Voters(calls, k, k + 1) == {calls[k].call.caller};
  }

  /** How one call moves the pending slot when it does not close it. */
  lemma PendingStep(st: State, inv: Invocation)
    requires Next(st, inv).pending.Some?
    requires !(Execute(st, inv).Ok? && inv.call.Propose?)
    ensures st.pending.Some? && !(Execute(st, inv).Ok? && (inv.call.Transfer? || inv.call.Cancel?))
    ensures var before, after := st.pending.value, Next(st, inv).pending.value;
            if Execute(st, inv).Ok? && inv.call.Confirm?
            then after == before.(confirmations := before.confirmations + [inv.call.caller])
            else after == before
  {
  }

  lemma VotersGrow(calls: seq<Invocation>, p: nat, k: nat)
    requires p < k < |calls| && calls[p].call.Propose?
    ensures Voters(calls, p, k + 1)
         == Voters(calls, p, k) + if Succeeds(calls, k) && calls[k].call.Confirm? then {calls[k].call.caller} else {}
  {
  }

  lemma OriginStays(calls: seq<Invocation>, p: nat, k: nat, before: Pending, after: Pending)
    requires k < |calls| && IsOrigin(calls, p, k, before) && !Closes(calls, k)
    requires if Succeeds(calls, k) && calls[k].call.Confirm?
             then after == before.(confirmations := before.confirmations + [calls[k].call.caller])
             else after == before
    ensures IsOrigin(calls, p, k + 1, after)
  {
    assert Elements(after.confirmations) == Voters(calls, p, k + 1) by {
      VotersGrow(calls, p, k);
      if Succeeds(calls, k) && calls[k].call.Confirm? {
        assert Elements(after.confirmations) == Elements(before.confirmations) + {calls[k].call.caller};
      }
    }
  }

  lemma {:induction false} PendingHasOrigin(calls: seq<Invocation>, k: nat) returns (p: nat)
    requires k <= |calls| && StateBefore(calls, k).pending.Some?
    ensures IsOrigin(calls, p, k, StateBefore(calls, k).pending.value)
    decreases k
  {
    assert calls[..0] == [];
    StateBeforeNext(calls, k - 1);
    if Succeeds(calls, k - 1) && calls[k - 1].call.Propose? {
      p := k - 1;
      OriginOfProposal(calls, k - 1);
    } else {
      PendingStep(StateBefore(calls, k - 1), calls[k - 1]);
      p := PendingHasOrigin(calls, k - 1);
      OriginStays(calls, p, k - 1, StateBefore(calls, k - 1).pending.value, StateBefore(calls, k).pending.value);
    }
  }

  /** Justified change: a transfer that executes at call `k` installs exactly the set
      proposed at an earlier call `p`, untouched in between; at least `threshold` distinct
      current signers proposed or confirmed that very proposal; and the timelock, added
      with saturation, had elapsed. */
  lemma TransferIsJustified(calls: seq<Invocation>, k: nat, now: nat) returns (p: nat)
    requires Clocked(calls, 0, now) && k < |calls| && calls[k].call.Transfer? && Succeeds(calls, k)
    ensures p < k && calls[p].call.Propose? && Succeeds(calls, p)
    ensures StateBefore(calls, k + 1).multisig
         == Some(Multisig(calls[p].call.newSigners, calls[p].call.newThreshold))
    ensures forall j :: p < j < k ==> !Closes(calls, j)
    ensures var current := StateBefore(calls, k).multisig;
            && current.Some? && Voters(calls, p, k) <= Elements(current.value.signers)
            && |Voters(calls, p, k)| >= current.value.threshold
    ensures calls[k].ledger >= UnlocksAt(calls[p].ledger, TimelockOf(StateBefore(calls, k)))
    ensures TimelockOf(StateBefore(calls, k)) >= MIN_TIMELOCK
  {
    StateBeforeNext(calls, k);
    p := PendingHasOrigin(calls, k);
    RunKeepsInv(EMPTY, calls[..k], 0, calls[k].ledger);
    DistinctSize(StateBefore(calls, k).pending.value.confirmations);
  }

  // ---- a change is always possible ---------------------------------------------------------

  function ConfirmBy(a: Address, ledger: nat): Invocation { Invocation(Confirm(a), {a}, ledger) }

  function Confirmations(signers: seq<Address>, ledger: nat): seq<Invocation> {
    seq(|signers|, i requires 0 <= i < |signers| => ConfirmBy(signers[i], ledger))
  }

  /** The first voter proposes, the others confirm, and once the timelock has run the first
      one executes. */
  function InstallRun(st: State, voters: seq<Address>, target: seq<Address>, threshold: nat, now: nat): seq<Invocation>
    requires voters != []
  {
    [Invocation(Propose(voters[0], target, threshold), {voters[0]}, now)]
    + Confirmations(voters[1..], now)
    + [Invocation(Transfer(voters[0]), {voters[0]}, UnlocksAt(now, TimelockOf(st)))]
  }

  /** Different current signers, at least `threshold` of them. */
  ghost predicate Quorum(m: Multisig, voters: seq<Address>) {
    Distinct(voters) && Elements(voters) <= Elements(m.signers) && |voters| >= m.threshold
  }

  lemma ConfirmNext(st: State, m: Multisig, voters: seq<Address>, n: nat, now: nat)
    requires st.multisig == Some(m) && Distinct(voters) && n < |voters| && voters[n] in m.signers
    requires st.pending.Some? && st.pending.value.confirmations == voters[..n]
    ensures Next(st, ConfirmBy(voters[n], now))
         == st.(pending := Some(st.pending.value.(confirmations := voters[..n + 1])))
  {
    assert voters[n] !in voters[..n];
    assert voters[..n] + [voters[n]] == voters[..n + 1];
  }

  lemma {:induction false} ConfirmationsCollect(st: State, m: Multisig, voters: seq<Address>, pending: Pending,
                                                n: nat, now: nat)
    requires st.multisig == Some(m) && Distinct(voters) && n < |voters| && Elements(voters) <= Elements(m.signers)
    requires st.pending == Some(pending) && pending.confirmations == [voters[0]]
    ensures Run(st, Confirmations(voters[1..n + 1], now))
         == st.(pending := Some(pending.(confirmations := voters[..n + 1])))
  {
    var calls := Confirmations(voters[1..n + 1], now);
    if n == 0 {
      assert calls == [];
      assert voters[..1] == [voters[0]];
    } else {
      ConfirmationsCollect(st, m, voters, pending, n - 1, now);
      assert calls[..n - 1] == Confirmations(voters[1..n], now);
      assert calls[n - 1] == ConfirmBy(voters[n], now);
      assert voters[n] in Elements(voters);
      ConfirmNext(st.(pending := Some(pending.(confirmations := voters[..n]))), m, voters, n, now);
    }
  }

  lemma InstallRunClocked(st: State, voters: seq<Address>, target: seq<Address>, threshold: nat, now: nat)
    requires now <= U32_MAX && voters != []
    ensures Clocked(InstallRun(st, voters, target, threshold, now), now, U32_MAX)
  {
    var calls := InstallRun(st, voters, target, threshold, now);
    var last := |calls| - 1;
    assert calls[last].ledger == UnlocksAt(now, TimelockOf(st));
    assert forall i :: 0 <= i < last ==> calls[i].ledger == now;
  }

  lemma ProposeStep(st: State, proposer: Address, target: seq<Address>, threshold: nat, now: nat)
    requires IsSigner(st, proposer) && ValidSignerSet(target, threshold)
    ensures Next(st, Invocation(Propose(proposer, target, threshold), {proposer}, now))
         == st.(pending := Some(Pending(target, threshold, now, [proposer])))
  {
  }

  lemma TransferStep(st: State, signer: Address, pending: Pending, now: nat)
    requires IsSigner(st, signer) && st.pending == Some(pending)
    requires |pending.confirmations| >= st.multisig.value.threshold
    requires now >= UnlocksAt(pending.proposedAt, TimelockOf(st))
    ensures Next(st, Invocation(Transfer(signer), {signer}, now))
         == st.(multisig := Some(Multisig(pending.newSigners, pending.newThreshold)), pending := None)
  {
  }

  /** A quorum that acts together installs what it wants. */
  lemma InstallRunWorks(st: State, voters: seq<Address>, target: seq<Address>, threshold: nat, now: nat)
    requires st.multisig.Some? && voters != [] && Quorum(st.multisig.value, voters) && ValidSignerSet(target, threshold)
    ensures Run(st, InstallRun(st, voters, target, threshold, now))
         == st.(multisig := Some(Multisig(target, threshold)), pending := None)
  {
    var calls := InstallRun(st, voters, target, threshold, now);
    var propose, transfer := calls[0], calls[|calls| - 1];
    var confirms := Confirmations(voters[1..], now);
    assert voters[0] in Elements(voters) && voters[1..|voters|] == voters[1..] && voters[..|voters|] == voters;
    var pending := Pending(target, threshold, now, [voters[0]]);
    var proposed := st.(pending := Some(pending));
    RunOne(st, propose);
    ProposeStep(st, voters[0], target, threshold, now);
    ConfirmationsCollect(proposed, st.multisig.value, voters, pending, |voters| - 1, now);
    RunConcat(st, [propose], confirms);
    var confirmed := proposed.(pending := Some(pending.(confirmations := voters)));
    RunOne(confirmed, transfer);
    TransferStep(confirmed, voters[0], confirmed.pending.value, transfer.ledger);
    RunConcat(st, [propose] + confirms, [transfer]);
  }

  /** No lock-out: from every reachable initialised state the first `threshold` signers have
      a run that installs any valid target set. */
  lemma CanAlwaysInstall(history: seq<Invocation>, target: seq<Address>, threshold: nat, now: nat)
    requires Clocked(history, 0, now) && Run(EMPTY, history).multisig.Some?
    requires ValidSignerSet(target, threshold)
    ensures var m := Run(EMPTY, history).multisig.value; 1 <= m.threshold <= |m.signers|
    ensures var m := Run(EMPTY, history).multisig.value;
            var calls := InstallRun(Run(EMPTY, history), m.signers[..m.threshold], target, threshold, now);
            && Clocked(calls, now, U32_MAX)
            && Run(EMPTY, history + calls).multisig == Some(Multisig(target, threshold))
            && Run(EMPTY, history + calls).pending == None
  {
    ReachableInv(history, now);
    var st := Run(EMPTY, history);
    var m := st.multisig.value;
    var voters := m.signers[..m.threshold];
    assert Elements(voters) <= Elements(m.signers);
    InstallRunClocked(st, voters, target, threshold, now);
    InstallRunWorks(st, voters, target, threshold, now);
    RunConcat(EMPTY, history, InstallRun(st, voters, target, threshold, now));
  }

  // ---- exactly the quorums decide --------------------------------------------------------------

  function Members(signers: seq<Address>, coalition: set<Address>): seq<Address> {
    if signers == [] then []
    else
      var front, a := Members(signers[..|signers| - 1], coalition), signers[|signers| - 1];
      if a in coalition then front + [a] else front
  }

  lemma {:induction false} MembersAre(signers: seq<Address>, coalition: set<Address>)
    ensures Elements(Members(signers, coalition)) == coalition * Elements(signers)
    ensures Distinct(signers) ==> Distinct(Members(signers, coalition))
  {
    if signers != [] {
      var front, a := signers[..|signers| - 1], signers[|signers| - 1];
      MembersAre(front, coalition);
      assert Elements(signers) == Elements(front) + {a};
      var members := Members(front, coalition);
      assert Elements(members + [a]) == Elements(members) + {a};
      if Distinct(signers) {
        assert a !in front;
        assert a !in members by { assert a in members ==> a in Elements(members); }
      }
    }
  }

  /** The members of the coalition among the signers, as many as the threshold asks. */
  lemma QuorumOf(m: Multisig, coalition: set<Address>) returns (voters: seq<Address>)
    requires ValidSignerSet(m.signers, m.threshold) && !TooFew(m, coalition)
    ensures voters != [] && Quorum(m, voters) && Elements(voters) <= coalition
  {
    voters := Members(m.signers, coalition);
    MembersAre(m.signers, coalition);
    DistinctSize(voters);
  }

  /** The run changes the signer set or the threshold. */
  ghost predicate Changes(history: seq<Invocation>, calls: seq<Invocation>) {
    Run(EMPTY, history + calls).multisig != Run(EMPTY, history).multisig
  }

  lemma QuorumCanChange(history: seq<Invocation>, coalition: set<Address>, now: nat) returns (calls: seq<Invocation>)
    requires Clocked(history, 0, now) && Run(EMPTY, history).multisig.Some?
    requires !TooFew(Run(EMPTY, history).multisig.value, coalition)
    ensures Clocked(calls, now, U32_MAX) && OnlyFrom(calls, coalition) && Changes(history, calls)
  {
    ReachableInv(history, now);
    var st := Run(EMPTY, history);
    var voters := QuorumOf(st.multisig.value, coalition);
    var other: Address := if st.multisig.value.signers[0] == 0 then 1 else 0;
    calls := InstallRun(st, voters, [other], 1, now);
    InstallRunClocked(st, voters, [other], 1, now);
    InstallRunWorks(st, voters, [other], 1, now);
    RunConcat(EMPTY, history, calls);
    assert [other][0] == other;
    forall i | 0 <= i < |calls| ensures calls[i].call.caller in coalition {
      assert calls[i].call.caller in voters;
      assert calls[i].call.caller in Elements(voters);
    }
  }

  /** From any reachable initialised state with nothing pending: a coalition can change the
      signer set or the threshold if and only if it holds at least `threshold` of the
      current signers. */
  lemma CoalitionDecidesExactly(history: seq<Invocation>, coalition: set<Address>, now: nat)
    requires Clocked(history, 0, now)
    requires Run(EMPTY, history).multisig.Some? && Run(EMPTY, history).pending.None?
    ensures |coalition * Elements(Run(EMPTY, history).multisig.value.signers)|
              >= Run(EMPTY, history).multisig.value.threshold
            <==> exists calls :: Clocked(calls, now, U32_MAX) && OnlyFrom(calls, coalition) && Changes(history, calls)
  {
    var m := Run(EMPTY, history).multisig.value;
    if TooFew(m, coalition) {
      forall calls | Clocked(calls, now, U32_MAX) && OnlyFrom(calls, coalition) ensures !Changes(history, calls) {
        CoalitionSafety(history, calls, coalition, now, U32_MAX);
      }
    } else {
      var calls := QuorumCanChange(history, coalition, now);
    }
  }

  // ---- roles and pause follow the history ------------------------------------------------

  predicate Grants(calls: seq<Invocation>, k: nat, role: Role, a: Address)
    requires k < |calls|
  {
    Succeeds(calls, k) && calls[k].call.GrantRole? && calls[k].call.role == role && calls[k].call.grantee == a
  }

  predicate Revokes(calls: seq<Invocation>, k: nat, role: Role, a: Address)
    requires k < |calls|
  {
    Succeeds(calls, k) && calls[k].call.RevokeRole? && calls[k].call.role == role && calls[k].call.grantee == a
  }

  /** Some grant of the role to `a` was not revoked since. */
  ghost predicate GrantStands(calls: seq<Invocation>, n: nat, role: Role, a: Address)
    requires n <= |calls|
  {
    exists k :: 0 <= k < n && Grants(calls, k, role, a) && forall j :: k < j < n ==> !Revokes(calls, j, role, a)
  }

  lemma RolesStep(st: State, inv: Invocation, role: Role, a: Address)
    ensures (role, a) in Next(st, inv).roles <==>
              || (Execute(st, inv).Ok? && inv.call.GrantRole? && inv.call.role == role && inv.call.grantee == a)
              || ((role, a) in st.roles
                  && !(Execute(st, inv).Ok? && inv.call.RevokeRole? && inv.call.role == role && inv.call.grantee == a))
  {
  }

  lemma GrantStandsStep(calls: seq<Invocation>, n: nat, role: Role, a: Address)
    requires 0 < n <= |calls|
    ensures GrantStands(calls, n, role, a) <==>
              Grants(calls, n - 1, role, a) || (GrantStands(calls, n - 1, role, a) && !Revokes(calls, n - 1, role, a))
  {
    if Grants(calls, n - 1, role, a) {
      assert GrantStands(calls, n, role, a);
    } else if GrantStands(calls, n - 1, role, a) && !Revokes(calls, n - 1, role, a) {
      var k :| 0 <= k < n - 1 && Grants(calls, k, role, a) && forall j :: k < j < n - 1 ==> !Revokes(calls, j, role, a);
      assert forall j :: k < j < n ==> !Revokes(calls, j, role, a);
    }
  }

  lemma {:induction false} RolesFollowHistory(calls: seq<Invocation>, n: nat, role: Role, a: Address)
    requires n <= |calls|
    ensures (role, a) in StateBefore(calls, n).roles <==> GrantStands(calls, n, role, a)
  {
    if n == 0 {
      assert calls[..0] == [];
    } else {
      RolesFollowHistory(calls, n - 1, role, a);
      StateBeforeNext(calls, n - 1);
      RolesStep(StateBefore(calls, n - 1), calls[n - 1], role, a);
      GrantStandsStep(calls, n, role, a);
    }
  }

  /** After any history, the guard of an operational role admits a caller exactly if it
      signed, and is a current signer or holds a grant nobody revoked since; being a signer
      is the only way to pass the Admin guard, which no grant ever gives. */
  lemma RoleGuardExact(calls: seq<Invocation>, role: Role, caller: Address, auth: set<Address>)
    ensures var st := StateBefore(calls, |calls|);
            && (RequireRole(st, role, caller, auth).Ok? <==>
                  caller in auth && (IsSigner(st, caller) || (role != Admin
                      && GrantStands(calls, |calls|, role, caller))))
            && !GrantStands(calls, |calls|, Admin, caller)
  {
    RolesFollowHistory(calls, |calls|, role, caller);
  }

  /** Before initialization nobody holds a role and nothing is paused. */
  predicate BlankBeforeInit(st: State) { st.multisig.None? ==> st.roles == {} && !st.paused }

  lemma {:induction false} BlankAlong(calls: seq<Invocation>, n: nat)
    requires n <= |calls|
    ensures BlankBeforeInit(StateBefore(calls, n))
  {
    if n == 0 {
      assert calls[..0] == [];
    } else {
      BlankAlong(calls, n - 1);
      StateBeforeNext(calls, n - 1);
    }
  }

  predicate Pauses(calls: seq<Invocation>, k: nat)
    requires k < |calls|
  {
    Succeeds(calls, k) && calls[k].call.Pause?
  }

  predicate Unpauses(calls: seq<Invocation>, k: nat)
    requires k < |calls|
  {
    Succeeds(calls, k) && calls[k].call.Unpause?
  }

  ghost predicate PauseStands(calls: seq<Invocation>, n: nat)
    requires n <= |calls|
  {
    exists k :: 0 <= k < n && Pauses(calls, k) && forall j :: k < j < n ==> !Unpauses(calls, j)
  }

  lemma PauseStep(st: State, inv: Invocation)
    requires BlankBeforeInit(st)
    ensures Next(st, inv).paused <==>
              || (Execute(st, inv).Ok? && inv.call.Pause?)
              || (st.paused && !(Execute(st, inv).Ok? && inv.call.Unpause?))
  {
  }

  /** After any history the contract is paused exactly if some pause was not followed by an
      unpause. */
  lemma {:induction false} PausedFollowsHistory(calls: seq<Invocation>, n: nat)
    requires n <= |calls|
    ensures StateBefore(calls, n).paused <==> PauseStands(calls, n)
  {
    if n == 0 {
      assert calls[..0] == [];
    } else {
      PausedFollowsHistory(calls, n - 1);
      BlankAlong(calls, n - 1);
      StateBeforeNext(calls, n - 1);
      PauseStep(StateBefore(calls, n - 1), calls[n - 1]);
      if Pauses(calls, n - 1) {
        assert PauseStands(calls, n);
      } else if PauseStands(calls, n - 1) && !Unpauses(calls, n - 1) {
        var k :| 0 <= k < n - 1 && Pauses(calls, k) && forall j :: k < j < n - 1 ==> !Unpauses(calls, j);
        assert forall j :: k < j < n ==> !Unpauses(calls, j);
      }
    }
  }
}
