/** The oracle aggregator contract: who may vote, what is stored, what is quoted. */
module Oracle {
  import opened Prelude
  import opened Median

  datatype Error =
    | AlreadyInitialized | NotInitialized | Unauthorized | InvalidPrice
    | InvalidTolerance | InvalidStaleness | DuplicateSubmitter | SubmitterNotFound
    | AssetPairNotFound

  datatype Config = Config(toleranceBps: nat, stalenessLedgers: nat, submitters: seq<Address>)
  datatype Submission = Submission(price: int, ledger: nat)
  datatype Quote = Quote(price: int, ledger: nat)

  type Submissions = map<(Symbol, Address), Submission>

  datatype State = State(admin: Option<Address>, configs: map<Symbol, Config>, submissions: Submissions)

  const EMPTY := State(None, map[], map[])

  /** The entry points that change state. */
  datatype Call =
    | Initialize(admin: Address)
    | ConfigureAssetPair(caller: Address, pair: Symbol, toleranceBps: nat, stalenessLedgers: nat)
    | AuthorizeSubmitter(caller: Address, pair: Symbol, submitter: Address)
    | RevokeSubmitter(caller: Address, pair: Symbol, submitter: Address)
    | SubmitPrice(submitter: Address, pair: Symbol, price: int)

  /** A call together with the addresses that signed it and the current ledger. */
  datatype Invocation = Invocation(call: Call, auth: set<Address>, ledger: nat)

  // ---- specification ---------------------------------------------------------

  function RequireAdmin(st: State, caller: Address, auth: set<Address>): Outcome<(), Error> {
    if st.admin.None? then Err(NotInitialized)
    else if caller != st.admin.value then Err(Unauthorized)
    else if caller !in auth then Trap
    else Ok(())
  }

  function Without(s: seq<Address>, a: Address): (r: seq<Address>)
    ensures forall x :: x in r <==> x in s && x != a
  {
    if s == [] then []
    else
      assert s == s[..|s| - 1] + [s[|s| - 1]];
      Without(s[..|s| - 1], a) + if s[|s| - 1] == a then [] else [s[|s| - 1]]
  }

  lemma {:induction false} WithoutDistinct(s: seq<Address>, a: Address)
    requires Distinct(s)
    ensures Distinct(Without(s, a))
  {
    if s != [] {
      WithoutDistinct(s[..|s| - 1], a);
      assert s[|s| - 1] !in s[..|s| - 1];
    }
  }

  function WithSubmitters(st: State, pair: Symbol, submitters: seq<Address>): State
    requires pair in st.configs
  {
    st.(configs := st.configs[pair := st.configs[pair].(submitters := submitters)])
  }

  /** What one entry point would commit. */
  function Execute(st: State, inv: Invocation): Outcome<State, Error> {
    match inv.call
    case Initialize(admin) =>
      if st.admin.Some? then Err(AlreadyInitialized)
      else if admin !in inv.auth then Trap
      else Ok(st.(admin := Some(admin)))
    case ConfigureAssetPair(caller, pair, toleranceBps, stalenessLedgers) =>
      (match RequireAdmin(st, caller, inv.auth)
       case Trap => Trap
       case Err(e) => Err(e)
       case Ok(_) =>
         if toleranceBps > 10_000 then Err(InvalidTolerance)
         else if stalenessLedgers == 0 then Err(InvalidStaleness)
         else Ok(st.(configs := st.configs[pair := Config(toleranceBps, stalenessLedgers, [])])))
    case AuthorizeSubmitter(caller, pair, submitter) =>
      (match RequireAdmin(st, caller, inv.auth)
       case Trap => Trap
       case Err(e) => Err(e)
       case Ok(_) =>
         if pair !in st.configs then Err(AssetPairNotFound)
         else if submitter in st.configs[pair].submitters then Err(DuplicateSubmitter)
         else Ok(WithSubmitters(st, pair, st.configs[pair].submitters + [submitter])))
    case RevokeSubmitter(caller, pair, submitter) =>
      (match RequireAdmin(st, caller, inv.auth)
       case Trap => Trap
       case Err(e) => Err(e)
       case Ok(_) =>
         if pair !in st.configs then Err(AssetPairNotFound)
         else if submitter !in st.configs[pair].submitters then Err(SubmitterNotFound)
         else Ok(WithSubmitters(st, pair, Without(st.configs[pair].submitters, submitter))))
    case SubmitPrice(submitter, pair, price) =>
      if submitter !in inv.auth then Trap
      else if price <= 0 then Err(InvalidPrice)
      else if pair !in st.configs then Err(AssetPairNotFound)
      else if submitter !in st.configs[pair].submitters then Err(Unauthorized)
      else Ok(st.(submissions := st.submissions[(pair, submitter) := Submission(price, inv.ledger)]))
  }

  predicate HasVote(submissions: Submissions, pair: Symbol, a: Address) {
    (pair, a) in submissions && submissions[(pair, a)].price > 0
  }

  /** The prices on file, one per list position that has a vote. */
  function CollectedPrices(submitters: seq<Address>, pair: Symbol, submissions: Submissions): (r: seq<int>)
    ensures |r| <= |submitters|
  {
    if submitters == [] then []
    else
      var front, a := submitters[..|submitters| - 1], submitters[|submitters| - 1];
      CollectedPrices(front, pair, submissions)
      + if HasVote(submissions, pair, a) then [submissions[(pair, a)].price] else []
  }

  /** The newest ledger among the votes on file. */
  function LatestLedger(submitters: seq<Address>, pair: Symbol, submissions: Submissions): (r: nat)
    ensures forall a :: a in submitters && HasVote(submissions, pair, a) ==> submissions[(pair, a)].ledger <= r
    ensures r == 0 || exists a :: a in submitters && HasVote(submissions, pair, a) && submissions[(pair, a)].ledger == r
  {
    if submitters == [] then 0
    else
      var front, a := submitters[..|submitters| - 1], submitters[|submitters| - 1];
      assert submitters == front + [a];
      var r := LatestLedger(front, pair, submissions);
      if HasVote(submissions, pair, a) && submissions[(pair, a)].ledger > r
      then submissions[(pair, a)].ledger else r
  }

  /** The quote of `get_price`. */
  function Price(st: State, pair: Symbol, ledger: nat): Outcome<Option<Quote>, Error> {
    if pair !in st.configs then Err(AssetPairNotFound)
    else
      var config := st.configs[pair];
      var prices := CollectedPrices(config.submitters, pair, st.submissions);
      var latest := LatestLedger(config.submitters, pair, st.submissions);
      if |prices| < 2 then Ok(None)
      else if latest > ledger then Trap
      else if ledger - latest > config.stalenessLedgers then Ok(None)
      else
        match Aggregate(SortedCopy(prices), config.toleranceBps)
        case Overflowed => Trap
        case TooFew => Ok(None)
        case Agreed(price) => Ok(Some(Quote(price, latest)))
  }

  // ---- the contract ------------------------------------------------------------

  class OracleAggregator {
    var admin: Option<Address>
    var configs: map<Symbol, Config>
    var submissions: Submissions

    ghost function Model(): State reads this { State(admin, configs, submissions) }

    constructor ()
      ensures Model() == EMPTY
    {
      admin, configs, submissions := None, map[], map[];
    }

    method Initialize(newAdmin: Address, auth: set<Address>, ledger: nat) returns (r: Outcome<(), Error>)
      modifies this
      ensures var body := Execute(old(Model()), Invocation(Call.Initialize(newAdmin), auth, ledger));
              Model() == Committed(old(Model()), body) && r == Verdict(body)
    {
      if admin.Some? { return Err(AlreadyInitialized); }
      if newAdmin !in auth { return Trap; }
      admin := Some(newAdmin);
      return Ok(());
    }

    method CheckAdmin(caller: Address, auth: set<Address>) returns (r: Outcome<(), Error>)
      ensures r == RequireAdmin(Model(), caller, auth)
    {
      if admin.None? { return Err(NotInitialized); }
      if caller != admin.value { return Err(Unauthorized); }
      if caller !in auth { return Trap; }
      return Ok(());
    }

    method ConfigureAssetPair(caller: Address, pair: Symbol, toleranceBps: nat, stalenessLedgers: nat,
                              auth: set<Address>, ledger: nat) returns (r: Outcome<(), Error>)
      modifies this
      ensures var body := Execute(old(Model()),
                Invocation(Call.ConfigureAssetPair(caller, pair, toleranceBps, stalenessLedgers), auth, ledger));
              Model() == Committed(old(Model()), body) && r == Verdict(body)
    {
      r := CheckAdmin(caller, auth);
      if !r.Ok? { return r; }
      if toleranceBps > 10_000 { return Err(InvalidTolerance); }
      if stalenessLedgers == 0 { return Err(InvalidStaleness); }
      configs := configs[pair := Config(toleranceBps, stalenessLedgers, [])];
      return Ok(());
    }

    method AuthorizeSubmitter(caller: Address, pair: Symbol, submitter: Address,
                              auth: set<Address>, ledger: nat) returns (r: Outcome<(), Error>)
      modifies this
      ensures var body := Execute(old(Model()), Invocation(Call.AuthorizeSubmitter(caller, pair, submitter), auth,
          ledger));
              Model() == Committed(old(Model()), body) && r == Verdict(body)
    {
      r := CheckAdmin(caller, auth);
      if !r.Ok? { return r; }
      if pair !in configs { return Err(AssetPairNotFound); }
      var config := configs[pair];
      for i := 0 to |config.submitters|
        invariant submitter !in config.submitters[..i]
      {
        if config.submitters[i] == submitter { return Err(DuplicateSubmitter); }
      }
      configs := configs[pair := config.(submitters := config.submitters + [submitter])];
      return Ok(());
    }

    method RevokeSubmitter(caller: Address, pair: Symbol, submitter: Address,
                           auth: set<Address>, ledger: nat) returns (r: Outcome<(), Error>)
      modifies this
      ensures var body := Execute(old(Model()), Invocation(Call.RevokeSubmitter(caller, pair, submitter), auth,
          ledger));
              Model() == Committed(old(Model()), body) && r == Verdict(body)
    {
      r := CheckAdmin(caller, auth);
      if !r.Ok? { return r; }
      if pair !in configs { return Err(AssetPairNotFound); }
      var config := configs[pair];
      var found := false;
      var kept: seq<Address> := [];
      for i := 0 to |config.submitters|
        invariant kept == Without(config.submitters[..i], submitter)
        invariant found <==> submitter in config.submitters[..i]
      {
        assert config.submitters[..i + 1][..i] == config.submitters[..i];
        if config.submitters[i] == submitter {
          found := true;
        } else {
          kept := kept + [config.submitters[i]];
        }
      }
      assert config.submitters[..|config.submitters|] == config.submitters;
      if !found { return Err(SubmitterNotFound); }
      configs := configs[pair := config.(submitters := kept)];
      return Ok(());
    }

    method SubmitPrice(submitter: Address, pair: Symbol, price: int,
                       auth: set<Address>, ledger: nat) returns (r: Outcome<(), Error>)
      modifies this
      ensures var body := Execute(old(Model()), Invocation(Call.SubmitPrice(submitter, pair, price), auth, ledger));
              Model() == Committed(old(Model()), body) && r == Verdict(body)
    {
      if submitter !in auth { return Trap; }
      if price <= 0 { return Err(InvalidPrice); }
      if pair !in configs { return Err(AssetPairNotFound); }
      var submitters := configs[pair].submitters;
      var authorized := false;
      for i := 0 to |submitters|
        invariant !authorized && submitter !in submitters[..i]
      {
        if submitters[i] == submitter {
          authorized := true;
          break;
        }
      }
      if !authorized { return Err(Unauthorized); }
      submissions := submissions[(pair, submitter) := Submission(price, ledger)];
      return Ok(());
    }

    /** Collects the votes of the listed submitters and the newest ledger among them. */
    method Collect(submitters: seq<Address>, pair: Symbol) returns (prices: seq<int>, latest: nat)
      ensures prices == CollectedPrices(submitters, pair, submissions)
      ensures latest == LatestLedger(submitters, pair, submissions)
    {
      prices, latest := [], 0;
      for i := 0 to |submitters|
        invariant prices == CollectedPrices(submitters[..i], pair, submissions)
        invariant latest == LatestLedger(submitters[..i], pair, submissions)
      {
        assert submitters[..i + 1][..i] == submitters[..i];
        var key := (pair, submitters[i]);
        if key in submissions {
          var submission := submissions[key];
          if submission.price > 0 {
            prices := prices + [submission.price];
            if submission.ledger > latest { latest := submission.ledger; }
          }
        }
      }
      assert submitters[..|submitters|] == submitters;
    }

    /** The prices of a sorted list inside the tolerance band. */
    method FilterBand(sorted: array<int>, lower: int, upper: int) returns (kept: seq<int>)
      ensures kept == Within(sorted[..], lower, upper)
    {
      kept := [];
      for i := 0 to sorted.Length
        invariant kept == Within(sorted[..i], lower, upper)
      {
        assert sorted[..i + 1][..i] == sorted[..i];
        if sorted[i] >= lower && sorted[i] <= upper { kept := kept + [sorted[i]]; }
      }
      assert sorted[..sorted.Length] == sorted[..];
    }

    /** Median, tolerance band and second median; i128 overflow is reported, not wrapped. */
    method AggregateSorted(sorted: array<int>, toleranceBps: nat) returns (r: Aggregated)
      requires sorted.Length >= 2
      ensures r == Aggregate(sorted[..], toleranceBps)
    {
      var median := sorted[sorted.Length / 2];
      var product := median * toleranceBps;
      if product > I128_MAX { return Overflowed; }
      var tolerance := product / 10_000;
      if median + tolerance > I128_MAX { return Overflowed; }
      var kept := FilterBand(sorted, median - tolerance, median + tolerance);
      if |kept| < 2 { return TooFew; }
      return Agreed(kept[|kept| / 2]);
    }

    method Decide(prices: seq<int>, toleranceBps: nat) returns (r: Aggregated)
      requires |prices| >= 2
      ensures r == Aggregate(SortedCopy(prices), toleranceBps)
    {
      var sorted := new int[|prices|](i requires 0 <= i < |prices| => prices[i]);
      assert sorted[..] == prices;
      BubbleSort(sorted);
      r := AggregateSorted(sorted, toleranceBps);
    }

    method GetPrice(pair: Symbol, ledger: nat) returns (r: Outcome<Option<Quote>, Error>)
      ensures r == Price(Model(), pair, ledger)
    {
      if pair !in configs { return Err(AssetPairNotFound); }
      var config := configs[pair];
      var prices, latest := Collect(config.submitters, pair);
      if |prices| < 2 { return Ok(None); }
      if latest > ledger { return Trap; }
      if ledger - latest > config.stalenessLedgers { return Ok(None); }
      var aggregated := Decide(prices, config.toleranceBps);
      match aggregated {
        case Overflowed => return Trap;
        case TooFew => return Ok(None);
        case Agreed(price) => return Ok(Some(Quote(price, latest)));
      }
    }
  }

  // ---- every reachable state -----------------------------------------------------

  function Run(calls: seq<Invocation>): State {
    if calls == [] then EMPTY
    else
      var st := Run(calls[..|calls| - 1]);
      Committed(st, Execute(st, calls[|calls| - 1]))
  }

  /** The ledger sequence never goes back, and `now` is not before the last call. */
  ghost predicate Clocked(calls: seq<Invocation>, now: nat) {
    && (forall i, j :: 0 <= i < j < |calls| ==> calls[i].ledger <= calls[j].ledger)
    && (forall i :: 0 <= i < |calls| ==> calls[i].ledger <= now)
  }

  ghost predicate Inv(st: State, now: nat) {
    && (forall pair :: pair in st.configs ==>
          var c := st.configs[pair];
          Distinct(c.submitters) && c.toleranceBps <= 10_000 && c.stalenessLedgers > 0)
    && (forall key :: key in st.submissions ==>
          st.submissions[key].price > 0 && st.submissions[key].ledger <= now)
  }

  lemma ExecuteKeepsInv(st: State, inv: Invocation)
    requires Inv(st, inv.ledger)
    ensures Inv(Committed(st, Execute(st, inv)), inv.ledger)
  {
    if inv.call.AuthorizeSubmitter? && Execute(st, inv).Ok? {
      assert Distinct(st.configs[inv.call.pair].submitters + [inv.call.submitter]);
    } else if inv.call.RevokeSubmitter? && Execute(st, inv).Ok? {
      WithoutDistinct(st.configs[inv.call.pair].submitters, inv.call.submitter);
    }
  }

  /** In every reachable state the voter lists have no duplicates, the settings are in
      range, and no vote is dated after the current ledger. */
  lemma {:induction false} ReachableInv(calls: seq<Invocation>, now: nat)
    requires Clocked(calls, now)
    ensures Inv(Run(calls), now)
  {
    if calls != [] {
      var last := calls[|calls| - 1];
      ReachableInv(calls[..|calls| - 1], last.ledger);
      ExecuteKeepsInv(Run(calls[..|calls| - 1]), last);
    }
  }

  // ---- one vote each ----------------------------------------------------------------

  /** The authorised submitters with a vote on file. */
  ghost function Voters(submitters: seq<Address>, pair: Symbol, submissions: Submissions): set<Address> {
    set a | a in submitters && HasVote(submissions, pair, a)
  }

  lemma VotersStep(front: seq<Address>, a: Address, pair: Symbol, submissions: Submissions, group: set<Address>)
    requires a !in front
    ensures var before, after := Voters(front, pair, submissions), Voters(front + [a], pair, submissions);
            var vote := if HasVote(submissions, pair, a) then 1 else 0;
            && |after| == |before| + vote
            && |after * group| == |before * group| + if a in group then vote else 0
  {
    var before, after := Voters(front, pair, submissions), Voters(front + [a], pair, submissions);
    if HasVote(submissions, pair, a) {
      assert after == before + {a};
      assert after * group == before * group + if a in group then {a} else {};
    } else {
      assert after == before;
    }
  }

  lemma CollectedStep(front: seq<Address>, a: Address, pair: Symbol, submissions: Submissions, lo: int, hi: int)
    ensures var before, after := CollectedPrices(front, pair, submissions), CollectedPrices(front + [a], pair,
        submissions);
            if HasVote(submissions, pair, a) then
              && |after| == |before| + 1
              && CountIn(after, lo, hi) == CountIn(before, lo, hi)
                                           + if lo <= submissions[(pair, a)].price <= hi then 1 else 0
            else after == before
  {
    assert (front + [a])[..|front|] == front;
    if HasVote(submissions, pair, a) {
      var price := submissions[(pair, a)].price;
      assert (CollectedPrices(front, pair, submissions) + [price])[..|CollectedPrices(front, pair, submissions)|]
          == CollectedPrices(front, pair, submissions);
    }
  }

  /** With a duplicate-free list every voter contributes exactly one price, and the
      voters of a group whose prices lie in [lo, hi] all count inside [lo, hi]. */
  lemma {:induction false} OneVoteEach(submitters: seq<Address>, pair: Symbol, submissions: Submissions,
                                       group: set<Address>, lo: int, hi: int)
    requires Distinct(submitters)
    requires forall a :: a in group && a in Voters(submitters, pair, submissions) ==>
               lo <= submissions[(pair, a)].price <= hi
    ensures |CollectedPrices(submitters, pair, submissions)| == |Voters(submitters, pair, submissions)|
    ensures CountIn(CollectedPrices(submitters, pair, submissions), lo, hi)
         >= |Voters(submitters, pair, submissions) * group|
  {
    if submitters != [] {
      var front, a := submitters[..|submitters| - 1], submitters[|submitters| - 1];
      assert submitters == front + [a] && a !in front;
      OneVoteEach(front, pair, submissions, group, lo, hi);
      VotersStep(front, a, pair, submissions, group);
      CollectedStep(front, a, pair, submissions, lo, hi);
    }
  }

  // ---- robustness ---------------------------------------------------------------------

  /** The settings an honest group needs: its price range is no wider than the band
      at its lower end, and the band at its upper end fits in i128. */
  ghost predicate RangeFitsBand(lo: int, hi: int, toleranceBps: nat) {
    hi - lo <= Tolerance(lo, toleranceBps) && BandFits(hi, toleranceBps)
  }

  /** Robustness over whole runs: after any history of calls, if the feed is fresh and a
      strict majority of the voters - at least two vote - quoted inside [lo, hi], the
      contract answers with a price in [lo, hi], whatever the others submitted. */
  lemma HonestMajorityDecides(calls: seq<Invocation>, pair: Symbol, ledger: nat,
                              honest: set<Address>, lo: int, hi: int)
    requires Clocked(calls, ledger) && pair in Run(calls).configs
    requires var st := Run(calls); var config := st.configs[pair];
             var voters := Voters(config.submitters, pair, st.submissions);
             && |voters| >= 2 && 2 * |voters * honest| > |voters|
             && (forall a :: a in voters && a in honest ==> lo <= st.submissions[(pair, a)].price <= hi)
             && RangeFitsBand(lo, hi, config.toleranceBps)
             && ledger - LatestLedger(config.submitters, pair, st.submissions) <= config.stalenessLedgers
    ensures var answer := Price(Run(calls), pair, ledger);
            && answer.Ok? && answer.value.Some?
            && lo <= answer.value.value.price <= hi
  {
    ReachableInv(calls, ledger);
    var st := Run(calls);
    var config := st.configs[pair];
    var prices := CollectedPrices(config.submitters, pair, st.submissions);
    OneVoteEach(config.submitters, pair, st.submissions, honest, lo, hi);
    var sorted := SortedCopy(prices);
    assert Sorted(sorted) && CountIn(prices, lo, hi) == CountIn(sorted, lo, hi) by {
      SortedCopyPermutes(prices);
      CountInPermutation(prices, sorted, lo, hi);
    }
    AggregateRobust(sorted, config.toleranceBps, lo, hi);
  }

  /** In a reachable state the staleness subtraction cannot underflow: a quote traps
      exactly when the band around a fresh median leaves i128. */
  lemma QuoteTrapsOnlyOnOverflow(calls: seq<Invocation>, pair: Symbol, ledger: nat)
    requires Clocked(calls, ledger) && pair in Run(calls).configs
    ensures var st := Run(calls); var config := st.configs[pair];
            var prices := CollectedPrices(config.submitters, pair, st.submissions);
            Price(st, pair, ledger).Trap? <==>
              && |prices| >= 2
              && ledger - LatestLedger(config.submitters, pair, st.submissions) <= config.stalenessLedgers
              && !BandFits(SortedCopy(prices)[|prices| / 2], config.toleranceBps)
  {
    ReachableInv(calls, ledger);
  }

  // ---- the order of the list does not matter --------------------------------------------

  lemma {:induction false} CollectedConcat(a: seq<Address>, b: seq<Address>, pair: Symbol, submissions: Submissions)
    ensures CollectedPrices(a + b, pair, submissions)
         == CollectedPrices(a, pair, submissions) + CollectedPrices(b, pair, submissions)
  {
    if b == [] {
      assert a + b == a;
    } else {
      CollectedConcat(a, b[..|b| - 1], pair, submissions);
      assert (a + b)[..|a + b| - 1] == a + b[..|b| - 1];
    }
  }

  lemma CollectedRemove(b: seq<Address>, k: nat, pair: Symbol, submissions: Submissions)
    requires k < |b|
    ensures multiset(CollectedPrices(b, pair, submissions))
         == multiset(CollectedPrices(b[..k] + b[k + 1..], pair, submissions) + CollectedPrices([b[k]], pair,
             submissions))
  {
    assert b == (b[..k] + [b[k]]) + b[k + 1..];
    CollectedConcat(b[..k] + [b[k]], b[k + 1..], pair, submissions);
    CollectedConcat(b[..k], [b[k]], pair, submissions);
    CollectedConcat(b[..k], b[k + 1..], pair, submissions);
  }

  lemma {:induction false} CollectedPermutation(a: seq<Address>, b: seq<Address>, pair: Symbol,
      submissions: Submissions)
    requires multiset(a) == multiset(b)
    ensures multiset(CollectedPrices(a, pair, submissions)) == multiset(CollectedPrices(b, pair, submissions))
  {
    assert |multiset(a)| == |multiset(b)|;
    if a != [] {
      var front, x := a[..|a| - 1], a[|a| - 1];
      assert a == front + [x];
      var k := RemoveBoth(front, x, b);
      CollectedPermutation(front, b[..k] + b[k + 1..], pair, submissions);
      CollectedRemove(b, k, pair, submissions);
      CollectedConcat(front, [x], pair, submissions);
    }
  }

  lemma LatestPermutation(a: seq<Address>, b: seq<Address>, pair: Symbol, submissions: Submissions)
    requires multiset(a) == multiset(b)
    ensures LatestLedger(a, pair, submissions) == LatestLedger(b, pair, submissions)
  {
    forall x ensures x in a <==> x in b {
      assert x in a <==> x in multiset(a);
      assert x in b <==> x in multiset(b);
    }
  }

  /** Order independence: permuting the submitter list changes no quote. */
  lemma QuoteIgnoresOrder(st: State, pair: Symbol, ledger: nat, permuted: seq<Address>)
    requires pair in st.configs && multiset(permuted) == multiset(st.configs[pair].submitters)
    ensures Price(WithSubmitters(st, pair, permuted), pair, ledger) == Price(st, pair, ledger)
  {
    var submitters := st.configs[pair].submitters;
    LatestPermutation(permuted, submitters, pair, st.submissions);
    CollectedPermutation(permuted, submitters, pair, st.submissions);
    var p, q := CollectedPrices(permuted, pair, st.submissions), CollectedPrices(submitters, pair, st.submissions);
    SortedCopyPermutes(p);
    SortedCopyPermutes(q);
    SortedUnique(SortedCopy(p), SortedCopy(q));
  }

  // ---- the age of the votes ------------------------------------------------------------------

  /** Same list, same prices; the ledgers of the votes may differ. */
  ghost predicate SamePrices(submitters: seq<Address>, pair: Symbol, a: Submissions, b: Submissions) {
    forall x :: x in submitters ==>
      (HasVote(a, pair, x) <==> HasVote(b, pair, x))
      && (HasVote(a, pair, x) ==> a[(pair, x)].price == b[(pair, x)].price)
  }

  lemma {:induction false} CollectedIgnoresAge(submitters: seq<Address>, pair: Symbol, a: Submissions, b: Submissions)
    requires SamePrices(submitters, pair, a, b)
    ensures CollectedPrices(submitters, pair, a) == CollectedPrices(submitters, pair, b)
  {
    if submitters != [] {
      assert submitters[|submitters| - 1] in submitters;
      assert forall x :: x in submitters[..|submitters| - 1] ==> x in submitters;
      CollectedIgnoresAge(submitters[..|submitters| - 1], pair, a, b);
    }
  }

  /** Only the newest vote has an age: a quote stays the same however old the others are. */
  lemma OnlyNewestVoteAges(st: State, pair: Symbol, ledger: nat, aged: Submissions)
    requires pair in st.configs && SamePrices(st.configs[pair].submitters, pair, st.submissions, aged)
    requires LatestLedger(st.configs[pair].submitters, pair, st.submissions)
          == LatestLedger(st.configs[pair].submitters, pair, aged)
    ensures Price(st.(submissions := aged), pair, ledger) == Price(st, pair, ledger)
  {
    CollectedIgnoresAge(st.configs[pair].submitters, pair, st.submissions, aged);
  }

  /** A feed with votes is stale exactly if every single vote is too old: one fresh vote
      keeps votes of any age deciding. */
  lemma FreshIfAnyVoteIs(calls: seq<Invocation>, pair: Symbol, ledger: nat)
    requires Clocked(calls, ledger) && pair in Run(calls).configs
    requires var st := Run(calls); Voters(st.configs[pair].submitters, pair, st.submissions) != {}
    ensures var st := Run(calls); var config := st.configs[pair];
            ledger - LatestLedger(config.submitters, pair, st.submissions) > config.stalenessLedgers
            <==> forall a :: a in Voters(config.submitters, pair, st.submissions) ==>
                   ledger - st.submissions[(pair, a)].ledger > config.stalenessLedgers
  {
    var st := Run(calls);
    var submitters := st.configs[pair].submitters;
    var latest := LatestLedger(submitters, pair, st.submissions);
    var voter :| voter in Voters(submitters, pair, st.submissions);
    if latest > 0 {
      var a :| a in submitters && HasVote(st.submissions, pair, a) && st.submissions[(pair, a)].ledger == latest;
      assert a in Voters(submitters, pair, st.submissions);
    }
  }

  // ---- reconfiguration -------------------------------------------------------------------------

  lemma RunSnoc(calls: seq<Invocation>, inv: Invocation)
    ensures Run(calls + [inv]) == Committed(Run(calls), Execute(Run(calls), inv))
  {
    assert (calls + [inv])[..|calls|] == calls;
  }

  /** Configuring a pair again silences it: every submitter loses its authorization and the
      next quote is None at any ledger, while all votes stay on file. */
  lemma ReconfigureSilences(calls: seq<Invocation>, inv: Invocation, ledger: nat)
    requires inv.call.ConfigureAssetPair? && Execute(Run(calls), inv).Ok?
    ensures var after := Run(calls + [inv]);
            && after.submissions == Run(calls).submissions
            && inv.call.pair in after.configs && after.configs[inv.call.pair].submitters == []
            && Price(after, inv.call.pair, ledger) == Ok(None)
  {
    RunSnoc(calls, inv);
  }

  function Reauthorizations(admin: Address, pair: Symbol, submitters: seq<Address>, ledger: nat): seq<Invocation> {
    seq(|submitters|, i requires 0 <= i < |submitters| =>
      Invocation(AuthorizeSubmitter(admin, pair, submitters[i]), {admin}, ledger))
  }

  lemma AuthorizeNext(st: State, admin: Address, pair: Symbol, front: seq<Address>, a: Address, ledger: nat)
    requires st.admin == Some(admin) && pair in st.configs && a !in front
    ensures Execute(WithSubmitters(st, pair, front), Invocation(AuthorizeSubmitter(admin, pair, a), {admin}, ledger))
         == Ok(WithSubmitters(st, pair, front + [a]))
  {
    var before := WithSubmitters(st, pair, front);
    assert WithSubmitters(before, pair, front + [a]).configs == WithSubmitters(st, pair, front + [a]).configs;
  }

  lemma {:induction false} AuthorizeAll(calls: seq<Invocation>, admin: Address, pair: Symbol,
                                        submitters: seq<Address>, ledger: nat)
    requires Run(calls).admin == Some(admin) && Distinct(submitters)
    requires pair in Run(calls).configs && Run(calls).configs[pair].submitters == []
    ensures Run(calls + Reauthorizations(admin, pair, submitters, ledger))
         == WithSubmitters(Run(calls), pair, submitters)
  {
    var all := Reauthorizations(admin, pair, submitters, ledger);
    if submitters == [] {
      assert calls + all == calls;
    } else {
      var front, a := submitters[..|submitters| - 1], submitters[|submitters| - 1];
      AuthorizeAll(calls, admin, pair, front, ledger);
      var before := calls + Reauthorizations(admin, pair, front, ledger);
      var last := Invocation(AuthorizeSubmitter(admin, pair, a), {admin}, ledger);
      assert calls + all == before + [last] by {
        assert all == Reauthorizations(admin, pair, front, ledger) + [last];
      }
      RunSnoc(before, last);
      assert submitters == front + [a] && a !in front;
      AuthorizeNext(Run(calls), admin, pair, front, a, ledger);
    }
  }

  /** Old votes count again: configuring a pair with its own settings and authorizing its
      submitters anew restores the very state from before. */
  lemma ReauthorizedVotesReturn(calls: seq<Invocation>, admin: Address, pair: Symbol, ledger: nat)
    requires Clocked(calls, ledger) && Run(calls).admin == Some(admin) && pair in Run(calls).configs
    ensures var config := Run(calls).configs[pair];
            var reset := Invocation(ConfigureAssetPair(admin, pair, config.toleranceBps, config.stalenessLedgers),
                                    {admin}, ledger);
            Run(calls + [reset] + Reauthorizations(admin, pair, config.submitters, ledger)) == Run(calls)
  {
    ReachableInv(calls, ledger);
    var config := Run(calls).configs[pair];
    var call := ConfigureAssetPair(admin, pair, config.toleranceBps, config.stalenessLedgers);
    var reset := Invocation(call, {admin}, ledger);
    RunSnoc(calls, reset);
    AuthorizeAll(calls + [reset], admin, pair, config.submitters, ledger);
    assert Run(calls).configs == Run(calls).configs[pair := config];
  }
}
