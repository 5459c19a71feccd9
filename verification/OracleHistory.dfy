/** The oracle against its history: what is stored is the log of accepted calls, and a
    quote is the two-stage median of the votes, counted voter by voter. */
module OracleHistory {
  import opened Prelude
  import opened Median
  import opened Oracle

  // ---- the log of accepted calls ------------------------------------------------

  /** The calls of a run that did not fail. */
  ghost function Accepted(calls: seq<Invocation>): seq<Invocation> {
    if calls == [] then []
    else
      var front, last := calls[..|calls| - 1], calls[|calls| - 1];
      Accepted(front) + if Execute(Run(front), last).Ok? then [last] else []
  }

  /** The administrator the log appointed. */
  ghost function AdminIn(log: seq<Invocation>): Option<Address> {
    if log == [] then None
    else
      match log[|log| - 1].call
      case Initialize(admin) => Some(admin)
      case _ => AdminIn(log[..|log| - 1])
  }

  /** Tolerance and staleness limit of a pair: those of its last configuration. */
  ghost function SettingsIn(log: seq<Invocation>, pair: Symbol): Option<(nat, nat)> {
    if log == [] then None
    else
      match log[|log| - 1].call
      case ConfigureAssetPair(_, p, toleranceBps, stalenessLedgers) =>
        if p == pair then Some((toleranceBps, stalenessLedgers)) else SettingsIn(log[..|log| - 1], pair)
      case _ => SettingsIn(log[..|log| - 1], pair)
  }

  /** Authorized since the pair was last configured, and not revoked since. */
  ghost predicate ListedIn(log: seq<Invocation>, pair: Symbol, a: Address) {
    if log == [] then false
    else
      match log[|log| - 1].call
      case AuthorizeSubmitter(_, p, s) => (p == pair && s == a) || ListedIn(log[..|log| - 1], pair, a)
      case RevokeSubmitter(_, p, s) => !(p == pair && s == a) && ListedIn(log[..|log| - 1], pair, a)
      case ConfigureAssetPair(_, p, _, _) => p != pair && ListedIn(log[..|log| - 1], pair, a)
      case _ => ListedIn(log[..|log| - 1], pair, a)
  }

  /** The last price a submitter posted for a pair, dated with the ledger of that call. */
  ghost function VoteIn(log: seq<Invocation>, pair: Symbol, a: Address): Option<Submission> {
    if log == [] then None
    else
      match log[|log| - 1].call
      case SubmitPrice(s, p, price) =>
        if p == pair && s == a then Some(Submission(price, log[|log| - 1].ledger))
        else VoteIn(log[..|log| - 1], pair, a)
      case _ => VoteIn(log[..|log| - 1], pair, a)
  }

  ghost predicate ConfigsAgree(configs: map<Symbol, Config>, log: seq<Invocation>) {
    forall pair: Symbol :: SettingsIn(log, pair)
      == if pair in configs then Some((configs[pair].toleranceBps, configs[pair].stalenessLedgers)) else None
  }

  ghost predicate ListsAgree(configs: map<Symbol, Config>, log: seq<Invocation>) {
    forall pair: Symbol, a: Address :: ListedIn(log, pair, a) <==> pair in configs && a in configs[pair].submitters
  }

  ghost predicate VotesAgree(submissions: Submissions, log: seq<Invocation>) {
    forall pair: Symbol, a: Address :: VoteIn(log, pair, a)
      == if (pair, a) in submissions then Some(submissions[(pair, a)]) else None
  }

  ghost predicate Agrees(st: State, log: seq<Invocation>) {
    && st.admin == AdminIn(log)
    && ConfigsAgree(st.configs, log)
    && ListsAgree(st.configs, log)
    && VotesAgree(st.submissions, log)
  }

  lemma ListsStep(st: State, log: seq<Invocation>, inv: Invocation)
    requires ListsAgree(st.configs, log) && Execute(st, inv).Ok?
    ensures ListsAgree(Execute(st, inv).value.configs, log + [inv])
  {
    assert (log + [inv])[..|log|] == log;
    var after := Execute(st, inv).value.configs;
    forall pair, a
      ensures ListedIn(log + [inv], pair, a) <==> pair in after && a in after[pair].submitters
    {
      assert ListedIn(log, pair, a) <==> pair in st.configs && a in st.configs[pair].submitters;
    }
  }

  lemma LogStep(st: State, log: seq<Invocation>, inv: Invocation)
    requires Agrees(st, log) && Execute(st, inv).Ok?
    ensures Agrees(Execute(st, inv).value, log + [inv])
  {
    assert (log + [inv])[..|log|] == log;
    ListsStep(st, log, inv);
  }

  /** Everything the contract stores is determined by the calls it accepted: the appointed
      administrator, the last settings, who is listed, and each submitter's last vote. */
  lemma {:induction false} StateIsTheLog(calls: seq<Invocation>)
    ensures Agrees(Run(calls), Accepted(calls))
  {
    if calls != [] {
      var front, last := calls[..|calls| - 1], calls[|calls| - 1];
      StateIsTheLog(front);
      if Execute(Run(front), last).Ok? {
        LogStep(Run(front), Accepted(front), last);
      } else {
        assert Accepted(calls) == Accepted(front);
      }
    }
  }

  /** Whether the log makes `caller` the administrator, and who is told what otherwise. */
  ghost function AdminAnswer(log: seq<Invocation>, caller: Address, auth: set<Address>): Outcome<(), Error> {
    if AdminIn(log) == Some(caller) then (if caller in auth then Ok(()) else Trap)
    else Err(if AdminIn(log).None? then NotInitialized else Unauthorized)
  }

  /** The answer the log calls for. */
  ghost function Answer(log: seq<Invocation>, inv: Invocation): Outcome<(), Error> {
    match inv.call
    case Initialize(admin) =>
      if AdminIn(log).Some? then Err(AlreadyInitialized) else if admin in inv.auth then Ok(()) else Trap
    case ConfigureAssetPair(caller, pair, toleranceBps, stalenessLedgers) =>
      if !AdminAnswer(log, caller, inv.auth).Ok? then AdminAnswer(log, caller, inv.auth)
      else if toleranceBps > 10_000 then Err(InvalidTolerance)
      else if stalenessLedgers < 1 then Err(InvalidStaleness)
      else Ok(())
    case AuthorizeSubmitter(caller, pair, submitter) =>
      if !AdminAnswer(log, caller, inv.auth).Ok? then AdminAnswer(log, caller, inv.auth)
      else if SettingsIn(log, pair).None? then Err(AssetPairNotFound)
      else if ListedIn(log, pair, submitter) then Err(DuplicateSubmitter)
      else Ok(())
    case RevokeSubmitter(caller, pair, submitter) =>
      if !AdminAnswer(log, caller, inv.auth).Ok? then AdminAnswer(log, caller, inv.auth)
      else if SettingsIn(log, pair).None? then Err(AssetPairNotFound)
      else if ListedIn(log, pair, submitter) then Ok(())
      else Err(SubmitterNotFound)
    case SubmitPrice(submitter, pair, price) =>
      if submitter !in inv.auth then Trap
      else if price < 1 then Err(InvalidPrice)
      else if ListedIn(log, pair, submitter) then Ok(())
      else Err(if SettingsIn(log, pair).None? then AssetPairNotFound else Unauthorized)
  }

  lemma AdminAnswers(st: State, log: seq<Invocation>, inv: Invocation)
    requires Agrees(st, log) && !inv.call.SubmitPrice?
    ensures Verdict(Execute(st, inv)) == Answer(log, inv)
  {
    if !inv.call.Initialize? {
      var pair := inv.call.pair;
      assert SettingsIn(log, pair).Some? <==> pair in st.configs;
      if !inv.call.ConfigureAssetPair? {
        assert ListedIn(log, pair, inv.call.submitter)
          <==> pair in st.configs && inv.call.submitter in st.configs[pair].submitters;
      }
    }
  }

  lemma SubmitAnswers(st: State, log: seq<Invocation>, inv: Invocation)
    requires Agrees(st, log) && inv.call.SubmitPrice?
    ensures Verdict(Execute(st, inv)) == Answer(log, inv)
  {
    var pair, a := inv.call.pair, inv.call.submitter;
    assert SettingsIn(log, pair).Some? <==> pair in st.configs;
    assert ListedIn(log, pair, a) <==> pair in st.configs && a in st.configs[pair].submitters;
  }

  /** Every entry point answers what the log of accepted calls so far calls for. */
  lemma AnswersFollowTheLog(calls: seq<Invocation>, inv: Invocation)
    ensures Verdict(Execute(Run(calls), inv)) == Answer(Accepted(calls), inv)
  {
    StateIsTheLog(calls);
    if inv.call.SubmitPrice? {
      SubmitAnswers(Run(calls), Accepted(calls), inv);
    } else {
      AdminAnswers(Run(calls), Accepted(calls), inv);
    }
  }

  // ---- the quote, counted over the voters -----------------------------------------

  /** The members of a group whose vote lies in [lo, hi]. */
  ghost function VotedIn(group: set<Address>, pair: Symbol, submissions: Submissions, lo: int, hi: int): set<Address> {
    set a | a in group && (pair, a) in submissions && lo <= submissions[(pair, a)].price <= hi
  }

  /** At most half of the group voted less than `m`, more than half at most `m`. */
  ghost predicate UpperMedian(group: set<Address>, pair: Symbol, submissions: Submissions, m: int) {
    2 * |VotedIn(group, pair, submissions, 1, m - 1)| <= |group| < 2 * |VotedIn(group, pair, submissions, 1, m)|
  }

  /** `ledger` is the ledger of somebody's vote and nobody's is newer. */
  ghost predicate Newest(voters: set<Address>, pair: Symbol, submissions: Submissions, ledger: nat) {
    && (exists a :: a in voters && (pair, a) in submissions && submissions[(pair, a)].ledger == ledger)
    && (forall a :: a in voters && (pair, a) in submissions ==> submissions[(pair, a)].ledger <= ledger)
  }

  /** Every vote is more than `limit` ledgers behind. */
  ghost predicate AllTooOld(voters: set<Address>, pair: Symbol, submissions: Submissions, ledger: nat, limit: nat) {
    forall a :: a in voters && (pair, a) in submissions ==> ledger - submissions[(pair, a)].ledger > limit
  }

  /** What is answered when the upper median of all voters is `m`: a panic if the band
      around `m` leaves i128, nothing if fewer than two voters are inside it, else the
      upper median of those, dated with the newest vote. */
  ghost predicate AnswersAround(m: int, voters: set<Address>, pair: Symbol, submissions: Submissions,
                                toleranceBps: nat, answer: Outcome<Option<Quote>, Error>) {
    var width := m * toleranceBps / 10_000;
    if m * toleranceBps > I128_MAX || m + width > I128_MAX then answer == Trap
    else
      var inBand := VotedIn(voters, pair, submissions, m - width, m + width);
      if |inBand| < 2 then answer == Ok(None)
      else
        && answer.Ok? && answer.value.Some?
        && UpperMedian(inBand, pair, submissions, answer.value.value.price)
        && Newest(voters, pair, submissions, answer.value.value.ledger)
  }

  lemma VotedInStep(front: seq<Address>, a: Address, pair: Symbol, submissions: Submissions, lo: int, hi: int)
    requires a !in front
    ensures |VotedIn(Voters(front + [a], pair, submissions), pair, submissions, lo, hi)|
         == |VotedIn(Voters(front, pair, submissions), pair, submissions, lo, hi)|
            + if HasVote(submissions, pair, a) && lo <= submissions[(pair, a)].price <= hi then 1 else 0
  {
    var before := VotedIn(Voters(front, pair, submissions), pair, submissions, lo, hi);
    var after := VotedIn(Voters(front + [a], pair, submissions), pair, submissions, lo, hi);
    if HasVote(submissions, pair, a) && lo <= submissions[(pair, a)].price <= hi {
      assert after == before + {a};
    } else {
      assert after == before;
    }
  }

  /** The prices collected in a range are as many as the voters who posted them. */
  lemma {:induction false} CountsVoters(submitters: seq<Address>, pair: Symbol, submissions: Submissions,
                                        lo: int, hi: int)
    requires Distinct(submitters)
    ensures CountIn(CollectedPrices(submitters, pair, submissions), lo, hi)
         == |VotedIn(Voters(submitters, pair, submissions), pair, submissions, lo, hi)|
  {
    if submitters != [] {
      var front, a := submitters[..|submitters| - 1], submitters[|submitters| - 1];
      assert submitters == front + [a] && a !in front;
      CountsVoters(front, pair, submissions, lo, hi);
      VotedInStep(front, a, pair, submissions, lo, hi);
      CollectedStep(front, a, pair, submissions, lo, hi);
    }
  }

  lemma {:induction false} CollectedPositive(submitters: seq<Address>, pair: Symbol, submissions: Submissions)
    ensures forall x :: x in CollectedPrices(submitters, pair, submissions) ==> x >= 1
  {
    if submitters != [] {
      CollectedPositive(submitters[..|submitters| - 1], pair, submissions);
    }
  }

  lemma {:induction false} CountInAll(s: seq<int>, lo: int, hi: int)
    requires forall i :: 0 <= i < |s| ==> lo <= s[i] <= hi
    ensures CountIn(s, lo, hi) == |s|
  {
    if s != [] { CountInAll(s[..|s| - 1], lo, hi); }
  }

  lemma CountInAtLeast(s: seq<int>, k: nat, lo: int, hi: int)
    requires k <= |s| && forall i :: 0 <= i < k ==> lo <= s[i] <= hi
    ensures CountIn(s, lo, hi) >= k
  {
    assert s == s[..k] + s[k..];
    CountInConcat(s[..k], s[k..], lo, hi);
    CountInAll(s[..k], lo, hi);
  }

  /** In a sorted list of positive entries at most `i` are below the entry at `i`, and
      more than `i` are at most that entry. */
  lemma Rank(s: seq<int>, i: nat)
    requires Sorted(s) && i < |s| && forall x :: x in s ==> x >= 1
    ensures CountIn(s, 1, s[i] - 1) <= i < CountIn(s, 1, s[i])
  {
    CountInAvoids(s, i, |s|, 1, s[i] - 1);
    forall k | 0 <= k < i + 1 ensures 1 <= s[k] <= s[i] {
      assert s[k] in s;
    }
    CountInAtLeast(s, i + 1, 1, s[i]);
  }

  function Max(a: int, b: int): int { if a > b then a else b }
  function Min(a: int, b: int): int { if a < b then a else b }

  lemma {:induction false} CountInWithin(s: seq<int>, bandLo: int, bandHi: int, lo: int, hi: int)
    ensures CountIn(Within(s, bandLo, bandHi), lo, hi) == CountIn(s, Max(bandLo, lo), Min(bandHi, hi))
  {
    if s != [] {
      var front, last := s[..|s| - 1], s[|s| - 1];
      CountInWithin(front, bandLo, bandHi, lo, hi);
      CountInConcat(Within(front, bandLo, bandHi), [last], lo, hi);
      assert Within(front, bandLo, bandHi) + [] == Within(front, bandLo, bandHi);
    }
  }

  /** A sorted list of everything the voters of a list posted. */
  ghost predicate SortsVotes(sorted: seq<int>, submitters: seq<Address>, pair: Symbol, submissions: Submissions) {
    && Distinct(submitters) && Sorted(sorted)
    && multiset(sorted) == multiset(CollectedPrices(submitters, pair, submissions))
    && (forall x :: x in sorted ==> x >= 1)
  }

  lemma SortedCounts(sorted: seq<int>, submitters: seq<Address>, pair: Symbol, submissions: Submissions,
                     lo: int, hi: int)
    requires SortsVotes(sorted, submitters, pair, submissions)
    ensures CountIn(sorted, lo, hi) == |VotedIn(Voters(submitters, pair, submissions), pair, submissions, lo, hi)|
  {
    CountInPermutation(sorted, CollectedPrices(submitters, pair, submissions), lo, hi);
    CountsVoters(submitters, pair, submissions, lo, hi);
  }

  lemma KeptCounts(sorted: seq<int>, submitters: seq<Address>, pair: Symbol, submissions: Submissions,
                   bandLo: int, bandHi: int, top: int)
    requires SortsVotes(sorted, submitters, pair, submissions)
    ensures var inBand := VotedIn(Voters(submitters, pair, submissions), pair, submissions, bandLo, bandHi);
            CountIn(Within(sorted, bandLo, bandHi), 1, top) == |VotedIn(inBand, pair, submissions, 1, top)|
  {
    var voters := Voters(submitters, pair, submissions);
    CountInWithin(sorted, bandLo, bandHi, 1, top);
    SortedCounts(sorted, submitters, pair, submissions, Max(bandLo, 1), Min(bandHi, top));
    assert VotedIn(VotedIn(voters, pair, submissions, bandLo, bandHi), pair, submissions, 1, top)
        == VotedIn(voters, pair, submissions, Max(bandLo, 1), Min(bandHi, top));
  }

  /** A list with the counts of a group has the upper median of the group in its middle. */
  lemma MiddleIsMedian(s: seq<int>, group: set<Address>, pair: Symbol, submissions: Submissions)
    requires Sorted(s) && s != [] && |s| == |group| && forall x :: x in s ==> x >= 1
    requires forall top :: CountIn(s, 1, top) == |VotedIn(group, pair, submissions, 1, top)|
    ensures UpperMedian(group, pair, submissions, s[|s| / 2])
  {
    var m := s[|s| / 2];
    Rank(s, |s| / 2);
    assert CountIn(s, 1, m - 1) == |VotedIn(group, pair, submissions, 1, m - 1)|;
    assert CountIn(s, 1, m) == |VotedIn(group, pair, submissions, 1, m)|;
  }

  /** The upper entry of the votes inside a band is their upper median, voter by voter. */
  lemma BandMedian(sorted: seq<int>, submitters: seq<Address>, pair: Symbol, submissions: Submissions,
                   bandLo: int, bandHi: int, kept: seq<int>, inBand: set<Address>)
    requires SortsVotes(sorted, submitters, pair, submissions)
    requires kept == Within(sorted, bandLo, bandHi)
    requires inBand == VotedIn(Voters(submitters, pair, submissions), pair, submissions, bandLo, bandHi)
    ensures |kept| == |inBand|
    ensures kept != [] ==> UpperMedian(inBand, pair, submissions, kept[|kept| / 2])
  {
    assert |kept| == |inBand| by {
      SortedCounts(sorted, submitters, pair, submissions, bandLo, bandHi);
    }
    if kept != [] {
      assert Sorted(kept) && forall x :: x in kept ==> x >= 1 by {
        WithinSorted(sorted, bandLo, bandHi);
      }
      forall top ensures CountIn(kept, 1, top) == |VotedIn(inBand, pair, submissions, 1, top)| {
        KeptCounts(sorted, submitters, pair, submissions, bandLo, bandHi, top);
      }
      MiddleIsMedian(kept, inBand, pair, submissions);
    }
  }

  /** The middle of the sorted votes is the upper median of the voters. */
  lemma MiddleIsUpperMedian(sorted: seq<int>, submitters: seq<Address>, pair: Symbol, submissions: Submissions)
    requires SortsVotes(sorted, submitters, pair, submissions) && sorted != []
    ensures UpperMedian(Voters(submitters, pair, submissions), pair, submissions, sorted[|sorted| / 2])
  {
    assert |sorted| == |Voters(submitters, pair, submissions)| by {
      OneVoteEach(submitters, pair, submissions, {}, 0, 0);
      SameBagSize(sorted, CollectedPrices(submitters, pair, submissions));
    }
    forall top
      ensures CountIn(sorted, 1, top) == |VotedIn(Voters(submitters, pair, submissions), pair, submissions, 1, top)|
    {
      SortedCounts(sorted, submitters, pair, submissions, 1, top);
    }
    MiddleIsMedian(sorted, Voters(submitters, pair, submissions), pair, submissions);
  }

  /** The newest ledger collected is the ledger of the newest vote. */
  lemma NewestIsLatest(submitters: seq<Address>, pair: Symbol, submissions: Submissions)
    requires Voters(submitters, pair, submissions) != {}
    ensures Newest(Voters(submitters, pair, submissions), pair, submissions,
                   LatestLedger(submitters, pair, submissions))
  {
    var voters, latest := Voters(submitters, pair, submissions), LatestLedger(submitters, pair, submissions);
    var voter :| voter in voters;
    if latest == 0 {
      assert submissions[(pair, voter)].ledger == latest;
    } else {
      var a :| a in submitters && HasVote(submissions, pair, a) && submissions[(pair, a)].ledger == latest;
      assert a in voters;
    }
  }

  /** What `get_price` answers once the prices are sorted. */
  ghost function Decided(sorted: seq<int>, toleranceBps: nat, latest: nat): Outcome<Option<Quote>, Error>
    requires |sorted| >= 2
  {
    match Aggregate(sorted, toleranceBps)
    case Overflowed => Trap
    case TooFew => Ok(None)
    case Agreed(price) => Ok(Some(Quote(price, latest)))
  }

  /** What is answered when the band [m - width, m + width] kept `kept`. */
  ghost function DecidedFrom(m: int, width: int, toleranceBps: nat, kept: seq<int>, latest: nat)
    : Outcome<Option<Quote>, Error>
  {
    if m * toleranceBps > I128_MAX || m + width > I128_MAX then Trap
    else if |kept| < 2 then Ok(None)
    else Ok(Some(Quote(kept[|kept| / 2], latest)))
  }

  lemma DecidedIs(sorted: seq<int>, toleranceBps: nat, latest: nat, m: int, width: int)
    requires |sorted| >= 2 && m == sorted[|sorted| / 2] && width == m * toleranceBps / 10_000
    ensures Decided(sorted, toleranceBps, latest)
         == DecidedFrom(m, width, toleranceBps, Within(sorted, m - width, m + width), latest)
  {
  }

  lemma KeptDecides(m: int, width: int, toleranceBps: nat, kept: seq<int>, latest: nat,
                    voters: set<Address>, pair: Symbol, submissions: Submissions)
    requires width == m * toleranceBps / 10_000
    requires var inBand := VotedIn(voters, pair, submissions, m - width, m + width);
             && |kept| == |inBand|
             && (kept != [] ==> UpperMedian(inBand, pair, submissions, kept[|kept| / 2]))
    requires Newest(voters, pair, submissions, latest)
    ensures AnswersAround(m, voters, pair, submissions, toleranceBps,
                          DecidedFrom(m, width, toleranceBps, kept, latest))
  {
  }

  /** The two medians of the contract, counted over the voters. */
  lemma DecisionExact(sorted: seq<int>, submitters: seq<Address>, pair: Symbol, submissions: Submissions,
                      toleranceBps: nat, latest: nat, m: int)
    requires SortsVotes(sorted, submitters, pair, submissions) && |sorted| >= 2 && m == sorted[|sorted| / 2]
    requires Newest(Voters(submitters, pair, submissions), pair, submissions, latest)
    ensures AnswersAround(m, Voters(submitters, pair, submissions), pair, submissions, toleranceBps,
                          Decided(sorted, toleranceBps, latest))
  {
    var voters := Voters(submitters, pair, submissions);
    var width := m * toleranceBps / 10_000;
    var kept := Within(sorted, m - width, m + width);
    BandMedian(sorted, submitters, pair, submissions, m - width, m + width, kept,
               VotedIn(voters, pair, submissions, m - width, m + width));
    KeptDecides(m, width, toleranceBps, kept, latest, voters, pair, submissions);
    DecidedIs(sorted, toleranceBps, latest, m, width);
  }

  /** Which stage of `get_price` answers. */
  lemma PriceStages(st: State, pair: Symbol, ledger: nat, voters: set<Address>)
    requires Inv(st, ledger) && pair in st.configs
    requires voters == Voters(st.configs[pair].submitters, pair, st.submissions)
    ensures |voters| == |CollectedPrices(st.configs[pair].submitters, pair, st.submissions)|
    ensures var config := st.configs[pair];
            var prices := CollectedPrices(config.submitters, pair, st.submissions);
            Price(st, pair, ledger)
            == if |voters| < 2 || AllTooOld(voters, pair, st.submissions, ledger, config.stalenessLedgers) then Ok(None)
               else Decided(SortedCopy(prices), config.toleranceBps,
                            LatestLedger(config.submitters, pair, st.submissions))
  {
    OneVoteEach(st.configs[pair].submitters, pair, st.submissions, {}, 0, 0);
    if |voters| >= 2 {
      NewestIsLatest(st.configs[pair].submitters, pair, st.submissions);
    }
  }

  lemma FreshQuoteExact(st: State, pair: Symbol, ledger: nat, voters: set<Address>) returns (m: int)
    requires Inv(st, ledger) && pair in st.configs && |voters| >= 2
    requires voters == Voters(st.configs[pair].submitters, pair, st.submissions)
    requires !AllTooOld(voters, pair, st.submissions, ledger, st.configs[pair].stalenessLedgers)
    ensures UpperMedian(voters, pair, st.submissions, m)
    ensures AnswersAround(m, voters, pair, st.submissions, st.configs[pair].toleranceBps, Price(st, pair, ledger))
  {
    var config := st.configs[pair];
    PriceStages(st, pair, ledger, voters);
    var prices := CollectedPrices(config.submitters, pair, st.submissions);
    var sorted := SortedCopy(prices);
    assert SortsVotes(sorted, config.submitters, pair, st.submissions) by {
      SortedCopyPermutes(prices);
      CollectedPositive(config.submitters, pair, st.submissions);
    }
    m := sorted[|sorted| / 2];
    MiddleIsUpperMedian(sorted, config.submitters, pair, st.submissions);
    var latest := LatestLedger(config.submitters, pair, st.submissions);
    NewestIsLatest(config.submitters, pair, st.submissions);
    DecisionExact(sorted, config.submitters, pair, st.submissions, config.toleranceBps, latest, m);
  }

  /** The quote of every reachable state, exactly: nothing with fewer than two voters or if
      every vote is too old; otherwise there is an upper median of all voters, and the
      answer is the upper median of those within the tolerance of it, dated with the
      newest vote - or a panic or nothing as `AnswersAround` says. */
  lemma QuoteExact(calls: seq<Invocation>, pair: Symbol, ledger: nat)
    requires Clocked(calls, ledger)
    ensures var st := Run(calls);
            var answer := Price(st, pair, ledger);
            if pair !in st.configs then answer == Err(AssetPairNotFound)
            else
              var config := st.configs[pair];
              var voters := Voters(config.submitters, pair, st.submissions);
              if |voters| < 2 || AllTooOld(voters, pair, st.submissions, ledger, config.stalenessLedgers)
              then answer == Ok(None)
              else exists m :: UpperMedian(voters, pair, st.submissions, m)
                     && AnswersAround(m, voters, pair, st.submissions, config.toleranceBps, answer)
  {
    var st := Run(calls);
    if pair in st.configs {
      ReachableInv(calls, ledger);
      var voters := Voters(st.configs[pair].submitters, pair, st.submissions);
      if |voters| < 2 || AllTooOld(voters, pair, st.submissions, ledger, st.configs[pair].stalenessLedgers) {
        PriceStages(st, pair, ledger, voters);
      } else {
        var m := FreshQuoteExact(st, pair, ledger, voters);
      }
    }
  }

  /** No stale quote: a price is only ever answered from at least two voters, with the
      ledger of the newest vote, and that ledger is within the limit. */
  lemma QuotesAreFresh(calls: seq<Invocation>, pair: Symbol, ledger: nat)
    requires Clocked(calls, ledger)
    requires Price(Run(calls), pair, ledger).Ok? && Price(Run(calls), pair, ledger).value.Some?
    ensures var st := Run(calls);
            var quote := Price(st, pair, ledger).value.value;
            && pair in st.configs
            && var config := st.configs[pair];
               var voters := Voters(config.submitters, pair, st.submissions);
               && |voters| >= 2
               && Newest(voters, pair, st.submissions, quote.ledger)
               && 0 <= ledger - quote.ledger <= config.stalenessLedgers
  {
    QuoteExact(calls, pair, ledger);
    ReachableInv(calls, ledger);
    var st := Run(calls);
    var config := st.configs[pair];
    var voters := Voters(config.submitters, pair, st.submissions);
    var quote := Price(st, pair, ledger).value.value;
    assert Newest(voters, pair, st.submissions, quote.ledger);
    var recent :| recent in voters && (pair, recent) in st.submissions
                 && ledger - st.submissions[(pair, recent)].ledger <= config.stalenessLedgers;
  }
}
