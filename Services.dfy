/** The transaction service of package services: saving delegates to the repository; finding
    looks the transaction up, fetches the currency's rates and picks one with a single pass. */
module Services {
  import opened Wrappers
  import opened Errors
  import opened Time
  import opened TransactionDomain
  import opened ExchangeRateDomain
  import opened Repository

  /** The rates the selection keeps: those not dated before the window floor. */
  predicate InWindow(rate: ExchangeRate, floor: Instant) {
    rate.dateOfRecord >= floor
  }

  /** One iteration of the selection loop. An in-window rate replaces the best so far when
      there is none yet, or when it is dated after the transaction AND before the best so far
      (Go's && binds tighter than ||). */
  function Step(best: Option<ExchangeRate>, rate: ExchangeRate, timestamp: Instant, floor: Instant): (r: Option<ExchangeRate>)
    ensures r == best || (r == Some(rate) && InWindow(rate, floor))
    ensures !InWindow(rate, floor) ==> r == best
    ensures InWindow(rate, floor) && best.None? ==> r == Some(rate)
    ensures best.Some? && rate.dateOfRecord <= timestamp ==> r == best
    ensures InWindow(rate, floor) && best.Some? && timestamp < rate.dateOfRecord < best.value.dateOfRecord ==>
              r == Some(rate)
    ensures best.Some? && rate.dateOfRecord >= best.value.dateOfRecord ==> r == best
  {
    if !InWindow(rate, floor) then best
    else if best.None? || (rate.dateOfRecord > timestamp && rate.dateOfRecord < best.value.dateOfRecord) then Some(rate)
    else best
  }

  /** The selection loop run over `rates` from the first element to the last. */
  function Select(rates: seq<ExchangeRate>, timestamp: Instant, floor: Instant): (r: Option<ExchangeRate>)
    ensures r.Some? ==> InWindow(r.value, floor)
    decreases |rates|
  {
    if rates == [] then None
    else Step(Select(rates[..|rates| - 1], timestamp, floor), rates[|rates| - 1], timestamp, floor)
  }

  /** The selected rate is an element of the list, and is not dated before the floor. */
  lemma {:induction false} SelectedIsInWindowMember(rates: seq<ExchangeRate>, timestamp: Instant, floor: Instant)
    ensures var r := Select(rates, timestamp, floor);
            r.Some? ==> r.value in rates && InWindow(r.value, floor)
    decreases |rates|
  {
    if rates != [] {
      var prefix := rates[..|rates| - 1];
      SelectedIsInWindowMember(prefix, timestamp, floor);
      assert forall x :: x in prefix ==> x in rates;
    }
  }

  /** Nothing is selected exactly when every rate is dated before the floor, the empty list included. */
  lemma {:induction false} NoneSelectedIff(rates: seq<ExchangeRate>, timestamp: Instant, floor: Instant)
    ensures Select(rates, timestamp, floor).None? <==> forall i :: 0 <= i < |rates| ==> !InWindow(rates[i], floor)
    decreases |rates|
  {
    if rates != [] {
      var prefix := rates[..|rates| - 1];
      NoneSelectedIff(prefix, timestamp, floor);
      assert forall i :: 0 <= i < |prefix| ==> prefix[i] == rates[i];
    }
  }

  /** Index `k` is the first rate inside the window. */
  predicate FirstInWindow(rates: seq<ExchangeRate>, floor: Instant, k: nat) {
    k < |rates| && InWindow(rates[k], floor) && forall i :: 0 <= i < k ==> !InWindow(rates[i], floor)
  }

  /** Once the first in-window rate is dated at or before the transaction, no later rate can
      replace it: the selection is that rate, whatever follows. */
  lemma FirstPastDatedWins(rates: seq<ExchangeRate>, timestamp: Instant, floor: Instant, k: nat)
    requires FirstInWindow(rates, floor, k)
    requires rates[k].dateOfRecord <= timestamp
    ensures Select(rates, timestamp, floor) == Some(rates[k])
  {
    FirstPastDatedWinsPrefix(rates, timestamp, floor, k, |rates|);
    assert rates[..|rates|] == rates;
  }

  lemma {:induction false} FirstPastDatedWinsPrefix(rates: seq<ExchangeRate>, timestamp: Instant, floor: Instant, k: nat, n: nat)
    requires FirstInWindow(rates, floor, k) && k < n <= |rates|
    requires rates[k].dateOfRecord <= timestamp
    ensures Select(rates[..n], timestamp, floor) == Some(rates[k])
    decreases n
  {
    var prefix := rates[..n];
    assert prefix[..n - 1] == rates[..n - 1];
    if n == k + 1 {
      NoneSelectedIff(rates[..k], timestamp, floor);
    } else {
      FirstPastDatedWinsPrefix(rates, timestamp, floor, k, n - 1);
    }
  }

  /** Among the first `n` rates, index `j` is in the window, dated after the transaction, with
      the earliest such date, and no earlier position has that date. */
  predicate ForwardBest(rates: seq<ExchangeRate>, timestamp: Instant, floor: Instant, j: nat, n: nat)
    requires n <= |rates|
  {
    && j < n
    && InWindow(rates[j], floor) && rates[j].dateOfRecord > timestamp
    && forall i :: 0 <= i < n && InWindow(rates[i], floor) && rates[i].dateOfRecord > timestamp ==>
         rates[j].dateOfRecord <= rates[i].dateOfRecord && (i < j ==> rates[j].dateOfRecord < rates[i].dateOfRecord)
  }

  /** When the first in-window rate is dated after the transaction, the selection is the
      in-window rate with the earliest date after the transaction, the first of them on a tie. */
  lemma FirstForwardDatedLeadsToClosest(rates: seq<ExchangeRate>, timestamp: Instant, floor: Instant, k: nat)
    requires FirstInWindow(rates, floor, k)
    requires rates[k].dateOfRecord > timestamp
    ensures exists j: nat :: ForwardBest(rates, timestamp, floor, j, |rates|) && Select(rates, timestamp, floor) == Some(rates[j])
  {
    var j := ForwardBestPrefix(rates, timestamp, floor, k, |rates|);
    assert rates[..|rates|] == rates;
  }

  lemma {:induction false} ForwardBestPrefix(rates: seq<ExchangeRate>, timestamp: Instant, floor: Instant, k: nat, n: nat)
    returns (j: nat)
    requires FirstInWindow(rates, floor, k) && k < n <= |rates|
    requires rates[k].dateOfRecord > timestamp
    ensures ForwardBest(rates, timestamp, floor, j, n) && Select(rates[..n], timestamp, floor) == Some(rates[j])
    decreases n
  {
    var prefix := rates[..n];
    assert prefix[..n - 1] == rates[..n - 1];
    if n == k + 1 {
      NoneSelectedIff(rates[..k], timestamp, floor);
      j := k;
    } else {
      var j' := ForwardBestPrefix(rates, timestamp, floor, k, n - 1);
      var x := rates[n - 1];
      if InWindow(x, floor) && x.dateOfRecord > timestamp && x.dateOfRecord < rates[j'].dateOfRecord {
        j := n - 1;
      } else {
        j := j';
      }
    }
  }

  /** With no forward-dated candidate the pick depends on the order of the list: two
      past-dated in-window rates give different answers in the two orders. */
  lemma SelectionDependsOnOrder(a: ExchangeRate, b: ExchangeRate, timestamp: Instant, floor: Instant)
    requires InWindow(a, floor) && InWindow(b, floor) && a != b
    requires a.dateOfRecord <= timestamp && b.dateOfRecord <= timestamp
    ensures Select([a, b], timestamp, floor) == Some(a)
    ensures Select([b, a], timestamp, floor) == Some(b)
  {
    assert [a, b][..1] == [a] && [b, a][..1] == [b];
    assert [a][..0] == [] && [b][..0] == [];
    assert Select([a], timestamp, floor) == Some(a);
    assert Select([b], timestamp, floor) == Some(b);
  }

  /** A forward-dated in-window rate is preferred to a past-dated one that comes first only if
      it is the first in-window rate: after a past-dated first candidate it is ignored. */
  lemma ForwardPreferredOnlyWhenFirst(past: ExchangeRate, forward: ExchangeRate, timestamp: Instant, floor: Instant)
    requires InWindow(past, floor) && InWindow(forward, floor)
    requires past.dateOfRecord <= timestamp < forward.dateOfRecord
    ensures Select([forward, past], timestamp, floor) == Some(forward)
    ensures Select([past, forward], timestamp, floor) == Some(past)
  {
    assert [forward, past][..1] == [forward] && [past, forward][..1] == [past];
    assert [forward][..0] == [] && [past][..0] == [];
    assert Select([forward], timestamp, floor) == Some(forward);
    assert Select([past], timestamp, floor) == Some(past);
  }

  /** The calls the service makes to its collaborators, in order. */
  datatype Call = FindTransactionCall(id: Uuid) | GetExchangeRatesCall(currencyName: string)

  class TransactionService {
    const transactionRepository: TransactionRepositoryBoltDB
    /** `GetExchangeRates`: the rate source's answer for a currency name. */
    const exchangeRates: string -> Result<seq<ExchangeRate>, Error>
    /** `t.AddDate(0, -6, 0)`, with Go's month normalisation left abstract. */
    const sixMonthsBefore: Instant -> Instant

    constructor (transactionRepository: TransactionRepositoryBoltDB,
                 exchangeRates: string -> Result<seq<ExchangeRate>, Error>,
                 sixMonthsBefore: Instant -> Instant)
      ensures this.transactionRepository == transactionRepository
      ensures this.exchangeRates == exchangeRates && this.sixMonthsBefore == sixMonthsBefore
    {
      this.transactionRepository := transactionRepository;
      this.exchangeRates := exchangeRates;
      this.sixMonthsBefore := sixMonthsBefore;
    }

    /** `SaveTransaction` delegates to the repository. */
    method SaveTransaction(t: Transaction) returns (err: Option<Error>)
      modifies transactionRepository`bucket
      ensures !transactionRepository.bucketExists ==>
                err == Some(BucketNotFound) && transactionRepository.bucket == old(transactionRepository.bucket)
      ensures transactionRepository.bucketExists ==>
                err == None && transactionRepository.bucket == Put(old(transactionRepository.bucket), t)
    {
      err := transactionRepository.SaveTransaction(t);
    }

    /** What `FindTransactionAndExchangeRateFromCurrency` returns in the current state. */
    function FindOutcome(id: Uuid, currencyName: string): (r: Result<(Transaction, ExchangeRate), Error>)
      reads transactionRepository
      ensures var found := Lookup(transactionRepository.bucketExists, transactionRepository.bucket, id);
              && (found.Err? ==> r == Err(found.error))
              && (found.Ok? && exchangeRates(currencyName).Err? ==> r == Err(exchangeRates(currencyName).error))
              && (r.Ok? ==> found == Ok(r.value.0) && exchangeRates(currencyName).Ok?)
    {
      match Lookup(transactionRepository.bucketExists, transactionRepository.bucket, id)
      case Err(e) => Err(e)
      case Ok(t) =>
        match exchangeRates(currencyName)
        case Err(e) => Err(e)
        case Ok(rates) =>
          match Select(rates, t.timestamp, sixMonthsBefore(t.timestamp))
          case None => Err(NoExchangeRateInWindow(currencyName))
          case Some(rate) => Ok((t, rate))
    }

    /** `FindTransactionAndExchangeRateFromCurrency`. `calls` lists the collaborator calls made:
        the rate source is consulted only after the transaction was found. */
    method FindTransactionAndExchangeRateFromCurrency(id: Uuid, currencyName: string)
      returns (r: Result<(Transaction, ExchangeRate), Error>, calls: seq<Call>)
      ensures r == FindOutcome(id, currencyName)
      ensures Lookup(transactionRepository.bucketExists, transactionRepository.bucket, id).Err? ==>
                calls == [FindTransactionCall(id)]
      ensures Lookup(transactionRepository.bucketExists, transactionRepository.bucket, id).Ok? ==>
                calls == [FindTransactionCall(id), GetExchangeRatesCall(currencyName)]
    {
      calls := [FindTransactionCall(id)];
      var found := transactionRepository.FindTransaction(id);
      if found.Err? {
        return Err(found.error), calls;
      }
      var transaction := found.value;
      calls := calls + [GetExchangeRatesCall(currencyName)];
      var fetched := exchangeRates(currencyName);
      if fetched.Err? {
        return Err(fetched.error), calls;
      }
      var rates := fetched.value;
      var floor := sixMonthsBefore(transaction.timestamp);
      var closest: Option<ExchangeRate> := None;
      for i := 0 to |rates|
        invariant closest == Select(rates[..i], transaction.timestamp, floor)
      {
        assert rates[..i + 1][..i] == rates[..i];
        var rate := rates[i];
        if rate.dateOfRecord < floor {
          continue;
        }
        if closest.None? || (rate.dateOfRecord > transaction.timestamp && rate.dateOfRecord < closest.value.dateOfRecord) {
          closest := Some(rate);
        }
      }
      assert rates[..|rates|] == rates;
      if closest.None? {
        return Err(NoExchangeRateInWindow(currencyName)), calls;
      }
      r := Ok((transaction, closest.value));
    }
  }

  /** The service's outcome, spelled out: errors of the lookup and of the fetch come back
      unchanged; otherwise a rate is returned exactly when one is in the window, and it is an
      in-window element of the fetched list. */
  lemma FindOutcomeProperties(service: TransactionService, id: Uuid, currencyName: string)
    ensures var r := service.FindOutcome(id, currencyName);
            var repo := service.transactionRepository;
            var found := Lookup(repo.bucketExists, repo.bucket, id);
            found.Ok? && service.exchangeRates(currencyName).Ok? ==>
              var rates := service.exchangeRates(currencyName).value;
              var floor := service.sixMonthsBefore(found.value.timestamp);
              && (r.Err? <==> forall i :: 0 <= i < |rates| ==> !InWindow(rates[i], floor))
              && (r.Err? ==> r.error == NoExchangeRateInWindow(currencyName))
              && (r.Ok? ==> r.value.0 == found.value && r.value.1 in rates && InWindow(r.value.1, floor))
  {
    var repo := service.transactionRepository;
    var found := Lookup(repo.bucketExists, repo.bucket, id);
    if found.Ok? && service.exchangeRates(currencyName).Ok? {
      var rates := service.exchangeRates(currencyName).value;
      var floor := service.sixMonthsBefore(found.value.timestamp);
      NoneSelectedIff(rates, found.value.timestamp, floor);
      SelectedIsInWindowMember(rates, found.value.timestamp, floor);
    }
  }
}
