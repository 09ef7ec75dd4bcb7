/** The ExchangeRate entity of package domain: validation and construction. */
module ExchangeRateDomain {
  import opened Wrappers
  import opened Text
  import opened Errors
  import opened Time

  /** The rate is kept exactly as given (it is not rounded). */
  datatype ExchangeRate = ExchangeRate(currencyName: string, rate: real, dateOfRecord: Instant)

  predicate FieldsValid(currencyName: string, rate: real, dateOfRecord: Instant, now: Instant) {
    currencyName != [] && rate > 0.0 && dateOfRecord <= now
  }

  /** Position of each kind of error in the accumulated list. */
  function ExchangeRateErrorRank(e: Error): nat {
    match e
    case CurrencyNameEmpty => 0
    case InvalidExchangeRate => 1
    case _ => 2
  }

  /** `ValidateExchangeRate`: three independent checks whose errors accumulate in the order
      currency name, rate, date of record; `now` is the reading of `time.Now()`. */
  function ValidateExchangeRate(currencyName: string, rate: real, dateOfRecord: Instant, now: Instant): (errs: seq<Error>)
    ensures errs == [] <==> FieldsValid(currencyName, rate, dateOfRecord, now)
    ensures |errs| <= 3
    ensures CurrencyNameEmpty in errs <==> currencyName == []
    ensures InvalidExchangeRate in errs <==> rate <= 0.0
    ensures InvalidDateOfRecord in errs <==> dateOfRecord > now
    ensures forall e :: e in errs ==> e in {CurrencyNameEmpty, InvalidExchangeRate, InvalidDateOfRecord}
    ensures forall i, j :: 0 <= i < j < |errs| ==> ExchangeRateErrorRank(errs[i]) < ExchangeRateErrorRank(errs[j])
  {
    (if currencyName == "" then [CurrencyNameEmpty] else [])
      + (if rate <= 0.0 then [InvalidExchangeRate] else [])
      + (if dateOfRecord > now then [InvalidDateOfRecord] else [])
  }

  /** `NewExchangeRate`: trims the currency name, validates, and on success keeps the trimmed
      name, the rate unrounded and the date of record unchanged. */
  function NewExchangeRate(currencyName: string, rate: real, dateOfRecord: Instant, now: Instant)
    : (r: Result<ExchangeRate, seq<Error>>)
    ensures r.Ok? <==> FieldsValid(TrimSpace(currencyName), rate, dateOfRecord, now)
    ensures r.Err? ==> r.error == ValidateExchangeRate(TrimSpace(currencyName), rate, dateOfRecord, now) && r.error != []
    ensures r.Ok? ==> r.value == ExchangeRate(TrimSpace(currencyName), rate, dateOfRecord)
  {
    var trimmed := TrimSpace(currencyName);
    var errs := ValidateExchangeRate(trimmed, rate, dateOfRecord, now);
    if |errs| > 0 then Err(errs) else Ok(ExchangeRate(trimmed, rate, dateOfRecord))
  }

  /** Every constructed rate has a trimmed non-empty name, a positive rate and a date not after `now`. */
  lemma NewExchangeRateIsValid(currencyName: string, rate: real, dateOfRecord: Instant, now: Instant)
    ensures var r := NewExchangeRate(currencyName, rate, dateOfRecord, now);
            r.Ok? ==> r.value.currencyName != [] && TrimSpace(r.value.currencyName) == r.value.currencyName
                      && r.value.rate > 0.0 && r.value.dateOfRecord <= now
  {
    TrimSpaceIdempotent(currencyName);
  }

  /** A date of record equal to `now` is accepted. */
  lemma DateOfRecordAtNowAccepted(currencyName: string, rate: real, now: Instant)
    requires TrimSpace(currencyName) != [] && rate > 0.0
    ensures NewExchangeRate(currencyName, rate, now, now) == Ok(ExchangeRate(TrimSpace(currencyName), rate, now))
  {
  }

  /** A date of record after `now` is rejected, with that error alone when the rest is valid. */
  lemma DateOfRecordAfterNowRejected(currencyName: string, rate: real, dateOfRecord: Instant, now: Instant)
    requires TrimSpace(currencyName) != [] && rate > 0.0 && dateOfRecord > now
    ensures NewExchangeRate(currencyName, rate, dateOfRecord, now) == Err([InvalidDateOfRecord])
  {
    var trimmed := TrimSpace(currencyName);
    assert ValidateExchangeRate(trimmed, rate, dateOfRecord, now) == [] + [] + [InvalidDateOfRecord];
    var r := NewExchangeRate(currencyName, rate, dateOfRecord, now);
    assert !FieldsValid(trimmed, rate, dateOfRecord, now);
    assert r.Err?;
    assert r.error == [InvalidDateOfRecord];
  }

  /** A blank name, a zero rate and a future date give all three errors, in order. */
  lemma AllErrorsAccumulate(now: Instant)
    ensures NewExchangeRate("  ", 0.0, now + 1, now) == Err([CurrencyNameEmpty, InvalidExchangeRate, InvalidDateOfRecord])
  {
    assert AllSpace("  ");
    assert TrimSpace("  ") == "";
    assert ValidateExchangeRate("", 0.0, now + 1, now) == [CurrencyNameEmpty, InvalidExchangeRate, InvalidDateOfRecord];
  }
}
