/** The Treasury API adapter of package client: the bounded retry of `GetExchangeRate`, the
    checks of `ProcessResponse` and `ParseDateFromResponse`. The HTTP transport and the JSON
    decoder are outside the model: a call's outcome and a decoded body are given values. */
module TreasuryClient {
  import opened Wrappers
  import opened Text
  import opened Errors
  import opened Time
  import opened ExchangeRateDomain

  const MaxRetries: nat := 3
  const StatusOK: int := 200

  /** One element of the `data` list of the response, every field as the string the API sent. */
  datatype Record = Record(currency: string, exchangeRate: string, recordDay: string, recordMonth: string, recordYear: string)

  /** The body after `json.Decoder.Decode`: either it failed or it gave the `data` list. */
  datatype Body = Undecodable | Decoded(data: seq<Record>)

  datatype HttpResponse = HttpResponse(statusCode: int, body: Body)

  /** What one `client.Get` call gave: a transport error, or a response. */
  datatype GetOutcome = TransportError | Received(response: HttpResponse)

  datatype CivilDate = CivilDate(year: int, month: int, day: int)

  /** `strconv.Atoi` of the trimmed day, if it is an integer from 1 to 31. */
  predicate DayValid(dayString: string) {
    var d := Atoi(TrimSpace(dayString)); d.Some? && 1 <= d.value <= 31
  }

  predicate MonthValid(monthString: string) {
    var m := Atoi(TrimSpace(monthString)); m.Some? && 1 <= m.value <= 12
  }

  predicate YearValid(yearString: string) {
    Atoi(TrimSpace(yearString)).Some?
  }

  predicate AnyBlank(dayString: string, monthString: string, yearString: string) {
    TrimSpace(yearString) == [] || TrimSpace(monthString) == [] || TrimSpace(dayString) == []
  }

  /** `ParseDateFromResponse`: trims the three fields; a blank field is `EmptyField` before
      any numeric check; then day, month and year are checked in that order. */
  function ParseDateFromResponse(dayString: string, monthString: string, yearString: string): (r: Result<CivilDate, Error>)
    ensures r == Err(EmptyField) <==> AnyBlank(dayString, monthString, yearString)
    ensures r == Err(InvalidDay) <==> !AnyBlank(dayString, monthString, yearString) && !DayValid(dayString)
    ensures r == Err(InvalidMonth) <==>
      !AnyBlank(dayString, monthString, yearString) && DayValid(dayString) && !MonthValid(monthString)
    ensures r == Err(InvalidYear) <==>
      !AnyBlank(dayString, monthString, yearString) && DayValid(dayString) && MonthValid(monthString) && !YearValid(yearString)
    ensures r.Ok? <==> DayValid(dayString) && MonthValid(monthString) && YearValid(yearString)
    ensures r.Ok? ==> && Atoi(TrimSpace(dayString)) == Some(r.value.day)
                      && Atoi(TrimSpace(monthString)) == Some(r.value.month)
                      && Atoi(TrimSpace(yearString)) == Some(r.value.year)
    ensures r.Ok? ==> 1 <= r.value.day <= 31 && 1 <= r.value.month <= 12
    ensures r.Err? ==> r.error == EmptyField || r.error == InvalidDay || r.error == InvalidMonth || r.error == InvalidYear
  {
    var ds := TrimSpace(dayString);
    var ms := TrimSpace(monthString);
    var ys := TrimSpace(yearString);
    if ys == "" || ms == "" || ds == "" then Err(EmptyField)
    else
      var day := Atoi(ds);
      if day.None? || day.value < 1 || day.value > 31 then Err(InvalidDay)
      else
        var month := Atoi(ms);
        if month.None? || month.value < 1 || month.value > 12 then Err(InvalidMonth)
        else
          var year := Atoi(ys);
          if year.None? then Err(InvalidYear)
          else Ok(CivilDate(year.value, month.value, day.value))
  }

  /** The instant `time.Date` gives for a parsed date: midnight UTC. */
  function DateOfRecord(d: CivilDate): (t: Instant)
    requires 1 <= d.month <= 12
    ensures t % NanosPerDay == 0
    ensures t == MidnightUTC(d.year, d.month, 1) + (d.day - 1) * NanosPerDay
  {
    MidnightDayOfMonth(d.year, d.month, d.day);
    MidnightUTC(d.year, d.month, d.day)
  }

  /** Three unsigned digit fields without surrounding space and in range parse to their values. */
  lemma ParseDateOfDigits(dayString: string, monthString: string, yearString: string)
    requires dayString != [] && AllDigits(dayString) && 1 <= DigitsValue(dayString) <= 31
    requires monthString != [] && AllDigits(monthString) && 1 <= DigitsValue(monthString) <= 12
    requires yearString != [] && AllDigits(yearString) && DigitsValue(yearString) <= MaxInt64
    ensures ParseDateFromResponse(dayString, monthString, yearString)
         == Ok(CivilDate(DigitsValue(yearString), DigitsValue(monthString), DigitsValue(dayString)))
  {
    TrimSpaceOfTrimmed(dayString);
    TrimSpaceOfTrimmed(monthString);
    TrimSpaceOfTrimmed(yearString);
    AtoiOfDigits(dayString);
    AtoiOfDigits(monthString);
    AtoiOfDigits(yearString);
  }

  /** The fields of the Treasury API's sample record give 30 September 2024. */
  lemma ParseDateExample()
    ensures ParseDateFromResponse("30", "09", "2024") == Ok(CivilDate(2024, 9, 30))
  {
    assert DigitsValue("30") == 30 by { assert "30"[..1] == "3"; }
    assert DigitsValue("09") == 9 by { assert "09"[..1] == "0"; }
    assert DigitsValue("2024") == 2024 by {
      assert "2024"[..3] == "202" && "202"[..2] == "20" && "20"[..1] == "2";
    }
    ParseDateOfDigits("30", "09", "2024");
  }

  /** `ProcessResponse`, checks in this order: status, decoding, an empty list, the date of
      the first record, its rate, then the domain validation of that first record. The rate
      string is read by `parseFloat`, which stands for `strconv.ParseFloat`; `now` is the
      reading of `time.Now()` taken by `NewExchangeRate`. */
  function ProcessResponse(resp: HttpResponse, now: Instant, parseFloat: string -> Option<real>): (r: Result<ExchangeRate, Error>)
    ensures resp.statusCode != StatusOK <==> r == Err(TreasuryAPIResponse)
    ensures resp.statusCode == StatusOK && resp.body.Undecodable? <==> r == Err(DecodingResponse)
    ensures resp.statusCode == StatusOK && resp.body == Decoded([]) <==> r == Err(ExchangeRateNotFound)
    ensures resp.statusCode == StatusOK && resp.body.Decoded? && resp.body.data != [] ==>
      var first := resp.body.data[0];
      var date := ParseDateFromResponse(first.recordDay, first.recordMonth, first.recordYear);
      && (date.Err? ==> r == Err(ParsingExchangeRateDateOfRecord(date.error)))
      && (date.Ok? && parseFloat(first.exchangeRate).None? ==> r == Err(InvalidExchangeRateValue))
      && (date.Ok? && parseFloat(first.exchangeRate).Some? ==>
            var built := NewExchangeRate(first.currency, parseFloat(first.exchangeRate).value, DateOfRecord(date.value), now);
            && (built.Err? ==> r == Err(ExchangeRateValidation(built.error)))
            && (built.Ok? ==> r == Ok(built.value)))
    ensures r.Ok? ==> && resp.statusCode == StatusOK && resp.body.Decoded? && resp.body.data != []
                      && r.value.currencyName == TrimSpace(resp.body.data[0].currency)
                      && Some(r.value.rate) == parseFloat(resp.body.data[0].exchangeRate)
  {
    if resp.statusCode != StatusOK then Err(TreasuryAPIResponse)
    else if resp.body.Undecodable? then Err(DecodingResponse)
    else if |resp.body.data| == 0 then Err(ExchangeRateNotFound)
    else
      var first := resp.body.data[0];
      var date := ParseDateFromResponse(first.recordDay, first.recordMonth, first.recordYear);
      if date.Err? then Err(ParsingExchangeRateDateOfRecord(date.error))
      else
        var rate := parseFloat(first.exchangeRate);
        if rate.None? then Err(InvalidExchangeRateValue)
        else
          var built := NewExchangeRate(first.currency, rate.value, DateOfRecord(date.value), now);
          if built.Err? then Err(ExchangeRateValidation(built.error)) else Ok(built.value)
  }

  /** Records after the first one never change the outcome. */
  lemma OnlyFirstRecordUsed(status: int, first: Record, rest1: seq<Record>, rest2: seq<Record>, now: Instant,
                            parseFloat: string -> Option<real>)
    ensures ProcessResponse(HttpResponse(status, Decoded([first] + rest1)), now, parseFloat)
         == ProcessResponse(HttpResponse(status, Decoded([first] + rest2)), now, parseFloat)
  {
  }

  /** A first record whose date and rate parse and whose values are valid becomes the result. */
  lemma ProcessValidFirstRecord(first: Record, rest: seq<Record>, date: CivilDate, rate: real, now: Instant,
                                parseFloat: string -> Option<real>)
    requires ParseDateFromResponse(first.recordDay, first.recordMonth, first.recordYear) == Ok(date)
    requires parseFloat(first.exchangeRate) == Some(rate)
    requires 1 <= date.month <= 12
    requires ExchangeRateDomain.FieldsValid(TrimSpace(first.currency), rate, DateOfRecord(date), now)
    ensures ProcessResponse(HttpResponse(StatusOK, Decoded([first] + rest)), now, parseFloat)
         == Ok(ExchangeRate(TrimSpace(first.currency), rate, DateOfRecord(date)))
  {
  }

  /** The retry loop of `GetExchangeRate`. `get(i)` is what the i-th `client.Get` call gives.
      It calls at most `MaxRetries` times, stops at the first call without a transport error,
      and sleeps only between two calls. */
  method GetWithRetry(get: nat -> GetOutcome) returns (outcome: Result<HttpResponse, Error>, calls: nat, sleeps: nat)
    ensures 1 <= calls <= MaxRetries
    ensures sleeps == calls - 1
    ensures forall i :: 0 <= i < calls - 1 ==> get(i).TransportError?
    ensures outcome.Ok? ==> get(calls - 1) == Received(outcome.value)
    ensures outcome.Err? <==> calls == MaxRetries && get(MaxRetries - 1).TransportError?
    ensures outcome.Err? ==> outcome.error == NetworkIssue
  {
    var attempt: nat := 0;
    var last := TransportError;
    calls, sleeps := 0, 0;
    while attempt < MaxRetries
      invariant attempt <= MaxRetries
      invariant calls == attempt && sleeps == (if attempt < MaxRetries then attempt else MaxRetries - 1)
      invariant forall i :: 0 <= i < attempt ==> get(i).TransportError?
      invariant attempt > 0 ==> last == get(attempt - 1)
    {
      last := get(attempt);
      calls := calls + 1;
      if last.Received? {
        break;
      }
      if attempt < MaxRetries - 1 {
        sleeps := sleeps + 1;
      }
      attempt := attempt + 1;
    }
    if last.TransportError? {
      outcome := Err(NetworkIssue);
    } else {
      outcome := Ok(last.response);
    }
  }

  /** `GetExchangeRate`: the retried call, then `ProcessResponse` on the response it gave. */
  method GetExchangeRate(get: nat -> GetOutcome, now: Instant, parseFloat: string -> Option<real>)
    returns (r: Result<ExchangeRate, Error>, calls: nat)
    ensures 1 <= calls <= MaxRetries
    ensures forall i :: 0 <= i < calls - 1 ==> get(i).TransportError?
    ensures get(calls - 1).TransportError? ==> calls == MaxRetries && r == Err(NetworkIssue)
    ensures get(calls - 1).Received? ==> r == ProcessResponse(get(calls - 1).response, now, parseFloat)
  {
    var outcome, sleeps;
    outcome, calls, sleeps := GetWithRetry(get);
    if outcome.Err? {
      r := Err(NetworkIssue);
    } else {
      r := ProcessResponse(outcome.value, now, parseFloat);
    }
  }
}
