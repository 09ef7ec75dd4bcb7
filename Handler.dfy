/** The HTTP handler of package handler, without the transport: a request is its decoded
    payload or path parameters, a response its status code and the value written as JSON. */
module Handler {
  import opened Wrappers
  import opened Text
  import opened Errors
  import opened Time
  import opened TransactionDomain
  import opened ExchangeRateDomain
  import opened Repository
  import opened Services

  const StatusOK := 200
  const StatusCreated := 201
  const StatusBadRequest := 400
  const StatusNotFound := 404
  const StatusInternalServerError := 500

  /** The request and response body of a transaction. The timestamp is the text the client
      sent, or the display form of the stored instant. */
  datatype TransactionDTO = TransactionDTO(
    id: string, description: string, timestamp: string,
    amountInUSD: real, exchangeRateUsed: real, amountInTargetCurrency: real)

  /** `{"error": …}`, `{"data": {"id": …}}` or `{"data": <TransactionDTO>}`. */
  datatype Body = ErrorBody(error: string) | CreatedBody(id: Uuid) | DataBody(data: TransactionDTO)

  datatype Response = Response(statusCode: int, body: Body)

  /** What the layout "2006-01-02T15:04:05Z07:00" forces on the start of every text it
      accepts: the year is exactly four digits and a '-' follows it. The later fields are not
      fixed in width (`time.Parse` takes a one-digit hour), so nothing more is assumed. */
  predicate LayoutShaped(s: string) {
    |s| >= 5 && AllDigits(s[..4]) && s[4] == '-'
  }

  /** `ParseISO8601Timestamp`: trims the text, rejects a blank one as empty and a text the
      layout does not accept as badly formatted. `parse` is `time.Parse` with that layout. */
  function ParseISO8601Timestamp(timestampString: string, parse: string -> Option<Instant>): (r: Result<Instant, Error>)
    ensures r == Err(TimestampEmpty) <==> AllSpace(timestampString)
    ensures r == Err(InvalidTimestampFormat) <==> !AllSpace(timestampString) && parse(TrimSpace(timestampString)).None?
    ensures r.Ok? <==> !AllSpace(timestampString) && parse(TrimSpace(timestampString)).Some?
    ensures r.Ok? ==> r.value == parse(TrimSpace(timestampString)).value
  {
    var trimmed := TrimSpace(timestampString);
    if trimmed == "" then Err(TimestampEmpty)
    else match parse(trimmed)
      case None => Err(InvalidTimestampFormat)
      case Some(t) => Ok(t)
  }

  /** A text without surrounding white space that the layout rejects is a format error. */
  lemma UnparsedIsFormatError(s: string, parse: string -> Option<Instant>)
    requires s != [] && !IsSpace(s[0]) && !IsSpace(s[|s| - 1])
    requires parse(s).None?
    ensures ParseISO8601Timestamp(s, parse) == Err(InvalidTimestampFormat)
  {
    TrimSpaceOfTrimmed(s);
  }

  /** A Unix timestamp written as digits is a format error, not an empty one. */
  lemma UnixTimestampIsFormatError(parse: string -> Option<Instant>)
    requires forall s :: parse(s).Some? ==> LayoutShaped(s)
    ensures ParseISO8601Timestamp("1617181723", parse) == Err(InvalidTimestampFormat)
  {
    var s := "1617181723";
    assert s[4] == '1';
    assert !LayoutShaped(s);
    assert s[0] == '1' && s[|s| - 1] == '3';
    UnparsedIsFormatError(s, parse);
  }

  /** `ParseAndValidateTimestamp`: at most one error, and the checks stop at the first that
      fails: empty, then format, then after `now` (the reading of `time.Now()`). On an error
      the instant is Go's zero time. */
  function ParseAndValidateTimestamp(timestampString: string, now: Instant, parse: string -> Option<Instant>)
    : (r: (Instant, seq<Error>))
    ensures |r.1| <= 1
    ensures r.1 == [TimestampEmpty] <==> AllSpace(timestampString)
    ensures r.1 == [InvalidTimestampFormat] <==> !AllSpace(timestampString) && parse(TrimSpace(timestampString)).None?
    ensures r.1 == [InvalidTimestamp] <==>
              var p := ParseISO8601Timestamp(timestampString, parse); p.Ok? && p.value > now
    ensures r.1 == [] <==>
              var p := ParseISO8601Timestamp(timestampString, parse); p.Ok? && p.value <= now
    ensures r.1 == [] ==> r.0 == ParseISO8601Timestamp(timestampString, parse).value && r.0 <= now
    ensures r.1 != [] ==> r.0 == ZeroTime
  {
    if timestampString == "" then (ZeroTime, [TimestampEmpty])
    else match ParseISO8601Timestamp(timestampString, parse)
      case Err(e) => (ZeroTime, [e])
      case Ok(t) => if t > now then (ZeroTime, [InvalidTimestamp]) else (t, [])
  }

  /** `ValidateAndCreateTransaction`: a timestamp error is returned on its own and the domain
      checks do not run; otherwise the outcome is the domain constructor's. `nowAtParse` and
      `nowAtCreate` are the two readings of the clock, `id` the identifier `uuid.New()` gives;
      the identifier in the payload is ignored. */
  function ValidateAndCreateTransaction(data: TransactionDTO, nowAtParse: Instant, nowAtCreate: Instant, id: Uuid,
                                        parse: string -> Option<Instant>): (r: Result<Transaction, seq<Error>>)
    ensures var (ts, errs) := ParseAndValidateTimestamp(data.timestamp, nowAtParse, parse);
            && (errs != [] ==> r == Err(errs))
            && (errs == [] ==> r == NewTransaction(data.description, ts, data.amountInUSD, nowAtCreate, id))
  {
    var (timestamp, errs) := ParseAndValidateTimestamp(data.timestamp, nowAtParse, parse);
    if |errs| > 0 then Err(errs)
    else NewTransaction(data.description, timestamp, data.amountInUSD, nowAtCreate, id)
  }

  /** A created transaction is dated no later than either clock reading and is `Stored`. */
  lemma CreatedTransactionIsStored(data: TransactionDTO, nowAtParse: Instant, nowAtCreate: Instant, id: Uuid,
                                   parse: string -> Option<Instant>)
    ensures var r := ValidateAndCreateTransaction(data, nowAtParse, nowAtCreate, id, parse);
            r.Ok? ==> Stored(r.value, nowAtCreate) && r.value.timestamp <= nowAtParse && r.value.id == id
  {
    var (ts, errs) := ParseAndValidateTimestamp(data.timestamp, nowAtParse, parse);
    if errs == [] {
      NewTransactionIsStored(data.description, ts, data.amountInUSD, nowAtCreate, id);
    }
  }

  /** With a clock that does not run backwards the domain's own timestamp check never fires
      behind the handler's: the future-timestamp error only ever comes alone. */
  lemma FutureTimestampReportedOnce(data: TransactionDTO, nowAtParse: Instant, nowAtCreate: Instant, id: Uuid,
                                    parse: string -> Option<Instant>)
    requires nowAtParse <= nowAtCreate
    ensures var r := ValidateAndCreateTransaction(data, nowAtParse, nowAtCreate, id, parse);
            r.Err? && InvalidTimestamp in r.error ==> r.error == [InvalidTimestamp]
  {
  }

  /** A timestamp error hides every payload error: a blank description and a zero amount are
      not reported when the timestamp is blank. */
  lemma TimestampErrorsComeAlone(description: string, amountInUSD: real, nowAtParse: Instant, nowAtCreate: Instant,
                                 id: Uuid, parse: string -> Option<Instant>)
    ensures var data := TransactionDTO("", description, "  ", amountInUSD, 0.0, 0.0);
            ValidateAndCreateTransaction(data, nowAtParse, nowAtCreate, id, parse) == Err([TimestampEmpty])
  {
    assert AllSpace("  ");
  }

  /** The error text of a failed validation, built as `SaveTransaction` does: each message put
      in its slot of a fresh array, the array joined with ", ". */
  method JoinValidationErrors(errs: seq<Error>) returns (message: string)
    ensures message == ValidationMessage(errs)
  {
    var messages := new string[|errs|];
    for i := 0 to |errs|
      invariant forall k :: 0 <= k < i ==> messages[k] == Message(errs[k])
    {
      messages[i] := Message(errs[i]);
    }
    assert messages[..] == Messages(errs);
    message := "validation errors: " + Join(messages[..], ", ");
  }

  /** The validation text lists every message in order: one more error appends ", " and its
      message to the joined text. */
  lemma ValidationMessageAppend(errs: seq<Error>, e: Error)
    requires errs != []
    ensures Join(Messages(errs + [e]), ", ") == Join(Messages(errs), ", ") + ", " + Message(e)
  {
    var ms := Messages(errs + [e]);
    assert forall i :: 0 <= i < |errs| ==> ms[i] == Messages(errs)[i];
    assert ms == Messages(errs) + [ms[|errs|]];
    JoinAppend(Messages(errs), ms[|errs|], ", ");
  }

  /** An amount converted at a rate, rounded to cents: whole cents within 0.005 of the exact
      product, a tie moved away from zero. */
  function ConvertAmount(amount: real, rate: real): (r: real)
    ensures IsCents(r) && Abs(r - amount * rate) <= 0.005
    ensures r == amount * rate + 0.005 ==> amount * rate > 0.0
    ensures r == amount * rate - 0.005 ==> amount * rate < 0.0
  {
    RoundToTwoDecimalPlaces(amount * rate)
  }

  /** The figures shown for a transaction converted at a rate: amount and rate rounded to
      cents, and their product rounded again, each by `RoundToTwoDecimalPlaces` (ties away
      from zero). */
  function ConvertedView(t: Transaction, rate: ExchangeRate, displayTimestamp: string): (dto: TransactionDTO)
    ensures dto.amountInUSD == RoundToTwoDecimalPlaces(t.amountInUSD)
    ensures dto.exchangeRateUsed == RoundToTwoDecimalPlaces(rate.rate)
    ensures dto.amountInTargetCurrency == ConvertAmount(dto.amountInUSD, dto.exchangeRateUsed)
    ensures IsCents(dto.amountInUSD) && IsCents(dto.exchangeRateUsed) && IsCents(dto.amountInTargetCurrency)
    ensures Abs(dto.amountInUSD - t.amountInUSD) <= 0.005 && Abs(dto.exchangeRateUsed - rate.rate) <= 0.005
    ensures dto.id == t.id && dto.description == t.description && dto.timestamp == displayTimestamp
  {
    var amount := RoundToTwoDecimalPlaces(t.amountInUSD);
    var rateUsed := RoundToTwoDecimalPlaces(rate.rate);
    var converted := ConvertAmount(amount, rateUsed);
    TransactionDTO(t.id, t.description, displayTimestamp, amount, rateUsed, converted)
  }

  /** A stored amount is shown unchanged, and a conversion of a stored amount at a positive
      rate is never negative. */
  lemma StoredAmountShownUnchanged(t: Transaction, rate: ExchangeRate, displayTimestamp: string, now: Instant)
    requires Stored(t, now) && rate.rate > 0.0
    ensures var dto := ConvertedView(t, rate, displayTimestamp);
            dto.amountInUSD == t.amountInUSD && dto.amountInTargetCurrency >= 0.0
  {
    RoundFixesCents(t.amountInUSD);
    var amount := RoundToTwoDecimalPlaces(t.amountInUSD);
    var rateUsed := RoundToTwoDecimalPlaces(rate.rate);
    assert amount >= 0.0 && rateUsed >= 0.0;
    NonNegativeProduct(amount, rateUsed);
  }

  lemma NonNegativeProduct(x: real, y: real)
    requires x >= 0.0 && y >= 0.0
    ensures x * y >= 0.0 && RoundToTwoDecimalPlaces(x * y) >= 0.0
  {
  }

  /** The amount and the rate are rounded before they are multiplied: 100.004 at 5.4345 shows
      as 100.00 at 5.43, converted to 543.00, where rounding the exact product would give 543.47. */
  lemma ConversionRoundsOperandsFirst(rate: ExchangeRate, displayTimestamp: string)
    requires rate.rate == 5.4345
    ensures var dto := ConvertedView(Transaction("", "", 0, 100.004), rate, displayTimestamp);
            dto.amountInUSD == 100.0 && dto.exchangeRateUsed == 5.43 && dto.amountInTargetCurrency == 543.0
    ensures RoundToTwoDecimalPlaces(100.004 * 5.4345) == 543.47
  {
    assert RoundHalfAwayFromZero(10000.4) == 10000;
    assert RoundHalfAwayFromZero(543.45) == 543;
    assert RoundHalfAwayFromZero(54300.0) == 54300;
    assert 100.004 * 5.4345 == 543.471738;
    assert RoundHalfAwayFromZero(54347.1738) == 54347;
  }

  /** 28.75 at 5.25 converts to 150.9375, shown as 150.94. */
  lemma ConversionExample(rate: ExchangeRate, displayTimestamp: string)
    requires rate.rate == 5.25
    ensures var dto := ConvertedView(Transaction("", "", 0, 28.75), rate, displayTimestamp);
            dto.amountInUSD == 28.75 && dto.exchangeRateUsed == 5.25 && dto.amountInTargetCurrency == 150.94
  {
    assert RoundHalfAwayFromZero(2875.0) == 2875;
    assert RoundHalfAwayFromZero(525.0) == 525;
    assert RoundHalfAwayFromZero(15093.75) == 15094;
  }

  /** The response and the bucket after `SaveTransaction` validated a payload to `created`:
      400 with the joined validation text, 500 when the bucket is missing, else 201 with the
      identifier and the transaction put in the bucket. */
  predicate SavedAs(created: Result<Transaction, seq<Error>>, response: Response, bucketExists: bool,
                    before: map<Uuid, Transaction>, after: map<Uuid, Transaction>) {
    && (created.Err? ==>
          response == Response(StatusBadRequest, ErrorBody(ValidationMessage(created.error))) && after == before)
    && (created.Ok? && !bucketExists ==>
          response == Response(StatusInternalServerError, ErrorBody("failed to save the transaction")) && after == before)
    && (created.Ok? && bucketExists ==>
          response == Response(StatusCreated, CreatedBody(created.value.id)) && after == Put(before, created.value))
  }

  class TransactionHandler {
    const transactionService: TransactionService

    /** `NewTransactionHandler`. */
    constructor (transactionService: TransactionService)
      ensures this.transactionService == transactionService
    {
      this.transactionService := transactionService;
    }

    /** `SaveTransaction` for a request whose body decoded to `payload` (None when it did not). */
    method SaveTransaction(payload: Option<TransactionDTO>, nowAtParse: Instant, nowAtCreate: Instant, id: Uuid,
                           parse: string -> Option<Instant>) returns (response: Response)
      modifies transactionService.transactionRepository`bucket
      ensures var repo := transactionService.transactionRepository;
              payload.None? ==>
                response == Response(StatusBadRequest, ErrorBody("invalid request payload")) && repo.bucket == old(repo.bucket)
      ensures var repo := transactionService.transactionRepository;
              payload.Some? ==>
                SavedAs(ValidateAndCreateTransaction(payload.value, nowAtParse, nowAtCreate, id, parse),
                        response, repo.bucketExists, old(repo.bucket), repo.bucket)
    {
      if payload.None? {
        return Response(StatusBadRequest, ErrorBody("invalid request payload"));
      }
      var created := ValidateAndCreateTransaction(payload.value, nowAtParse, nowAtCreate, id, parse);
      response := SaveCreated(created);
    }

    /** The part of `SaveTransaction` after validation: report the errors, or save. */
    method SaveCreated(created: Result<Transaction, seq<Error>>) returns (response: Response)
      modifies transactionService.transactionRepository`bucket
      ensures var repo := transactionService.transactionRepository;
              SavedAs(created, response, repo.bucketExists, old(repo.bucket), repo.bucket)
    {
      if created.Err? {
        var message := JoinValidationErrors(created.error);
        return Response(StatusBadRequest, ErrorBody(message));
      }
      var transaction := created.value;
      var err := transactionService.SaveTransaction(transaction);
      if err.Some? {
        return Response(StatusInternalServerError, ErrorBody("failed to save the transaction"));
      }
      response := Response(StatusCreated, CreatedBody(transaction.id));
    }

    /** `FindTransactionWithCurrencyConversion` for the path parameters `idString` and
        `currencyName`. `parseId` is `uuid.Parse` followed by `String()`, `display` the
        `time.DateTime` formatting of an instant. Every service error becomes one 404. */
    method FindTransactionWithCurrencyConversion(idString: string, currencyName: string,
                                                 parseId: string -> Option<Uuid>, display: Instant -> string)
      returns (response: Response)
      ensures parseId(idString).None? ==>
                response == Response(StatusBadRequest, ErrorBody("invalid transaction ID format"))
      ensures parseId(idString).Some? && currencyName == [] ==>
                response == Response(StatusBadRequest, ErrorBody("currency not provided"))
      ensures parseId(idString).Some? && currencyName != [] ==>
                var outcome := transactionService.FindOutcome(parseId(idString).value, currencyName);
                && (outcome.Err? ==>
                      response == Response(StatusNotFound, ErrorBody("the purchase cannot be converted to the target currency")))
                && (outcome.Ok? ==>
                      var (t, rate) := outcome.value;
                      response == Response(StatusOK, DataBody(ConvertedView(t, rate, display(t.timestamp)))))
    {
      var id := parseId(idString);
      if id.None? {
        return Response(StatusBadRequest, ErrorBody("invalid transaction ID format"));
      }
      if currencyName == "" {
        return Response(StatusBadRequest, ErrorBody("currency not provided"));
      }
      var found, _ := transactionService.FindTransactionAndExchangeRateFromCurrency(id.value, currencyName);
      if found.Err? {
        return Response(StatusNotFound, ErrorBody("the purchase cannot be converted to the target currency"));
      }
      var (t, rate) := found.value;
      response := Response(StatusOK, DataBody(ConvertedView(t, rate, display(t.timestamp))));
    }
  }
}
