# Purchase transactions with currency conversion: a Dafny model

This project models the core of a Go service that records purchase transactions in US
dollars and later shows one converted into another currency. The conversion uses an exchange
rate taken from the U.S. Treasury "rates of exchange" API. The model covers:

- the `Transaction` and `ExchangeRate` domain entities, their validators and constructors,
  and the rounding to two decimals (`TransactionDomain`, `ExchangeRateDomain`);
- the Treasury adapter (`TreasuryClient`):
  - the bounded retry loop around the HTTP `Get`;
  - the error-precedence chain that turns a response into an exchange rate;
  - the parsing of the record's day, month and year;
- the BoltDB repository (`Repository`). It is a class holding the bucket as a map plus a
  flag telling whether the bucket exists;
- the transaction service (`Services`). It looks a transaction up, fetches the currency's
  rates and picks one with the single-pass loop of the source;
- the HTTP handler without its transport (`Handler`):
  - timestamp parsing and its short-circuit validation;
  - the order of checks when a transaction is created;
  - the joined validation message;
  - the double-rounded conversion shown to the caller.

Supporting modules:

- `Wrappers`: `Option` and `Result`.
- `Text`: Go's `strings.TrimSpace` white-space set, UTF-8 byte length (what Go's `len` gives),
  `strings.Join` and `strconv.Atoi`.
- `Errors`: one datatype for every error value, with its `Error()` text.
- `Time`: instants as integer nanoseconds since the Unix epoch, and `time.Date` at midnight
  UTC through a days-from-civil computation.

Amounts and rates are real numbers.

Some values come from the environment and are parameters:

- Clock readings (`time.Now()`) are `now` parameters.
- The identifier that `uuid.New()` would produce is an `id` parameter.
- Library parsers and calendar arithmetic are function-valued parameters:
  - `time.Parse` with the ISO 8601 layout;
  - `uuid.Parse`;
  - `strconv.ParseFloat`;
  - the six-month `AddDate`;
  - the display formatting of an instant.
- The rate list the service selects from is the parameter `exchangeRates` of
  `TransactionService`: the answer of `GetExchangeRates` for a currency name.

The selection loop is modelled as the code writes it. Go's `&&` binds tighter than `||`, so an
in-window rate replaces the best so far only when there is none yet, or when it is dated
after the transaction and before the best so far. The comments in the service call the
result "the closest" rate, but the model follows the code: when the first in-window rate is
dated at or before the transaction, it is kept whatever follows (`FirstPastDatedWins`). Any
candidate ranking that comments suggest beyond that is not modelled.

## Model

| member | source | states |
|---|---|---|
| Services.TransactionService.FindTransactionAndExchangeRateFromCurrency | internal/core/services/transaction.go:38-70 | The result equals `FindOutcome`, which is defined by the selection fold `Select`. Only the lookup is made when it fails. Otherwise the lookup and then the rate fetch are made, in that order. |
| Services.TransactionService.FindOutcome | internal/core/services/transaction.go:41-48 | A lookup error comes back unchanged. A fetch error after a successful lookup comes back unchanged. On success the transaction is the one the repository returned and the fetch succeeded. |
| Services.FindOutcomeProperties | internal/core/services/transaction.go:52-69 | When lookup and fetch succeed, there is an error iff every fetched rate is dated before `sixMonthsBefore(timestamp)`, the empty list included. That error is the no-rate-in-window error for the currency. A returned rate is an element of the list and is in the window. The returned transaction is the one looked up. |
| Services.Step | internal/core/services/transaction.go:52-61 | One iteration keeps the best so far or takes the current rate, and takes it only if it is in the window. A rate before the floor is skipped. The first in-window rate is always taken. A rate dated at or before the transaction never replaces a best so far. An in-window rate dated after the transaction and before the best so far replaces it, and a rate dated at or after the best so far never does. |
| Services.Select | internal/core/services/transaction.go:51-62 | The fold of the loop over the list from first to last. Its result, if any, is in the window. |
| Services.SelectedIsInWindowMember | internal/core/services/transaction.go:52-61 | The selected rate is an element of the list and is not dated before the floor. |
| Services.NoneSelectedIff | internal/core/services/transaction.go:54-67 | Nothing is selected iff every rate is dated before the floor. |
| Services.FirstPastDatedWins | internal/core/services/transaction.go:59 | If the first in-window rate is dated at or before the transaction, it is the result whatever follows. |
| Services.FirstForwardDatedLeadsToClosest | internal/core/services/transaction.go:59 | If the first in-window rate is dated after the transaction, the result is the in-window rate with the earliest date after the transaction. Ties go to the earliest position. |
| Services.SelectionDependsOnOrder | internal/core/services/transaction.go:59 | Two past-dated in-window rates give different results in the two orders. |
| Services.ForwardPreferredOnlyWhenFirst | internal/core/services/transaction.go:59 | A forward-dated rate wins over a past-dated one only when it comes first in the list. |
| Services.TransactionService.constructor | internal/core/services/transaction.go:23-28 | `NewTransactionService` holds the given repository and rate source. |
| Services.TransactionService.SaveTransaction | internal/core/services/transaction.go:31-33 | Saving gives exactly the repository's outcome and new bucket. |
| TransactionDomain.RoundHalfAwayFromZero | internal/core/domain/transaction.go:93 | `math.Round` is within one half of its input. A tie goes away from zero. The sign is kept. |
| TransactionDomain.RoundToTwoDecimalPlaces | internal/core/domain/transaction.go:92-94 | The result has at most two decimals and lies within 0.005 of the value. A tie goes away from zero. A non-negative value gives a non-negative result. |
| TransactionDomain.RoundIsNearest | internal/core/domain/transaction.go:93 | No integer is closer to the input than the rounded one. |
| TransactionDomain.RoundOfCents | internal/core/domain/transaction.go:92-94 | A whole number of cents is unchanged by rounding. |
| TransactionDomain.RoundFixesCents | internal/core/domain/transaction.go:92-94 | Rounding leaves a value unchanged iff it has at most two decimals. |
| TransactionDomain.RoundIdempotent | internal/core/domain/transaction.go:92-94 | Rounding twice equals rounding once. |
| TransactionDomain.RoundExamples | internal/core/domain/transaction_test.go:209-233 | 123.456 gives 123.46. 123.454 gives 123.45. 123.455 gives 123.46. 123.45 gives 123.45. -123.456 gives -123.46. 0.005 gives 0.01. |
| TransactionDomain.ValidateDescription | internal/core/domain/transaction.go:63-77 | The result is exactly the empty-description error iff the description is empty. It is exactly the too-long error iff the UTF-8 byte length exceeds 50. There is no error otherwise, and never both. |
| TransactionDomain.ValidateAmountInUSD | internal/core/domain/transaction.go:80-89 | An error iff the amount is at most 0, zero included. |
| TransactionDomain.ValidateTransaction | internal/core/domain/transaction.go:47-60 | No errors iff all fields are valid. Each kind of error is present iff its condition holds. There are at most three. |
| TransactionDomain.ValidateTransactionOrder | internal/core/domain/transaction.go:47-60 | The errors are of the four transaction kinds and appear in the order description, amount, timestamp. |
| TransactionDomain.NewTransaction | internal/core/domain/transaction.go:27-44 | Success iff the trimmed fields are valid. Failure gives exactly the non-empty validation list. Success stores the given id, the trimmed description, the instant as given and the rounded amount. |
| TransactionDomain.NewTransactionIsStored | internal/core/domain/transaction.go:27-44 | A constructed transaction has a non-empty description of at most 50 bytes with no white space at either end. Its amount is whole cents and non-negative. Its timestamp is not after `now`. |
| TransactionDomain.BlankDescriptionIsEmpty | internal/core/domain/transaction.go:28-70 | A white-space-only description is rejected as empty. |
| TransactionDomain.ErrorsAccumulate | internal/core/domain/transaction.go:47-60 | An empty description, a zero amount and a future timestamp give exactly the three errors: empty description, invalid amount, future timestamp, in that order. |
| TransactionDomain.SubCentAmountStoredAsZero | internal/core/domain/transaction.go:35-93 | Every amount strictly between 0 and 0.005, with any description whose trimmed form is valid and a timestamp not after `now`, passes validation and is stored as 0.00 with the trimmed description. |
| ExchangeRateDomain.ValidateExchangeRate | internal/core/domain/exchange_rate.go:35-54 | No errors iff all fields are valid. Each error is present iff its condition holds: empty name, rate at most 0, date after `now`. The errors keep that order. There are at most three. |
| ExchangeRateDomain.NewExchangeRate | internal/core/domain/exchange_rate.go:19-32 | Success iff the trimmed fields are valid. Failure gives exactly the validation list. Success keeps the trimmed name, the unrounded rate and the date unchanged. |
| ExchangeRateDomain.NewExchangeRateIsValid | internal/core/domain/exchange_rate.go:19-32 | A constructed rate has a trimmed, non-empty name, a positive rate and a date not after `now`. |
| ExchangeRateDomain.DateOfRecordAtNowAccepted | internal/core/domain/exchange_rate.go:49-51 | A date equal to `now` is accepted. |
| ExchangeRateDomain.DateOfRecordAfterNowRejected | internal/core/domain/exchange_rate.go:49-51 | With the other fields valid, a date after `now` gives that single error. |
| ExchangeRateDomain.AllErrorsAccumulate | internal/core/domain/exchange_rate.go:35-54 | A blank name, a zero rate and a future date give the three errors, in order. |
| TreasuryClient.GetWithRetry | internal/adapters/client/treasury_exchange_rate.go:48-63 | It makes between 1 and 3 calls and stops at the first call without a transport error. It sleeps once fewer than it calls. The result is a network issue iff all three calls failed. |
| TreasuryClient.GetExchangeRate | internal/adapters/client/treasury_exchange_rate.go:45-66 | All 3 failing gives a network-issue error. Otherwise the result is `ProcessResponse` of the first response received. |
| TreasuryClient.ProcessResponse | internal/adapters/client/treasury_exchange_rate.go:77-132 | The checks take precedence in this order: status not 200, undecodable body, empty data, date error (wrapped), unparsable rate, domain validation errors (joined). Only the first record is used. Success is the constructed rate. |
| TreasuryClient.OnlyFirstRecordUsed | internal/adapters/client/treasury_exchange_rate.go:109-120 | Records after the first never change the outcome. |
| TreasuryClient.ProcessValidFirstRecord | internal/adapters/client/treasury_exchange_rate.go:109-131 | A valid first record of a 200 response becomes the result, with its name trimmed. |
| TreasuryClient.ParseDateFromResponse | internal/adapters/client/treasury_exchange_rate.go:136-160 | Each error holds iff the earlier checks pass and its own fails: blank field, day outside 1 to 31 or not an integer, month outside 1 to 12, year not an integer. Success gives the parsed triple. |
| TreasuryClient.DateOfRecord | internal/adapters/client/treasury_exchange_rate.go:159 | The date of record is a midnight: a whole number of days. Day `d` of a month is `d - 1` days after the first of that month, so a day past the month's end rolls into the next month. |
| TreasuryClient.ParseDateOfDigits | internal/adapters/client/treasury_exchange_rate.go:146-159 | Digit strings in range parse to their values. |
| TreasuryClient.ParseDateExample | internal/adapters/client/treasury_exchange_rate_test.go:40-55 | "30", "09", "2024" gives the date 2024-09-30. |
| Time.MidnightUTC | internal/adapters/client/treasury_exchange_rate.go:159 | `time.Date` at midnight UTC is a whole number of days since the epoch. Which day it is follows from the lemmas below: the epoch anchor, and the day, month and year steps of the Gregorian calendar. |
| Time.MidnightExamples | internal/adapters/client/treasury_exchange_rate.go:159 | 1970-01-01 is instant 0. 2024-09-30 is day 19996. 29 February is normalised to 1 March in a common year but not in a leap year. |
| Time.MidnightNextDay | internal/adapters/client/treasury_exchange_rate.go:159 | The next day of the month is one day later. |
| Time.MidnightDayOfMonth | internal/adapters/client/treasury_exchange_rate.go:159 | Day `d` of a month is `d - 1` days after its first, whatever the month's length. |
| Time.MarchYearLength | internal/adapters/client/treasury_exchange_rate.go:159 | The year counted from 1 March of `y` has 366 days iff `y + 1` is a Gregorian leap year, else 365. |
| Time.MidnightNextMonth | internal/adapters/client/treasury_exchange_rate.go:159 | The first of the next month, December rolling into January of the next year, is `DaysInMonth(year, month)` days later: 31, 30, or 28 or 29 for February by the leap-year rule. |
| Time.MidnightNextYear | internal/adapters/client/treasury_exchange_rate.go:159 | 1 January of the next year is 366 days later if the year is a leap year, else 365. |
| Text.Atoi | internal/adapters/client/treasury_exchange_rate.go:146-157 | A parsed value is within the 64-bit range, and an accepted text is non-empty with no white space at either end. |
| Text.AtoiSpec | internal/adapters/client/treasury_exchange_rate.go:146-157 | A text is accepted iff it is digits only, or a '+' or '-' followed by at least one digit, with the value in the 64-bit range (down to -2^63 with '-'). The result is the digits' value, negated after '-'. |
| Text.AtoiItoa | internal/adapters/client/treasury_exchange_rate.go:146-157 | The decimal text of a number in range parses back to it, unsigned or after '+'. After '-' it parses to the negated number, down to -2^63. |
| Text.TrimSpace | internal/core/domain/transaction.go:28 | The result is empty iff the text is all white space. Otherwise it starts and ends with non-space characters. |
| Text.TrimSpaceInfix | internal/core/domain/transaction.go:28 | The result is the slice of the text that is left when an all-space prefix and an all-space suffix are removed. |
| Text.Utf8Length | internal/core/domain/transaction.go:71 | Go's `len` on a string counts the bytes of its UTF-8 encoding: between one and four per character. |
| Text.TrimSpaceIdempotent | internal/core/domain/exchange_rate.go:20 | Trimming twice equals trimming once. |
| Text.Join | internal/adapters/handler/http.go:92 | Go's `strings.Join`: no parts give the empty text, and the first part is a prefix of the result. |
| Text.SpaceIsNotDigitOrSign | internal/adapters/client/treasury_exchange_rate.go:137-139 | Go's `unicode.IsSpace` set (`IsSpace`, used by `TrimSpace`) holds no digit and no sign, and nothing above U+3000. |
| Text.JoinAppend | internal/adapters/handler/http.go:92 | Joining one more part appends the separator and the part. |
| Errors.Message | internal/adapters/client/treasury_exchange_rate.go:112 | The text of an error. A wrapped date error ends with its cause's text, and the no-rate-in-window error ends with the currency's name. |
| Errors.ValidationMessage | internal/adapters/handler/http.go:92-94 | The message starts with "validation errors: ". No errors leave just that prefix, and one error is followed by its own text. |
| Errors.ExchangeRateValidationMessage | internal/adapters/client/treasury_exchange_rate.go:123-129 | The client's joined validation error reads exactly like the handler's message. |
| Repository.ValidateTransactionRepositoryBoltDB | internal/adapters/repository/boltdb.go:123-129 | An error iff the path or the bucket name is empty. |
| Repository.NewTransactionRepositoryBoltDB | internal/adapters/repository/boltdb.go:26-32 | The inputs are trimmed before validation, so white-space-only input is rejected. A repository is created iff there is no error. It holds the trimmed names. |
| Repository.Lookup | internal/adapters/repository/boltdb.go:85-109 | Bucket not found iff the bucket is missing. Transaction not found iff the id is absent. Otherwise the stored value. |
| Repository.Put | internal/adapters/repository/boltdb.go:80 | It writes only under the transaction's id. All other keys are unchanged. |
| Repository.FindAfterSave | internal/adapters/repository/boltdb.go:62-108 | A saved transaction is found again. |
| Repository.LastSaveWins | internal/adapters/repository/boltdb.go:80 | After many saves, each id maps to the last transaction saved under it. |
| Repository.UnsavedKeysUnchanged | internal/adapters/repository/boltdb.go:80 | Ids never saved keep their old lookup. |
| Repository.TransactionRepositoryBoltDB.SaveTransaction | internal/adapters/repository/boltdb.go:62-82 | A missing bucket gives bucket not found and leaves the store unchanged. Otherwise there is no error and the bucket is updated by `Put`. |
| Repository.TransactionRepositoryBoltDB.FindTransaction | internal/adapters/repository/boltdb.go:85-109 | The answer is `Lookup` on the current state. |
| Handler.ParseISO8601Timestamp | internal/adapters/handler/http.go:251-267 | The text is trimmed first. Blank gives the timestamp-empty error. An unparsable text gives the format error. Otherwise the result is the parsed instant. |
| Handler.UnixTimestampIsFormatError | internal/adapters/handler/http.go:261-264 | "1617181723" is a format error, not an empty one, for any parser that, as the layout demands, accepts only texts that start with four year digits and a '-'. |
| Handler.ParseAndValidateTimestamp | internal/adapters/handler/http.go:225-247 | There is at most one error. The checks short-circuit in the order empty, format, in the future. With no error the instant is the parsed one and is not after `now`. On an error it is the zero time. |
| Handler.ValidateAndCreateTransaction | internal/adapters/handler/http.go:161-167 | Timestamp errors come back alone. Otherwise the result is `NewTransaction` on the parsed instant. |
| Handler.CreatedTransactionIsStored | internal/adapters/handler/http.go:161-167 | A created transaction is `Stored` and dated no later than either clock reading. |
| Handler.FutureTimestampReportedOnce | internal/adapters/handler/http.go:161-167 | With a clock that does not go backwards, the future-timestamp error only comes alone. |
| Handler.TimestampErrorsComeAlone | internal/adapters/handler/http.go:162-165 | A blank timestamp hides the payload's own errors. |
| Handler.JoinValidationErrors | internal/adapters/handler/http.go:87-95 | The text is "validation errors: " followed by the messages joined with ", " in list order. |
| Handler.ValidationMessageAppend | internal/adapters/handler/http.go:88-92 | One more error appends ", " and its message to the joined messages. |
| Handler.ConvertAmount | internal/adapters/handler/http.go:141 | The converted amount is whole cents within 0.005 of the exact product, and a tie goes away from zero. |
| Handler.ConvertedView | internal/adapters/handler/http.go:130-141 | The amount shown is `RoundToTwoDecimalPlaces` of the stored amount and the rate shown is that of the rate, both whole cents within 0.005 with ties away from zero. The converted figure is the rounded product of those two rounded figures. The id and description are the transaction's, and the timestamp is its display form. |
| Handler.StoredAmountShownUnchanged | internal/adapters/handler/http.go:130-141 | A stored amount is shown unchanged. Its conversion at a positive rate is not negative. |
| Handler.ConversionRoundsOperandsFirst | internal/adapters/handler/http.go:130-141 | 100.004 at 5.4345 shows as 100.00 at 5.43, converted to 543.00. Rounding the exact product would give 543.47. |
| Handler.ConversionExample | internal/adapters/handler/http.go:130-141 | 28.75 at 5.25 converts to 150.94. |
| Handler.TransactionHandler.constructor | internal/adapters/handler/http.go:50-52 | `NewTransactionHandler` holds the given service. |
| Handler.TransactionHandler.SaveCreated | internal/adapters/handler/http.go:87-105 | Validation errors give 400 with the joined text. A missing bucket gives 500. In both cases the bucket is unchanged. Otherwise 201 with the new id, and the transaction is put in the bucket. |
| Handler.TransactionHandler.SaveTransaction | internal/adapters/handler/http.go:77-106 | An undecodable payload gives 400. Validation errors give 400 with the joined text. A missing bucket gives 500. Otherwise 201 with the new id, and the transaction is put in the bucket. |
| Handler.TransactionHandler.FindTransactionWithCurrencyConversion | internal/adapters/handler/http.go:110-145 | A bad id gives 400. An empty currency gives 400. Any service error gives one 404 with a fixed message. Otherwise 200 with the converted view of the transaction and rate. |

## Left out

- HTTP services
  - Not modelled: routing, middleware, rate limiting, security headers, the health check, server start and shutdown, and the JSON encoding and decoding of requests and responses. These are transport; a request is its decoded payload or path parameters, and a response is its status code and body value.
  - The JSON decode failure of a request body is an input: `None` in place of the payload.
- BoltDB
  - Not modelled: the file and directory handling, `bbolt` transactions and the `sync.RWMutex`. The bucket is a map. A stored record is taken to survive the JSON round-trip unchanged.
  - The constructor's errors from creating the directory, opening the file and creating the bucket are not modelled. The initial bucket is an input.
  - `GetBoltDB` and `Close` are resource accessors and are not modelled.
- The network `Get`, `time.Sleep`, `buildRequestURL` and the JSON decoder of the Treasury response are foreign calls:
  - the outcome of each attempt is the input `get(i)`;
  - a response is a status code and an already-decoded record list, or undecodable;
  - sleeps are counted, not timed.
- Library functions become parameters, and their own behaviour is not modelled:
  - `time.Parse` with the ISO 8601 layout;
  - `uuid.Parse` and `uuid.New`;
  - `strconv.ParseFloat`;
  - `time.Time.AddDate(0, -6, 0)` with its month normalisation (`sixMonthsBefore`);
  - `time.Time.Format(time.DateTime)`.
- Amounts and rates are exact reals:
  - IEEE `float64` representation is not modelled;
  - the 64-bit `big.Float` precision of a stored amount is not modelled;
  - `math.Round` on values near the float boundary is not modelled;
  - non-finite rates are outside the model: `strconv.ParseFloat` accepts "NaN" and "Inf", a NaN rate passes the `rate <= 0` test, and `SetFloat64` then panics on it.
- The Treasury adapter and the service are not composed. The service calls `GetExchangeRates` on its adapter and expects a list. The adapter type defines only `GetExchangeRate`, which returns one rate. The service's rate list is therefore the parameter `exchangeRates` and not `TreasuryClient.GetExchangeRate`.
- Instants are unbounded integers of nanoseconds. Go's `time.Time` range limits for extreme years from the Treasury record are not modelled.
- Logging is not modelled, and neither is the `currencyName` parameter of `ProcessResponse`, which is used only for logging.
- Error names that the core uses but the error files do not declare (`ErrInvalidAmountInUSD`, `ErrCurrencyNameEmpty`, `ErrInvalidDateOfRecord`) carry the texts of the nearest declared constants (`ErrInvalidAmount`, `ErrCurrencyEmpty`, `ErrInvalidDate`).
- The domain's and the handler's `ErrInvalidTimestamp` have the same text and are one constructor.
