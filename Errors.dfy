/** Every error value the core can return, named after the Go variable that holds it,
    with the text its `Error()` method yields. */
module Errors {
  import opened Text

  datatype Error =
    // package domain, transactions
    | DescriptionEmpty
    | DescriptionTooLong
    | InvalidAmountInUSD
    | InvalidTimestamp
    // package domain, exchange rates
    | CurrencyNameEmpty
    | InvalidExchangeRate
    | InvalidDateOfRecord
    // package client (Treasury API)
    | EmptyField
    | InvalidDay
    | InvalidMonth
    | InvalidYear
    | ParsingExchangeRateDateOfRecord(cause: Error)
    | InvalidExchangeRateValue
    | ExchangeRateNotFound
    | DecodingResponse
    | NetworkIssue
    | TreasuryAPIResponse
    | ExchangeRateValidation(errors: seq<Error>)
    // package repository
    | PathToDBAndBucketNameIsMandatory
    | BucketNotFound
    | TransactionNotFound
    // package handler
    | TimestampEmpty
    | InvalidTimestampFormat
    // package services
    | NoExchangeRateInWindow(currencyName: string)

  /** The text of `err.Error()`. A wrapped date error ends with its cause's text and the
      window error with the currency's name, as the `%v` and `%s` verbs put them there. */
  function Message(e: Error): (m: string)
    ensures e.ParsingExchangeRateDateOfRecord? ==>
              |m| > |Message(e.cause)| && m[|m| - |Message(e.cause)|..] == Message(e.cause)
    ensures e.NoExchangeRateInWindow? ==>
              |m| > |e.currencyName| && m[|m| - |e.currencyName|..] == e.currencyName
    decreases e
  {
    match e
    case DescriptionEmpty => "transaction description is required; it cannot be empty"
    case DescriptionTooLong => "transaction description must not exceed 50 characters"
    case InvalidAmountInUSD => "transaction amount must be a positive value"
    case InvalidTimestamp => "transaction timestamp cannot be in the future"
    case CurrencyNameEmpty => "currency name is required; it cannot be empty"
    case InvalidExchangeRate => "exchange rate is invalid; it must be greater than 0"
    case InvalidDateOfRecord => "date is invalid; it cannot be in the future"
    case EmptyField => "day, month and/or year must not be empty"
    case InvalidDay => "invalid day"
    case InvalidMonth => "invalid month"
    case InvalidYear => "invalid year"
    case ParsingExchangeRateDateOfRecord(cause) =>
      "error parsing exchange rate date of record: " + Message(cause)
    case InvalidExchangeRateValue => "invalid exchange rate value"
    case ExchangeRateNotFound => "no exchange rate found for the provided currency"
    case DecodingResponse => "error decoding response from Treasury API"
    case NetworkIssue => "network issue while fetching exchange rate data"
    case TreasuryAPIResponse => "error from the Treasury API"
    case ExchangeRateValidation(errors) =>
      "validation errors: " + Join(seq(|errors|, i requires 0 <= i < |errors| => Message(errors[i])), ", ")
    case PathToDBAndBucketNameIsMandatory => "the database file path and the bucket name are mandatory"
    case BucketNotFound => "bucket not found"
    case TransactionNotFound => "transaction not found"
    case TimestampEmpty => "transaction timestamp is required; it cannot be empty"
    case InvalidTimestampFormat => "transaction timestamp format must be in ISO 8601 standard"
    case NoExchangeRateInWindow(currencyName) =>
      "no exchange rate found within the last 6 months for currency " + currencyName
  }

  /** The messages of a list of errors, in list order. */
  function Messages(errs: seq<Error>): (ms: seq<string>)
    ensures |ms| == |errs| && forall i :: 0 <= i < |errs| ==> ms[i] == Message(errs[i])
  {
    seq(|errs|, i requires 0 <= i < |errs| => Message(errs[i]))
  }

  /** "validation errors: " followed by the messages joined with ", ", the text both the
      HTTP handler and the Treasury client build from a list of validation errors. */
  function ValidationMessage(errs: seq<Error>): (m: string)
    ensures |m| >= 19 && m[..19] == "validation errors: "
    ensures errs == [] ==> m == "validation errors: "
    ensures |errs| == 1 ==> m == "validation errors: " + Message(errs[0])
  {
    "validation errors: " + Join(Messages(errs), ", ")
  }

  /** The Treasury client's joined validation error reads exactly like the handler's. */
  lemma ExchangeRateValidationMessage(errs: seq<Error>)
    ensures Message(ExchangeRateValidation(errs)) == ValidationMessage(errs)
  {
    assert seq(|errs|, i requires 0 <= i < |errs| => Message(errs[i])) == Messages(errs);
  }
}
