/** The Transaction entity of package domain: validation, construction and rounding. */
module TransactionDomain {
  import opened Wrappers
  import opened Text
  import opened Errors
  import opened Time

  /** A transaction identifier in its canonical string form. */
  type Uuid = string

  /** Amounts are exact reals here; the source holds them in float64 and big.Float. */
  datatype Transaction = Transaction(id: Uuid, description: string, timestamp: Instant, amountInUSD: real)

  const MaxDescriptionBytes: nat := 50

  /** `math.Round`: nearest integer, halves rounded away from zero. */
  function RoundHalfAwayFromZero(x: real): (n: int)
    ensures x - 0.5 <= n as real <= x + 0.5
    ensures n as real == x + 0.5 ==> x > 0.0
    ensures n as real == x - 0.5 ==> x < 0.0
    ensures x >= 0.0 ==> n >= 0
    ensures x <= 0.0 ==> n <= 0
  {
    if x >= 0.0 then (x + 0.5).Floor else -((-x + 0.5).Floor)
  }

  /** A value with at most two decimals. */
  predicate IsCents(x: real) {
    (x * 100.0).Floor as real == x * 100.0
  }

  /** `RoundToTwoDecimalPlaces`: `math.Round(value*100) / 100`. */
  function RoundToTwoDecimalPlaces(value: real): (r: real)
    ensures IsCents(r)
    ensures value - 0.005 <= r <= value + 0.005
    ensures r == value + 0.005 ==> value > 0.0
    ensures r == value - 0.005 ==> value < 0.0
    ensures value >= 0.0 ==> r >= 0.0
  {
    var n := RoundHalfAwayFromZero(value * 100.0);
    assert (n as real / 100.0) * 100.0 == n as real;
    n as real / 100.0
  }

  function Abs(x: real): real {
    if x < 0.0 then -x else x
  }

  /** No integer is closer to the value than the rounded one. */
  lemma RoundIsNearest(x: real, k: int)
    ensures Abs(RoundHalfAwayFromZero(x) as real - x) <= Abs(k as real - x)
  {
    var n := RoundHalfAwayFromZero(x);
    if k > n {
      assert k as real >= n as real + 1.0;
    } else if k < n {
      assert k as real <= n as real - 1.0;
    }
  }

  /** A value that already has at most two decimals is returned unchanged. */
  lemma RoundOfCents(cents: int)
    ensures RoundToTwoDecimalPlaces(cents as real / 100.0) == cents as real / 100.0
  {
    var x := cents as real / 100.0;
    assert x * 100.0 == cents as real;
    var n := RoundHalfAwayFromZero(x * 100.0);
    assert n == cents;
  }

  /** Rounding leaves exactly the values with at most two decimals unchanged. */
  lemma RoundFixesCents(x: real)
    ensures RoundToTwoDecimalPlaces(x) == x <==> IsCents(x)
  {
    if IsCents(x) {
      var cents := (x * 100.0).Floor;
      assert x == cents as real / 100.0;
      RoundOfCents(cents);
    }
  }

  /** Rounding twice is rounding once. */
  lemma RoundIdempotent(value: real)
    ensures RoundToTwoDecimalPlaces(RoundToTwoDecimalPlaces(value)) == RoundToTwoDecimalPlaces(value)
  {
    var n := RoundHalfAwayFromZero(value * 100.0);
    assert RoundToTwoDecimalPlaces(value) == n as real / 100.0;
    RoundOfCents(n);
  }

  lemma RoundExamples()
    ensures RoundToTwoDecimalPlaces(123.456) == 123.46
    ensures RoundToTwoDecimalPlaces(123.454) == 123.45
    ensures RoundToTwoDecimalPlaces(123.455) == 123.46
    ensures RoundToTwoDecimalPlaces(123.45) == 123.45
    ensures RoundToTwoDecimalPlaces(-123.456) == -123.46
    ensures RoundToTwoDecimalPlaces(0.005) == 0.01
  {
    assert RoundHalfAwayFromZero(12345.6) == 12346;
    assert RoundHalfAwayFromZero(12345.4) == 12345;
    assert RoundHalfAwayFromZero(12345.5) == 12346;
    assert RoundHalfAwayFromZero(12345.0) == 12345;
    assert RoundHalfAwayFromZero(-12345.6) == -12346;
    assert RoundHalfAwayFromZero(0.5) == 1;
  }

  /** `ValidateDescription`: emptiness first and, only for a non-empty description, the
      50-byte limit; never both errors. */
  function ValidateDescription(description: string): (errs: seq<Error>)
    ensures errs == [DescriptionEmpty] <==> description == []
    ensures errs == [DescriptionTooLong] <==> Utf8Length(description) > MaxDescriptionBytes
    ensures errs == [] <==> 0 < Utf8Length(description) <= MaxDescriptionBytes
    ensures |errs| <= 1
  {
    if Utf8Length(description) == 0 then [DescriptionEmpty]
    else if Utf8Length(description) > MaxDescriptionBytes then [DescriptionTooLong]
    else []
  }

  /** `ValidateAmountInUSD`: zero and negative amounts are rejected. */
  function ValidateAmountInUSD(amountInUSD: real): (errs: seq<Error>)
    ensures errs == [InvalidAmountInUSD] <==> amountInUSD <= 0.0
    ensures errs == [] <==> amountInUSD > 0.0
  {
    if amountInUSD <= 0.0 then [InvalidAmountInUSD] else []
  }

  /** What a valid (already trimmed) input satisfies. */
  predicate FieldsValid(description: string, timestamp: Instant, amountInUSD: real, now: Instant) {
    && 0 < Utf8Length(description) <= MaxDescriptionBytes
    && amountInUSD > 0.0
    && timestamp <= now
  }

  /** Position of each kind of error in the accumulated list. */
  function TransactionErrorRank(e: Error): nat {
    match e
    case DescriptionEmpty => 0
    case DescriptionTooLong => 0
    case InvalidAmountInUSD => 1
    case _ => 2
  }

  /** `ValidateTransaction`: all three checks run and their errors accumulate, description
      before amount before timestamp; `now` is the reading of `time.Now()`. */
  function ValidateTransaction(description: string, timestamp: Instant, amountInUSD: real, now: Instant): (errs: seq<Error>)
    ensures errs == [] <==> FieldsValid(description, timestamp, amountInUSD, now)
    ensures |errs| <= 3
    ensures DescriptionEmpty in errs <==> description == []
    ensures DescriptionTooLong in errs <==> Utf8Length(description) > MaxDescriptionBytes
    ensures InvalidAmountInUSD in errs <==> amountInUSD <= 0.0
    ensures InvalidTimestamp in errs <==> timestamp > now
  {
    ValidateDescription(description) + ValidateAmountInUSD(amountInUSD)
      + (if timestamp > now then [InvalidTimestamp] else [])
  }

  /** The validation errors are of the four transaction kinds and keep the order description,
      amount, timestamp. */
  lemma ValidateTransactionOrder(description: string, timestamp: Instant, amountInUSD: real, now: Instant)
    ensures var errs := ValidateTransaction(description, timestamp, amountInUSD, now);
            && (forall e :: e in errs ==> e in {DescriptionEmpty, DescriptionTooLong, InvalidAmountInUSD, InvalidTimestamp})
            && (forall i, j :: 0 <= i < j < |errs| ==> TransactionErrorRank(errs[i]) < TransactionErrorRank(errs[j]))
  {
  }

  /** `NewTransaction`: trims the description, validates, and on success stores the trimmed
      description, the instant as given and the amount rounded to cents; `id` is the value
      `uuid.New()` produced. */
  function NewTransaction(description: string, timestamp: Instant, amountInUSD: real, now: Instant, id: Uuid)
    : (r: Result<Transaction, seq<Error>>)
    ensures r.Ok? <==> FieldsValid(TrimSpace(description), timestamp, amountInUSD, now)
    ensures r.Err? ==> r.error == ValidateTransaction(TrimSpace(description), timestamp, amountInUSD, now) && r.error != []
    ensures r.Ok? ==> r.value.id == id && r.value.timestamp == timestamp
    ensures r.Ok? ==> r.value.description == TrimSpace(description)
    ensures r.Ok? ==> r.value.amountInUSD == RoundToTwoDecimalPlaces(amountInUSD)
  {
    var trimmed := TrimSpace(description);
    var errs := ValidateTransaction(trimmed, timestamp, amountInUSD, now);
    if |errs| > 0 then Err(errs)
    else
      var t := Transaction(id, trimmed, timestamp, RoundToTwoDecimalPlaces(amountInUSD));
      Ok(t)
  }

  /** What every constructed transaction satisfies. The amount is only non-negative: a
      positive amount below half a cent passes validation and rounds to zero. */
  predicate Stored(t: Transaction, now: Instant) {
    && t.description != []
    && Trimmed(t.description)
    && Utf8Length(t.description) <= MaxDescriptionBytes
    && IsCents(t.amountInUSD) && t.amountInUSD >= 0.0
    && t.timestamp <= now
  }

  /** Every transaction `NewTransaction` constructs is `Stored`. */
  lemma NewTransactionIsStored(description: string, timestamp: Instant, amountInUSD: real, now: Instant, id: Uuid)
    ensures var r := NewTransaction(description, timestamp, amountInUSD, now, id);
            r.Ok? ==> Stored(r.value, now)
  {
    var r := NewTransaction(description, timestamp, amountInUSD, now, id);
    if r.Ok? {
      assert FieldsValid(TrimSpace(description), timestamp, amountInUSD, now);
    }
  }

  /** A description of white space only is rejected as empty. */
  lemma BlankDescriptionIsEmpty(description: string, timestamp: Instant, amountInUSD: real, now: Instant, id: Uuid)
    requires AllSpace(description)
    ensures var r := NewTransaction(description, timestamp, amountInUSD, now, id);
            r.Err? && r.error[0] == DescriptionEmpty
  {
  }

  /** An empty description, a zero amount and a future timestamp give exactly the three
      errors, in that order. */
  lemma ErrorsAccumulate(timestamp: Instant, now: Instant, id: Uuid)
    requires timestamp > now
    ensures NewTransaction("", timestamp, 0.0, now, id) == Err([DescriptionEmpty, InvalidAmountInUSD, InvalidTimestamp])
  {
    assert TrimSpace("") == "";
    assert ValidateDescription("") == [DescriptionEmpty];
    assert ValidateAmountInUSD(0.0) == [InvalidAmountInUSD];
    assert ValidateTransaction("", timestamp, 0.0, now) == [DescriptionEmpty, InvalidAmountInUSD, InvalidTimestamp];
  }

  /** A positive amount below half a cent passes the positivity check and is stored as 0.00. */
  lemma SubCentAmountStoredAsZero(description: string, timestamp: Instant, amountInUSD: real, now: Instant, id: Uuid)
    requires 0.0 < amountInUSD < 0.005
    requires 0 < Utf8Length(TrimSpace(description)) <= MaxDescriptionBytes && timestamp <= now
    ensures NewTransaction(description, timestamp, amountInUSD, now, id)
         == Ok(Transaction(id, TrimSpace(description), timestamp, 0.0))
  {
    assert RoundHalfAwayFromZero(amountInUSD * 100.0) == 0;
    assert RoundToTwoDecimalPlaces(amountInUSD) == 0.0;
  }

}
