/**
 * The member's payment form (`member_view`): the live estimate under the two
 * text fields, and what pressing "Registrar pago" does with them.
 *
 * Two versions of the submission check are given. `ValidateAsWritten` follows
 * the program line by line: a rate that parses to zero makes the division
 * raise `ZeroDivisionError`, which the `except ValueError` around it does not
 * catch, so the page run aborts. `Validate` reports that case as an error
 * instead; the rest of the model uses it.
 */
module Submission {
  import opened Wrappers
  import opened Quantity
  import opened Ledger

  /** What pressing the button leads to. */
  datatype Outcome =
    | Accepted(days: real, amount: real)  // "Pago registrado": saved with these columns
    | TooLittle                           // "La cantidad no cubre ni un día"
    | Unparsable                          // "Error al registrar." (a ValueError)
    | ZeroRate                            // the corrected check's error for a zero rate
    | Crashed                             // an exception nothing catches

  /** The live estimate: `q / qd` for a positive rate, 0 otherwise. */
  function Estimate(q: real, qd: real): (est: real)
    ensures qd > 0.0 ==> est * qd == q
    ensures qd <= 0.0 ==> est == 0.0
  {
    if qd > 0.0 then q / qd else 0.0
  }

  /** The live estimate shown under the fields: the amount re-rendered and the
      days, or `None` when a field does not parse ("Error al calcular la
      cantidad."). */
  datatype Preview = Preview(amountText: string, days: real)

  function PreviewOf(amountText: string, rateText: string): Option<Preview> {
    Previewed(Parse(amountText), Parse(rateText))
  }

  /** The estimate on the two parse results. */
  function Previewed(amount: Option<real>, rate: Option<real>): (p: Option<Preview>)
    ensures p.Some? <==> amount.Some? && rate.Some?
    ensures p.Some? ==>
      && p.value.amountText == Format(amount.value)
      && p.value.days == Estimate(amount.value, rate.value)
  {
    match amount
    case None => None
    case Some(q) =>
      match rate
      case None => None
      case Some(qd) => Some(Preview(Format(q), Estimate(q, qd)))
  }

  /** The button handler as the program has it. */
  function ValidateAsWritten(amountText: string, rateText: string): Outcome {
    DecideAsWritten(Parse(amountText), Parse(rateText))
  }

  /** The handler's decision on the two parse results. */
  function DecideAsWritten(amount: Option<real>, rate: Option<real>): Outcome {
    match amount
    case None => Unparsable
    case Some(q) =>
      match rate
      case None => Unparsable
      case Some(qd) =>
        if qd == 0.0 then Crashed
        else if q / qd < 1.0 then TooLittle
        else Accepted(q / qd, q)
  }

  /** The button handler with a zero rate reported rather than raised. */
  function Validate(amountText: string, rateText: string): Outcome {
    Decide(Parse(amountText), Parse(rateText))
  }

  function Decide(amount: Option<real>, rate: Option<real>): Outcome {
    match amount
    case None => Unparsable
    case Some(q) =>
      match rate
      case None => Unparsable
      case Some(qd) =>
        if qd == 0.0 then ZeroRate
        else if q / qd < 1.0 then TooLittle
        else Accepted(q / qd, q)
  }

  /** The program crashes exactly when the amount parses and the rate parses to zero. */
  lemma CrashIff(amount: Option<real>, rate: Option<real>)
    ensures DecideAsWritten(amount, rate) == Crashed <==> amount.Some? && rate == Some(0.0)
  {
  }

  /** The default amount with a rate of "0" crashes the page. */
  lemma ZeroRateCrashes()
    ensures ValidateAsWritten("1sx", "0") == Crashed
  {
    ParseOneSx();
    ParseZero();
  }

  /** The corrected check never crashes, and differs from the program only
      where the program crashes. */
  lemma CorrectedAgrees(amount: Option<real>, rate: Option<real>)
    ensures Decide(amount, rate) != Crashed
    ensures DecideAsWritten(amount, rate) != Crashed ==> Decide(amount, rate) == DecideAsWritten(amount, rate)
    ensures DecideAsWritten(amount, rate) == Crashed <==> Decide(amount, rate) == ZeroRate
  {
  }

  lemma ZeroRateReported()
    ensures Validate("1sx", "0") == ZeroRate
  {
    ParseOneSx();
    ParseZero();
  }

  /** A submission is accepted exactly when both fields parse, the rate is not
      zero and the quotient reaches one day; it then saves the parsed amount
      and days that, times the rate, give back the amount. */
  lemma AcceptedMeaning(amount: Option<real>, rate: Option<real>)
    ensures Decide(amount, rate).Accepted? <==>
      amount.Some? && rate.Some? && rate.value != 0.0 && amount.value / rate.value >= 1.0
    ensures var o := Decide(amount, rate); o.Accepted? ==>
      o.days >= 1.0 && o.amount == amount.value && o.days * rate.value == o.amount
  {
    if amount.Some? && rate.Some? && rate.value != 0.0 {
      Undivide(amount.value, rate.value);
    }
  }

  /** Division undone. */
  lemma Undivide(q: real, qd: real)
    requires qd != 0.0
    ensures (q / qd) * qd == q
  {
  }

  /** Amount and rate of an accepted submission have the same sign. */
  lemma AcceptedSameSign(amount: Option<real>, rate: Option<real>)
    requires Decide(amount, rate).Accepted?
    ensures (amount.value > 0.0 && rate.value > 0.0) || (amount.value < 0.0 && rate.value < 0.0)
  {
    SameSign(amount.value, rate.value);
  }

  /** A quotient of at least one has operands of the same sign. */
  lemma SameSign(q: real, qd: real)
    requires qd != 0.0 && q / qd >= 1.0
    ensures (q > 0.0 && qd > 0.0) || (q < 0.0 && qd < 0.0)
  {
    var d := q / qd;
    Undivide(q, qd);
    if qd > 0.0 {
      assert d * qd >= 1.0 * qd;
    } else {
      assert d * qd <= 1.0 * qd;
    }
  }

  /** A negative amount over a negative rate is accepted: "-5sx" at "-1sx" a
      day saves 5 days and an amount of -5000 qi. */
  lemma NegativePairAccepted()
    ensures Validate("-5sx", "-1sx") == Accepted(5.0, -5000.0)
  {
    ParseNegativeSx('5');
    ParseNegativeSx('1');
    assert ['-', '5'] + "sx" == "-5sx";
    assert ['-', '1'] + "sx" == "-1sx";
  }

  /** The amount the preview re-renders parses back to the amount typed
      exactly when its quotient has at most three decimals. */
  lemma PreviewAmountRoundTrip(amount: Option<real>, rate: Option<real>)
    requires Previewed(amount, rate).Some?
    ensures Parse(Previewed(amount, rate).value.amountText) == amount
      <==> HasMilliPrecision(Quotient(amount.value))
  {
    RoundTrip(amount.value);
  }

  /** With the form defaults and a rate of "0" the preview shows "1sx" and
      0 days, although pressing the button then raises. */
  lemma PreviewZeroRate()
    ensures PreviewOf("1sx", "0") == Some(Preview("1sx", 0.0))
  {
    ParseOneSx();
    ParseZero();
    FormatOneSx();
  }

  /** With a positive rate the saved days are the days the estimate showed. */
  lemma PreviewMatchesSaved(amount: Option<real>, rate: Option<real>)
    requires rate.Some? && rate.value > 0.0
    requires Decide(amount, rate).Accepted?
    ensures Previewed(amount, rate).Some?
    ensures Decide(amount, rate).days == Previewed(amount, rate).value.days
  {
  }

  /** The record saved for an accepted submission (`save_payment`). */
  function Submitted(date: int, uid: string, o: Outcome, capturePath: string): (r: Record)
    requires o.Accepted?
    ensures r.days == o.days && r.amount == o.amount && r.member == uid
  {
    Record(date, uid, o.days, o.amount, capturePath)
  }

  /** "Registrar pago": validate, and on acceptance insert one row. The
      screenshot's storage path (empty without a screenshot) is an input. */
  method Register(ledger: PaymentLedger, date: int, uid: string, amountText: string,
                  rateText: string, capturePath: string) returns (o: Outcome)
    requires ledger.Valid()
    modifies ledger
    ensures ledger.Valid()
    ensures o == Validate(amountText, rateText)
    ensures o.Accepted? ==> ledger.rows == old(ledger.rows) + [Stored(Submitted(date, uid, o, capturePath), old(ledger.nextId))]
    ensures !o.Accepted? ==> ledger.rows == old(ledger.rows) && ledger.nextId == old(ledger.nextId)
  {
    o := Validate(amountText, rateText);
    if o.Accepted? {
      ledger.Insert(Submitted(date, uid, o, capturePath));
    }
  }
}
