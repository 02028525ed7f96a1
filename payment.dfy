/** The Stripe helper script (js/payment.js): the amount checks, the message for
    a failed payment, the payment-method choice, and the card flow's outcome with
    the Stripe calls taken as parameters. */
module Payment {
  import opened Wrappers
  import opened JsStrings

  /** The ceiling `validatePaymentAmount` allows, in cents. */
  const MaxAmount := 999999

  /** `validatePaymentAmount(amount)`, the amount in cents. */
  predicate ValidPaymentAmount(amount: int) {
    0 < amount <= MaxAmount
  }

  datatype Intent = Intent(clientSecret: string, amount: int, currency: string)

  /** `createPaymentIntent`: the simulated back end, `now` standing for `Date.now()`. */
  function CreatePaymentIntent(amount: int, now: string): (r: Result<Intent, string>)
    ensures r.Ok? <==> amount > 0
    ensures r.Ok? ==> r.value.amount == amount && r.value.currency == "usd" && r.value.clientSecret != ""
    ensures r.Err? ==> r.error == "Invalid amount"
  {
    if amount > 0 then Ok(Intent("pi_demo_" + now + "_secret_demo", amount, "usd"))
    else Err("Invalid amount")
  }

  /** Every amount `validatePaymentAmount` allows gets an intent, but the intent
      does not enforce the ceiling: the card flow never calls the validator. */
  lemma AmountChecks(amount: int, now: string)
    ensures ValidPaymentAmount(amount) ==> CreatePaymentIntent(amount, now).Ok?
    ensures !ValidPaymentAmount(amount) && CreatePaymentIntent(amount, now).Ok? <==> amount > MaxAmount
  {
  }

  // ---------------------------------------------------------------- error messages

  const DefaultFailure := "Payment failed. Please try again."
  const GenericFailure := "An error occurred while processing your payment."

  /** The fixed message of each known decline code. */
  function KnownCodeMessage(code: string): Option<string> {
    match code
    case "card_declined" => Some("Your card was declined. Please try a different payment method.")
    case "expired_card" => Some("Your card has expired. Please use a different card.")
    case "insufficient_funds" => Some("Insufficient funds. Please try a different payment method.")
    case "incorrect_cvc" => Some(IncorrectCvcMessage)
    case "processing_error" => Some("An error occurred while processing your card. Please try again.")
    case _ => None
  }

  /** `handlePaymentError(error)`: a falsy `code` keeps the default; a known code
      gets its message; any other code shows `error.message` when it is
      non-empty, otherwise the generic text. */
  function PaymentErrorMessage(code: Option<string>, message: Option<string>): string {
    if code.None? || code.value == "" then DefaultFailure
    else if KnownCodeMessage(code.value).Some? then KnownCodeMessage(code.value).value
    else if message.Some? && message.value != "" then message.value
    else GenericFailure
  }

  /** The five known codes get five different messages, none of them the default
      or the generic one, so the message tells which decline happened; without a
      code the message is always the default. */
  lemma PaymentErrorFacts(code: Option<string>, message: Option<string>)
    ensures code.None? ==> PaymentErrorMessage(code, message) == DefaultFailure
    ensures forall c1, c2 :: KnownCodeMessage(c1).Some? && KnownCodeMessage(c1) == KnownCodeMessage(c2) ==> c1 == c2
    ensures forall c :: KnownCodeMessage(c).Some? ==>
              KnownCodeMessage(c).value != DefaultFailure && KnownCodeMessage(c).value != GenericFailure
    ensures code.Some? && KnownCodeMessage(code.value).None? && code.value != "" ==>
              PaymentErrorMessage(code, message) == (if message.Some? && message.value != "" then message.value else GenericFailure)
  {
    forall c1, c2 | KnownCodeMessage(c1).Some? && KnownCodeMessage(c1) == KnownCodeMessage(c2)
      ensures c1 == c2
    {
      KnownCode(c1);
      KnownCode(c2);
    }
    forall c | KnownCodeMessage(c).Some?
      ensures KnownCodeMessage(c).value != DefaultFailure && KnownCodeMessage(c).value != GenericFailure
    {
      KnownCode(c);
    }
  }

  /** Only the five listed codes have a message of their own. */
  lemma KnownCode(c: string)
    requires KnownCodeMessage(c).Some?
    ensures c in ["card_declined", "expired_card", "insufficient_funds", "incorrect_cvc", "processing_error"]
  {
  }

  // ---------------------------------------------------------------- the incorrect-CVC literal

  const CvcHead := "Your card"
  const CvcTail := "s security code is incorrect."
  /** The `incorrect_cvc` literal as it stands in the script, after its opening
      quote: two backslashes before the apostrophe. */
  const WrittenCvcBody := CvcHead + ['\\', '\\'] + ['\''] + CvcTail + ['\'']
  /** The literal with the apostrophe escaped by one backslash. */
  const IntendedCvcBody := CvcHead + ['\\', '\''] + CvcTail + ['\'']
  /** "Your card's security code is incorrect." */
  const IncorrectCvcMessage := CvcHead + ['\''] + CvcTail

  /** As written, `\\` is an escaped backslash, so the apostrophe closes the
      string after `card\` and the word `s` follows it: the script does not
      parse, and none of its functions is defined on the page. */
  lemma CvcLiteralAsWritten()
    ensures ScanQuoted(WrittenCvcBody) == Some((CvcHead + ['\\'], CvcTail + ['\'']))
    ensures (CvcTail + ['\''])[0] == 's'
  {
    assert Plain(CvcHead);
    DoubledBackslashCloses(CvcHead, CvcTail);
  }

  /** With one backslash the literal is the whole quoted text and reads as the
      intended message. */
  lemma CvcLiteralIntended()
    ensures ScanQuoted(IntendedCvcBody) == Some((IncorrectCvcMessage, ""))
  {
    assert Plain(CvcHead) && Plain(CvcTail);
    EscapedQuoteReads(CvcHead, CvcTail);
  }

  // ---------------------------------------------------------------- payment method and card flow

  /** `validatePaymentMethod`: the checked radio's value, `cardReady` telling
      whether the Stripe card element exists. */
  function ChosenPaymentMethod(checked: Option<string>, cardReady: bool): (r: Result<string, string>)
    ensures r.Ok? <==> checked.Some? && (checked.value != "card" || cardReady)
    ensures r.Ok? ==> r.value == checked.value
    ensures checked.None? ==> r == Err("Please select a payment method")
    ensures checked.Some? && checked.value == "card" && !cardReady ==> r == Err("Card payment method not available")
  {
    if checked.None? then Err("Please select a payment method")
    else if checked.value == "card" && !cardReady then Err("Card payment method not available")
    else Ok(checked.value)
  }

  /** `processStripePayment` up to the stored order: `stripeUp` for the Stripe
      object and card element, `totalCents` for `Math.round(total * 100)`, and
      `confirm` for what `confirmCardPayment` answers (an error's message).
      The result is the amount charged. */
  function StripePaymentSpec(stripeUp: bool, totalCents: int, now: string, confirm: Result<(), string>): (r: Result<int, string>)
    ensures r.Ok? <==> stripeUp && totalCents > 0 && confirm.Ok?
    ensures r.Ok? ==> r.value == totalCents
  {
    if !stripeUp then Err("Stripe not properly initialized")
    else
      var intent := CreatePaymentIntent(totalCents, now);
      if intent.Err? then Err(intent.error)
      else if confirm.Err? then Err(confirm.error)
      else Ok(intent.value.amount)
  }
}
