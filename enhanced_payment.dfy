/** The checkout page's payment script (js/enhanced-payment.js): the card-field
    formatters, the payment-method names, the empty-cart check and the order
    each payment flow stores. */
module EnhancedPayment {
  import opened Wrappers
  import opened JsStrings
  import Cart

  // ---------------------------------------------------------------- input formatters

  /** `s.replace(/[^…]/g, '')`: the characters of `s` in the class `keep`, in order. */
  function Filter(s: string, keep: char -> bool): (r: string)
    ensures |r| <= |s|
    ensures forall i :: 0 <= i < |r| ==> keep(r[i])
  {
    if s == [] then [] else (if keep(s[0]) then [s[0]] else []) + Filter(s[1..], keep)
  }

  lemma {:induction false} FilterConcat(a: string, b: string, keep: char -> bool)
    ensures Filter(a + b, keep) == Filter(a, keep) + Filter(b, keep)
  {
    if a == [] {
      assert a + b == b;
    } else {
      assert (a + b)[0] == a[0];
      assert (a + b)[1..] == a[1..] + b;
      FilterConcat(a[1..], b, keep);
    }
  }

  /** Text made only of kept characters comes through unchanged, so filtering
      twice is filtering once. */
  lemma {:induction false} FilterKeepsClass(s: string, keep: char -> bool)
    requires forall i :: 0 <= i < |s| ==> keep(s[i])
    ensures Filter(s, keep) == s
  {
    if s != [] {
      FilterKeepsClass(s[1..], keep);
    }
  }

  predicate IsNameChar(c: char) {
    IsAsciiLetter(c) || IsSpace(c)
  }

  /** The CVV field: digits only. */
  function FormatCvv(s: string): (r: string)
    ensures AllDigits(r)
  {
    Filter(s, IsDigit)
  }

  /** The card-name field: ASCII letters and whitespace only. */
  function FormatCardName(s: string): (r: string)
    ensures forall i :: 0 <= i < |r| ==> IsAsciiLetter(r[i]) || IsSpace(r[i])
  {
    Filter(s, IsNameChar)
  }

  /** Retyping into a formatted CVV or name field changes nothing, and a value
      already in the class is left alone. */
  lemma CvvAndNameIdempotent(s: string)
    ensures FormatCvv(FormatCvv(s)) == FormatCvv(s)
    ensures FormatCardName(FormatCardName(s)) == FormatCardName(s)
    ensures AllDigits(s) ==> FormatCvv(s) == s
  {
    FilterKeepsClass(FormatCvv(s), IsDigit);
    FilterKeepsClass(FormatCardName(s), IsNameChar);
    if AllDigits(s) {
      FilterKeepsClass(s, IsDigit);
    }
  }

  /** `replace(/(\d{4})(?=\d)/g, '$1 ')` on a string of digits: a space after
      every four digits that another digit follows. */
  function Group(d: string): string
    decreases |d|
  {
    if |d| <= 4 then d else d[..4] + " " + Group(d[4..])
  }

  /** The card-number field. */
  function FormatCardNumber(s: string): string {
    Group(Filter(s, IsDigit))
  }

  /** The grouped number: spaces stand exactly at positions 4, 9, 14, …, one
      between each full group of four and the next digit. */
  lemma {:induction false} GroupShape(d: string)
    requires AllDigits(d)
    ensures |Group(d)| == |d| + (if d == [] then 0 else (|d| - 1) / 4)
    ensures forall i :: 0 <= i < |Group(d)| ==> (Group(d)[i] == ' ' <==> i % 5 == 4)
  {
    if |d| > 4 {
      var rest := d[4..];
      GroupShape(rest);
      var r := Group(d);
      assert r == d[..4] + " " + Group(rest);
      forall i | 0 <= i < |r|
        ensures r[i] == ' ' <==> i % 5 == 4
      {
        if i < 4 {
          assert r[i] == d[i];
        } else if i > 4 {
          assert r[i] == Group(rest)[i - 5];
          assert (i - 5) % 5 == i % 5;
        }
      }
    }
  }

  /** Removing the spaces from the grouped number gives back its digits. */
  lemma {:induction false} GroupDigits(d: string)
    requires AllDigits(d)
    ensures Filter(Group(d), IsDigit) == d
  {
    if |d| <= 4 {
      FilterKeepsClass(d, IsDigit);
    } else {
      GroupDigits(d[4..]);
      FilterConcat(d[..4] + " ", Group(d[4..]), IsDigit);
      FilterConcat(d[..4], " ", IsDigit);
      FilterKeepsClass(d[..4], IsDigit);
      assert d[..4] + d[4..] == d;
    }
  }

  /** The formatted card number holds exactly the typed digits, and formatting it
      again changes nothing. */
  lemma CardNumberFacts(s: string)
    ensures Filter(FormatCardNumber(s), IsDigit) == Filter(s, IsDigit)
    ensures FormatCardNumber(FormatCardNumber(s)) == FormatCardNumber(s)
  {
    GroupDigits(Filter(s, IsDigit));
  }

  /** The expiry field: the digits, with a `/` after the first two once there
      are two, and at most two digits after it. */
  function FormatExpiry(s: string): string {
    var d := Filter(s, IsDigit);
    if |d| >= 2 then d[..2] + "/" + d[2..if |d| < 4 then |d| else 4] else d
  }

  lemma ExpiryFacts(s: string)
    ensures var d := Filter(s, IsDigit);
            var r := FormatExpiry(s);
            && |r| <= 5
            && (|d| < 2 ==> r == d)
            && (|d| >= 2 ==> r[2] == '/' && Filter(r, IsDigit) == d[..if |d| < 4 then |d| else 4])
  {
    var d := Filter(s, IsDigit);
    if |d| >= 2 {
      var e := if |d| < 4 then |d| else 4;
      FilterConcat(d[..2] + "/", d[2..e], IsDigit);
      FilterConcat(d[..2], "/", IsDigit);
      FilterKeepsClass(d[..2], IsDigit);
      FilterKeepsClass(d[2..e], IsDigit);
      assert d[..2] + d[2..e] == d[..e];
    }
  }

  /** Reformatting a formatted expiry changes nothing. */
  lemma ExpiryIdempotent(s: string)
    ensures FormatExpiry(FormatExpiry(s)) == FormatExpiry(s)
  {
    ExpiryFacts(s);
    var d := Filter(s, IsDigit);
    if |d| < 2 {
      FilterKeepsClass(d, IsDigit);
    }
  }

  // ---------------------------------------------------------------- method names

  /** `getPaymentMethodName`. */
  function PaymentMethodName(paymentMethod: string): (name: string)
    ensures name == "Payment" <==> paymentMethod !in ["apple_pay", "google_pay", "card", "cash"]
  {
    match paymentMethod
    case "apple_pay" => "Apple Pay"
    case "google_pay" => "Google Pay"
    case "card" => "Credit Card"
    case "cash" => "Cash"
    case _ => "Payment"
  }

  // ---------------------------------------------------------------- the stored cart

  /** What `getCartDataFromStorage` reads back. cart.js stores the bare array of
      lines under `cart`; a missing entry reads as the object
      `{items: [], total: 0}`. */
  datatype CartData = CartObject(items: seq<Cart.Line>, total: int) | CartArray(lines: seq<Cart.Line>)

  function CartDataFromStorage(stored: Option<seq<Cart.Line>>): (d: CartData)
    ensures d.CartArray? <==> stored.Some?
  {
    if stored.None? then CartObject([], 0) else CartArray(stored.value)
  }

  function ItemsOf(d: CartData): seq<Cart.Line> {
    if d.CartObject? then d.items else d.lines
  }

  /** `!cartData || cartData.total <= 0` as written: an array is truthy and has
      no `total`, and `undefined <= 0` is false. */
  predicate EmptyAsWritten(d: CartData) {
    d.CartObject? && d.total <= 0
  }

  /** A stored empty cart (what `clearCart` leaves behind) passes the check. */
  lemma StoredEmptyCartPassesAsWritten()
    ensures CartDataFromStorage(Some([])) == CartArray([])
    ensures !EmptyAsWritten(CartDataFromStorage(Some([])))
  {
  }

  /** The check as intended: the cart's total is at most zero. For the array the
      total is the lines' subtotal (tax only scales it). */
  predicate CartEmpty(d: CartData) {
    if d.CartObject? then d.total <= 0 else Cart.Subtotal(d.lines) <= 0
  }

  /** The intended check refuses a missing cart and a stored empty one, and lets
      through any cart with at least one line at a positive price. */
  lemma CartEmptyFacts(stored: Option<seq<Cart.Line>>)
    ensures stored.None? ==> CartEmpty(CartDataFromStorage(stored))
    ensures stored == Some([]) ==> CartEmpty(CartDataFromStorage(stored))
    ensures (stored.Some? && Cart.Valid(stored.value) && stored.value != []
             && forall i :: 0 <= i < |stored.value| ==> stored.value[i].finalPrice > 0)
            ==> !CartEmpty(CartDataFromStorage(stored))
  {
    if stored.Some? && Cart.Valid(stored.value) && stored.value != []
       && forall i :: 0 <= i < |stored.value| ==> stored.value[i].finalPrice > 0 {
      PositiveSubtotal(stored.value);
    }
  }

  lemma {:induction false} PositiveSubtotal(lines: seq<Cart.Line>)
    requires lines != []
    requires forall i :: 0 <= i < |lines| ==> lines[i].quantity >= 1 && lines[i].finalPrice > 0
    ensures Cart.Subtotal(lines) > 0
  {
    var last := lines[|lines| - 1];
    var init := lines[..|lines| - 1];
    assert last.finalPrice * last.quantity >= last.finalPrice by {
      MulAtLeast(last.finalPrice, last.quantity);
    }
    if init != [] {
      PositiveSubtotal(init);
    }
  }

  lemma MulAtLeast(a: int, b: int)
    requires a > 0 && b >= 1
    ensures a * b >= a
  {
  }

  // ---------------------------------------------------------------- orders

  datatype Customer = Customer(firstName: string, lastName: string, email: string, phone: string)

  datatype Order = Order(id: string, customer: Customer, items: seq<Cart.Line>, paymentMethod: string,
                         specialInstructions: string, status: string, timestamp: string)

  datatype Wallet = ApplePay | GooglePay {
    function Code(): string {
      if this == ApplePay then "apple_pay" else "google_pay"
    }
  }

  /** What a checkout submission comes to. */
  datatype Submission = Refused(message: string) | Placed(order: Order, notice: string) | HandedToStripe

  const CartEmptyMessage := "Your cart is empty"
  const NoMethodMessage := "Please select a payment method"

  /** The success notification of `saveOrderAndNotify`. */
  function PlacedNotice(paymentMethod: string, id: string): string {
    if paymentMethod == "cash" then "Order #" + id + " confirmed! Pay when you collect your order."
    else "Payment successful via " + PaymentMethodName(paymentMethod) + "! Order #" + id + " confirmed."
  }

  /** Which empty-cart check a flow applies: the one the script runs, or the
      one it means. */
  datatype Reading = AsWritten | Intended

  predicate Refuses(reading: Reading, d: CartData) {
    if reading == AsWritten then EmptyAsWritten(d) else CartEmpty(d)
  }

  /** One payment flow: refuse an empty cart, otherwise the order a cash payment
      leaves awaiting payment and any other flow records as confirmed. */
  function PlaceSpec(reading: Reading, stored: Option<seq<Cart.Line>>, paymentMethod: string, customer: Customer,
                     instructions: string, id: string, now: string): Submission
  {
    var d := CartDataFromStorage(stored);
    if Refuses(reading, d) then Refused(CartEmptyMessage)
    else
      var status := if paymentMethod == "cash" then "pending_payment" else "confirmed";
      Placed(Order(id, customer, ItemsOf(d), paymentMethod, instructions, status, now),
             PlacedNotice(paymentMethod, id))
  }

  /** The checkout form's submit handler: card (through Stripe when its card
      element is up), cash, or refusal. */
  function SubmitSpec(reading: Reading, stored: Option<seq<Cart.Line>>, paymentMethod: string, stripeReady: bool,
                      customer: Customer, instructions: string, id: string, now: string): Submission
  {
    if paymentMethod == "card" then
      if stripeReady then HandedToStripe else PlaceSpec(reading, stored, "card", customer, instructions, id, now)
    else if paymentMethod == "cash" then PlaceSpec(reading, stored, "cash", customer, instructions, id, now)
    else Refused(NoMethodMessage)
  }

  /** The customer an Apple Pay or Google Pay order is recorded under. */
  function WalletCustomer(w: Wallet): Customer {
    Customer(if w == ApplePay then "Apple Pay" else "Google Pay", "Customer", "customer@example.com", "555-0123")
  }

  /** What `clearCartAndCloseModal` leaves in storage: cart.js's `clearCart`
      saves the empty array; without it the entry is removed. */
  function ClearedCart(cartScriptLoaded: bool): Option<seq<Cart.Line>> {
    if cartScriptLoaded then Some([]) else None
  }

  /** The `cart` and `orders` entries of `localStorage`. */
  class CheckoutPage {
    var storedCart: Option<seq<Cart.Line>>
    var orders: seq<Order>
    const cartScriptLoaded: bool

    constructor (stored: Option<seq<Cart.Line>>, orders0: seq<Order>, cartScriptLoaded: bool)
      ensures storedCart == stored && orders == orders0 && this.cartScriptLoaded == cartScriptLoaded
    {
      storedCart, orders := stored, orders0;
      this.cartScriptLoaded := cartScriptLoaded;
    }

    /** `saveOrderAndNotify` after the flow's checks: append, then clear the cart. */
    method Record(outcome: Submission)
      modifies this
      ensures outcome.Placed? ==> orders == old(orders) + [outcome.order] && storedCart == ClearedCart(cartScriptLoaded)
      ensures !outcome.Placed? ==> orders == old(orders) && storedCart == old(storedCart)
    {
      if outcome.Placed? {
        orders := orders + [outcome.order];
        storedCart := ClearedCart(cartScriptLoaded);
      }
    }

    /** The checkout form's submit, with the empty-cart check as written. */
    method Submit(paymentMethod: string, stripeReady: bool, customer: Customer, instructions: string,
                  id: string, now: string) returns (outcome: Submission)
      modifies this
      ensures outcome == SubmitSpec(AsWritten, old(storedCart), paymentMethod, stripeReady, customer, instructions, id, now)
      ensures outcome.Placed? ==> orders == old(orders) + [outcome.order] && storedCart == ClearedCart(cartScriptLoaded)
      ensures !outcome.Placed? ==> orders == old(orders) && storedCart == old(storedCart)
    {
      outcome := SubmitSpec(AsWritten, storedCart, paymentMethod, stripeReady, customer, instructions, id, now);
      Record(outcome);
    }

    /** The Apple Pay and Google Pay buttons, with the empty-cart check as written. */
    method ExpressPay(w: Wallet, id: string, now: string) returns (outcome: Submission)
      modifies this
      ensures outcome == PlaceSpec(AsWritten, old(storedCart), w.Code(), WalletCustomer(w), "", id, now)
      ensures outcome.Placed? ==> orders == old(orders) + [outcome.order] && storedCart == ClearedCart(cartScriptLoaded)
      ensures !outcome.Placed? ==> orders == old(orders) && storedCart == old(storedCart)
    {
      outcome := PlaceSpec(AsWritten, storedCart, w.Code(), WalletCustomer(w), "", id, now);
      Record(outcome);
    }
  }

  /** A submission places an order exactly when the method is cash, or card
      without Stripe, and the check in force does not refuse the cart; the order
      carries the stored lines, and only cash is left awaiting payment. */
  lemma SubmitFacts(reading: Reading, stored: Option<seq<Cart.Line>>, paymentMethod: string, stripeReady: bool,
                    customer: Customer, instructions: string, id: string, now: string)
    ensures var r := SubmitSpec(reading, stored, paymentMethod, stripeReady, customer, instructions, id, now);
            var d := CartDataFromStorage(stored);
            && (r.Placed? <==> ((paymentMethod == "cash" || (paymentMethod == "card" && !stripeReady)) && !Refuses(reading, d)))
            && (r == Refused(CartEmptyMessage) <==> ((paymentMethod == "cash" || (paymentMethod == "card" && !stripeReady)) && Refuses(reading, d)))
            && (r == Refused(NoMethodMessage) <==> paymentMethod != "card" && paymentMethod != "cash")
            && (r.Placed? ==> r.order.items == ItemsOf(d) && r.order.paymentMethod == paymentMethod
                              && (r.order.status == "pending_payment" <==> paymentMethod == "cash")
                              && (r.order.status == "confirmed" <==> paymentMethod != "cash"))
  {
  }

  /** With the check as intended, once an order is placed the cart is cleared,
      so submitting again is refused as an empty cart. */
  lemma CheckoutEmptiesCart(cartScriptLoaded: bool, paymentMethod: string, customer: Customer,
                            instructions: string, id: string, now: string)
    ensures SubmitSpec(Intended, ClearedCart(cartScriptLoaded), paymentMethod, false, customer, instructions, id, now).Refused?
  {
    CartEmptyFacts(ClearedCart(cartScriptLoaded));
  }

  /** With the check as written, the same second submission goes through when
      cart.js did the clearing, and records an order with no items; paid in cash
      it waits for a payment of nothing. */
  lemma SecondCheckoutAsWritten(customer: Customer, instructions: string, id: string, now: string)
    ensures !EmptyAsWritten(CartDataFromStorage(ClearedCart(true)))
    ensures var r := SubmitSpec(AsWritten, ClearedCart(true), "cash", false, customer, instructions, id, now);
            r.Placed? && r.order.items == [] && r.order.status == "pending_payment"
  {
  }
}
