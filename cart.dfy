/** The storefront cart (js/cart.js): lines keyed by the item and its chosen
    options, the add, quantity and remove buttons, the badge count and subtotal,
    the checkout gate and the option labels. Money is in whole cents. */
module Cart {
  import opened Wrappers
  import opened JsStrings

  /** One `<select>` of an item's options: its name, its value, the text of the
      chosen option, and that option's `data-price` in cents when it has one. */
  datatype Select = Select(name: string, value: string, text: string, price: Option<int>)

  /** One cart line. `options` lists the chosen options in the order the object
      holding them first received each name. */
  datatype Line = Line(uniqueId: string, itemId: string, name: string, basePrice: int, finalPrice: int,
                       options: seq<(string, string)>, quantity: int)

  // ---------------------------------------------------------------- options and key

  /** `options[name] = value` on an object: a name already there keeps its place
      and takes the new value; a new name goes last. */
  function Assign(options: seq<(string, string)>, name: string, value: string): (r: seq<(string, string)>)
    ensures |r| == |options| || |r| == |options| + 1
    ensures (name, value) in r
    ensures forall i :: 0 <= i < |options| && options[i].0 != name ==> r[i] == options[i]
  {
    if options == [] then [(name, value)]
    else if options[0].0 == name then [(name, value)] + options[1..]
    else [options[0]] + Assign(options[1..], name, value)
  }

  /** What a select records: its value, or the option's text when the value is empty. */
  function Chosen(s: Select): string {
    if s.value != "" then s.value else s.text
  }

  /** The options object after the `forEach` over the selects. */
  function OptionsOf(selects: seq<Select>): seq<(string, string)> {
    if selects == [] then []
    else
      var last := selects[|selects| - 1];
      Assign(OptionsOf(selects[..|selects| - 1]), last.name, Chosen(last))
  }

  /** The price the `forEach` adds up: the sum of the `data-price` values. */
  function ExtraPrice(selects: seq<Select>): int {
    if selects == [] then 0
    else
      var last := selects[|selects| - 1];
      ExtraPrice(selects[..|selects| - 1]) + (if last.price.Some? then last.price.value else 0)
  }

  function Values(options: seq<(string, string)>): (vs: seq<string>)
    ensures |vs| == |options|
    ensures forall i :: 0 <= i < |options| ==> vs[i] == options[i].1
  {
    if options == [] then [] else [options[0].1] + Values(options[1..])
  }

  /** `${itemId}-${Object.values(options).join('-')}`. */
  function LineKey(itemId: string, options: seq<(string, string)>): string {
    itemId + "-" + Join(Values(options), "-")
  }

  /** The `forEach` over the item's selects, filling `options` and raising
      `finalPrice`. */
  method ReadOptions(basePrice: int, selects: seq<Select>) returns (options: seq<(string, string)>, finalPrice: int)
    ensures options == OptionsOf(selects)
    ensures finalPrice == basePrice + ExtraPrice(selects)
  {
    options, finalPrice := [], basePrice;
    var i := 0;
    while i < |selects|
      invariant 0 <= i <= |selects|
      invariant options == OptionsOf(selects[..i])
      invariant finalPrice == basePrice + ExtraPrice(selects[..i])
    {
      assert selects[..i + 1][..i] == selects[..i];
      var s := selects[i];
      options := Assign(options, s.name, Chosen(s));
      if s.price.Some? {
        finalPrice := finalPrice + s.price.value;
      }
      i := i + 1;
    }
    assert selects[..i] == selects;
  }

  // ---------------------------------------------------------------- lines

  /** The first line with the key. */
  function IndexOfKey(lines: seq<Line>, key: string): (k: Option<nat>)
    ensures k.Some? ==> k.value < |lines| && lines[k.value].uniqueId == key
    ensures k.Some? ==> forall j :: 0 <= j < k.value ==> lines[j].uniqueId != key
    ensures k.None? <==> forall j :: 0 <= j < |lines| ==> lines[j].uniqueId != key
  {
    if lines == [] then None
    else if lines[0].uniqueId == key then Some(0)
    else
      var k := IndexOfKey(lines[1..], key);
      if k.Some? then Some(k.value + 1) else None
  }

  /** The cart invariant: no two lines share a key and every quantity is at least 1. */
  predicate Valid(lines: seq<Line>) {
    && (forall i, j :: 0 <= i < j < |lines| ==> lines[i].uniqueId != lines[j].uniqueId)
    && (forall i :: 0 <= i < |lines| ==> lines[i].quantity >= 1)
  }

  /** `addToCart` on the lines: a known key raises that line by one, a new key
      appends a line of quantity 1. */
  function Added(lines: seq<Line>, line: Line): seq<Line> {
    var k := IndexOfKey(lines, line.uniqueId);
    if k.Some? then lines[k.value := lines[k.value].(quantity := lines[k.value].quantity + 1)]
    else lines + [line.(quantity := 1)]
  }

  /** `updateCartQuantity`: the line moves by `change` and goes when it reaches 0 or
      below; an unknown key changes nothing. */
  function QuantityChanged(lines: seq<Line>, key: string, change: int): seq<Line> {
    var k := IndexOfKey(lines, key);
    if k.None? then lines
    else
      var q := lines[k.value].quantity + change;
      if q <= 0 then lines[..k.value] + lines[k.value + 1..]
      else lines[k.value := lines[k.value].(quantity := q)]
  }

  /** `cart.filter(item => item.uniqueId !== uniqueId)`. */
  function Without(lines: seq<Line>, key: string): (r: seq<Line>)
    ensures |r| <= |lines|
    ensures forall l :: l in r <==> l in lines && l.uniqueId != key
  {
    if lines == [] then []
    else if lines[0].uniqueId == key then Without(lines[1..], key)
    else [lines[0]] + Without(lines[1..], key)
  }

  /** The badge: `cart.reduce((sum, item) => sum + item.quantity, 0)`. */
  function ItemCount(lines: seq<Line>): int {
    if lines == [] then 0 else ItemCount(lines[..|lines| - 1]) + lines[|lines| - 1].quantity
  }

  /** `cart.reduce((sum, item) => sum + item.finalPrice * item.quantity, 0)`. */
  function Subtotal(lines: seq<Line>): int {
    if lines == [] then 0 else Subtotal(lines[..|lines| - 1]) + lines[|lines| - 1].finalPrice * lines[|lines| - 1].quantity
  }

  /** The global `cart`. */
  class ShoppingCart {
    var lines: seq<Line>

    constructor ()
      ensures lines == []
    {
      lines := [];
    }

    /** `cart.findIndex(item => item.uniqueId === uniqueId)`, -1 when absent. */
    method FindLine(key: string) returns (k: int)
      ensures k == (if IndexOfKey(lines, key).Some? then IndexOfKey(lines, key).value else -1)
    {
      k := 0;
      while k < |lines|
        invariant 0 <= k <= |lines|
        invariant forall j :: 0 <= j < k ==> lines[j].uniqueId != key
      {
        if lines[k].uniqueId == key {
          FirstKey(lines, key, k);
          return;
        }
        k := k + 1;
      }
      k := -1;
    }

    /** `addToCart(itemId, itemName, basePrice, button)`, the selects of the item's
      card given as `selects`. */
    method AddToCart(itemId: string, itemName: string, basePrice: int, selects: seq<Select>)
      modifies this
      ensures var options := OptionsOf(selects);
              lines == Added(old(lines), Line(LineKey(itemId, options), itemId, itemName, basePrice,
                                              basePrice + ExtraPrice(selects), options, 1))
    {
      var options, finalPrice := ReadOptions(basePrice, selects);
      var key := LineKey(itemId, options);
      var k := FindLine(key);
      if k >= 0 {
        lines := lines[k := lines[k].(quantity := lines[k].quantity + 1)];
      } else {
        lines := lines + [Line(key, itemId, itemName, basePrice, finalPrice, options, 1)];
      }
    }

    /** `updateCartQuantity(uniqueId, change)`. */
    method UpdateQuantity(key: string, change: int)
      modifies this
      ensures lines == QuantityChanged(old(lines), key, change)
    {
      var k := FindLine(key);
      if k >= 0 {
        var q := lines[k].quantity + change;
        lines := lines[k := lines[k].(quantity := q)];
        if lines[k].quantity <= 0 {
          lines := lines[..k] + lines[k + 1..];
        }
      }
    }

    /** `removeFromCart(uniqueId)`. */
    method Remove(key: string)
      modifies this
      ensures lines == Without(old(lines), key)
    {
      lines := Without(lines, key);
    }

    /** `clearCart()`. */
    method Clear()
      modifies this
      ensures lines == []
    {
      lines := [];
    }
  }

  lemma FirstKey(lines: seq<Line>, key: string, k: nat)
    requires k < |lines| && lines[k].uniqueId == key
    requires forall j :: 0 <= j < k ==> lines[j].uniqueId != key
    ensures IndexOfKey(lines, key) == Some(k)
  {
    var r := IndexOfKey(lines, key);
    assert r.Some?;
  }

  // ---------------------------------------------------------------- properties

  /** Adding keeps the keys distinct and the quantities positive; it adds a line
      exactly when the key is new, and the badge goes up by one. */
  lemma {:induction false} AddFacts(lines: seq<Line>, line: Line)
    requires Valid(lines)
    ensures var r := Added(lines, line);
            && Valid(r)
            && (|r| == |lines| + 1 <==> forall j :: 0 <= j < |lines| ==> lines[j].uniqueId != line.uniqueId)
            && (|r| == |lines| || |r| == |lines| + 1)
            && ItemCount(r) == ItemCount(lines) + 1
            && exists j :: 0 <= j < |r| && r[j].uniqueId == line.uniqueId
  {
    var k := IndexOfKey(lines, line.uniqueId);
    var r := Added(lines, line);
    if k.Some? {
      CountUpdate(lines, k.value, lines[k.value].(quantity := lines[k.value].quantity + 1));
      assert r[k.value].uniqueId == line.uniqueId;
    } else {
      assert r[..|r| - 1] == lines;
      assert r[|lines|].uniqueId == line.uniqueId;
    }
  }

  /** Adding the same item with the same options twice gives one line of two. */
  lemma AddTwice(lines: seq<Line>, line: Line)
    requires Valid(lines) && forall j :: 0 <= j < |lines| ==> lines[j].uniqueId != line.uniqueId
    ensures var r := Added(Added(lines, line), line);
            r == lines + [line.(quantity := 2)]
  {
    var once := Added(lines, line);
    assert once == lines + [line.(quantity := 1)];
    FirstKey(once, line.uniqueId, |lines|);
  }

  /** A quantity change keeps the invariant, and an unknown key changes nothing. */
  lemma QuantityFacts(lines: seq<Line>, key: string, change: int)
    requires Valid(lines)
    ensures Valid(QuantityChanged(lines, key, change))
    ensures IndexOfKey(lines, key).None? ==> QuantityChanged(lines, key, change) == lines
  {
    var k := IndexOfKey(lines, key);
    if k.Some? {
      var i := k.value;
      var q := lines[i].quantity + change;
      if q <= 0 {
        QuantityRemovesLine(lines, key, change);
      } else {
        assert Valid(lines[i := lines[i].(quantity := q)]);
      }
    }
  }

  /** A line that falls to 0 or below goes, the others keep their order, and no
      line with the key is left. */
  lemma QuantityRemovesLine(lines: seq<Line>, key: string, change: int)
    requires Valid(lines)
    requires IndexOfKey(lines, key).Some? && lines[IndexOfKey(lines, key).value].quantity + change <= 0
    ensures var r := QuantityChanged(lines, key, change);
            var i := IndexOfKey(lines, key).value;
            && r == lines[..i] + lines[i + 1..]
            && Valid(r) && forall j :: 0 <= j < |r| ==> r[j].uniqueId != key
  {
    DropLine(lines, IndexOfKey(lines, key).value);
  }

  /** A line that stays above 0 takes the change, and so does the badge. */
  lemma QuantityKeepsLine(lines: seq<Line>, key: string, change: int)
    requires IndexOfKey(lines, key).Some? && lines[IndexOfKey(lines, key).value].quantity + change > 0
    ensures var r := QuantityChanged(lines, key, change);
            var i := IndexOfKey(lines, key).value;
            && |r| == |lines| && r[i].quantity == lines[i].quantity + change
            && (forall j :: 0 <= j < |lines| && j != i ==> r[j] == lines[j])
            && ItemCount(r) == ItemCount(lines) + change
  {
    var i := IndexOfKey(lines, key).value;
    var l := lines[i].(quantity := lines[i].quantity + change);
    assert QuantityChanged(lines, key, change) == lines[i := l];
    CountUpdate(lines, i, l);
  }

  /** Taking one line out of a valid cart leaves a valid cart without its key. */
  lemma DropLine(lines: seq<Line>, i: nat)
    requires Valid(lines) && i < |lines|
    ensures var r := lines[..i] + lines[i + 1..];
            Valid(r) && forall j :: 0 <= j < |r| ==> r[j].uniqueId != lines[i].uniqueId
  {
    var r := lines[..i] + lines[i + 1..];
    assert forall j :: 0 <= j < |r| ==> r[j] == (if j < i then lines[j] else lines[j + 1]);
  }

  /** Removing keeps the invariant and every other line, in order, and no line
      with the key is left. */
  lemma RemoveFacts(lines: seq<Line>, key: string)
    requires Valid(lines)
    ensures var r := Without(lines, key);
            && Valid(r)
            && (forall j :: 0 <= j < |r| ==> r[j].uniqueId != key)
            && (forall j :: 0 <= j < |lines| && lines[j].uniqueId != key ==> lines[j] in r)
            && |r| == |lines| - (if IndexOfKey(lines, key).Some? then 1 else 0)
  {
    WithoutDistinct(lines, key);
    WithoutLength(lines, key);
    var r := Without(lines, key);
    assert forall j :: 0 <= j < |r| ==> r[j] in r;
    assert forall j :: 0 <= j < |lines| ==> lines[j] in lines;
  }

  lemma {:induction false} WithoutDistinct(lines: seq<Line>, key: string)
    requires Valid(lines)
    ensures Valid(Without(lines, key))
  {
    if lines != [] {
      var tail := lines[1..];
      assert Valid(tail);
      WithoutDistinct(tail, key);
      if lines[0].uniqueId != key {
        forall j | 0 <= j < |tail|
          ensures tail[j].uniqueId != lines[0].uniqueId
        {
          assert tail[j] == lines[j + 1];
        }
        WithoutKeeps(tail, key, lines[0].uniqueId);
        assert Without(lines, key) == [lines[0]] + Without(tail, key);
        ConsValid(lines[0], Without(tail, key));
      }
    }
  }

  /** A line with a key the rest lacks and a positive quantity keeps the cart valid
      in front. */
  lemma ConsValid(x: Line, rest: seq<Line>)
    requires Valid(rest) && x.quantity >= 1
    requires forall j :: 0 <= j < |rest| ==> rest[j].uniqueId != x.uniqueId
    ensures Valid([x] + rest)
  {
    var r := [x] + rest;
    assert forall j :: 1 <= j < |r| ==> r[j] == rest[j - 1];
  }

  /** A key no line has is not brought in by the filter. */
  lemma {:induction false} WithoutKeeps(lines: seq<Line>, key: string, absent: string)
    requires forall j :: 0 <= j < |lines| ==> lines[j].uniqueId != absent
    ensures forall j :: 0 <= j < |Without(lines, key)| ==> Without(lines, key)[j].uniqueId != absent
  {
    if lines != [] {
      WithoutKeeps(lines[1..], key, absent);
    }
  }

  lemma {:induction false} WithoutLength(lines: seq<Line>, key: string)
    requires Valid(lines)
    ensures |Without(lines, key)| == |lines| - (if IndexOfKey(lines, key).Some? then 1 else 0)
  {
    if lines != [] {
      var tail := lines[1..];
      assert Valid(tail);
      if lines[0].uniqueId == key {
        assert forall j :: 0 <= j < |tail| ==> tail[j].uniqueId != key;
        NoKeyUnchanged(tail, key);
      } else {
        WithoutLength(tail, key);
        assert IndexOfKey(lines, key).Some? <==> IndexOfKey(tail, key).Some?;
      }
    }
  }

  lemma {:induction false} NoKeyUnchanged(lines: seq<Line>, key: string)
    requires forall j :: 0 <= j < |lines| ==> lines[j].uniqueId != key
    ensures Without(lines, key) == lines
  {
    if lines != [] {
      NoKeyUnchanged(lines[1..], key);
    }
  }

  /** Replacing one line moves the badge by the change in its quantity. */
  lemma {:induction false} CountUpdate(lines: seq<Line>, i: nat, l: Line)
    requires i < |lines|
    ensures ItemCount(lines[i := l]) == ItemCount(lines) - lines[i].quantity + l.quantity
  {
    var last := |lines| - 1;
    if i == last {
      assert lines[i := l][..last] == lines[..last];
    } else {
      CountUpdate(lines[..last], i, l);
      assert lines[i := l][..last] == lines[..last][i := l];
    }
  }

  /** In a valid cart the badge shows at least one per line, so it reads 0 exactly
      when the cart is empty. */
  lemma {:induction false} CountAtLeastLines(lines: seq<Line>)
    requires Valid(lines)
    ensures ItemCount(lines) >= |lines|
    ensures ItemCount(lines) == 0 <==> lines == []
  {
    if lines != [] {
      var init := lines[..|lines| - 1];
      assert Valid(init);
      CountAtLeastLines(init);
    }
  }

  /** A repeat add raises the subtotal by the price the line already has; a new
      line adds its own price. */
  lemma {:induction false} AddSubtotal(lines: seq<Line>, line: Line)
    ensures var k := IndexOfKey(lines, line.uniqueId);
            Subtotal(Added(lines, line)) == Subtotal(lines) + (if k.Some? then lines[k.value].finalPrice else line.finalPrice)
  {
    var k := IndexOfKey(lines, line.uniqueId);
    if k.Some? {
      var i := k.value;
      var prev := lines[i];
      var bumped := prev.(quantity := prev.quantity + 1);
      assert Added(lines, line) == lines[i := bumped];
      SubtotalUpdate(lines, i, bumped);
      OneMore(prev.finalPrice, prev.quantity);
    } else {
      assert Added(lines, line) == lines + [line.(quantity := 1)];
      SubtotalAppend(lines, line.(quantity := 1));
    }
  }

  lemma OneMore(price: int, quantity: int)
    ensures price * (quantity + 1) == price * quantity + price
  { }

  lemma SubtotalAppend(lines: seq<Line>, l: Line)
    ensures Subtotal(lines + [l]) == Subtotal(lines) + l.finalPrice * l.quantity
  {
    assert (lines + [l])[..|lines|] == lines;
  }

  lemma {:induction false} SubtotalUpdate(lines: seq<Line>, i: nat, l: Line)
    requires i < |lines|
    ensures Subtotal(lines[i := l]) == Subtotal(lines) - lines[i].finalPrice * lines[i].quantity + l.finalPrice * l.quantity
  {
    var last := |lines| - 1;
    if i == last {
      assert lines[i := l][..last] == lines[..last];
    } else {
      SubtotalUpdate(lines[..last], i, l);
      assert lines[i := l][..last] == lines[..last][i := l];
    }
  }

  // ---------------------------------------------------------------- checkout

  /** `checkoutBtn.disabled`: an empty cart, or no pickup time chosen. */
  predicate CheckoutDisabled(lines: seq<Line>, pickupTime: string) {
    lines == [] || pickupTime == ""
  }

  /** The checkout button's label when the cart has lines. */
  function CheckoutLabel(pickupTime: string): (text: string)
    ensures text == "Proceed to Checkout" <==> pickupTime != ""
  {
    if pickupTime == "" then "Select Pickup Time First" else "Proceed to Checkout"
  }

  /** `proceedToCheckout`: without a pickup time the modal stays closed and the
      customer is told why. */
  function ProceedToCheckout(pickupTime: string): (r: Result<(), string>)
    ensures r.Ok? <==> pickupTime != ""
    ensures r.Err? ==> r.error == "You must select a pickup time to place your order!"
  {
    if pickupTime == "" then Err("You must select a pickup time to place your order!") else Ok(())
  }

  /** In a valid cart the button is enabled exactly when the badge is above 0 and
      `proceedToCheckout` would open the modal, and then it reads "Proceed to
      Checkout". */
  lemma CheckoutGate(lines: seq<Line>, pickupTime: string)
    requires Valid(lines)
    ensures !CheckoutDisabled(lines, pickupTime) <==> ItemCount(lines) > 0 && ProceedToCheckout(pickupTime).Ok?
    ensures !CheckoutDisabled(lines, pickupTime) ==> CheckoutLabel(pickupTime) == "Proceed to Checkout"
  {
    CountAtLeastLines(lines);
  }

  // ---------------------------------------------------------------- option labels

  /** `word.charAt(0).toUpperCase() + word.slice(1)`. */
  function Capitalize(word: string): (r: string)
    ensures |r| == |word|
  {
    if word == [] then [] else [UpperChar(word[0])] + word[1..]
  }

  function CapitalizeAll(words: seq<string>): (r: seq<string>)
    ensures |r| == |words|
    ensures forall i :: 0 <= i < |words| ==> r[i] == Capitalize(words[i])
  {
    if words == [] then [] else [Capitalize(words[0])] + CapitalizeAll(words[1..])
  }

  /** `formatOptionName`: split on '-', capitalise each word, join with spaces. */
  function FormatOptionName(option: string): string {
    Join(CapitalizeAll(Split(option, '-')), " ")
  }

  /** The same label character by character: every '-' becomes a space, and a
      character at the start or just after a '-' is upper-cased. */
  function Spaced(s: string, atStart: bool): (r: string)
    ensures |r| == |s|
  {
    if s == [] then []
    else if s[0] == '-' then " " + Spaced(s[1..], true)
    else [if atStart then UpperChar(s[0]) else s[0]] + Spaced(s[1..], false)
  }

  lemma JoinCons(w: string, rest: seq<string>, sep: string)
    ensures Join([w] + rest, sep) == if rest == [] then w else w + sep + Join(rest, sep)
  {
    assert ([w] + rest)[1..] == rest;
  }

  /** The label built by `split`/`map`/`join` is the character-by-character one. */
  lemma {:induction false} FormatOptionNameSpaced(s: string)
    ensures FormatOptionName(s) == Spaced(s, true)
    ensures LabelIsSpaced(s)
  {
    if s != [] {
      FormatOptionNameSpaced(s[1..]);
      if s[0] == '-' {
        DashStep(s);
      } else {
        CharStep(s);
      }
    }
  }

  /** Both the label and the same words without the first capitalised read as
      the character-by-character label. */
  ghost predicate LabelIsSpaced(s: string) {
    && FormatOptionName(s) == Spaced(s, true)
    && var parts := Split(s, '-');
       Join([parts[0]] + CapitalizeAll(parts[1..]), " ") == Spaced(s, false)
  }

  lemma DashStep(s: string)
    requires s != [] && s[0] == '-' && LabelIsSpaced(s[1..])
    ensures LabelIsSpaced(s)
  {
    var rest := Split(s[1..], '-');
    assert Split(s, '-') == [""] + rest;
    assert CapitalizeAll([""] + rest) == [""] + CapitalizeAll(rest);
    JoinCons("", CapitalizeAll(rest), " ");
    assert ([""] + rest)[1..] == rest;
  }

  lemma CharStep(s: string)
    requires s != [] && s[0] != '-' && LabelIsSpaced(s[1..])
    ensures LabelIsSpaced(s)
  {
    var rest := Split(s[1..], '-');
    var words := CapitalizeAll(rest[1..]);
    var parts := [[s[0]] + rest[0]] + rest[1..];
    assert Split(s, '-') == parts;
    assert parts[1..] == rest[1..];
    assert CapitalizeAll(parts) == [[UpperChar(s[0])] + rest[0]] + words;
    JoinHead(UpperChar(s[0]), rest[0], words, " ");
    JoinHead(s[0], rest[0], words, " ");
  }

  /** Putting a character in front of the first word puts it in front of the join. */
  lemma JoinHead(c: char, w: string, rest: seq<string>, sep: string)
    ensures Join([[c] + w] + rest, sep) == [c] + Join([w] + rest, sep)
  {
    JoinCons([c] + w, rest, sep);
    JoinCons(w, rest, sep);
  }

  /** The label has the option's length, a space wherever the option has a '-', and
      the option's character, perhaps upper-cased, everywhere else. */
  lemma FormatOptionNameShape(s: string)
    ensures var r := FormatOptionName(s);
            && |r| == |s|
            && (forall i :: 0 <= i < |s| && s[i] == '-' ==> r[i] == ' ')
            && (forall i :: 0 <= i < |s| && s[i] != '-' ==> r[i] == s[i] || r[i] == UpperChar(s[i]))
  {
    FormatOptionNameSpaced(s);
    SpacedShape(s, true);
  }

  lemma {:induction false} SpacedShape(s: string, atStart: bool)
    ensures var r := Spaced(s, atStart);
            && (forall i :: 0 <= i < |s| && s[i] == '-' ==> r[i] == ' ')
            && (forall i :: 0 <= i < |s| && s[i] != '-' ==> r[i] == s[i] || r[i] == UpperChar(s[i]))
  {
    if s != [] {
      SpacedShape(s[1..], s[0] == '-');
      var r := Spaced(s, atStart);
      assert forall i :: 1 <= i < |s| ==> r[i] == Spaced(s[1..], s[0] == '-')[i - 1];
    }
  }

  /** An option value that is shown: not empty, not `none`, not `regular`. */
  predicate Shown(value: string) {
    value != "" && value != "none" && value != "regular"
  }

  /** The text of one shown option. */
  function OptionText(key: string, value: string): string {
    if key == "milk" then FormatOptionName(value) + " milk"
    else if key == "sweetener" then FormatOptionName(value) + " sweetener"
    else FormatOptionName(value)
  }

  /** The texts `generateCartItemOptions` collects, in order. */
  function OptionTexts(options: seq<(string, string)>): seq<string> {
    if options == [] then []
    else
      var rest := OptionTexts(options[1..]);
      if Shown(options[0].1) then [OptionText(options[0].0, options[0].1)] + rest else rest
  }

  /** `generateCartItemOptions(options)`. */
  function CartItemOptions(options: seq<(string, string)>): string {
    var texts := OptionTexts(options);
    if texts == [] then "" else "<div class=\"cart-item-options\">" + Join(texts, ", ") + "</div>"
  }

  /** One text per shown option and none for the others; the block is empty exactly
      when no option is shown. */
  lemma {:induction false} OptionTextsFacts(options: seq<(string, string)>)
    ensures var texts := OptionTexts(options);
            && (texts == [] <==> forall i :: 0 <= i < |options| ==> !Shown(options[i].1))
            && (forall i :: 0 <= i < |options| && Shown(options[i].1) ==> OptionText(options[i].0, options[i].1) in texts)
            && (CartItemOptions(options) == "" <==> texts == [])
  {
    if options != [] {
      OptionTextsFacts(options[1..]);
      assert forall i :: 1 <= i < |options| ==> options[i] == options[1..][i - 1];
    }
  }
}
