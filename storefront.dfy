/** The public pages' script (js/main.js): `escapeHtml`, the star icons of a
    review, the star widget, the review and contact lists kept in the browser,
    and the menu's category buttons. */
module Storefront {
  import opened Wrappers
  import opened JsStrings

  // ---------------------------------------------------------------- escapeHtml

  /** `s.replace(/c/g, rep)` for a one-character pattern. */
  function ReplaceAll(s: string, c: char, rep: string): (r: string)
    ensures c !in s ==> r == s
  {
    if s == [] then []
    else (if s[0] == c then rep else [s[0]]) + ReplaceAll(s[1..], c, rep)
  }

  lemma {:induction false} ReplaceConcat(a: string, b: string, c: char, rep: string)
    ensures ReplaceAll(a + b, c, rep) == ReplaceAll(a, c, rep) + ReplaceAll(b, c, rep)
  {
    if a == [] {
      assert a + b == b;
    } else {
      assert (a + b)[0] == a[0];
      assert (a + b)[1..] == a[1..] + b;
      ReplaceConcat(a[1..], b, c, rep);
    }
  }

  /** `escapeHtml`: `&` first, then `<`, `>`, `"` and `'`. */
  function EscapeHtml(s: string): string {
    var amp := ReplaceAll(s, '&', "&amp;");
    var lt := ReplaceAll(amp, '<', "&lt;");
    var gt := ReplaceAll(lt, '>', "&gt;");
    var quot := ReplaceAll(gt, '"', "&quot;");
    ReplaceAll(quot, '\'', "&#039;")
  }

  /** What one character becomes. */
  function EscapeChar(c: char): string {
    if c == '&' then "&amp;"
    else if c == '<' then "&lt;"
    else if c == '>' then "&gt;"
    else if c == '"' then "&quot;"
    else if c == '\'' then "&#039;"
    else [c]
  }

  /** The escaped text, character by character. */
  function Escaped(s: string): string {
    if s == [] then [] else EscapeChar(s[0]) + Escaped(s[1..])
  }

  /** The replace chain on one character gives that character's entity: because
      `&` goes first, the `&` of a later entity is never escaped again. */
  lemma EscapeOne(c: char)
    ensures EscapeHtml([c]) == EscapeChar(c)
  {
    ReplaceOne(c, '&', "&amp;");
    if c == '&' {
      EntityKept("&amp;");
    } else {
      ReplaceOne(c, '<', "&lt;");
      if c == '<' {
        EntityKept("&lt;");
      } else {
        ReplaceOne(c, '>', "&gt;");
        if c == '>' {
          EntityKept("&gt;");
        } else {
          ReplaceOne(c, '"', "&quot;");
          if c == '"' {
            EntityKept("&quot;");
          } else {
            ReplaceOne(c, '\'', "&#039;");
          }
        }
      }
    }
  }

  /** An entity has none of the five characters except its leading `&`, so the
      replacements after the `&` one leave it alone. */
  lemma EntityKept(e: string)
    requires e == "&amp;" || e == "&lt;" || e == "&gt;" || e == "&quot;"
    ensures '<' !in e && '>' !in e && '"' !in e && '\'' !in e
  {
  }

  lemma ReplaceOne(x: char, c: char, rep: string)
    ensures ReplaceAll([x], c, rep) == if x == c then rep else [x]
  {
    assert [x][1..] == [];
  }

  lemma EscapeConcat(a: string, b: string)
    ensures EscapeHtml(a + b) == EscapeHtml(a) + EscapeHtml(b)
  {
    ReplaceConcat(a, b, '&', "&amp;");
    var a1, b1 := ReplaceAll(a, '&', "&amp;"), ReplaceAll(b, '&', "&amp;");
    ReplaceConcat(a1, b1, '<', "&lt;");
    var a2, b2 := ReplaceAll(a1, '<', "&lt;"), ReplaceAll(b1, '<', "&lt;");
    ReplaceConcat(a2, b2, '>', "&gt;");
    var a3, b3 := ReplaceAll(a2, '>', "&gt;"), ReplaceAll(b2, '>', "&gt;");
    ReplaceConcat(a3, b3, '"', "&quot;");
    var a4, b4 := ReplaceAll(a3, '"', "&quot;"), ReplaceAll(b3, '"', "&quot;");
    ReplaceConcat(a4, b4, '\'', "&#039;");
  }

  /** The replace chain is the character-by-character escape. */
  lemma {:induction false} EscapeHtmlIsEscaped(s: string)
    ensures EscapeHtml(s) == Escaped(s)
  {
    if s != [] {
      EscapeHtmlIsEscaped(s[1..]);
      assert s == [s[0]] + s[1..];
      EscapeConcat([s[0]], s[1..]);
      EscapeOne(s[0]);
    }
  }

  /** No `<`, `>`, `"` or `'` is left. */
  lemma {:induction false} EscapedHasNoSpecials(s: string)
    ensures var r := Escaped(s);
            forall i :: 0 <= i < |r| ==> r[i] != '<' && r[i] != '>' && r[i] != '"' && r[i] != '\''
  {
    if s != [] {
      EscapedHasNoSpecials(s[1..]);
      var e := EscapeChar(s[0]);
      var r := Escaped(s);
      EscapeCharNoSpecials(s[0]);
      assert r == e + Escaped(s[1..]);
      assert forall i :: 0 <= i < |e| ==> r[i] == e[i];
      assert forall i :: |e| <= i < |r| ==> r[i] == Escaped(s[1..])[i - |e|];
    }
  }

  lemma EscapeCharNoSpecials(c: char)
    ensures var e := EscapeChar(c);
            forall i :: 0 <= i < |e| ==> e[i] != '<' && e[i] != '>' && e[i] != '"' && e[i] != '\''
  {
  }

  /** One of the five entities starts at `i`. */
  predicate EntityAt(r: string, i: nat)
    requires i <= |r|
  {
    var t := r[i..];
    "&amp;" <= t || "&lt;" <= t || "&gt;" <= t || "&quot;" <= t || "&#039;" <= t
  }

  /** Every `&` in the output starts one of the five entities. */
  lemma {:induction false} EscapedAmpersands(s: string)
    ensures forall i :: 0 <= i < |Escaped(s)| && Escaped(s)[i] == '&' ==> EntityAt(Escaped(s), i)
  {
    if s != [] {
      EscapedAmpersands(s[1..]);
      var e := EscapeChar(s[0]);
      var rest := Escaped(s[1..]);
      var r := Escaped(s);
      assert r == e + rest;
      forall i | 0 <= i < |r| && r[i] == '&'
        ensures EntityAt(r, i)
      {
        if i < |e| {
          assert r[0..] == r;
          AmpersandOnlyFirst(s[0], i, r);
        } else {
          assert rest[i - |e|] == '&';
          assert EntityAt(rest, i - |e|);
          assert r[i..] == rest[i - |e|..];
        }
      }
    }
  }

  lemma AmpersandOnlyFirst(c: char, i: nat, r: string)
    requires EscapeChar(c) <= r && i < |EscapeChar(c)| && r[i] == '&'
    ensures i == 0 && EntityAt(r, 0)
  {
    assert r[0..] == r;
  }

  /** Decoding the five entities (`&amp;` first) undoes the escape. */
  function Unescape(r: string): string
    decreases |r|
  {
    if r == [] then []
    else if "&amp;" <= r then "&" + Unescape(r[5..])
    else if "&lt;" <= r then "<" + Unescape(r[4..])
    else if "&gt;" <= r then ">" + Unescape(r[4..])
    else if "&quot;" <= r then "\"" + Unescape(r[6..])
    else if "&#039;" <= r then "'" + Unescape(r[6..])
    else [r[0]] + Unescape(r[1..])
  }

  /** Nothing is lost: the escaped text decodes to the original, so two different
      texts never escape to the same markup. */
  lemma {:induction false} EscapeRoundTrip(s: string)
    ensures Unescape(EscapeHtml(s)) == s
  {
    EscapeHtmlIsEscaped(s);
    EscapedRoundTrip(s);
  }

  lemma {:induction false} EscapedRoundTrip(s: string)
    ensures Unescape(Escaped(s)) == s
  {
    if s != [] {
      EscapedRoundTrip(s[1..]);
      UnescapeStep(s[0], Escaped(s[1..]));
      assert s == [s[0]] + s[1..];
    }
  }

  lemma UnescapeStep(c: char, rest: string)
    ensures Unescape(EscapeChar(c) + rest) == [c] + Unescape(rest)
  {
    if c in "&<>\"'" {
      UnescapeEntity(c, rest);
    } else {
      var r := EscapeChar(c) + rest;
      assert r[0] == c && r[1..] == rest;
    }
  }

  lemma UnescapeEntity(c: char, rest: string)
    requires c in "&<>\"'"
    ensures Unescape(EscapeChar(c) + rest) == [c] + Unescape(rest)
  {
    var r := EscapeChar(c) + rest;
    if c == '&' {
      assert "&amp;" <= r && r[5..] == rest;
    } else if c == '<' {
      assert r[1] == 'l' && "&lt;" <= r && r[4..] == rest;
    } else if c == '>' {
      assert r[1] == 'g' && "&gt;" <= r && r[4..] == rest;
    } else if c == '"' {
      assert r[1] == 'q' && "&quot;" <= r && r[6..] == rest;
    } else {
      assert r[1] == '#' && "&#039;" <= r && r[6..] == rest;
    }
  }

  // ---------------------------------------------------------------- stars

  const SolidStar := "<i class=\"fas fa-star\"></i>"
  const HollowStar := "<i class=\"far fa-star\"></i>"

  /** The five icons of a rating: star `i` (from 1) is solid when `i <= rating`. */
  function StarIcons(rating: int): (icons: seq<string>)
    ensures |icons| == 5
    ensures forall i :: 0 <= i < 5 ==> icons[i] == (if i + 1 <= rating then SolidStar else HollowStar)
  {
    seq(5, i => if i + 1 <= rating then SolidStar else HollowStar)
  }

  function Concat(parts: seq<string>): string {
    if parts == [] then "" else Concat(parts[..|parts| - 1]) + parts[|parts| - 1]
  }

  /** `generateStarRating(rating)`: the `for` loop appending one icon per star. */
  method GenerateStarRating(rating: int) returns (stars: string)
    ensures stars == Concat(StarIcons(rating))
  {
    stars := "";
    var i := 1;
    while i <= 5
      invariant 1 <= i <= 6
      invariant stars == Concat(StarIcons(rating)[..i - 1])
    {
      assert StarIcons(rating)[..i][..i - 1] == StarIcons(rating)[..i - 1];
      if i <= rating {
        stars := stars + SolidStar;
      } else {
        stars := stars + HollowStar;
      }
      i := i + 1;
    }
    assert StarIcons(rating)[..5] == StarIcons(rating);
  }

  /** How many of the icons are solid. */
  function SolidCount(icons: seq<string>): nat {
    if icons == [] then 0 else SolidCount(icons[..|icons| - 1]) + (if icons[|icons| - 1] == SolidStar then 1 else 0)
  }

  /** Always five icons, of which the first `min(rating, 5)` (none for a rating
      below 1) are solid. */
  lemma StarCount(rating: int)
    ensures SolidCount(StarIcons(rating)) == if rating <= 0 then 0 else if rating >= 5 then 5 else rating
  {
    SolidPrefix(rating, 5);
    assert StarIcons(rating)[..5] == StarIcons(rating);
  }

  /** Among the first `k` icons, the solid ones number `rating` clamped to `0..k`. */
  lemma {:induction false} SolidPrefix(rating: int, k: nat)
    requires k <= 5
    ensures SolidCount(StarIcons(rating)[..k]) == if rating <= 0 then 0 else if rating >= k then k else rating
  {
    if k > 0 {
      var icons := StarIcons(rating);
      SolidPrefix(rating, k - 1);
      assert icons[..k][..k - 1] == icons[..k - 1];
      assert SolidStar != HollowStar;
    }
  }

  /** `updateStarDisplay(rating)`: star `index` gets `active` exactly when
      `index < rating`. The stars' `active` classes are the array. */
  method UpdateStarDisplay(active: array<bool>, rating: int)
    modifies active
    ensures forall i :: 0 <= i < active.Length ==> active[i] == (i < rating)
  {
    var i := 0;
    while i < active.Length
      invariant 0 <= i <= active.Length
      invariant forall j :: 0 <= j < i ==> active[j] == (j < rating)
    {
      active[i] := i < rating;
      i := i + 1;
    }
  }

  // ---------------------------------------------------------------- menu categories

  /** The category buttons: `display` holds whether each menu category is shown;
      `all` shows every one, any other value only those whose `data-category`
      matches. */
  method ShowCategory(display: array<bool>, categories: seq<string>, category: string)
    requires display.Length == |categories|
    modifies display
    ensures forall i :: 0 <= i < display.Length ==> display[i] == (category == "all" || categories[i] == category)
  {
    var i := 0;
    while i < display.Length
      invariant 0 <= i <= display.Length
      invariant forall j :: 0 <= j < i ==> display[j] == (category == "all" || categories[j] == category)
    {
      display[i] := category == "all" || categories[i] == category;
      i := i + 1;
    }
  }

  // ---------------------------------------------------------------- reviews and messages

  datatype Review = Review(id: string, reviewerName: string, rating: int, reviewText: string, timestamp: string)
  datatype ContactMessage = ContactMessage(name: string, email: string, subject: string, message: string, timestamp: string)

  /** `if (!reviewData.rating)`: `NaN` and 0 are refused. */
  function ReviewRating(ratingText: string): (r: Option<int>)
    ensures r.Some? <==> ParseInt(ratingText).Some? && ParseInt(ratingText).value != 0
    ensures r.Some? ==> r.value == ParseInt(ratingText).value
  {
    var n := ParseInt(ratingText);
    if n.Some? && n.value != 0 then n else None
  }

  /** The `reviews` and `contactMessages` entries of `localStorage` (a missing one
      reads as the empty list). */
  class BrowserStorage {
    var reviews: seq<Review>
    var contactMessages: seq<ContactMessage>

    constructor ()
      ensures reviews == [] && contactMessages == []
    {
      reviews, contactMessages := [], [];
    }

    /** The review form: refused without a rating, otherwise put first. */
    method SubmitReview(id: string, reviewerName: string, ratingText: string, reviewText: string, now: string)
      returns (err: Option<string>)
      modifies this
      ensures var rating := ReviewRating(ratingText);
              && (err.Some? <==> rating.None?)
              && (err.Some? ==> err.value == "Please select a rating" && reviews == old(reviews))
              && (err.None? ==> reviews == [Review(id, reviewerName, rating.value, reviewText, now)] + old(reviews))
      ensures contactMessages == old(contactMessages)
    {
      var rating := ReviewRating(ratingText);
      if rating.None? {
        return Some("Please select a rating");
      }
      reviews := [Review(id, reviewerName, rating.value, reviewText, now)] + reviews;
      return None;
    }

    /** The contact form: the message goes last, and the thank-you notice is
        shown. */
    method SubmitContact(name: string, email: string, subject: string, message: string, now: string)
      returns (notice: string)
      modifies this
      ensures contactMessages == old(contactMessages) + [ContactMessage(name, email, subject, message, now)]
      ensures reviews == old(reviews)
      ensures notice == ContactThanks
    {
      contactMessages := contactMessages + [ContactMessage(name, email, subject, message, now)];
      notice := ContactThanks;
    }
  }

  /** The star widget only ever sets 1 to 5, but the form field is text: a rating
      that is unreadable or 0 is refused, and any other whole number, negative
      ones included, is stored. */
  lemma ReviewRatingExamples()
    ensures ReviewRating("4") == Some(4)
    ensures ReviewRating("0") == None
    ensures ReviewRating("") == None
    ensures ReviewRating("-2") == Some(-2)
  {
    assert TrimStart("4") == "4";
    assert DigitPrefix("4") == "4";
    assert TrimStart("0") == "0";
    assert DigitPrefix("0") == "0";
    assert TrimStart("-2") == "-2";
    assert DigitPrefix("2") == "2";
    assert "-2"[1..] == "2";
  }

  // ---------------------------------------------------------------- the contact notice literal

  const ThanksHead := "Thank you for your message! We"
  const ThanksTail := "ll get back to you soon."
  /** The contact notice literal as it stands in the script, after its opening
      quote: two backslashes before the apostrophe. */
  const WrittenThanksBody := ThanksHead + ['\\', '\\'] + ['\''] + ThanksTail + ['\'']
  /** The literal with the apostrophe escaped by one backslash. */
  const IntendedThanksBody := ThanksHead + ['\\', '\''] + ThanksTail + ['\'']
  /** "Thank you for your message! We'll get back to you soon." */
  const ContactThanks := ThanksHead + ['\''] + ThanksTail

  /** As written, `\\` is an escaped backslash, so the apostrophe closes the
      string after `We\` and the identifier `ll` follows it: the script does not
      parse, so none of the storefront handlers is installed. */
  lemma ContactNoticeAsWritten()
    ensures ScanQuoted(WrittenThanksBody) == Some((ThanksHead + ['\\'], ThanksTail + ['\'']))
    ensures (ThanksTail + ['\''])[0] == 'l'
  {
    assert Plain(ThanksHead);
    DoubledBackslashCloses(ThanksHead, ThanksTail);
  }

  /** With one backslash the literal is the whole quoted text and reads as the
      notice `SubmitContact` shows. */
  lemma ContactNoticeIntended()
    ensures ScanQuoted(IntendedThanksBody) == Some((ContactThanks, ""))
  {
    assert Plain(ThanksHead) && Plain(ThanksTail);
    EscapedQuoteReads(ThanksHead, ThanksTail);
  }
}
