/** The three regular expressions the staff forms share: the phone pattern
    `^[\d\s\-\+\(\)]+$` (StaffModal.js and the back-office validators), the email
    pattern `^[^\s@]+@[^\s@]+\.[^\s@]+$` (StaffModal.js) and the username pattern
    `^[a-zA-Z0-9_]+$` (js/staff.js), each written as a predicate on strings. */
module FormRules {
  import opened JsStrings

  // ---------------------------------------------------------------- phone

  predicate IsPhoneChar(c: char) {
    IsDigit(c) || IsSpace(c) || c == '-' || c == '+' || c == '(' || c == ')'
  }

  /** `/^[\d\s\-\+\(\)]+$/.test(s)`. */
  predicate IsPhone(s: string) {
    |s| >= 1 && forall k :: 0 <= k < |s| ==> IsPhoneChar(s[k])
  }

  // ---------------------------------------------------------------- username

  predicate IsUsernameChar(c: char) {
    IsAsciiLetter(c) || IsDigit(c) || c == '_'
  }

  /** `/^[a-zA-Z0-9_]+$/.test(s)`. */
  predicate IsUsername(s: string) {
    |s| >= 1 && forall k :: 0 <= k < |s| ==> IsUsernameChar(s[k])
  }

  // ---------------------------------------------------------------- email

  /** `[^\s@]`: any character but white space and '@'. */
  predicate IsPlain(c: char) {
    !IsSpace(c) && c != '@'
  }

  predicate AllPlain(s: string) {
    forall k :: 0 <= k < |s| ==> IsPlain(s[k])
  }

  /** The regular expression read part by part: a non-empty local part, '@', a
      non-empty run, '.', a non-empty run, none of the three holding white space
      or '@'. The '@' sits at `at` and the chosen '.' at `dot`. */
  predicate EmailSplit(s: string, at: int, dot: int) {
    && 0 < at && at + 1 < dot && dot + 1 < |s|
    && s[at] == '@' && s[dot] == '.'
    && AllPlain(s[..at]) && AllPlain(s[at + 1..dot]) && AllPlain(s[dot + 1..])
  }

  /** `/^[^\s@]+@[^\s@]+\.[^\s@]+$/.test(s)`. */
  predicate IsEmailShape(s: string) {
    exists at, dot | 0 <= at < |s| && 0 <= dot < |s| :: EmailSplit(s, at, dot)
  }

  /** The same pattern in plain terms: no white space, exactly one '@' and it is not
      first, and a '.' after it that is neither right after the '@' nor last. */
  predicate EmailFacts(s: string) {
    && (forall k :: 0 <= k < |s| ==> !IsSpace(s[k]))
    && exists at ::
         && 0 < at < |s| && s[at] == '@'
         && (forall k :: 0 <= k < |s| && k != at ==> s[k] != '@')
         && (exists dot :: at + 1 < dot < |s| - 1 && s[dot] == '.')
  }

  lemma EmailShapeFacts(s: string)
    ensures IsEmailShape(s) <==> EmailFacts(s)
  {
    if IsEmailShape(s) {
      var at, dot :| 0 <= at < |s| && 0 <= dot < |s| && EmailSplit(s, at, dot);
      forall k | 0 <= k < |s| && k != at && k != dot
        ensures IsPlain(s[k])
      {
        if k < at {
          assert s[k] == s[..at][k];
        } else if k < dot {
          assert s[k] == s[at + 1..dot][k - at - 1];
        } else {
          assert s[k] == s[dot + 1..][k - dot - 1];
        }
      }
      assert forall k :: 0 <= k < |s| ==> !IsSpace(s[k]);
    }
    if EmailFacts(s) {
      var at :| && 0 < at < |s| && s[at] == '@'
                && (forall k :: 0 <= k < |s| && k != at ==> s[k] != '@')
                && (exists dot :: at + 1 < dot < |s| - 1 && s[dot] == '.');
      var dot :| at + 1 < dot < |s| - 1 && s[dot] == '.';
      assert EmailSplit(s, at, dot);
    }
  }
}
