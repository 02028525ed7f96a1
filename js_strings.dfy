/** The JavaScript string built-ins the café's scripts lean on (`trim`,
    `toLowerCase`, `includes`, `split`, `join`, `padStart`, `parseInt` and the
    decimal form of a number), written out over `seq<char>`. */
module JsStrings {
  import opened Wrappers

  /** The characters JavaScript's `\s` class and `String.prototype.trim` treat as white space. */
  predicate IsSpace(c: char) {
    || c == ' ' || c == '\t' || c == '\n' || c == '\r' || c == '\U{000B}' || c == '\U{000C}'
    || c == '\U{00A0}' || c == '\U{1680}' || ('\U{2000}' <= c <= '\U{200A}')
    || c == '\U{2028}' || c == '\U{2029}' || c == '\U{202F}' || c == '\U{205F}'
    || c == '\U{3000}' || c == '\U{FEFF}'
  }

  /** JavaScript's `\d`: the ASCII digits only. */
  predicate IsDigit(c: char) {
    '0' <= c <= '9'
  }

  predicate IsAsciiLetter(c: char) {
    'a' <= c <= 'z' || 'A' <= c <= 'Z'
  }

  predicate AllDigits(s: string) {
    forall i :: 0 <= i < |s| ==> IsDigit(s[i])
  }

  predicate AllSpace(s: string) {
    forall i :: 0 <= i < |s| ==> IsSpace(s[i])
  }

  // ---------------------------------------------------------------- trim

  function TrimStart(s: string): (r: string)
    ensures |r| <= |s|
  {
    if s != [] && IsSpace(s[0]) then TrimStart(s[1..]) else s
  }

  /** `TrimStart` drops a prefix of white space and stops at a non-space. */
  lemma {:induction false} TrimStartShape(s: string)
    ensures var r := TrimStart(s);
            && r == s[|s| - |r|..] && (r != [] ==> !IsSpace(r[0])) && AllSpace(s[..|s| - |r|])
  {
    if s != [] && IsSpace(s[0]) {
      TrimStartShape(s[1..]);
      var r := TrimStart(s);
      assert s[1..][..|s| - 1 - |r|] == s[1..|s| - |r|];
      assert forall i :: 1 <= i < |s| - |r| ==> s[i] == s[1..][i - 1];
    }
  }

  function TrimEnd(s: string): (r: string)
    ensures |r| <= |s|
  {
    if s != [] && IsSpace(s[|s| - 1]) then TrimEnd(s[..|s| - 1]) else s
  }

  /** `TrimEnd` drops a suffix of white space and stops at a non-space. */
  lemma {:induction false} TrimEndShape(s: string)
    ensures var r := TrimEnd(s);
            && r == s[..|r|] && (r != [] ==> !IsSpace(r[|r| - 1])) && AllSpace(s[|r|..])
  {
    if s != [] && IsSpace(s[|s| - 1]) {
      TrimEndShape(s[..|s| - 1]);
      var r := TrimEnd(s);
      assert s[..|s| - 1][..|r|] == s[..|r|];
      assert forall i :: |r| <= i < |s| - 1 ==> s[i] == s[..|s| - 1][i];
    }
  }

  /** `s.trim()`: blank exactly when `s` is made of white space only. */
  function Trim(s: string): (r: string)
    ensures r == [] <==> AllSpace(s)
    ensures r != [] ==> !IsSpace(r[0]) && !IsSpace(r[|r| - 1])
    ensures |r| <= |s|
  {
    TrimShape(s);
    TrimEnd(TrimStart(s))
  }

  lemma TrimShape(s: string)
    ensures TrimEnd(TrimStart(s)) == [] <==> AllSpace(s)
    ensures TrimEnd(TrimStart(s)) != [] ==> !IsSpace(TrimEnd(TrimStart(s))[0])
    ensures var r := TrimEnd(TrimStart(s)); r != [] ==> !IsSpace(r[|r| - 1])
  {
    var t := TrimStart(s);
    var r := TrimEnd(t);
    TrimStartShape(s);
    TrimEndShape(t);
    var head := SplitAt(s, |s| - |t|);
    AllSpaceConcat(head, t);
    var tail := SplitAt(t, |r|);
    AllSpaceConcat(r, tail);
    if r != [] {
      assert r[0] == t[0];
      assert !AllSpace(r);
    }
  }

  /** The part of `s` before `k`; what follows it is `s[k..]`. */
  lemma SplitAt(s: string, k: nat) returns (head: string)
    requires k <= |s|
    ensures head == s[..k] && s == head + s[k..]
  {
    head := s[..k];
  }

  lemma AllSpaceConcat(a: string, b: string)
    ensures AllSpace(a + b) <==> AllSpace(a) && AllSpace(b)
  {
    if AllSpace(a) && AllSpace(b) {
      forall i | 0 <= i < |a + b| ensures IsSpace((a + b)[i]) {
        if i < |a| { assert (a + b)[i] == a[i]; } else { assert (a + b)[i] == b[i - |a|]; }
      }
    }
    if AllSpace(a + b) {
      forall i | 0 <= i < |a| ensures IsSpace(a[i]) { assert (a + b)[i] == a[i]; }
      forall i | 0 <= i < |b| ensures IsSpace(b[i]) { assert (a + b)[|a| + i] == b[i]; }
    }
  }

  // ---------------------------------------------------------------- case

  /** `toLowerCase` / `toUpperCase`, modelled on the ASCII letters. */
  function LowerChar(c: char): char {
    if 'A' <= c <= 'Z' then (c as int + 32) as char else c
  }

  function UpperChar(c: char): char {
    if 'a' <= c <= 'z' then (c as int - 32) as char else c
  }

  function ToLower(s: string): (r: string)
    ensures |r| == |s|
  {
    seq(|s|, i requires 0 <= i < |s| => LowerChar(s[i]))
  }

  // ---------------------------------------------------------------- search

  /** `s.includes(sub)`. */
  predicate Includes(s: string, sub: string)
    decreases |s|
  {
    sub <= s || (s != [] && Includes(s[1..], sub))
  }

  // ---------------------------------------------------------------- split / join

  /** `s.split(sep)` for a one-character separator: never empty, no part holds `sep`. */
  function Split(s: string, sep: char): (parts: seq<string>)
    ensures |parts| >= 1
    ensures forall k :: 0 <= k < |parts| ==> sep !in parts[k]
  {
    if s == [] then [""]
    else
      var rest := Split(s[1..], sep);
      if s[0] == sep then [""] + rest
      else [[s[0]] + rest[0]] + rest[1..]
  }

  /** `parts.join(sep)`. */
  function Join(parts: seq<string>, sep: string): string {
    if |parts| == 0 then ""
    else if |parts| == 1 then parts[0]
    else parts[0] + sep + Join(parts[1..], sep)
  }

  /** Splitting on a character and joining back with it gives the string back. */
  lemma {:induction false} JoinSplit(s: string, sep: char)
    ensures Join(Split(s, sep), [sep]) == s
  {
    if s != [] {
      var rest := Split(s[1..], sep);
      JoinSplit(s[1..], sep);
      if s[0] == sep {
        assert Split(s, sep) == [""] + rest;
        assert ([""] + rest)[1..] == rest;
      } else {
        var parts := [[s[0]] + rest[0]] + rest[1..];
        assert Split(s, sep) == parts;
        if |rest| > 1 {
          assert parts[1..] == rest[1..];
          assert Join(rest, [sep]) == rest[0] + [sep] + Join(rest[1..], [sep]);
        }
      }
    }
  }

  // ---------------------------------------------------------------- SET lists

  /** `fields` and `values` as an UPDATE builds them from `cols`: the k-th field
      is the k-th column followed by ` = ?`, the k-th value is its value. */
  ghost predicate SetList<V>(fields: seq<string>, values: seq<V>, cols: seq<(string, V)>) {
    && |fields| == |cols| && |values| == |cols|
    && forall k :: 0 <= k < |cols| ==> fields[k] == cols[k].0 + " = ?" && values[k] == cols[k].1
  }

  lemma SetListPush<V>(fields: seq<string>, values: seq<V>, cols: seq<(string, V)>, column: string, value: V)
    requires SetList(fields, values, cols)
    ensures SetList(fields + [column + " = ?"], values + [value], cols + [(column, value)])
  {
  }

  // ---------------------------------------------------------------- decimal numbers

  function DigitChar(d: nat): (c: char)
    requires d < 10
    ensures IsDigit(c)
  {
    ('0' as int + d) as char
  }

  function DigitValue(c: char): (d: nat)
    requires IsDigit(c)
    ensures d < 10
  {
    c as int - '0' as int
  }

  /** `n.toString()` for a non-negative integer: decimal digits, no leading zero. */
  function NatToDecimal(n: nat): (r: string)
    ensures |r| >= 1 && AllDigits(r)
    ensures r[0] == '0' ==> n == 0
  {
    if n < 10 then [DigitChar(n)] else NatToDecimal(n / 10) + [DigitChar(n % 10)]
  }

  /** The value of a string of decimal digits. */
  function ParseDecimal(s: string): nat
    requires AllDigits(s)
  {
    if s == [] then 0 else 10 * ParseDecimal(s[..|s| - 1]) + DigitValue(s[|s| - 1])
  }

  lemma {:induction false} DecimalRoundTrip(n: nat)
    ensures ParseDecimal(NatToDecimal(n)) == n
  {
    if n >= 10 {
      DecimalRoundTrip(n / 10);
      var r := NatToDecimal(n);
      assert r[..|r| - 1] == NatToDecimal(n / 10);
    }
  }

  function Repeat(c: char, k: nat): (r: string)
    ensures |r| == k
    ensures forall i :: 0 <= i < k ==> r[i] == c
  {
    if k == 0 then [] else [c] + Repeat(c, k - 1)
  }

  lemma {:induction false} ZerosValue(k: nat)
    ensures AllDigits(Repeat('0', k)) && ParseDecimal(Repeat('0', k)) == 0
  {
    if k > 0 {
      ZerosValue(k - 1);
      var z := Repeat('0', k);
      assert z[..k - 1] == Repeat('0', k - 1);
    }
  }

  /** Leading zeros do not change the value of a decimal string. */
  lemma {:induction false} LeadingZerosValue(k: nat, s: string)
    requires AllDigits(s)
    ensures AllDigits(Repeat('0', k) + s)
    ensures ParseDecimal(Repeat('0', k) + s) == ParseDecimal(s)
  {
    var t := Repeat('0', k) + s;
    if s == [] {
      ZerosValue(k);
      assert t == Repeat('0', k);
    } else {
      LeadingZerosValue(k, s[..|s| - 1]);
      assert t[..|t| - 1] == Repeat('0', k) + s[..|s| - 1];
    }
  }

  /** `s.padStart(width, c)`. */
  function PadStart(s: string, width: nat, c: char): (r: string)
    ensures |r| == if |s| < width then width else |s|
    ensures r == Repeat(c, |r| - |s|) + s
  {
    if |s| < width then Repeat(c, width - |s|) + s else s
  }

  // ---------------------------------------------------------------- parseInt

  /** The longest prefix of `s` made of decimal digits. */
  function DigitPrefix(s: string): (r: string)
    ensures r <= s && AllDigits(r)
    ensures |r| < |s| ==> !IsDigit(s[|r|])
  {
    if s != [] && IsDigit(s[0]) then [s[0]] + DigitPrefix(s[1..]) else []
  }

  /** `parseInt(s)` in base 10: leading white space and one sign are skipped and the
      leading digits are read; `None` is `NaN` (no digit there). */
  function ParseInt(s: string): Option<int> {
    var t := TrimStart(s);
    var signed := t != [] && (t[0] == '-' || t[0] == '+');
    var d := DigitPrefix(if signed then t[1..] else t);
    if d == [] then None
    else
      var v: int := ParseDecimal(d);
      Some(if signed && t[0] == '-' then -v else v)
  }

  lemma {:induction false} DigitPrefixOfDigits(d: string)
    requires AllDigits(d)
    ensures DigitPrefix(d) == d
  {
    if d != [] {
      DigitPrefixOfDigits(d[1..]);
    }
  }

  /** `parseInt` reads a string of digits as its decimal value. */
  lemma ParseIntOfDigits(d: string)
    requires d != [] && AllDigits(d)
    ensures ParseInt(d) == Some(ParseDecimal(d) as int)
  {
    assert IsDigit(d[0]);
    assert TrimStart(d) == d;
    DigitPrefixOfDigits(d);
  }

  // ---------------------------------------------------------------- quoted literals

  /** Reads a single-quoted JavaScript string literal from just after its
      opening quote: its value and the text after the closing quote, or `None`
      when the text ends first. A backslash stands for the character after it,
      which covers the escapes `\\`, `\'` and `\"` met here. */
  function ScanQuoted(s: string): Option<(string, string)>
    decreases |s|
  {
    if s == [] then None
    else if s[0] == '\'' then Some(("", s[1..]))
    else if s[0] == '\\' then
      if |s| < 2 then None else Prepend([s[1]], ScanQuoted(s[2..]))
    else Prepend([s[0]], ScanQuoted(s[1..]))
  }

  function Prepend(p: string, r: Option<(string, string)>): Option<(string, string)> {
    if r.None? then None else Some((p + r.value.0, r.value.1))
  }

  predicate Plain(p: string) {
    '\'' !in p && '\\' !in p
  }

  /** A run without quote or backslash is read as it stands. */
  lemma {:induction false} ScanPlain(p: string, x: string)
    requires Plain(p)
    ensures ScanQuoted(p + x) == Prepend(p, ScanQuoted(x))
  {
    if p == [] {
      assert p + x == x;
      PrependEmpty(ScanQuoted(x));
    } else {
      var t := p[1..];
      PlainTail(p);
      ScanPlain(t, x);
      assert (p + x)[0] == p[0];
      assert (p + x)[1..] == t + x;
      PrependTwice([p[0]], t, ScanQuoted(x));
      assert [p[0]] + t == p;
    }
  }

  lemma PlainTail(p: string)
    requires p != [] && Plain(p)
    ensures Plain(p[1..]) && p[0] != '\'' && p[0] != '\\'
  {
    assert p[0] in p;
    assert forall c :: c in p[1..] ==> c in p;
  }

  lemma PrependEmpty(r: Option<(string, string)>)
    ensures Prepend([], r) == r
  {
    if r.Some? {
      assert [] + r.value.0 == r.value.0;
    }
  }

  lemma PrependTwice(a: string, b: string, r: Option<(string, string)>)
    ensures Prepend(a, Prepend(b, r)) == Prepend(a + b, r)
  {
    if r.Some? {
      assert a + (b + r.value.0) == (a + b) + r.value.0;
    }
  }

  /** A backslash and the character after it read as that character. */
  lemma ScanEscape(c: char, x: string)
    ensures ScanQuoted(['\\', c] + x) == Prepend([c], ScanQuoted(x))
  {
    assert (['\\', c] + x)[2..] == x;
  }

  /** An apostrophe ends the literal. */
  lemma ScanClose(x: string)
    ensures ScanQuoted(['\''] + x) == Some(("", x))
  {
    assert (['\''] + x)[1..] == x;
  }

  /** `\\'` after a run without quote or backslash: the literal ends after one
      backslash, and what was meant to be its rest follows the closing quote. */
  lemma DoubledBackslashCloses(head: string, tail: string)
    requires Plain(head)
    ensures ScanQuoted(head + ['\\', '\\'] + ['\''] + tail + ['\'']) == Some((head + ['\\'], tail + ['\'']))
  {
    var after := ['\''] + (tail + ['\'']);
    var rest := ['\\', '\\'] + after;
    assert head + ['\\', '\\'] + ['\''] + tail + ['\''] == head + rest;
    ScanClose(tail + ['\'']);
    ScanEscape('\\', after);
    assert ['\\'] + "" == ['\\'];
    ScanPlain(head, rest);
  }

  /** `\'` between two runs without quote or backslash: an apostrophe inside the
      literal, which the final quote closes. */
  lemma EscapedQuoteReads(head: string, tail: string)
    requires Plain(head) && Plain(tail)
    ensures ScanQuoted(head + ['\\', '\''] + tail + ['\'']) == Some((head + ['\''] + tail, ""))
  {
    var rest := ['\\', '\''] + (tail + ['\'']);
    assert head + ['\\', '\''] + tail + ['\''] == head + rest;
    ScanClose([]);
    assert ['\''] + [] == ['\''];
    ScanPlain(tail, ['\'']);
    assert tail + "" == tail;
    ScanEscape('\'', tail + ['\'']);
    ScanPlain(head, rest);
    assert head + (['\''] + tail) == head + ['\''] + tail;
  }
}
