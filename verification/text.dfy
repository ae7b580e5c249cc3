/** Text primitives of the monitor: the character classes of the "C" locale,
    the whitespace tokenisation `operator>>` performs on a string stream, the
    numeric-token check, and decimal conversion in both directions. */
module Text {
  import opened Results

  /** The contents of one file as its lines (without their newlines), or
      `None` when the file cannot be opened. */
  type File = Option<seq<string>>

  /** The line `std::getline` leaves in a string that starts out empty: the
      first line, or "" when the file has none. */
  function FirstLine(lines: seq<string>): (line: string) {
    if |lines| == 0 then "" else lines[0]
  }

  /** `std::isspace` in the "C" locale: the characters `operator>>` skips. */
  predicate IsSpace(c: char) {
    c == ' ' || c == '\t' || c == '\n' || c == '\r' || c == '\U{000B}' || c == '\U{000C}'
  }

  /** `std::isdigit` in the "C" locale. */
  predicate IsDigit(c: char) {
    '0' <= c <= '9'
  }

  predicate AllDigits(s: string) {
    forall i :: 0 <= i < |s| ==> IsDigit(s[i])
  }

  /** A token as `operator>>` extracts it into a string: non-empty, no whitespace. */
  predicate IsWord(w: string) {
    |w| > 0 && forall i :: 0 <= i < |w| ==> !IsSpace(w[i])
  }

  /** `std::replace(s.begin(), s.end(), from, to)`. */
  function Replace(s: string, from: char, to: char): (t: string) {
    seq(|s|, i requires 0 <= i < |s| => if s[i] == from then to else s[i])
  }

  // ---------------------------------------------------------------------------
  // Tokenisation

  /** Length of the leading run of non-blank characters. */
  function WordLength(s: string): (n: nat)
    ensures n <= |s|
    ensures forall i :: 0 <= i < n ==> !IsSpace(s[i])
    ensures n < |s| ==> IsSpace(s[n])
  {
    if |s| == 0 || IsSpace(s[0]) then 0 else 1 + WordLength(s[1..])
  }

  /** The tokens successive `>>` extractions read from a string stream over `s`. */
  function Tokens(s: string): (ts: seq<string>)
    ensures forall i :: 0 <= i < |ts| ==> IsWord(ts[i])
    decreases |s|
  {
    if |s| == 0 then []
    else if IsSpace(s[0]) then Tokens(s[1..])
    else
      var n := WordLength(s);
      [s[..n]] + Tokens(s[n..])
  }

  /** A line whose tokens are `ws`: every word followed by one blank. */
  function Unwords(ws: seq<string>): (s: string) {
    if |ws| == 0 then "" else ws[0] + " " + Unwords(ws[1..])
  }

  predicate AllWords(ws: seq<string>) {
    forall i :: 0 <= i < |ws| ==> IsWord(ws[i])
  }

  lemma {:induction false} WordLengthOfWord(w: string, rest: string)
    requires IsWord(w)
    requires |rest| > 0 && IsSpace(rest[0])
    ensures WordLength(w + rest) == |w|
    decreases |w|
  {
    var s := w + rest;
    assert s[0] == w[0];
    if |w| == 1 {
      assert s[1..] == rest;
    } else {
      assert s[1..] == w[1..] + rest;
      WordLengthOfWord(w[1..], rest);
    }
  }

  /** A word followed by a blank is read as one token. */
  lemma {:induction false} TokensAfterWord(w: string, rest: string)
    requires IsWord(w)
    ensures Tokens(w + " " + rest) == [w] + Tokens(rest)
  {
    var s := w + " " + rest;
    assert s == w + (" " + rest);
    WordLengthOfWord(w, " " + rest);
    assert s[..|w|] == w;
    assert s[|w|..] == " " + rest;
    assert (" " + rest)[1..] == rest;
  }

  /** Tokenising undoes `Unwords`: a line written as blank-separated words is
      read back as exactly those words. */
  lemma {:induction false} TokensOfUnwords(ws: seq<string>)
    requires AllWords(ws)
    ensures Tokens(Unwords(ws)) == ws
  {
    if |ws| > 0 {
      TokensAfterWord(ws[0], Unwords(ws[1..]));
      TokensOfUnwords(ws[1..]);
    }
  }

  // ---------------------------------------------------------------------------
  // The numeric-token check

  /** Every character is a digit or a '.'. */
  predicate NumberChars(s: string) {
    forall i :: 0 <= i < |s| ==> IsDigit(s[i]) || s[i] == '.'
  }

  /** The loop of the source's `isNumber`; `seen` records a '.' already met. */
  function ScanNumber(s: string, seen: bool): (ok: bool)
    ensures ok <==> NumberChars(s) && multiset(s)['.'] + (if seen then 1 else 0) <= 1
  {
    if |s| == 0 then true
    else
      assert s == [s[0]] + s[1..];
      if s[0] == '.' then !seen && ScanNumber(s[1..], true)
      else IsDigit(s[0]) && ScanNumber(s[1..], seen)
  }

  /** The source's `isNumber`. */
  function IsNumber(s: string): (ok: bool)
    ensures ok <==> |s| > 0 && NumberChars(s) && multiset(s)['.'] <= 1
  {
    ScanNumber(s, false) && |s| > 0
  }

  // ---------------------------------------------------------------------------
  // Decimal conversion

  function DigitValue(c: char): (d: nat)
    requires IsDigit(c)
  {
    c as int - '0' as int
  }

  function Digit(d: nat): (c: char)
    requires d < 10
    ensures IsDigit(c) && DigitValue(c) == d
  {
    ('0' as int + d) as char
  }

  /** The value of a string of decimal digits (0 for the empty string). */
  function DigitsValue(ds: string): (v: nat)
    requires AllDigits(ds)
    decreases |ds|
  {
    if |ds| == 0 then 0 else 10 * DigitsValue(ds[..|ds| - 1]) + DigitValue(ds[|ds| - 1])
  }

  /** Leading zeros do not change a decimal value. */
  lemma {:induction false} DigitsValueLeadingZero(ds: string)
    requires AllDigits(ds)
    ensures AllDigits("0" + ds) && DigitsValue("0" + ds) == DigitsValue(ds)
    decreases |ds|
  {
    var z := "0" + ds;
    if |ds| > 0 {
      assert z[..|z| - 1] == "0" + ds[..|ds| - 1];
      DigitsValueLeadingZero(ds[..|ds| - 1]);
    }
  }

  /** Length of the leading run of digits. */
  function DigitRun(s: string): (n: nat)
    ensures n <= |s| && AllDigits(s[..n])
    ensures n < |s| ==> !IsDigit(s[n])
    ensures AllDigits(s) ==> n == |s|
  {
    if |s| == 0 || !IsDigit(s[0]) then 0
    else
      var n := 1 + DigitRun(s[1..]);
      assert s[..n] == [s[0]] + s[1..][..n - 1];
      n
  }

  /** The token with one leading sign character removed. */
  function Unsigned(s: string): (digits: string) {
    if |s| > 0 && (s[0] == '+' || s[0] == '-') then s[1..] else s
  }

  /** `std::stol` (and `std::stoi`) applied to a token: an optional sign, then
      the longest run of digits, the rest ignored; `None` where the library
      throws `std::invalid_argument` because no digit follows the sign. */
  function Stol(s: string): (r: Option<int>)
    ensures r.Some? <==> |Unsigned(s)| > 0 && IsDigit(Unsigned(s)[0])
    ensures r.Some? && !(|s| > 0 && s[0] == '-') ==> r.value >= 0
  {
    var u := Unsigned(s);
    var n := DigitRun(u);
    if n == 0 then None
    else
      var v: int := DigitsValue(u[..n]);
      if |s| > 0 && s[0] == '-' then Some(-v) else Some(v)
  }

  /** `std::to_string` of a non-negative value: decimal digits, no leading zero. */
  function NatToString(n: nat): (s: string)
    ensures |s| > 0 && AllDigits(s) && DigitsValue(s) == n
    ensures |s| > 1 ==> s[0] != '0'
  {
    if n < 10 then [Digit(n)]
    else
      var s := NatToString(n / 10) + [Digit(n % 10)];
      assert s[..|s| - 1] == NatToString(n / 10);
      s
  }

  /** How many digits `std::to_string` writes. */
  lemma {:induction false} NatToStringLength(n: nat)
    ensures n < 10 ==> |NatToString(n)| == 1
    ensures 10 <= n < 100 ==> |NatToString(n)| == 2
    ensures 100 <= n ==> |NatToString(n)| >= 3
  {
    if n >= 10 {
      NatToStringLength(n / 10);
    }
  }

  /** `std::to_string` of a `long`. */
  function IntToString(n: int): (s: string) {
    if n < 0 then "-" + NatToString(-n) else NatToString(n)
  }

  /** `std::stoi(std::to_string(n)) == n`. */
  lemma StolOfIntToString(n: int)
    ensures Stol(IntToString(n)) == Some(n)
  {
    var d := NatToString(if n < 0 then -n else n);
    assert d[..|d|] == d;
    if n < 0 {
      assert Unsigned("-" + d) == d;
    } else {
      assert d[0] != '+' && d[0] != '-' by { assert IsDigit(d[0]); }
    }
  }

  /** `std::stoi` of a non-empty run of digits is its decimal value. */
  lemma StolOfDigits(s: string)
    requires |s| > 0 && AllDigits(s)
    ensures Stol(s) == Some(DigitsValue(s))
  {
    assert IsDigit(s[0]);
    assert s[..|s|] == s;
  }

  /** A non-empty run of digits is a word and a number token, with no '.'. */
  lemma DigitsAreNumber(d: string)
    requires |d| > 0 && AllDigits(d)
    ensures IsWord(d) && '.' !in d && multiset(d)['.'] == 0 && IsNumber(d)
  {
    forall i | 0 <= i < |d| ensures !IsSpace(d[i]) && d[i] != '.' {
      assert IsDigit(d[i]);
    }
  }

  /** The digits of a number token before its '.', or all of it when it has none. */
  function IntegerPart(s: string): (ip: string) {
    if |s| == 0 || s[0] == '.' then "" else [s[0]] + IntegerPart(s[1..])
  }

  lemma {:induction false} IntegerPartIsDigitRun(s: string)
    requires NumberChars(s)
    ensures IntegerPart(s) == s[..DigitRun(s)]
  {
    if |s| > 0 && s[0] != '.' {
      IntegerPartIsDigitRun(s[1..]);
    }
  }

  /** `std::stol` on a token that passes `IsNumber`: it throws exactly when the
      token starts with '.', and otherwise yields the integer part. */
  lemma StolOfNumber(s: string)
    requires IsNumber(s)
    ensures s[0] == '.' ==> Stol(s) == None
    ensures s[0] != '.' ==> AllDigits(IntegerPart(s)) && Stol(s) == Some(DigitsValue(IntegerPart(s)))
  {
    IntegerPartIsDigitRun(s);
    assert Unsigned(s) == s;
  }

  // ---------------------------------------------------------------------------
  // Keyed lines

  /** Index of the first line whose first token is `key`, or |lines| when no
      line has it. */
  function KeyLine(lines: seq<string>, key: string): (k: nat)
    ensures k <= |lines|
    ensures k < |lines| ==> |Tokens(lines[k])| > 0 && Tokens(lines[k])[0] == key
    ensures forall j :: 0 <= j < k ==> |Tokens(lines[j])| == 0 || Tokens(lines[j])[0] != key
  {
    if |lines| == 0 then 0
    else
      var ts := Tokens(lines[0]);
      if |ts| > 0 && ts[0] == key then 0 else 1 + KeyLine(lines[1..], key)
  }
}
