/** Decimal rendering (`std::to_string`, `%d`) and scanning (`atoi`, `sscanf`). */
module Decimal {
  import opened Powers

  predicate IsDigit(c: char) {
    '0' <= c <= '9'
  }

  predicate IsSpace(c: char) {
    c == ' ' || '\t' <= c <= '\r'
  }

  predicate AllDigits(s: string) {
    forall i :: 0 <= i < |s| ==> IsDigit(s[i])
  }

  function DigitChar(d: nat): (c: char)
    requires d < 10
    ensures IsDigit(c) && DigitValue(c) == d
  {
    '0' + d as char
  }

  function DigitValue(c: char): (d: nat)
    requires IsDigit(c)
    ensures d < 10
  {
    c as int - '0' as int
  }

  function Digits(n: nat): (s: string)
    ensures |s| > 0 && AllDigits(s)
  {
    if n < 10 then [DigitChar(n)] else Digits(n / 10) + [DigitChar(n % 10)]
  }

  function ToDecimal(n: int): (s: string)
    ensures |s| > 0
  {
    if n < 0 then "-" + Digits(-n) else Digits(n)
  }

  function Value(s: string): nat
    requires AllDigits(s)
  {
    if s == "" then 0 else 10 * Value(s[..|s| - 1]) + DigitValue(s[|s| - 1])
  }

  function DigitSpan(s: string): (k: nat)
    ensures k <= |s| && AllDigits(s[..k])
    ensures k < |s| ==> !IsDigit(s[k])
  {
    if s == "" || !IsDigit(s[0]) then 0
    else
      assert s == [s[0]] + s[1..];
      1 + DigitSpan(s[1..])
  }

  function SpaceSpan(s: string): (k: nat)
    ensures k <= |s|
    ensures k < |s| ==> !IsSpace(s[k])
  {
    if s == "" || !IsSpace(s[0]) then 0 else 1 + SpaceSpan(s[1..])
  }

  /** One `%d` conversion: the value read and the text left, or nothing when no digit follows. */
  datatype Scan = NoMatch | Match(value: int, rest: string)

  function ScanInt(s: string): Scan {
    ScanSigned(s[SpaceSpan(s)..])
  }

  function ScanSigned(t: string): Scan {
    if t == "" then NoMatch
    else if t[0] == '-' then ScanUnsigned(t[1..], true)
    else if t[0] == '+' then ScanUnsigned(t[1..], false)
    else ScanUnsigned(t, false)
  }

  function ScanUnsigned(u: string, negative: bool): Scan {
    var k := DigitSpan(u);
    var v: int := Value(u[..k]);
    if k == 0 then NoMatch else Match(if negative then -v else v, u[k..])
  }

  /** `atoi`: zero when there is no number. */
  function Atoi(s: string): int {
    match ScanInt(s)
    case NoMatch => 0
    case Match(v, _) => v
  }

  const WORD_MAX: nat := 511

  /** A word as `%511s` can read it back: not empty, without white space, and no longer than the buffer. */
  predicate IsWord(w: string) {
    0 < |w| <= WORD_MAX && forall i :: 0 <= i < |w| ==> !IsSpace(w[i])
  }

  function WordSpan(s: string, cap: nat): (k: nat)
    ensures k <= |s| && k <= cap
    ensures forall i :: 0 <= i < k ==> !IsSpace(s[i])
  {
    if s == "" || cap == 0 || IsSpace(s[0]) then 0 else 1 + WordSpan(s[1..], cap - 1)
  }

  /** One `%511s` conversion: the word read and the text left, or nothing at the end of the text. */
  datatype WordScan = NoWord | Word(text: string, rest: string)

  function ScanWord(s: string): (r: WordScan)
    ensures r.Word? ==> IsWord(r.text)
  {
    var t := s[SpaceSpan(s)..];
    var k := WordSpan(t, WORD_MAX);
    if k == 0 then NoWord else Word(t[..k], t[k..])
  }

  lemma {:induction false} WordSpanOf(w: string, rest: string, cap: nat)
    requires |w| <= cap && forall i :: 0 <= i < |w| ==> !IsSpace(w[i])
    requires rest == "" || IsSpace(rest[0])
    ensures WordSpan(w + rest, cap) == |w|
  {
    if w == "" {
      assert w + rest == rest;
    } else {
      assert (w + rest)[1..] == w[1..] + rest;
      WordSpanOf(w[1..], rest, cap - 1);
    }
  }

  /** A word followed by white space is read back exactly. */
  lemma ScanWordOf(w: string, rest: string)
    requires IsWord(w) && (rest == "" || IsSpace(rest[0]))
    ensures ScanWord(w + rest) == Word(w, rest)
  {
    var s := w + rest;
    assert s[0] == w[0] && s[0..] == s;
    WordSpanOf(w, rest, WORD_MAX);
    assert s[..|w|] == w && s[|w|..] == rest;
  }

  /** A longer word is cut after 511 characters, and the rest of it is left. */
  lemma LongWordIsCut(w: string, rest: string)
    requires |w| >= 511 && forall i :: 0 <= i < |w| ==> !IsSpace(w[i])
    ensures ScanWord(w + rest) == Word(w[..511], w[511..] + rest)
  {
    var s := w + rest;
    assert s[0] == w[0] && s[0..] == s;
    FullWord(s, WORD_MAX);
    assert s[..511] == w[..511] && s[511..] == w[511..] + rest;
  }

  lemma {:induction false} FullWord(s: string, cap: nat)
    requires cap <= |s| && forall i :: 0 <= i < cap ==> !IsSpace(s[i])
    ensures WordSpan(s, cap) == cap
  {
    if cap == 0 {
    } else {
      FullWord(s[1..], cap - 1);
    }
  }

  lemma SkipSpaceWord(s: string)
    ensures ScanWord(" " + s) == ScanWord(s)
  {
    assert (" " + s)[1..] == s;
    assert (" " + s)[SpaceSpan(" " + s)..] == s[SpaceSpan(s)..];
  }

  lemma {:induction false} ValueOfDigits(n: nat)
    ensures Value(Digits(n)) == n
  {
    var s := Digits(n);
    if n < 10 {
      assert s[..0] == "";
    } else {
      ValueOfDigits(n / 10);
      assert s[..|s| - 1] == Digits(n / 10);
    }
  }

  lemma {:induction false} DigitSpanOf(s: string, rest: string)
    requires AllDigits(s)
    requires rest == "" || !IsDigit(rest[0])
    ensures DigitSpan(s + rest) == |s|
  {
    if s == "" {
      assert s + rest == rest;
    } else {
      assert (s + rest)[1..] == s[1..] + rest;
      DigitSpanOf(s[1..], rest);
    }
  }

  lemma ScanUnsignedDigits(n: int, rest: string, negative: bool)
    requires n >= 0
    requires rest == "" || !IsDigit(rest[0])
    ensures ScanUnsigned(Digits(n) + rest, negative) == Match(if negative then -n else n, rest)
  {
    var d := Digits(n);
    DigitSpanOf(d, rest);
    ValueOfDigits(n);
    assert (d + rest)[..|d|] == d && (d + rest)[|d|..] == rest;
  }

  lemma ScanSignedRendered(n: int, rest: string)
    requires rest == "" || !IsDigit(rest[0])
    ensures ScanSigned(ToDecimal(n) + rest) == Match(n, rest)
  {
    hide Digits, ScanUnsigned;
    var s := ToDecimal(n) + rest;
    if n < 0 {
      var d := Digits(-n);
      assert s[0] == '-' && s[1..] == d + rest;
      ScanUnsignedDigits(-n, rest, true);
    } else {
      var d := Digits(n);
      assert s == d + rest && s[0] == d[0] && IsDigit(d[0]);
      ScanUnsignedDigits(n, rest, false);
    }
  }

  /** A rendered number followed by a non-digit is scanned back exactly. */
  lemma ScanRendered(n: int, rest: string)
    requires rest == "" || !IsDigit(rest[0])
    ensures ScanInt(ToDecimal(n) + rest) == Match(n, rest)
  {
    var s := ToDecimal(n) + rest;
    ScanSignedRendered(n, rest);
    assert s[0] == ToDecimal(n)[0];
    assert !IsSpace(s[0]) by {
      if n < 0 {
        assert s[0] == '-';
      } else {
        assert IsDigit(Digits(n)[0]);
      }
    }
    assert s[0..] == s;
  }

  lemma ScanSkipsOne(c: char, s: string)
    requires IsSpace(c)
    ensures ScanInt([c] + s) == ScanInt(s) && ScanWord([c] + s) == ScanWord(s)
  {
    assert ([c] + s)[1..] == s;
    assert ([c] + s)[SpaceSpan([c] + s)..] == s[SpaceSpan(s)..];
  }

  /** Blanks, tabs and line ends before a number or a word are skipped. */
  lemma {:induction false} ScanSkipsSpace(space: string, s: string)
    requires forall i :: 0 <= i < |space| ==> space[i] in {' ', '\t', '\n', '\r', '\U{0B}', '\U{0C}'}
    ensures ScanInt(space + s) == ScanInt(s) && ScanWord(space + s) == ScanWord(s)
  {
    hide ScanInt, ScanWord;
    if space == "" {
      assert space + s == s;
    } else {
      ScanSkipsSpace(space[1..], s);
      ScanSkipsOne(space[0], space[1..] + s);
      assert space + s == [space[0]] + (space[1..] + s);
    }
  }

  /** A plus sign before a number is allowed. */
  lemma ScanPlus(n: nat, rest: string)
    requires rest == "" || !IsDigit(rest[0])
    ensures ScanInt("+" + ToDecimal(n) + rest) == Match(n, rest)
  {
    var s := "+" + ToDecimal(n) + rest;
    ScanUnsignedDigits(n, rest, false);
    assert s[0] == '+' && s[0..] == s && s[1..] == Digits(n) + rest;
  }

  /** Distinct numbers never render to the same text. */
  lemma ToDecimalInjective(a: int, b: int)
    requires ToDecimal(a) == ToDecimal(b)
    ensures a == b
  {
    ScanRendered(a, "");
    ScanRendered(b, "");
    assert ToDecimal(a) + "" == ToDecimal(a);
    assert ToDecimal(b) + "" == ToDecimal(b);
  }

  lemma {:induction false} DigitsLength(n: nat, k: nat)
    requires k > 0 && n < Power(10, k)
    ensures |Digits(n)| <= k
  {
    if n < 10 {
    } else {
      assert k > 1;
      DigitsLength(n / 10, k - 1);
    }
  }
}
