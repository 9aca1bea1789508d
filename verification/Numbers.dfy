/** `atoi`, and what it reads: white space, a sign, decimal digits, anything. */
module Numbers {
  import opened Common
  import opened HttpHeader

  predicate IsDigit(c: char) {
    '0' <= c <= '9'
  }

  /** The digits at the front of a string, added to the left to `value`. */
  function Digits(s: Bytes, value: int): int
    decreases |s|
  {
    if s == [] || !IsDigit(s[0]) then value
    else Digits(s[1..], value * 10 + (s[0] as int - '0' as int))
  }

  /** `atoi` */
  function Atoi(s: Bytes): int {
    var t := s[SkipSpaces(s, 0)..];
    if t != [] && t[0] == '-' then -Digits(t[1..], 0)
    else if t != [] && t[0] == '+' then Digits(t[1..], 0)
    else Digits(t, 0)
  }

  // ----- what decimal notation means -----

  /** The number a string of digits stands for: its last digit, and ten times
      what is before it. */
  function Numeral(digits: Bytes): int
    requires forall k | 0 <= k < |digits| :: IsDigit(digits[k])
  {
    if digits == [] then 0
    else
      var last := |digits| - 1;
      Numeral(digits[..last]) * 10 + (digits[last] as int - '0' as int)
  }

  predicate AllDigits(s: Bytes) {
    forall k | 0 <= k < |s| :: IsDigit(s[k])
  }

  predicate AllSpaces(s: Bytes) {
    forall k | 0 <= k < |s| :: s[k] in {' ', '\t', '\n', '\U{0B}', '\U{0C}', '\r'}
  }

  /** The decimal notation of a number. */
  function Decimal(n: nat): (s: Bytes) {
    var last := ['0' + (n % 10) as char];
    if n < 10 then last else Decimal(n / 10) + last
  }

  /** The string has these parts, as far as they go, and stands for `n`. */
  predicate HasParts(s: Bytes, lead: Bytes, sign: Bytes, digits: Bytes, rest: Bytes, n: int) {
    && s == lead + (sign + (digits + rest))
    && AllSpaces(lead) && AllDigits(digits)
    && (rest != [] ==> !IsDigit(rest[0]))
    && (sign == [] || sign == "-" || sign == "+")
    && (sign == [] && digits == [] && rest != [] ==> !IsSpace(rest[0]) && rest[0] != '-' && rest[0] != '+')
    && n == if sign == "-" then -Numeral(digits) else Numeral(digits)
  }

  /** White space, perhaps a sign, digits that stand for the size of `n`, and
      something else. */
  ghost predicate StandsFor(s: Bytes, n: int) {
    exists lead, sign, digits, rest :: HasParts(s, lead, sign, digits, rest, n)
  }

  lemma {:induction false} DigitsThen(a: Bytes, b: Bytes, value: int)
    requires AllDigits(a)
    ensures Digits(a + b, value) == Digits(b, Digits(a, value))
    decreases |a|
  {
    if a == [] {
      assert a + b == b;
    } else {
      assert (a + b)[1..] == a[1..] + b;
      assert forall k | 0 <= k < |a[1..]| :: a[1..][k] == a[k + 1];
      DigitsThen(a[1..], b, value * 10 + (a[0] as int - '0' as int));
    }
  }

  lemma {:induction false} DigitsMean(digits: Bytes)
    requires AllDigits(digits)
    ensures Digits(digits, 0) == Numeral(digits)
  {
    if digits != [] {
      var last := |digits| - 1;
      DigitsMean(digits[..last]);
      DigitsThen(digits[..last], [digits[last]], 0);
      assert digits == digits[..last] + [digits[last]];
      OneDigit(digits[last], Numeral(digits[..last]));
    }
  }

  lemma OneDigit(c: char, value: int)
    requires IsDigit(c)
    ensures Digits([c], value) == value * 10 + (c as int - '0' as int)
  {
    assert [c][1..] == [];
  }

  lemma SpacesSkipped(lead: Bytes, t: Bytes)
    requires AllSpaces(lead) && (t != [] ==> !IsSpace(t[0]))
    ensures (lead + t)[SkipSpaces(lead + t, 0)..] == t
  {
    var s, i := lead + t, SkipSpaces(lead + t, 0);
    assert forall k | 0 <= k < |lead| :: IsSpace(s[k]) && s[k] == lead[k];
    assert t != [] ==> s[|lead|] == t[0];
    assert i == |lead|;
  }

  lemma DigitsRead(digits: Bytes, rest: Bytes)
    requires AllDigits(digits) && (rest != [] ==> !IsDigit(rest[0]))
    ensures Digits(digits + rest, 0) == Numeral(digits)
  {
    DigitsThen(digits, rest, 0);
    DigitsMean(digits);
  }

  lemma PartsRead(s: Bytes, lead: Bytes, sign: Bytes, digits: Bytes, rest: Bytes, n: int)
    requires HasParts(s, lead, sign, digits, rest, n)
    ensures Atoi(s) == n
  {
    hide Digits, Numeral;
    var t := sign + (digits + rest);
    assert t != [] ==> t[0] == (if sign != [] then sign[0] else if digits != [] then digits[0] else rest[0]);
    SpacesSkipped(lead, t);
    DigitsRead(digits, rest);
    if sign != [] {
      assert t[1..] == digits + rest;
    } else {
      assert t == digits + rest;
    }
  }

  /** The digits at the front of a string, and what comes after them. */
  lemma {:induction false} FrontDigits(s: Bytes) returns (digits: Bytes, rest: Bytes)
    ensures s == digits + rest && AllDigits(digits) && (rest != [] ==> !IsDigit(rest[0]))
    ensures s != [] && IsDigit(s[0]) ==> digits != []
    decreases |s|
  {
    if s == [] || !IsDigit(s[0]) {
      digits, rest := [], s;
    } else {
      digits, rest := FrontDigits(s[1..]);
      digits := [s[0]] + digits;
    }
  }

  /** `atoi` reads `n` exactly from the strings that stand for `n`. */
  lemma AtoiExact(s: Bytes, n: int)
    ensures Atoi(s) == n <==> StandsFor(s, n)
  {
    hide HasParts;
    var i := SkipSpaces(s, 0);
    var lead, t := s[..i], s[i..];
    var sign := if t != [] && (t[0] == '-' || t[0] == '+') then [t[0]] else [];
    var u := t[|sign|..];
    var digits, rest := FrontDigits(u);
    PartsFound(s, lead, sign, digits, rest);
    var m := if sign == "-" then -Numeral(digits) else Numeral(digits);
    PartsRead(s, lead, sign, digits, rest, m);
    if StandsFor(s, n) {
      var a, b, c, d :| HasParts(s, a, b, c, d, n);
      PartsRead(s, a, b, c, d, n);
    }
  }

  lemma PartsFound(s: Bytes, lead: Bytes, sign: Bytes, digits: Bytes, rest: Bytes)
    requires var i := SkipSpaces(s, 0);
             var t := s[i..];
             && lead == s[..i]
             && sign == (if t != [] && (t[0] == '-' || t[0] == '+') then [t[0]] else [])
             && t[|sign|..] == digits + rest
    requires AllDigits(digits) && (rest != [] ==> !IsDigit(rest[0]))
    ensures HasParts(s, lead, sign, digits, rest, if sign == "-" then -Numeral(digits) else Numeral(digits))
  {
    hide Numeral;
    var t := s[|lead|..];
    assert t == sign + (digits + rest);
    assert s == lead + t;
    assert rest != [] && sign == [] && digits == [] ==> t[0] == rest[0];
  }

  /** Decimal notation stands for its number, so `atoi` reads it back, whatever
      white space and plus sign come before and whatever but a digit after. */
  lemma {:induction false} DecimalMeans(n: nat)
    ensures AllDigits(Decimal(n)) && Decimal(n) != [] && Numeral(Decimal(n)) == n
  {
    var d := '0' + (n % 10) as char;
    if n >= 10 {
      DecimalMeans(n / 10);
      assert Decimal(n) == Decimal(n / 10) + [d];
      assert Decimal(n)[..|Decimal(n)| - 1] == Decimal(n / 10);
    } else {
      assert Decimal(n) == [d] && [d][..0] == [];
    }
  }

  lemma DecimalReads(n: nat, lead: Bytes, rest: Bytes)
    requires AllSpaces(lead) && (rest != [] ==> !IsDigit(rest[0]))
    ensures Atoi(lead + (Decimal(n) + rest)) == n
    ensures Atoi(lead + ("+" + (Decimal(n) + rest))) == n
    ensures Atoi(lead + ("-" + (Decimal(n) + rest))) == 0 - n
  {
    hide Atoi, Decimal, Numeral;
    DecimalMeans(n);
    assert [] + (Decimal(n) + rest) == Decimal(n) + rest;
    PartsRead(lead + (Decimal(n) + rest), lead, [], Decimal(n), rest, n);
    PartsRead(lead + ("+" + (Decimal(n) + rest)), lead, "+", Decimal(n), rest, n);
    PartsRead(lead + ("-" + (Decimal(n) + rest)), lead, "-", Decimal(n), rest, 0 - n);
  }
}
