/** Decimal rendering of integers, as Go's strconv.Itoa and the %d verb do it,
    together with a parser that serves as its inverse in the proofs. */
module Decimal {
  import opened Wrappers

  predicate IsDigit(c: char) {
    '0' <= c <= '9'
  }

  predicate AllDigits(s: string) {
    forall i :: 0 <= i < |s| ==> IsDigit(s[i])
  }

  function DigitChar(d: nat): (c: char)
    requires d < 10
    ensures IsDigit(c) && c as int - '0' as int == d
  {
    ('0' as int + d) as char
  }

  /** The shortest decimal digits of a natural number. */
  function NatToString(n: nat): (s: string)
    ensures |s| >= 1 && AllDigits(s)
    ensures n == 0 <==> s == "0"
    ensures s[0] == '0' ==> n == 0
    decreases n
  {
    if n < 10 then [DigitChar(n)] else NatToString(n / 10) + [DigitChar(n % 10)]
  }

  /** The form strconv.Itoa writes: no leading zero except in "0" itself,
      and no "-0". */
  predicate Canonical(s: string) {
    |s| >= 1 &&
    (s[0] == '0' ==> s == "0") &&
    (s[0] == '-' ==> |s| >= 2 && s[1] != '0')
  }

  /** strconv.Itoa: a leading '-' for negative numbers, then the digits. */
  function Itoa(n: int): (s: string)
    ensures |s| >= 1
    ensures forall i :: 0 <= i < |s| ==> IsDigit(s[i]) || (i == 0 && s[i] == '-' && n < 0)
    ensures n < 0 <==> s[0] == '-'
    ensures Canonical(s)
  {
    if n < 0 then "-" + NatToString(-n) else NatToString(n)
  }

  function DigitsValue(s: string): nat
    requires AllDigits(s)
  {
    if s == [] then 0
    else 10 * DigitsValue(s[..|s| - 1]) + (s[|s| - 1] as int - '0' as int)
  }

  /** Reads back an optionally negative decimal number; anything else is None. */
  function Atoi(s: string): Option<int> {
    if |s| >= 2 && s[0] == '-' && AllDigits(s[1..]) then Some(0 - DigitsValue(s[1..]))
    else if |s| >= 1 && AllDigits(s) then Some(DigitsValue(s))
    else None
  }

  lemma {:induction false} NatToStringRoundTrip(n: nat)
    ensures DigitsValue(NatToString(n)) == n
    decreases n
  {
    if n >= 10 {
      var s := NatToString(n);
      assert s[..|s| - 1] == NatToString(n / 10);
      NatToStringRoundTrip(n / 10);
    }
  }

  /** Every number Itoa renders is read back exactly. */
  lemma ItoaRoundTrip(n: int)
    ensures Atoi(Itoa(n)) == Some(n)
  {
    if n < 0 {
      assert Itoa(n)[1..] == NatToString(-n);
      NatToStringRoundTrip(-n);
    } else {
      NatToStringRoundTrip(n);
    }
  }

  lemma {:induction false} DigitsValuePositive(t: string)
    requires AllDigits(t) && |t| >= 1 && t[0] != '0'
    ensures DigitsValue(t) >= 1
    decreases |t|
  {
    if |t| > 1 {
      DigitsValuePositive(t[..|t| - 1]);
    }
  }

  lemma {:induction false} NatToStringOfDigits(t: string)
    requires AllDigits(t) && |t| >= 1 && (t[0] == '0' ==> t == "0")
    ensures NatToString(DigitsValue(t)) == t
    decreases |t|
  {
    var init := t[..|t| - 1];
    if |t| > 1 {
      DigitsValuePositive(init);
      NatToStringOfDigits(init);
      assert t == init + [t[|t| - 1]];
    } else {
      assert init == [];
    }
  }

  /** Itoa's text is the only canonical decimal that reads back as n. */
  lemma ItoaUnique(s: string, n: int)
    requires Canonical(s) && Atoi(s) == Some(n)
    ensures s == Itoa(n)
  {
    if s[0] == '-' {
      DigitsValuePositive(s[1..]);
      NatToStringOfDigits(s[1..]);
      assert s == "-" + s[1..];
    } else {
      NatToStringOfDigits(s);
    }
  }
}
