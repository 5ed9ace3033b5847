/** Resolution of the `limit` query parameter into the number of quotes to return. */
module Limit {

  datatype Option<T> = None | Some(value: T)

  /** The largest number of quotes one response may carry. */
  const MaxLimit := 100

  /** The count used when `limit` is absent or unusable. */
  const DefaultLimit := 1

  predicate IsDigit(c: char) { '0' <= c <= '9' }

  predicate AllDigits(s: string) { forall i :: 0 <= i < |s| ==> IsDigit(s[i]) }

  /** Ten to the power `k`. */
  function Pow10(k: nat): (p: nat)
    ensures p >= 1
  {
    if k == 0 then 1 else 10 * Pow10(k - 1)
  }

  /** The value of a run of decimal digits, most significant first; `k` digits
      never reach `10^k`. */
  function DigitsValue(s: string): (v: nat)
    requires AllDigits(s)
    ensures v < Pow10(|s|)
  {
    if s == [] then 0 else DigitsValue(s[..|s| - 1]) * 10 + (s[|s| - 1] as int - '0' as int)
  }

  /** Leading zeros do not change the value, so `limit=007` asks for 7 quotes. */
  lemma {:induction false} DigitsValueLeadingZero(s: string)
    requires AllDigits(s)
    ensures AllDigits("0" + s) && DigitsValue("0" + s) == DigitsValue(s)
    decreases |s|
  {
    var z := "0" + s;
    assert AllDigits(z) by {
      forall i | 0 <= i < |z| ensures IsDigit(z[i]) {
        if i > 0 { assert z[i] == s[i - 1]; }
      }
    }
    if s != [] {
      assert z[..|z| - 1] == "0" + s[..|s| - 1];
      DigitsValueLeadingZero(s[..|s| - 1]);
    }
  }

  /** Integer parsing as the handler uses it: an optional `+` or `-`, then one or
      more ASCII decimal digits; anything else is an error (`None`). */
  function Atoi(s: string): (r: Option<int>)
    ensures r.Some? <==> (|s| > 0 && AllDigits(s)) ||
                         (|s| > 1 && (s[0] == '+' || s[0] == '-') && AllDigits(s[1..]))
    ensures r.Some? && |s| > 0 && s[0] == '-' ==> r.value <= 0
    ensures r.Some? && |s| > 0 && s[0] != '-' ==> r.value >= 0
  {
    if |s| > 0 && (s[0] == '+' || s[0] == '-') then
      var digits := s[1..];
      if |digits| > 0 && AllDigits(digits) then
        Some(if s[0] == '-' then -(DigitsValue(digits) as int) else DigitsValue(digits))
      else None
    else if |s| > 0 && AllDigits(s) then Some(DigitsValue(s))
    else None
  }

  /** Decimal rendering of a natural number, the inverse of `DigitsValue`. */
  function Decimal(n: nat): (s: string)
    ensures |s| > 0 && AllDigits(s)
    decreases n
  {
    var d := ['0' + (n % 10) as char];
    if n < 10 then d else Decimal(n / 10) + d
  }

  lemma {:induction false} DigitsValueDecimal(n: nat)
    ensures DigitsValue(Decimal(n)) == n
    decreases n
  {
    var s := Decimal(n);
    if n >= 10 {
      DigitsValueDecimal(n / 10);
      assert s[..|s| - 1] == Decimal(n / 10);
    }
  }

  /** Parsing what `Decimal` prints, with or without a sign, gives the number back. */
  lemma AtoiDecimal(n: nat)
    ensures Atoi(Decimal(n)) == Some(n)
    ensures Atoi("+" + Decimal(n)) == Some(n)
    ensures Atoi("-" + Decimal(n)) == Some(-(n as int))
  {
    DigitsValueDecimal(n);
    assert ("+" + Decimal(n))[1..] == Decimal(n);
    assert ("-" + Decimal(n))[1..] == Decimal(n);
  }

  /** The effective limit for the raw `limit` value (`""` when absent). */
  function ResolveLimit(ls: string): (limit: int)
    ensures DefaultLimit <= limit <= MaxLimit
    ensures limit != DefaultLimit ==> Atoi(ls) == Some(limit)
    ensures Atoi(ls).Some? && 0 < Atoi(ls).value <= MaxLimit ==> limit == Atoi(ls).value
  {
    if ls != "" && Atoi(ls).Some? && Atoi(ls).value > 0 && Atoi(ls).value <= MaxLimit
    then Atoi(ls).value
    else DefaultLimit
  }

  /** Every count from 1 to 100, written in decimal, is taken as it is. */
  lemma ResolveLimitInRange(n: nat)
    requires 0 < n <= MaxLimit
    ensures ResolveLimit(Decimal(n)) == n
    ensures ResolveLimit("+" + Decimal(n)) == n
  {
    AtoiDecimal(n);
  }

  /** Zero and too large counts fall back to the default. */
  lemma ResolveLimitOutOfRange(n: nat)
    requires n == 0 || n > MaxLimit
    ensures ResolveLimit(Decimal(n)) == DefaultLimit
  {
    AtoiDecimal(n);
  }

  /** Every negative count (and minus zero) falls back to the default. */
  lemma ResolveLimitNegative(n: nat)
    ensures ResolveLimit("-" + Decimal(n)) == DefaultLimit
  {
    AtoiDecimal(n);
  }

  /** `0`, `-5`, `abc` and an absent value all resolve like `1`. */
  lemma ResolveLimitExamples()
    ensures ResolveLimit("0") == ResolveLimit("-5") == ResolveLimit("abc") == ResolveLimit("") == ResolveLimit("1")
  {
    assert Atoi("abc").None? by { assert !IsDigit("abc"[0]); }
    assert Atoi("-5") == Some(-5) by {
      assert "-5"[1..] == "5";
      assert DigitsValue("5") == 5 by { assert "5"[..0] == ""; }
    }
    assert Atoi("1") == Some(1) by { assert "1"[..0] == ""; }
  }
}
