/** Decimal digit strings: `String#to_i` on a run of digits and `Integer#to_s`,
    the two conversions lib/env_mem.rb applies to statistic values. */
module DecimalText {

  predicate IsDigit(c: char) {
    '0' <= c <= '9'
  }

  predicate IsDigits(s: string) {
    forall k :: 0 <= k < |s| ==> IsDigit(s[k])
  }

  function DigitOf(c: char): (d: nat)
    requires IsDigit(c)
    ensures d < 10
  {
    c as int - '0' as int
  }

  function DigitChar(d: nat): (c: char)
    requires d < 10
    ensures IsDigit(c) && DigitOf(c) == d
  {
    ('0' as int + d) as char
  }

  /** The base-10 value of a digit string, read left to right (`"007".to_i == 7`). */
  function DigitsValue(ds: string): nat
    requires IsDigits(ds)
    decreases |ds|
  {
    if |ds| == 0 then 0 else DigitsValue(ds[..|ds| - 1]) * 10 + DigitOf(ds[|ds| - 1])
  }

  /** The canonical decimal text of a non-negative integer (`Integer#to_s`):
      non-empty, digits only, and no leading zero unless the number is zero. */
  function Decimal(n: nat): (r: string)
    ensures |r| > 0 && IsDigits(r)
    ensures r[0] == '0' ==> n == 0 && |r| == 1
  {
    if n < 10 then [DigitChar(n)] else Decimal(n / 10) + [DigitChar(n % 10)]
  }

  /** A digit string in canonical form: what `Integer#to_s` can produce. */
  predicate IsCanonical(ds: string) {
    |ds| > 0 && IsDigits(ds) && (ds[0] == '0' ==> |ds| == 1)
  }

  /** Drops leading zeros, keeping a single digit. */
  function StripLeadingZeros(ds: string): (r: string)
    requires |ds| > 0 && IsDigits(ds)
    ensures IsCanonical(r)
  {
    if |ds| > 1 && ds[0] == '0' then StripLeadingZeros(ds[1..]) else ds
  }

  /** Reading back the decimal text of `n` gives `n`. */
  lemma {:induction false} DecimalValue(n: nat)
    ensures DigitsValue(Decimal(n)) == n
  {
    if n >= 10 {
      var d := Decimal(n / 10);
      var t := d + [DigitChar(n % 10)];
      assert t[..|t| - 1] == d;
      DecimalValue(n / 10);
    }
  }

  /** Different numbers have different decimal texts. */
  lemma DecimalInjective(m: nat, n: nat)
    ensures Decimal(m) == Decimal(n) <==> m == n
  {
    if Decimal(m) == Decimal(n) {
      DecimalValue(m);
      DecimalValue(n);
    }
  }

  lemma {:induction false} LeadingDigitBound(ds: string)
    requires |ds| > 0 && IsDigits(ds)
    ensures DigitsValue(ds) >= DigitOf(ds[0])
  {
    if |ds| > 1 {
      var init := ds[..|ds| - 1];
      assert init[0] == ds[0];
      LeadingDigitBound(init);
    }
  }

  lemma {:induction false} LeadingZeroValue(t: string)
    requires IsDigits(t)
    ensures DigitsValue(['0'] + t) == DigitsValue(t)
  {
    var z := ['0'] + t;
    if |t| > 0 {
      var init := t[..|t| - 1];
      assert z[..|z| - 1] == ['0'] + init;
      LeadingZeroValue(init);
    } else {
      assert z[..|z| - 1] == [];
    }
  }

  /** A canonical digit string is the decimal text of its own value. */
  lemma {:induction false} CanonicalDecimal(ds: string)
    requires IsCanonical(ds)
    ensures Decimal(DigitsValue(ds)) == ds
  {
    var n := DigitsValue(ds);
    if |ds| == 1 {
      assert ds[..0] == [] && DigitsValue(ds[..0]) == 0;
      assert n == DigitOf(ds[0]);
      assert DigitChar(DigitOf(ds[0])) == ds[0];
      assert [ds[0]] == ds;
    } else {
      var init := ds[..|ds| - 1];
      var last := ds[|ds| - 1];
      assert init[0] == ds[0];
      LeadingDigitBound(init);
      CanonicalDecimal(init);
      assert n / 10 == DigitsValue(init) && n % 10 == DigitOf(last);
      assert DigitChar(DigitOf(last)) == last;
      assert init + [last] == ds;
    }
  }

  lemma {:induction false} StripValue(ds: string)
    requires |ds| > 0 && IsDigits(ds)
    ensures DigitsValue(StripLeadingZeros(ds)) == DigitsValue(ds)
  {
    if |ds| > 1 && ds[0] == '0' {
      assert ds == ['0'] + ds[1..];
      LeadingZeroValue(ds[1..]);
      StripValue(ds[1..]);
    }
  }

  /** Printing a value read from a digit run drops exactly its leading zeros. */
  lemma DecimalDropsLeadingZeros(ds: string)
    requires |ds| > 0 && IsDigits(ds)
    ensures Decimal(DigitsValue(ds)) == StripLeadingZeros(ds)
  {
    StripValue(ds);
    CanonicalDecimal(StripLeadingZeros(ds));
  }
}
