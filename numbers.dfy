/** Decimal rendering of naturals (`n.toString()`, template literals) and the global
    `parseInt(string)` with its radix left undefined. */
module Numbers {
  import opened Wrappers
  import Text

  predicate IsDecimalDigit(c: char)
  {
    '0' <= c <= '9'
  }

  function DecimalDigit(d: nat): (c: char)
    requires d < 10
    ensures IsDecimalDigit(c)
  {
    ('0' as int + d) as char
  }

  /** `n.toString()`: the shortest decimal numeral of `n`. */
  function NatToString(n: nat): (r: string)
    ensures |r| >= 1
    ensures forall i :: 0 <= i < |r| ==> IsDecimalDigit(r[i])
    ensures r[0] == '0' ==> n == 0
  {
    if n < 10 then [DecimalDigit(n)] else NatToString(n / 10) + [DecimalDigit(n % 10)]
  }

  /** The value of `c` as a digit of `radix` (10 or 16), if it is one. */
  function DigitValue(c: char, radix: nat): (r: Option<nat>)
    ensures r.Some? ==> r.value < radix
  {
    if '0' <= c <= '9' && (c as int - '0' as int) < radix then Some(c as int - '0' as int)
    else if radix == 16 && 'a' <= c <= 'f' then Some(c as int - 'a' as int + 10)
    else if radix == 16 && 'A' <= c <= 'F' then Some(c as int - 'A' as int + 10)
    else None
  }

  /** The number of leading characters of `s` that are digits of `radix`. */
  function LeadingDigits(s: string, radix: nat): (k: nat)
    ensures k <= |s|
    ensures forall i :: 0 <= i < k ==> DigitValue(s[i], radix).Some?
    ensures k < |s| ==> DigitValue(s[k], radix).None?
  {
    if s != [] && DigitValue(s[0], radix).Some? then 1 + LeadingDigits(s[1..], radix) else 0
  }

  /** The value of a numeral written in `radix`, most significant digit first. */
  function NumeralValue(s: string, radix: nat): nat
    requires forall i :: 0 <= i < |s| ==> DigitValue(s[i], radix).Some?
  {
    if s == [] then 0
    else NumeralValue(s[..|s| - 1], radix) * radix + DigitValue(s[|s| - 1], radix).value
  }

  predicate HasHexPrefix(u: string)
  {
    |u| >= 2 && u[0] == '0' && (u[1] == 'x' || u[1] == 'X')
  }

  /** The unsigned part of `parseInt`: radix 16 after `0x`/`0X`, otherwise 10, then the
      longest run of digits; `None` when the run is empty. */
  function ParseUnsigned(u: string): (r: Option<nat>)
  {
    var radix := if HasHexPrefix(u) then 16 else 10;
    var body := if HasHexPrefix(u) then u[2..] else u;
    var k := LeadingDigits(body, radix);
    if k == 0 then None else Some(NumeralValue(body[..k], radix))
  }

  /** What follows the leading whitespace and the optional sign. */
  function UnsignedPart(s: string): string
  {
    var t := Text.TrimStart(s);
    if t != [] && (t[0] == '-' || t[0] == '+') then t[1..] else t
  }

  /** `parseInt(s)`: skip leading whitespace, read an optional sign, then the unsigned part;
      `None` stands for `NaN`. */

  function ParseInt(s: string): (r: Option<int>)
  {
    var t := Text.TrimStart(s);
    match ParseUnsigned(UnsignedPart(s))
    case None => None
    case Some(v) => Some(if t != [] && t[0] == '-' then -(v as int) else v as int)
  }

  /** `parseInt(formData.get(name) as string)`: an absent field is the string "null". */
  function ParseField(field: Option<string>): Option<int>
  {
    ParseInt(if field.Some? then field.value else "null")
  }

  /** `parseInt(x) || 0`: `NaN` (and zero) become 0. */
  function OrZero(n: Option<int>): int
  {
    if n.Some? then n.value else 0
  }

  lemma {:induction false} NumeralOfNatToString(n: nat)
    ensures forall i :: 0 <= i < |NatToString(n)| ==> DigitValue(NatToString(n)[i], 10).Some?
    ensures NumeralValue(NatToString(n), 10) == n
  {
    var s := NatToString(n);
    if n >= 10 {
      NumeralOfNatToString(n / 10);
      assert s[..|s| - 1] == NatToString(n / 10);
    }
  }

  lemma {:induction false} LeadingDigitsAll(s: string, radix: nat)
    requires forall i :: 0 <= i < |s| ==> DigitValue(s[i], radix).Some?
    ensures LeadingDigits(s, radix) == |s|
  {
    if s != [] {
      LeadingDigitsAll(s[1..], radix);
    }
  }

  /** `parseInt` of a plain decimal numeral is its value. */
  lemma ParseDecimalNumeral(s: string)
    requires s != []
    requires forall i :: 0 <= i < |s| ==> IsDecimalDigit(s[i])
    ensures forall i :: 0 <= i < |s| ==> DigitValue(s[i], 10).Some?
    ensures ParseInt(s) == Some(NumeralValue(s, 10))
  {
    assert forall i :: 0 <= i < |s| ==> DigitValue(s[i], 10).Some?;
    LeadingDigitsAll(s, 10);
    assert !Text.IsJsWhitespace(s[0]);
    var t := Text.TrimStart(s);
    assert t == s;
    assert !(t[0] == '-' || t[0] == '+');
    assert !HasHexPrefix(s) by {
      if |s| >= 2 {
        assert IsDecimalDigit(s[1]);
      }
    }
    assert s[..|s|] == s;
    assert ParseUnsigned(s) == Some(NumeralValue(s, 10));
  }

  /** Reading back what `toString` wrote: `parseInt(n.toString()) == n`. */
  lemma ParseIntOfNatToString(n: nat)
    ensures ParseInt(NatToString(n)) == Some(n)
  {
    NumeralOfNatToString(n);
    ParseDecimalNumeral(NatToString(n));
  }

  /** `parseInt` gives `NaN` exactly when, after the whitespace and the sign, there is no
      decimal digit, or there is a `0x`/`0X` prefix with no hexadecimal digit after it. */
  lemma ParseIntNaN(s: string)
    ensures var u := UnsignedPart(s);
      ParseInt(s).None? <==>
        || u == [] || !IsDecimalDigit(u[0])
        || (HasHexPrefix(u) && (|u| == 2 || DigitValue(u[2], 16).None?))
  {
    var u := UnsignedPart(s);
    if HasHexPrefix(u) {
      assert u[2..] == [] || u[2..][0] == u[2];
    } else if u != [] {
      assert DigitValue(u[0], 10).Some? <==> IsDecimalDigit(u[0]);
    }
  }

  /** An absent form field parses to `NaN`, so `parseInt(...) || 0` gives 0. */
  lemma AbsentFieldIsNaN()
    ensures ParseField(None) == None
    ensures OrZero(ParseField(None)) == 0
  {
    assert Text.TrimStart("null") == "null";
    assert LeadingDigits("null", 10) == 0;
  }

  /** Distinct naturals have distinct numerals. */
  lemma NatToStringInjective(m: nat, n: nat)
    requires NatToString(m) == NatToString(n)
    ensures m == n
  {
    ParseIntOfNatToString(m);
    ParseIntOfNatToString(n);
  }
}
