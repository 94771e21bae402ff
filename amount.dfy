/**
 * The amount of one Banco de Galicia row. The export has two columns,
 * `Débito` and `Crédito`; the import collapses them into one signed amount
 * string. In the ledger a positive amount is an outflow and a negative one an
 * inflow. The number sanitizer of the generic import is a parameter here.
 */
module Amount {
  import opened Wrappers
  import Text

  const DebitLabel := "Débito"
  const CreditLabel := "Crédito"

  /** The literal the export writes for an empty money column. */
  const ZeroLiteral := "0,00"

  /** `v.present? && v.to_s != "0,00"`: a literal test, so "0" and "0,0" count as present. */
  predicate Present(v: Option<string>)
  {
    v.Some? && !Text.IsBlank(v.value) && v.value != ZeroLiteral
  }

  /** `value.start_with?('-') ? value[1..-1] : "-#{value}"`. */
  function ToggleSign(v: string): string
  {
    if |v| > 0 && v[0] == '-' then v[1..] else "-" + v
  }

  /** The amount expression of `generate_rows_from_csv`. */
  function CombineDebitCredit(debit: Option<string>, credit: Option<string>, sanitize: string -> string): string
  {
    if Present(credit) then "-" + sanitize(credit.value)
    else if Present(debit) then ToggleSign(sanitize(debit.value))
    else "0"
  }

  // ---------------------------------------------------------------------
  // Decimal numerals: an optional '-', digits, and an optional '.' part
  // ---------------------------------------------------------------------

  predicate IsDigit(c: char)
  {
    '0' <= c <= '9'
  }

  predicate AllDigits(s: string)
  {
    forall i :: 0 <= i < |s| ==> IsDigit(s[i])
  }

  function DigitsValue(s: string): nat
    requires AllDigits(s)
  {
    if s == [] then 0 else 10 * DigitsValue(s[..|s| - 1]) + (s[|s| - 1] as int - '0' as int)
  }

  function Pow10(n: nat): (p: nat)
    ensures 0 < p
  {
    if n == 0 then 1 else 10 * Pow10(n - 1)
  }

  /** Index of the first '.', or `|s|` when there is none. */
  function DotIndex(s: string): (k: nat)
    ensures k <= |s|
    ensures k < |s| ==> s[k] == '.'
    ensures forall i :: 0 <= i < k ==> s[i] != '.'
  {
    if s == [] || s[0] == '.' then 0 else 1 + DotIndex(s[1..])
  }

  /** Digits, optionally followed by '.' and more digits: "13900.00", "0". */
  predicate IsUnsignedDecimal(s: string)
  {
    var k := DotIndex(s);
    0 < k && AllDigits(s[..k]) && (k == |s| || (k + 1 < |s| && AllDigits(s[k + 1..])))
  }

  predicate IsDecimal(s: string)
  {
    IsUnsignedDecimal(s) || (s != [] && s[0] == '-' && IsUnsignedDecimal(s[1..]))
  }

  function UnsignedValue(s: string): real
    requires IsUnsignedDecimal(s)
  {
    var k := DotIndex(s);
    DigitsValue(s[..k]) as real
      + (if k == |s| then 0.0 else DigitsValue(s[k + 1..]) as real / Pow10(|s| - k - 1) as real)
  }

  /** The number a decimal numeral denotes. */
  function Value(s: string): real
    requires IsDecimal(s)
  {
    if IsUnsignedDecimal(s) then UnsignedValue(s) else -UnsignedValue(s[1..])
  }

  lemma UnsignedStartsWithDigit(s: string)
    requires IsUnsignedDecimal(s)
    ensures s != [] && IsDigit(s[0])
  {
    assert s[..DotIndex(s)][0] == s[0];
  }

  lemma MinusIsNotUnsigned(v: string)
    ensures !IsUnsignedDecimal("-" + v)
  {
    if IsUnsignedDecimal("-" + v) {
      UnsignedStartsWithDigit("-" + v);
    }
  }

  /** Toggling the sign of a numeral negates the number it denotes. */
  lemma ToggleSignNegates(v: string)
    requires IsDecimal(v)
    ensures IsDecimal(ToggleSign(v)) && Value(ToggleSign(v)) == -Value(v)
  {
    MinusIsNotUnsigned(v);
    if IsUnsignedDecimal(v) {
      UnsignedStartsWithDigit(v);
      assert ("-" + v)[1..] == v;
    } else {
      MinusIsNotUnsigned(v[1..]);
      assert v == "-" + v[1..];
      UnsignedStartsWithDigit(v[1..]);
    }
  }

  /** Toggling twice gives the value back, except on a string that starts with "--". */
  lemma ToggleSignInvolution(v: string)
    ensures ToggleSign(ToggleSign(v)) == v <==> !(|v| >= 2 && v[0] == '-' && v[1] == '-')
  {
    if |v| > 0 && v[0] == '-' {
      if |v| >= 2 && v[1] == '-' {
        assert |ToggleSign(ToggleSign(v))| == |v| - 2;
      } else {
        assert ("-" + v[1..]) == v;
      }
    } else {
      assert ("-" + v)[1..] == v;
    }
  }

  /** A minus sign in front of an unsigned numeral denotes its negation, which is not positive. */
  lemma NegatedUnsigned(c: string)
    requires IsUnsignedDecimal(c)
    ensures IsDecimal("-" + c) && Value("-" + c) == -Value(c) && Value("-" + c) <= 0.0
  {
    assert IsDecimal(c);
    ToggleSignNegates(c);
    UnsignedStartsWithDigit(c);
    assert ToggleSign(c) == "-" + c;
    UnsignedNonNegative(c);
  }

  lemma UnsignedNonNegative(c: string)
    requires IsUnsignedDecimal(c)
    ensures Value(c) >= 0.0
  {
    var k := DotIndex(c);
    if k < |c| {
      var num := DigitsValue(c[k + 1..]) as real;
      var den := Pow10(|c| - k - 1) as real;
      assert num >= 0.0 && den > 0.0;
      assert num / den >= 0.0;
    }
  }

  /** A minus sign in front of a negative string gives "--", which is no numeral. */
  lemma DoubleMinus(c: string)
    requires |c| > 0 && c[0] == '-'
    ensures ("-" + c)[..2] == "--" && !IsDecimal("-" + c)
  {
    MinusIsNotUnsigned(c);
    MinusIsNotUnsigned(c[1..]);
    assert ("-" + c)[1..] == c == "-" + c[1..];
  }

  /**
   * A present credit decides the amount whatever the debit holds: it is the
   * sanitized credit with '-' prepended, an inflow when the sanitized credit is
   * an unsigned numeral, and a string starting with "--" when it is already
   * negative (no numeral at all).
   */
  lemma CreditTakesPrecedence(debit: Option<string>, credit: Option<string>, sanitize: string -> string)
    requires Present(credit)
    ensures var r := CombineDebitCredit(debit, credit, sanitize);
      var c := sanitize(credit.value);
      && r == "-" + c
      && (IsUnsignedDecimal(c) ==> IsDecimal(r) && Value(r) == -Value(c) && Value(r) <= 0.0)
      && (|c| > 0 && c[0] == '-' ==> r[..2] == "--" && !IsDecimal(r))
  {
    var c := sanitize(credit.value);
    assert CombineDebitCredit(debit, credit, sanitize) == "-" + c;
    if IsUnsignedDecimal(c) {
      NegatedUnsigned(c);
    }
    if |c| > 0 && c[0] == '-' {
      DoubleMinus(c);
    }
  }

  /**
   * Without a present credit, a present debit gives its sanitized value with
   * the sign toggled: the negation of the number it denotes, so a negative
   * debit becomes a positive outflow and a positive one a negative amount.
   */
  lemma DebitSignToggled(debit: Option<string>, credit: Option<string>, sanitize: string -> string)
    requires !Present(credit) && Present(debit)
    ensures var r := CombineDebitCredit(debit, credit, sanitize);
      var d := sanitize(debit.value);
      && r == ToggleSign(d)
      && (IsDecimal(d) ==> IsDecimal(r) && Value(r) == -Value(d))
  {
    var d := sanitize(debit.value);
    if IsDecimal(d) { ToggleSignNegates(d); }
  }

  /** When neither column is present the amount is exactly "0". */
  lemma ZeroWhenNeitherPresent(debit: Option<string>, credit: Option<string>, sanitize: string -> string)
    requires !Present(credit) && !Present(debit)
    ensures var r := CombineDebitCredit(debit, credit, sanitize);
      r == "0" && IsDecimal(r) && Value(r) == 0.0
  {
    assert DotIndex("0") == 1;
    assert "0"[..1] == "0";
  }

  /** Presence is literal: only nil, blank and exactly "0,00" are absent. */
  lemma PresenceExamples()
    ensures Present(Some("0")) && Present(Some("0,0")) && Present(Some("13.900,00"))
    ensures !Present(None) && !Present(Some("")) && !Present(Some(" \t")) && !Present(Some("0,00"))
  {
    assert !Text.IsBlank("0") by { assert !Text.IsUnicodeSpace("0"[0]); }
    assert !Text.IsBlank("0,0") by { assert !Text.IsUnicodeSpace("0,0"[0]); }
    assert !Text.IsBlank("13.900,00") by { assert !Text.IsUnicodeSpace("13.900,00"[0]); }
  }

  // ---------------------------------------------------------------------
  // A reference sanitizer for the "1.234,56" number format
  // ---------------------------------------------------------------------

  /**
   * Drops every '.' (thousands separator) and turns every ',' (decimal
   * separator) into '.'; every other character is kept.
   */
  function SanitizeDotComma(s: string): (r: string)
    ensures |r| <= |s|
  {
    if s == [] then []
    else if s[0] == '.' then SanitizeDotComma(s[1..])
    else if s[0] == ',' then "." + SanitizeDotComma(s[1..])
    else [s[0]] + SanitizeDotComma(s[1..])
  }

  /** The sanitizing pairs that the import's tests pin down. */
  predicate MatchesTestPairs(sanitize: string -> string)
  {
    && sanitize("-13.900,00") == "-13900.00"
    && sanitize("287.756,65") == "287756.65"
    && sanitize("-1.465.950,00") == "-1465950.00"
    && sanitize("-9.000,00") == "-9000.00"
  }

  /** Sanitizing distributes over concatenation. */
  lemma {:induction false} SanitizeAppend(a: string, b: string)
    ensures SanitizeDotComma(a + b) == SanitizeDotComma(a) + SanitizeDotComma(b)
  {
    if a == [] {
      assert a + b == b;
    } else {
      assert (a + b)[0] == a[0];
      assert (a + b)[1..] == a[1..] + b;
      SanitizeAppend(a[1..], b);
      var tail := SanitizeDotComma(a[1..]);
      if a[0] == '.' {
        assert SanitizeDotComma(a + b) == SanitizeDotComma(a[1..] + b);
      } else if a[0] == ',' {
        calc {
          SanitizeDotComma(a + b);
          "." + SanitizeDotComma(a[1..] + b);
          "." + (tail + SanitizeDotComma(b));
          ("." + tail) + SanitizeDotComma(b);
        }
      } else {
        calc {
          SanitizeDotComma(a + b);
          [a[0]] + SanitizeDotComma(a[1..] + b);
          [a[0]] + (tail + SanitizeDotComma(b));
          ([a[0]] + tail) + SanitizeDotComma(b);
        }
      }
    }
  }

  /** A string of digits and '-' is left as it is. */
  lemma {:induction false} SanitizeKeepsDigits(s: string)
    requires forall i :: 0 <= i < |s| ==> IsDigit(s[i]) || s[i] == '-'
    ensures SanitizeDotComma(s) == s
  {
    if s != [] {
      SanitizeKeepsDigits(s[1..]);
      assert s == [s[0]] + s[1..];
    }
  }

  /** Sanitizing `a.b,c` for digit groups `a`, `b`, `c` gives `abc` with a '.' before `c`. */
  lemma SanitizeGroups(a: string, b: string, c: string)
    requires forall i :: 0 <= i < |a| ==> IsDigit(a[i]) || a[i] == '-'
    requires forall i :: 0 <= i < |b| ==> IsDigit(b[i])
    requires forall i :: 0 <= i < |c| ==> IsDigit(c[i])
    ensures SanitizeDotComma(a + "." + b + "," + c) == a + b + "." + c
  {
    SanitizeKeepsDigits(a);
    SanitizeKeepsDigits(b);
    SanitizeKeepsDigits(c);
    var dot := SanitizeDotComma(".");
    var comma := SanitizeDotComma(",");
    assert dot == [];
    assert comma == ".";
    SanitizeAppend(a + "." + b + ",", c);
    SanitizeAppend(a + "." + b, ",");
    SanitizeAppend(a + ".", b);
    SanitizeAppend(a, ".");
    calc {
      SanitizeDotComma(a + "." + b + "," + c);
      SanitizeDotComma(a + "." + b + ",") + c;
      SanitizeDotComma(a + "." + b) + "." + c;
      SanitizeDotComma(a + ".") + b + "." + c;
      a + dot + b + "." + c;
      { assert a + dot == a; }
      a + b + "." + c;
    }
  }

  /** A leading digit group and its '.' separator sanitize to the group alone. */
  lemma SanitizeLeadingGroup(a: string, rest: string)
    requires forall i :: 0 <= i < |a| ==> IsDigit(a[i]) || a[i] == '-'
    ensures SanitizeDotComma(a + "." + rest) == a + SanitizeDotComma(rest)
  {
    SanitizeKeepsDigits(a);
    assert SanitizeDotComma(".") == [];
    SanitizeAppend(a, ".");
    SanitizeAppend(a + ".", rest);
    assert a + [] == a;
  }

  lemma SanitizeDebitSample()
    ensures SanitizeDotComma("-13.900,00") == "-13900.00"
  {
    SanitizeGroups("-13", "900", "00");
    assert "-13" + "." + "900" + "," + "00" == "-13.900,00";
  }

  lemma SanitizeCreditSample()
    ensures SanitizeDotComma("287.756,65") == "287756.65"
  {
    SanitizeGroups("287", "756", "65");
    assert "287" + "." + "756" + "," + "65" == "287.756,65";
  }

  lemma SanitizeLargeSampleTail()
    ensures SanitizeDotComma("465.950,00") == "465950.00"
  {
    SanitizeGroups("465", "950", "00");
    assert "465" + "." + "950" + "," + "00" == "465.950,00";
  }

  lemma SanitizeLargeSampleHead()
    ensures SanitizeDotComma("-1.465.950,00") == "-1" + SanitizeDotComma("465.950,00")
  {
    SanitizeLeadingGroup("-1", "465.950,00");
    assert "-1" + "." + "465.950,00" == "-1.465.950,00";
  }

  lemma SanitizeLargeSample()
    ensures SanitizeDotComma("-1.465.950,00") == "-1465950.00"
  {
    SanitizeLargeSampleHead();
    SanitizeLargeSampleTail();
    assert "-1" + "465950.00" == "-1465950.00";
  }

  lemma SanitizeSmallSample()
    ensures SanitizeDotComma("-9.000,00") == "-9000.00"
  {
    SanitizeGroups("-9", "000", "00");
    assert "-9" + "." + "000" + "," + "00" == "-9.000,00";
  }

  /** The reference sanitizer meets every pair the tests pin down. */
  lemma SanitizeDotCommaMatchesTests()
    ensures MatchesTestPairs(SanitizeDotComma)
  {
    SanitizeDebitSample();
    SanitizeCreditSample();
    SanitizeLargeSample();
    SanitizeSmallSample();
  }

  lemma DebitOnly(debit: string, sanitize: string -> string)
    requires debit != [] && !Text.IsUnicodeSpace(debit[0]) && debit != ZeroLiteral
    ensures CombineDebitCredit(Some(debit), Some(ZeroLiteral), sanitize) == ToggleSign(sanitize(debit))
  {
    assert !Present(Some(ZeroLiteral));
  }

  /** The amounts the tests expect, for every sanitizer that meets the tested pairs. */
  lemma TestAmounts(sanitize: string -> string)
    requires MatchesTestPairs(sanitize)
    ensures CombineDebitCredit(Some("-13.900,00"), Some("0,00"), sanitize) == "13900.00"
    ensures CombineDebitCredit(Some("0,00"), Some("287.756,65"), sanitize) == "-287756.65"
    ensures CombineDebitCredit(Some("-1.465.950,00"), Some("0,00"), sanitize) == "1465950.00"
    ensures CombineDebitCredit(Some("-9.000,00"), Some("0,00"), sanitize) == "9000.00"
  {
    assert Present(Some("287.756,65")) by { assert !Text.IsUnicodeSpace("287.756,65"[0]); }
    DebitOnly("-13.900,00", sanitize);
    DebitOnly("-1.465.950,00", sanitize);
    DebitOnly("-9.000,00", sanitize);
    assert ToggleSign("-13900.00") == "13900.00";
    assert ToggleSign("-1465950.00") == "1465950.00";
    assert ToggleSign("-9000.00") == "9000.00";
  }

  /** The reference sanitizer on the template's debit. */
  lemma SanitizeTemplateSample()
    ensures SanitizeDotComma("13.900,00") == "13900.00"
  {
    SanitizeGroups("13", "900", "00");
    assert "13" + "." + "900" + "," + "00" == "13.900,00";
  }

  /**
   * The positive debit of the import's CSV template becomes a negative
   * amount, for any sanitizer that reads `13.900,00` as `13900.00` (the
   * reference sanitizer does, by `SanitizeTemplateSample`).
   */
  lemma TemplateDebitTurnsNegative(sanitize: string -> string)
    requires sanitize("13.900,00") == "13900.00"
    ensures CombineDebitCredit(Some("13.900,00"), Some("0,00"), sanitize) == "-13900.00"
  {
    assert !Present(Some(ZeroLiteral));
    assert Present(Some("13.900,00")) by { assert !Text.IsUnicodeSpace("13.900,00"[0]); }
    assert ToggleSign("13900.00") == "-13900.00";
  }
}
