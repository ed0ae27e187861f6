/**
 * `formatar_real`: an amount is shown the Brazilian way, "R$ 1.234,56", by formatting it
 * the English way, "R$ 1,234.56", and swapping the two separators through a placeholder
 * `X`; a missing amount is shown as "Não Informado". Amounts are in cents.
 */
module Display {
  import opened Wrappers
  import opened Text
  import opened Amount
  import opened Sorting

  /** The digit character for `d`. */
  function DigitChar(d: nat): (c: char)
    requires d < 10
    ensures IsDigit(c) && c as int - '0' as int == d
  {
    ('0' as int + d) as char
  }

  /** `str(n)`: the decimal digits of `n`, no leading zeros. */
  function DecimalString(n: nat): (r: string)
    ensures r != [] && AllDigits(r)
    decreases n
  {
    if n < 10 then [DigitChar(n)] else DecimalString(n / 10) + [DigitChar(n % 10)]
  }

  /** `f"{r:02d}"`. */
  function Pad2(r: nat): (s: string)
    requires r < 100
    ensures |s| == 2 && AllDigits(s)
  {
    [DigitChar(r / 10), DigitChar(r % 10)]
  }

  /** `f"{r:03d}"`. */
  function Pad3(r: nat): (s: string)
    requires r < 1000
    ensures |s| == 3 && AllDigits(s)
  {
    [DigitChar(r / 100), DigitChar(r / 10 % 10), DigitChar(r % 10)]
  }

  /** `n` with its digits in groups of three from the right, the groups separated by `sep`. */
  function Grouped(n: nat, sep: char): (r: string)
    ensures r != []
    ensures forall k :: 0 <= k < |r| ==> IsDigit(r[k]) || r[k] == sep
    decreases n
  {
    if n < 1000 then DecimalString(n) else Grouped(n / 1000, sep) + [sep] + Pad3(n % 1000)
  }

  /**
   * The grouping of `:,`: below 1000 the number is its plain digits (one to three of
   * them); from 1000 on it is one to three leading digits followed by groups of a
   * separator and three digits, the shape `\d{1,3}(?:\.\d{3})+` for the dot.
   */
  lemma {:induction false} GroupedShape(n: nat)
    ensures n < 1000 ==> Grouped(n, '.') == DecimalString(n) && 1 <= |Grouped(n, '.')| <= 3
    ensures n >= 1000 ==> IsGroupedInt(Grouped(n, '.'))
    decreases n
  {
    if n < 1000 {
      DecimalStringShort(n);
    } else {
      var g, d := Grouped(n / 1000, '.'), Pad3(n % 1000);
      GroupedShape(n / 1000);
      assert Grouped(n, '.') == g + "." + d;
      if n / 1000 < 1000 {
        HeadGroupedInt(g, d);
      } else {
        GroupedIntSnoc(g, d);
      }
    }
  }

  /** One to three digits for a number below 1000. */
  lemma DecimalStringShort(n: nat)
    requires n < 1000
    ensures 1 <= |DecimalString(n)| <= 3
  {
    if n >= 10 {
      assert |DecimalString(n)| == |DecimalString(n / 10)| + 1;
      if n >= 100 {
        assert |DecimalString(n / 10)| == |DecimalString(n / 100)| + 1;
      }
    }
  }

  /** Appending a `.ddd` group to a grouped tail gives a grouped tail. */
  lemma {:induction false} GroupedTailSnoc(t: string, d: string)
    requires GroupedTail(t) && |d| == 3 && AllDigits(d)
    ensures GroupedTail(t + "." + d)
    decreases |t|
  {
    var u := t + "." + d;
    if t == [] {
      assert u[1..4] == d && u[4..] == [];
    } else {
      GroupedTailSnoc(t[4..], d);
      assert u[4..] == t[4..] + "." + d;
      assert u[1..4] == t[1..4];
    }
  }

  /** One to three digits and a `.ddd` group form a grouped integer. */
  lemma HeadGroupedInt(g: string, d: string)
    requires 1 <= |g| <= 3 && AllDigits(g) && |d| == 3 && AllDigits(d)
    ensures IsGroupedInt(g + "." + d)
  {
    var u := g + "." + d;
    DigitRunExact(u, |g|);
    GroupedTailSnoc([], d);
    assert u[|g|..] == [] + "." + d;
  }

  /** Appending a `.ddd` group to a grouped integer gives a grouped integer. */
  lemma GroupedIntSnoc(g: string, d: string)
    requires IsGroupedInt(g) && |d| == 3 && AllDigits(d)
    ensures IsGroupedInt(g + "." + d)
  {
    var u := g + "." + d;
    var lead := DigitRun(g, 0);
    assert g[lead..][0] == '.';
    assert forall k :: 0 <= k <= lead ==> u[k] == g[k];
    DigitRunExact(u, lead);
    GroupedTailSnoc(g[lead..], d);
    assert u[lead..] == g[lead..] + "." + d;
  }

  /** `f"{val:,.2f}"` for the amount `val` of `cents`. */
  function EnglishFormat(cents: nat): string {
    Grouped(cents / 100, ',') + "." + Pad2(cents % 100)
  }

  /** `s.replace(a, b)` for one-character `a` and `b`. */
  function ReplaceChar(s: string, a: char, b: char): (r: string)
    ensures |r| == |s|
    ensures forall k :: 0 <= k < |s| ==> r[k] == if s[k] == a then b else s[k]
  {
    seq(|s|, k requires 0 <= k < |s| => if s[k] == a then b else s[k])
  }

  /** `formatar_real(val)`. */
  function FormatReal(cents: Option<nat>): string {
    match cents
    case None => "Não Informado"
    case Some(c) => ReplaceChar(ReplaceChar(ReplaceChar("R$ " + EnglishFormat(c), ',', 'X'), '.', ','), 'X', '.')
  }

  /** Every comma becomes a dot and every dot a comma. */
  function SwapSeparators(s: string): (r: string)
    ensures |r| == |s|
    ensures forall k :: 0 <= k < |s| ==>
              r[k] == if s[k] == ',' then '.' else if s[k] == '.' then ',' else s[k]
  {
    seq(|s|, k requires 0 <= k < |s| => if s[k] == ',' then '.' else if s[k] == '.' then ',' else s[k])
  }

  /** The three replacements swap the separators of a text without an `X`. */
  lemma ReplacementsSwap(s: string)
    requires forall k :: 0 <= k < |s| ==> s[k] != 'X'
    ensures ReplaceChar(ReplaceChar(ReplaceChar(s, ',', 'X'), '.', ','), 'X', '.') == SwapSeparators(s)
  {
  }

  lemma SwapConcat(a: string, b: string)
    ensures SwapSeparators(a + b) == SwapSeparators(a) + SwapSeparators(b)
  {
    var l, r := SwapSeparators(a + b), SwapSeparators(a) + SwapSeparators(b);
    forall k | 0 <= k < |l| ensures l[k] == r[k] {
      if k < |a| {
        assert (a + b)[k] == a[k];
      } else {
        assert (a + b)[k] == b[k - |a|];
      }
    }
  }

  /** Digits are left alone. */
  lemma SwapDigits(s: string)
    requires AllDigits(s)
    ensures SwapSeparators(s) == s
  {
  }

  /** Swapping the separators of the comma-grouped number gives the dot-grouped one. */
  lemma {:induction false} SwapGrouped(n: nat)
    ensures SwapSeparators(Grouped(n, ',')) == Grouped(n, '.')
    decreases n
  {
    if n < 1000 {
      SwapDigits(DecimalString(n));
    } else {
      SwapGrouped(n / 1000);
      SwapConcat(Grouped(n / 1000, ',') + [','], Pad3(n % 1000));
      SwapConcat(Grouped(n / 1000, ','), [',']);
      SwapDigits(Pad3(n % 1000));
    }
  }

  /**
   * The shown amount is "R$ ", the integer part with its thousands separated by dots,
   * a comma and the two decimals.
   */
  lemma FormatRealShape(c: nat)
    ensures FormatReal(Some(c)) == "R$ " + Grouped(c / 100, '.') + "," + Pad2(c % 100)
  {
    var english := "R$ " + EnglishFormat(c);
    var g, d := Grouped(c / 100, ','), Pad2(c % 100);
    assert forall k :: 0 <= k < |english| ==> english[k] != 'X';
    ReplacementsSwap(english);
    ConcatAssoc(g, ".", d);
    assert english == "R$ " + (g + ("." + d));
    SwapConcat("R$ ", g + ("." + d));
    SwapConcat(g, "." + d);
    SwapConcat(".", d);
    SwapGrouped(c / 100);
    SwapDigits(d);
    assert SwapSeparators("R$ ") == "R$ " && SwapSeparators(".") == ",";
    var G := Grouped(c / 100, '.');
    ConcatAssoc(G, ",", d);
    ConcatAssoc("R$ ", G + ",", d);
    ConcatAssoc("R$ ", G, ",");
  }

  // ---------------------------------------------------------------------------
  // Reading the shown amount back
  // ---------------------------------------------------------------------------

  lemma {:induction false} RemoveDotsConcat(a: string, b: string)
    ensures RemoveDots(a + b) == RemoveDots(a) + RemoveDots(b)
    decreases |b|
  {
    if b == [] {
      assert a + b == a;
    } else {
      var init := b[..|b| - 1];
      assert (a + b)[..|a + b| - 1] == a + init;
      assert (a + b)[|a + b| - 1] == b[|b| - 1];
      RemoveDotsConcat(a, init);
    }
  }

  lemma {:induction false} DigitsValueConcat(a: string, b: string)
    requires AllDigits(a) && AllDigits(b)
    ensures AllDigits(a + b)
    ensures DigitsValue(a + b) == DigitsValue(a) * Pow10(|b|) + DigitsValue(b)
    decreases |b|
  {
    if b == [] {
      assert a + b == a;
    } else {
      var init := b[..|b| - 1];
      var d := b[|b| - 1] as int - '0' as int;
      assert AllDigits(init);
      DigitsValueConcat(a, init);
      assert (a + b)[..|a + b| - 1] == a + init;
      assert (a + b)[|a + b| - 1] == b[|b| - 1];
      var x, y, p := DigitsValue(a), DigitsValue(init), Pow10(|init|);
      calc {
        DigitsValue(a + b);
        DigitsValue(a + init) * 10 + d;
        (x * p + y) * 10 + d;
        { Shift(x, p, y); }
        x * (p * 10) + (y * 10 + d);
        x * Pow10(|b|) + DigitsValue(b);
      }
    }
  }

  /** One more digit on the right multiplies the left part's weight by ten. */
  lemma Shift(x: int, p: int, y: int)
    ensures (x * p + y) * 10 == x * (p * 10) + y * 10
  {
    calc {
      (x * p + y) * 10;
      x * p * 10 + y * 10;
    }
  }

  function Pow10(n: nat): (r: nat)
    ensures r > 0
  {
    if n == 0 then 1 else 10 * Pow10(n - 1)
  }

  lemma {:induction false} DecimalStringValue(n: nat)
    ensures DigitsValue(DecimalString(n)) == n
    decreases n
  {
    if n >= 10 {
      DecimalStringValue(n / 10);
      var s := DecimalString(n);
      assert s[..|s| - 1] == DecimalString(n / 10);
    }
  }

  lemma Pad2Value(r: nat)
    requires r < 100
    ensures DigitsValue(Pad2(r)) == r
  {
    var s := Pad2(r);
    assert s[..1][..0] == [];
    assert DigitsValue(s[..1]) == r / 10;
  }

  lemma Pad3Value(r: nat)
    requires r < 1000
    ensures DigitsValue(Pad3(r)) == r
  {
    var s := Pad3(r);
    assert s[..1][..0] == [];
    assert s[..2][..1] == s[..1];
    assert DigitsValue(s[..1]) == r / 100;
    assert DigitsValue(s[..2]) == r / 100 * 10 + r / 10 % 10;
  }

  /** Without its dots the dot-grouped number is the plain decimal string of its value. */
  lemma {:induction false} GroupedValue(n: nat)
    ensures AllDigits(RemoveDots(Grouped(n, '.')))
    ensures DigitsValue(RemoveDots(Grouped(n, '.'))) == n
    decreases n
  {
    if n < 1000 {
      DigitsNoDots(DecimalString(n));
      DecimalStringValue(n);
    } else {
      var head, tail := Grouped(n / 1000, '.'), Pad3(n % 1000);
      GroupedValue(n / 1000);
      RemoveDotsConcat(head + ".", tail);
      RemoveDotsConcat(head, ".");
      assert RemoveDots(".") == [] by {
        assert "."[..0] == [];
      }
      DigitsNoDots(tail);
      assert RemoveDots(head + ".") == RemoveDots(head);
      DigitsValueConcat(RemoveDots(head), tail);
      Pad3Value(n % 1000);
      assert Pow10(3) == 1000;
    }
  }

  /** Removing the dots from digits changes nothing. */
  lemma {:induction false} DigitsNoDots(s: string)
    requires AllDigits(s)
    ensures RemoveDots(s) == s
    decreases |s|
  {
    if s != [] {
      DigitsNoDots(s[..|s| - 1]);
    }
  }

  /**
   * The shown amount reads back as the same amount: its integer and decimal parts,
   * parsed the way `extract_salaries` parses a match, give the original cents.
   */
  lemma FormatRealRoundTrip(c: nat)
    ensures ParseAmount(Grouped(c / 100, '.'), Some(Pad2(c % 100))) == Some(c)
  {
    GroupedValue(c / 100);
    Pad2Value(c % 100);
  }

  /** A missing amount and a present one are never shown alike. */
  lemma FormatRealDistinct(c: nat)
    ensures FormatReal(Some(c)) != FormatReal(None)
    ensures FormatReal(Some(c))[..3] == "R$ "
  {
    FormatRealShape(c);
    var s := FormatReal(Some(c));
    assert s[0] == 'R';
    assert FormatReal(None)[0] == 'N';
  }
}
