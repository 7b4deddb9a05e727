/**
 * The `--sheet` argument: a digit string selects a sheet by zero-based index,
 * anything else is passed on unchanged.
 */
module SheetSelector {
  import opened PyStr

  /** The value argparse hands over: the text given on the command line, or the integer default. */
  datatype RawSheet = Text(text: string) | Number(n: int)

  /** The default of `--sheet`: the first sheet. */
  const DefaultSheet: RawSheet := Number(0)

  /** What the spreadsheet reader is asked for: a sheet position or a sheet name. */
  datatype Sheet = SheetIndex(index: int) | SheetName(name: string)

  /** The value of one decimal digit. */
  function DigitValue(c: char): (d: nat)
    requires IsDigitChar(c)
    ensures d < 10
  {
    c as int - '0' as int
  }

  /** The digit character of a value below ten. */
  function DigitChar(d: nat): (c: char)
    requires d < 10
    ensures IsDigitChar(c) && DigitValue(c) == d
  {
    ('0' as int + d) as char
  }

  /** `int(s)` for a string of decimal digits. */
  function DigitsValue(s: string): (v: nat)
    requires forall i :: 0 <= i < |s| ==> IsDigitChar(s[i])
  {
    if |s| == 0 then 0 else DigitsValue(s[..|s| - 1]) * 10 + DigitValue(s[|s| - 1])
  }

  /** `str(n)` for a natural number: its shortest decimal spelling. */
  function Decimal(n: nat): (s: string)
    ensures IsDigits(s)
    ensures |s| > 1 ==> s[0] != '0'
  {
    if n < 10 then [DigitChar(n)] else Decimal(n / 10) + [DigitChar(n % 10)]
  }

  /**
   * The branch of `main` that turns the raw argument into the reader's
   * `sheet_name`: a string for which `isdigit()` holds becomes `int(...)`,
   * everything else, including the integer default, is passed through.
   */
  function Interpret(raw: RawSheet): (sheet: Sheet)
    ensures raw.Number? ==> sheet == SheetIndex(raw.n)
    ensures raw.Text? ==> (sheet.SheetIndex? <==> IsDigits(raw.text))
    ensures raw.Text? && sheet.SheetIndex? ==> sheet.index >= 0
    ensures raw.Text? && sheet.SheetName? ==> sheet.name == raw.text
  {
    match raw
    case Text(s) => if IsDigits(s) then SheetIndex(DigitsValue(s)) else SheetName(s)
    case Number(n) => SheetIndex(n)
  }

  /** `f"{args.sheet}"`: the raw argument as it is echoed on the "Sheet:" line. */
  function Show(raw: RawSheet): (s: string)
    ensures raw.Text? ==> s == raw.text
    ensures raw.Number? && raw.n >= 0 ==> IsDigits(s) && DigitsValue(s) == raw.n
  {
    match raw
    case Text(t) => t
    case Number(n) =>
      if n < 0 then "-" + Decimal(-n)
      else
        DigitsValueOfDecimal(n);
        Decimal(n)
  }

  /** Reading back the decimal spelling of a number gives the number. */
  lemma {:induction false} DigitsValueOfDecimal(n: nat)
    ensures DigitsValue(Decimal(n)) == n
  {
    if n >= 10 {
      var s := Decimal(n);
      assert s[..|s| - 1] == Decimal(n / 10);
      DigitsValueOfDecimal(n / 10);
    }
  }

  /** A digit string that does not start with '0' has a positive value. */
  lemma {:induction false} LeadingDigitPositive(s: string)
    requires IsDigits(s) && s[0] != '0'
    ensures DigitsValue(s) > 0
  {
    if |s| > 1 {
      LeadingDigitPositive(s[..|s| - 1]);
    }
  }

  /** Conversely, a digit string without a leading zero is the decimal spelling of its value. */
  lemma {:induction false} DecimalOfDigitsValue(s: string)
    requires IsDigits(s) && (|s| > 1 ==> s[0] != '0')
    ensures Decimal(DigitsValue(s)) == s
  {
    if |s| > 1 {
      var t := s[..|s| - 1];
      LeadingDigitPositive(t);
      DecimalOfDigitsValue(t);
      assert s == t + [s[|s| - 1]];
    }
  }

  /** Leading zeros do not change the value: `int("0" + s) == int(s)`. */
  lemma {:induction false} LeadingZeroIgnored(s: string)
    requires forall i :: 0 <= i < |s| ==> IsDigitChar(s[i])
    ensures DigitsValue("0" + s) == DigitsValue(s)
  {
    if |s| > 0 {
      var t := "0" + s;
      assert t[..|t| - 1] == "0" + s[..|s| - 1];
      LeadingZeroIgnored(s[..|s| - 1]);
    }
  }

  /** A selector with leading zeros picks the index they pad: "007" is index 7. */
  lemma PaddedIndexExample()
    ensures Interpret(Text("007")) == SheetIndex(7)
  {
    assert "7"[..0] == "";
    assert DigitsValue("7") == 7;
    LeadingZeroIgnored("7");
    assert "0" + "7" == "07";
    LeadingZeroIgnored("07");
    assert "0" + "07" == "007";
    assert IsDigits("007");
  }

  /** Selecting a sheet by the decimal spelling of a number selects the sheet at that index. */
  lemma DecimalSelectsIndex(n: nat)
    ensures Interpret(Text(Decimal(n))) == SheetIndex(n)
  {
    DigitsValueOfDecimal(n);
  }

  /** The echoed value of a text argument that reads as an index is still the text, not the index. */
  lemma ShowKeepsText(s: string)
    requires IsDigits(s)
    ensures Show(Text(s)) == s && Interpret(Text(s)) == SheetIndex(DigitsValue(s))
  {
  }

  /** The default selects the first sheet and is echoed as "0". */
  lemma DefaultSelectsFirstSheet()
    ensures Interpret(DefaultSheet) == SheetIndex(0)
    ensures Show(DefaultSheet) == "0"
  {
  }

  /** "2" is index 2; "Summary", "" and "-1" stay names. */
  lemma SelectorExamples()
    ensures Interpret(Text("2")) == SheetIndex(2)
    ensures Interpret(Text("Summary")) == SheetName("Summary")
    ensures Interpret(Text("")) == SheetName("")
    ensures Interpret(Text("-1")) == SheetName("-1")
  {
    assert !IsDigitChar('S');
    assert !IsDigitChar('-');
    assert "2"[..0] == "";
  }
}
