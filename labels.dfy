/**
 * The label of one cell in a board snapshot, and the string form the
 * scanner stores ("unopened", "opened", "flagged", "number_<n>") and the
 * deduction reads back by prefix match and splitting at '_'.
 */
module Labels {
  import opened Wrappers

  datatype Label = Unopened | Opened | Number(n: nat) | Flagged

  const NumberPrefix: string := "number_"

  predicate IsDigit(ch: char) {
    '0' <= ch <= '9'
  }

  predicate AllDigits(s: string) {
    forall i :: 0 <= i < |s| ==> IsDigit(s[i])
  }

  function DigitChar(d: nat): (ch: char)
    requires d < 10
    ensures IsDigit(ch) && ch as int - '0' as int == d
  {
    ('0' as int + d) as char
  }

  /** Decimal form of a natural number without leading zeros, as `str(n)` writes it. */
  function DecimalString(n: nat): (s: string)
    ensures |s| >= 1 && AllDigits(s)
    ensures n > 0 ==> s[0] != '0'
    decreases n
  {
    if n < 10 then [DigitChar(n)] else DecimalString(n / 10) + [DigitChar(n % 10)]
  }

  /** Value of a string of decimal digits, as `int(s)` reads it. */
  function DigitsValue(s: string): nat
    requires AllDigits(s)
  {
    if s == [] then 0 else 10 * DigitsValue(s[..|s| - 1]) + (s[|s| - 1] as int - '0' as int)
  }

  /** `int(str(n)) == n`. */
  lemma {:induction false} DecimalRoundTrip(n: nat)
    ensures DigitsValue(DecimalString(n)) == n
    decreases n
  {
    if n >= 10 {
      var s := DecimalString(n);
      assert s[..|s| - 1] == DecimalString(n / 10);
      DecimalRoundTrip(n / 10);
    }
  }

  /** The longest prefix of `s` holding no '_': the second field of `"number_" + s` after `split("_")`. */
  function UpToUnderscore(s: string): (r: string)
    ensures r <= s && '_' !in r
    ensures |r| < |s| ==> s[|r|] == '_'
  {
    if s == [] || s[0] == '_' then [] else [s[0]] + UpToUnderscore(s[1..])
  }

  /** The string the scanner stores for a label. */
  function Format(l: Label): string {
    match l
    case Unopened => "unopened"
    case Opened => "opened"
    case Flagged => "flagged"
    case Number(n) => NumberPrefix + DecimalString(n)
  }

  /**
   * Reads a stored label back. A string starting with "number_" is a clue
   * whose number is the text between the first and the second '_'; one
   * whose number field is not a decimal numeral has no label (the program
   * raises there). Any other unknown string has no label either.
   */
  function Parse(s: string): Option<Label> {
    if s == "unopened" then Some(Unopened)
    else if s == "opened" then Some(Opened)
    else if s == "flagged" then Some(Flagged)
    else if NumberPrefix <= s then
      var field := UpToUnderscore(s[|NumberPrefix|..]);
      if field != [] && AllDigits(field) then Some(Number(DigitsValue(field))) else None
    else None
  }

  /** Only number labels pass the `startswith("number_")` test: the others are skipped as clues. */
  lemma NumberPrefixOnlyOnNumbers(l: Label)
    ensures NumberPrefix <= Format(l) <==> l.Number?
  {
    match l
    case Unopened => assert Format(l)[0] != NumberPrefix[0];
    case Opened => assert Format(l)[0] != NumberPrefix[0];
    case Flagged => assert Format(l)[0] != NumberPrefix[0];
    case Number(n) =>
  }

  /** Every label reads back as itself; in particular `"number_" + str(n)` parses to `n`. */
  lemma ParseFormat(l: Label)
    ensures Parse(Format(l)) == Some(l)
  {
    NumberPrefixOnlyOnNumbers(l);
    if l.Number? {
      var s := Format(l);
      var digits := DecimalString(l.n);
      assert s[|NumberPrefix|..] == digits;
      assert '_' !in digits by {
        forall i | 0 <= i < |digits| ensures digits[i] != '_' {
          assert IsDigit(digits[i]);
        }
      }
      assert UpToUnderscore(digits) == digits;
      DecimalRoundTrip(l.n);
      assert s != "unopened" && s != "opened" && s != "flagged" by {
        assert s[0] == 'n';
        assert |s| > 6;
      }
    }
  }

  /**
   * Two labels have the same string exactly when they are the same label,
   * so the program's string comparisons against "unopened" and "flagged"
   * are label comparisons.
   */
  lemma FormatInjective(a: Label, b: Label)
    ensures Format(a) == Format(b) <==> a == b
  {
    ParseFormat(a);
    ParseFormat(b);
  }
}
