/**
 * Money formatting for display. The locale's digit grouping
 * (`toLocaleString('ja-JP', ...)` with a fixed number of fraction
 * digits) is the parameter `digits`, applied to a magnitude.
 */
module FormatCurrency {
  import opened Types

  /** `getCurrencySymbol`: the symbol of a supported code, "" otherwise. */
  function CurrencySymbol(code: string): (s: string)
    ensures code == "JPY" ==> s == "¥"
    ensures code == "USD" ==> s == "$"
    ensures code == "EUR" ==> s == "€"
    ensures s == "" <==> code != "JPY" && code != "USD" && code != "EUR"
  {
    if code == "JPY" then "¥"
    else if code == "USD" then "$"
    else if code == "EUR" then "€"
    else ""
  }

  /** The symbol `formatCurrency` puts in front: yen, dollar, and the
      euro sign for every other code. */
  function FormatSymbol(code: string): (s: string)
    ensures s == "¥" <==> code == "JPY"
    ensures s == "$" <==> code == "USD"
    ensures s == "€" <==> code != "JPY" && code != "USD"
  {
    if code == "JPY" then "¥" else if code == "USD" then "$" else "€"
  }

  /** Whole yen; cents for the other currencies. */
  function FractionDigits(code: string): (d: nat)
    ensures d == 0 <==> code == "JPY"
    ensures d == 0 || d == 2
  {
    if code == "JPY" then 0 else 2
  }

  function Abs(x: real): (a: real)
    ensures a >= 0.0 && (a == x || a == -x)
  {
    if x < 0.0 then -x else x
  }

  /** `formatCurrency`: the symbol, then the magnitude with the code's
      number of fraction digits; the sign is not shown. */
  function Format(amount: real, code: string, digits: (real, nat) -> string): (s: string)
    ensures |s| >= 1 && s[..1] == FormatSymbol(code)
    ensures s[1..] == digits(Abs(amount), FractionDigits(code))
  {
    FormatSymbol(code) + digits(Abs(amount), FractionDigits(code))
  }

  /** An amount and its negation render the same. */
  lemma SignDropped(amount: real, code: string, digits: (real, nat) -> string)
    ensures Format(amount, code, digits) == Format(-amount, code, digits)
  {
    assert Abs(amount) == Abs(-amount);
  }

  /** For the supported currencies the two symbol choices agree. */
  lemma SymbolsAgree(c: Currency)
    ensures FormatSymbol(Code(c)) == CurrencySymbol(Code(c))
  {
  }

  /** For any other code they differ: the euro sign in a formatted amount,
      nothing from `getCurrencySymbol`. */
  lemma SymbolsDisagreeOnUnknown(code: string)
    requires code != "JPY" && code != "USD" && code != "EUR"
    ensures FormatSymbol(code) == "€" && CurrencySymbol(code) == ""
  {
  }
}
