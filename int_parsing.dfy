/**
 * `int.TryParse(string, out int)`: the parse that decides whether a search
 * term is an id. It uses `NumberStyles.Integer` under the invariant sign
 * symbols: optional leading and trailing white space (U+0009..U+000D and
 * U+0020), an optional `+` or `-`, then one or more ASCII digits whose value
 * must fit in 32 bits; trailing NUL characters after the number are ignored.
 */
module IntParsing {
  import opened Wrappers

  const Int32Min: int := -0x8000_0000
  const Int32Max: int := 0x7FFF_FFFF

  /** C#'s `int`. */
  type int32 = x: int | -0x8000_0000 <= x <= 0x7FFF_FFFF

  /** The white space `NumberStyles.AllowLeadingWhite` and `AllowTrailingWhite` skip. */
  predicate IsNumberWhite(c: char)
  {
    c == ' ' || '\t' <= c <= '\r'
  }

  predicate IsDigit(c: char)
  {
    '0' <= c <= '9'
  }

  predicate AllDigits(s: string)
  {
    forall i :: 0 <= i < |s| ==> IsDigit(s[i])
  }

  function DigitValue(c: char): nat
    requires IsDigit(c)
  {
    c as int - '0' as int
  }

  /** The value of a string of decimal digits, most significant first. */
  function DigitsValue(ds: string): nat
    requires AllDigits(ds)
  {
    if ds == [] then 0 else DigitsValue(ds[..|ds| - 1]) * 10 + DigitValue(ds[|ds| - 1])
  }

  /** How many white-space characters open `s`. */
  function LeadingWhite(s: string): (k: nat)
    ensures k <= |s|
    ensures forall i :: 0 <= i < k ==> IsNumberWhite(s[i])
    ensures k == |s| || !IsNumberWhite(s[k])
  {
    if s != [] && IsNumberWhite(s[0]) then 1 + LeadingWhite(s[1..]) else 0
  }

  /** How many characters satisfying `skip` close `s`. */
  function Trailing(s: string, skip: char -> bool): (k: nat)
    ensures k <= |s|
    ensures forall i :: |s| - k <= i < |s| ==> skip(s[i])
    ensures k == |s| || !skip(s[|s| - 1 - k])
  {
    if s != [] && skip(s[|s| - 1]) then 1 + Trailing(s[..|s| - 1], skip) else 0
  }

  /**
   * The text left once the white space before the number, and the trailing
   * NULs and the white space after it, are dropped.
   */
  function NumberText(s: string): (t: string)
  {
    var a := s[LeadingWhite(s)..];
    var b := a[..|a| - Trailing(a, c => c == '\0')];
    b[..|b| - Trailing(b, IsNumberWhite)]
  }

  /** Every character of the trimmed number text comes from the input. */
  lemma NumberTextWithin(s: string)
    ensures forall i :: 0 <= i < |NumberText(s)| ==> NumberText(s)[i] in s
  {
    var a := s[LeadingWhite(s)..];
    var b := a[..|a| - Trailing(a, c => c == '\0')];
    assert forall i :: 0 <= i < |b| ==> b[i] in a;
  }

  /**
   * `int.TryParse(s, out n)`: `Some(n)` when it returns true. Only a term
   * holding a digit can parse, so a term without one is never read as an id.
   */
  function TryParse(s: string): (r: Option<int32>)
    ensures r.Some? ==> exists i :: 0 <= i < |s| && IsDigit(s[i])
  {
    var t := NumberText(s);
    if t == [] then None
    else
      var negative := t[0] == '-';
      var digits := if t[0] == '-' || t[0] == '+' then t[1..] else t;
      if digits == [] || !AllDigits(digits) then None
      else
        var m: int := DigitsValue(digits);
        var v := if negative then -m else m;
        if Int32Min <= v <= Int32Max then
          NumberTextWithin(s);
          assert digits[0] in s && IsDigit(digits[0]);
          Some(v)
        else None
  }

  /** Decimal digits of a natural number, with no leading zeros. */
  function FormatNat(n: nat): string
  {
    if n < 10 then ['0' + n as char] else FormatNat(n / 10) + ['0' + (n % 10) as char]
  }

  /** The decimal form `n.ToString()` writes, with a leading `-` for a negative number. */
  function Format(n: int): string
  {
    if n < 0 then ['-'] + FormatNat(-n) else FormatNat(n)
  }

  lemma {:induction false} FormatNatDigits(n: nat)
    ensures FormatNat(n) != [] && AllDigits(FormatNat(n))
    ensures DigitsValue(FormatNat(n)) == n
  {
    if n >= 10 {
      FormatNatDigits(n / 10);
      var s := FormatNat(n / 10);
      var c := '0' + (n % 10) as char;
      assert (s + [c])[..|s|] == s;
    }
  }

  /** Text that neither starts nor ends with white space or a NUL is parsed as it stands. */
  lemma NumberTextUntrimmed(s: string)
    requires s != [] && !IsNumberWhite(s[0])
    requires s[|s| - 1] != '\0' && !IsNumberWhite(s[|s| - 1])
    ensures NumberText(s) == s
  {
    assert LeadingWhite(s) == 0;
    assert Trailing(s, c => c == '\0') == 0;
    assert Trailing(s, IsNumberWhite) == 0;
  }

  /**
   * Parsing what `ToString` writes gives back the number when it fits in
   * 32 bits, and fails for every number outside that range.
   */
  lemma TryParseFormat(n: int)
    ensures TryParse(Format(n)) == if Int32Min <= n <= Int32Max then Some(n) else None
  {
    var s := Format(n);
    var m: nat := if n < 0 then -n else n;
    FormatNatDigits(m);
    NumberTextUntrimmed(s);
    if n < 0 {
      assert s[1..] == FormatNat(m);
    }
  }
}
