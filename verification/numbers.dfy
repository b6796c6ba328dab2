/** Java `int` values, their decimal rendering (Integer.toString) and
    Integer.parseInt in radix 10. */
module Numbers {
  import opened Results
  import opened Strings

  const MinInt32: int := -0x8000_0000
  const MaxInt32: int := 0x7FFF_FFFF

  /** The values of a Java `int`. */
  type Int32 = x: int | MinInt32 <= x <= MaxInt32

  function DigitValue(c: char): nat
    requires IsAsciiDigit(c)
  {
    c as int - '0' as int
  }

  function DigitChar(d: nat): (c: char)
    requires d < 10
    ensures IsAsciiDigit(c) && DigitValue(c) == d
  {
    ('0' as int + d) as char
  }

  /** The number a string of decimal digits denotes; leading zeros allowed. */
  function DecimalValue(ds: string): nat
    requires AllAsciiDigits(ds)
  {
    if |ds| == 0 then 0 else DecimalValue(ds[..|ds| - 1]) * 10 + DigitValue(ds[|ds| - 1])
  }

  /** The shortest decimal rendering of `n`. */
  function NatToString(n: nat): (s: string)
    ensures |s| >= 1 && AllAsciiDigits(s)
    ensures DecimalValue(s) == n
    ensures |s| > 1 ==> s[0] != '0'
  {
    if n < 10 then [DigitChar(n)]
    else
      var s := NatToString(n / 10) + [DigitChar(n % 10)];
      assert s[..|s| - 1] == NatToString(n / 10);
      s
  }

  /** Integer.toString: a '-' in front of negative values. */
  function IntToString(n: int): (s: string)
    ensures |s| >= 1
    ensures Lacks(s, '.') && Lacks(s, ' ')
  {
    if n < 0 then "-" + NatToString(-n) else NatToString(n)
  }

  predicate IsSign(c: char) {
    c == '-' || c == '+'
  }

  /** The shape Integer.parseInt accepts: an optional sign followed by a
      non-empty run of digits. */
  predicate SignedDigits(s: string) {
    |s| >= 1 && (if IsSign(s[0]) then |s| >= 2 && AllAsciiDigits(s[1..]) else AllAsciiDigits(s))
  }

  /** The number such a text denotes. */
  function SignedValue(s: string): int
    requires SignedDigits(s)
  {
    if s[0] == '-' then -(DecimalValue(s[1..]) as int)
    else if s[0] == '+' then DecimalValue(s[1..])
    else DecimalValue(s)
  }

  /** Integer.parseInt(s) for ASCII input: an optional '+' or '-', then at
      least one digit, and a value that fits a Java `int`; None stands for
      the NumberFormatException. */
  function ParseInt(s: string): (r: Option<Int32>)
    ensures r.Some? <==> SignedDigits(s) && MinInt32 <= SignedValue(s) <= MaxInt32
    ensures r.Some? ==> r.value == SignedValue(s)
    ensures s != "" && AllAsciiDigits(s) ==>
              r == (if DecimalValue(s) <= MaxInt32 then Some(DecimalValue(s)) else None)
    ensures s == "" || s == "-" || s == "+" ==> r == None
  {
    if |s| == 0 then None
    else
      var negative := s[0] == '-';
      var digits := if s[0] == '-' || s[0] == '+' then s[1..] else s;
      if |digits| == 0 || !AllAsciiDigits(digits) then None
      else
        var v: int := if negative then -(DecimalValue(digits) as int) else DecimalValue(digits);
        if MinInt32 <= v <= MaxInt32 then Some(v) else None
  }

  /** Integer.parseInt reads back what Integer.toString writes. */
  lemma ParseIntToString(n: Int32)
    ensures ParseInt(IntToString(n)) == Some(n)
  {
    var s := IntToString(n);
    if n < 0 {
      var m: nat := -(n as int);
      var d := NatToString(m);
      assert s == "-" + d && s[0] == '-';
      assert s[1..] == d;
      assert DecimalValue(d) == m;
    } else {
      assert IsAsciiDigit(s[0]);
      assert ParseInt(s) == Some(DecimalValue(s));
    }
  }

  /** A character that is neither a digit nor a leading sign makes the text
      unreadable, wherever it stands. */
  lemma ParseIntRejectsNonDigit(s: string, i: nat)
    requires i < |s| && !IsAsciiDigit(s[i]) && !(i == 0 && IsSign(s[0]))
    ensures ParseInt(s) == None
  {
  }
}
