/** GLIBC version triples: the configured ceiling (`maxGlibcVersion`), the
    comparison `check` applies, and the text `glibcVersion` renders. */
module GlibcVersion {
  import opened Results
  import opened Strings
  import opened Numbers

  /** A (major, minor, bugfix) version, held in three Java `int`s. */
  datatype Version = Version(major: Int32, minor: Int32, bugfix: Int32)

  /** The nested comparison `check` makes: `found` needs a newer GLIBC than
      `ceiling` allows. */
  predicate Exceeds(found: Version, ceiling: Version) {
    if found.major > ceiling.major then true
    else if found.major == ceiling.major then
      if found.minor > ceiling.minor then true
      else if found.minor == ceiling.minor then found.bugfix > ceiling.bugfix
      else false
    else false
  }

  function Components(v: Version): seq<int> {
    [v.major, v.minor, v.bugfix]
  }

  /** Lexicographic "greater than" on equally long integer sequences. */
  predicate LexGreater(a: seq<int>, b: seq<int>)
    requires |a| == |b|
  {
    |a| > 0 && (a[0] > b[0] || (a[0] == b[0] && LexGreater(a[1..], b[1..])))
  }

  /** The nested comparison is exactly the lexicographic order on the triple. */
  lemma ExceedsIsLexicographic(found: Version, ceiling: Version)
    ensures Exceeds(found, ceiling) <==> LexGreater(Components(found), Components(ceiling))
  {
    var a, b := Components(found), Components(ceiling);
    var a1, b1 := a[1..], b[1..];
    var a2, b2 := a1[1..], b1[1..];
    assert a1 == [found.minor, found.bugfix] && b1 == [ceiling.minor, ceiling.bugfix];
    assert a2 == [found.bugfix] && b2 == [ceiling.bugfix];
    assert a2[1..] == [] == b2[1..];
    assert !LexGreater(a2[1..], b2[1..]);
    assert LexGreater(a2, b2) <==> found.bugfix > ceiling.bugfix;
    assert LexGreater(a1, b1) <==> found.minor > ceiling.minor || (found.minor == ceiling.minor && LexGreater(a2, b2));
  }

  /** A version never exceeds itself: a ceiling equal to the found version passes. */
  lemma ExceedsIrreflexive(v: Version)
    ensures !Exceeds(v, v)
  {
  }

  lemma ExceedsTransitive(a: Version, b: Version, c: Version)
    requires Exceeds(a, b) && Exceeds(b, c)
    ensures Exceeds(a, c)
  {
  }

  /** Any two versions are equal or one exceeds the other, and never both. */
  lemma ExceedsTrichotomy(a: Version, b: Version)
    ensures a == b || Exceeds(a, b) || Exceeds(b, a)
    ensures !(Exceeds(a, b) && Exceeds(b, a))
  {
  }

  /** `glibcVersion`: the three components joined by '.', all three always present. */
  function VersionText(v: Version): string {
    IntToString(v.major) + "." + IntToString(v.minor) + "." + IntToString(v.bugfix)
  }

  const CeilingErrorPrefix := "Unable to parse maxGlibcVersion: "

  /** Reading `maxGlibcVersion` in `execute`: split on '.', one to three
      parts, each read by Integer.parseInt; missing parts are 0. */
  function ParseCeiling(text: string): (r: Result<Version>)
    ensures r.Err? ==> r.message == CeilingErrorPrefix + text
    ensures var parts := JavaSplit(text, '.');
      r.Ok? <==> 1 <= |parts| <= 3 && forall k :: 0 <= k < |parts| ==> ParseInt(parts[k]).Some?
    ensures var parts := JavaSplit(text, '.');
      r.Ok? ==>
        && ParseInt(parts[0]) == Some(r.value.major)
        && (if |parts| >= 2 then ParseInt(parts[1]) == Some(r.value.minor) else r.value.minor == 0)
        && (if |parts| == 3 then ParseInt(parts[2]) == Some(r.value.bugfix) else r.value.bugfix == 0)
  {
    var parts := JavaSplit(text, '.');
    if |parts| < 1 || |parts| > 3 then Err(CeilingErrorPrefix + text)
    else
      var major := ParseInt(parts[0]);
      var minor := if |parts| >= 2 then ParseInt(parts[1]) else Some(0);
      var bugfix := if |parts| == 3 then ParseInt(parts[2]) else Some(0);
      if major.None? || minor.None? || bugfix.None? then Err(CeilingErrorPrefix + text)
      else Ok(Version(major.value, minor.value, bugfix.value))
  }

  /** Rendering a version and reading it back as a ceiling gives the version. */
  lemma CeilingRoundTrip(v: Version)
    ensures ParseCeiling(VersionText(v)) == Ok(v)
  {
    var a, b, c := IntToString(v.major), IntToString(v.minor), IntToString(v.bugfix);
    JoinThree(a, b, c, ".");
    JavaSplitJoin([a, b, c], '.');
    ParseIntToString(v.major);
    ParseIntToString(v.minor);
    ParseIntToString(v.bugfix);
  }

  /** A ceiling with one component leaves minor and bugfix at 0. */
  lemma CeilingMajorOnly(major: Int32)
    ensures ParseCeiling(IntToString(major)) == Ok(Version(major, 0, 0))
  {
    ParseIntToString(major);
  }

  /** A ceiling with two components leaves bugfix at 0. */
  lemma CeilingMajorMinor(major: Int32, minor: Int32)
    ensures ParseCeiling(IntToString(major) + "." + IntToString(minor)) == Ok(Version(major, minor, 0))
  {
    var a, b := IntToString(major), IntToString(minor);
    JoinTwo(a, b, ".");
    JavaSplitJoin([a, b], '.');
    ParseIntToString(major);
    ParseIntToString(minor);
  }

  /** String.split drops the empty pieces after trailing dots, so "2." and
      "2..." read like "2". */
  lemma CeilingMajorTrailingDots(major: Int32, n: nat)
    requires n >= 1
    ensures ParseCeiling(IntToString(major) + Repeat('.', n)) == Ok(Version(major, 0, 0))
  {
    var a := IntToString(major);
    JoinAppendEmpties([a], n, '.');
    JavaSplitTrailingEmpties([a], n, '.');
    ParseIntToString(major);
  }

  /** Likewise "2.10." and "2.10.." read like "2.10". */
  lemma CeilingTrailingDots(major: Int32, minor: Int32, n: nat)
    ensures ParseCeiling(IntToString(major) + "." + IntToString(minor) + Repeat('.', n))
         == Ok(Version(major, minor, 0))
  {
    var a, b := IntToString(major), IntToString(minor);
    JoinTwo(a, b, ".");
    JoinAppendEmpties([a, b], n, '.');
    JavaSplitTrailingEmpties([a, b], n, '.');
    ParseIntToString(major);
    ParseIntToString(minor);
  }

  /** A ceiling made of dots only splits into no parts and is refused. */
  lemma CeilingOnlyDots(n: nat)
    requires n >= 1
    ensures ParseCeiling(Repeat('.', n)) == Err(CeilingErrorPrefix + Repeat('.', n))
  {
    JavaSplitOnlySeparators(n, '.');
  }

  /** A part that Integer.parseInt refuses makes the whole ceiling an error. */
  lemma CeilingNonIntegerPart(text: string, k: nat)
    requires k < |JavaSplit(text, '.')| && ParseInt(JavaSplit(text, '.')[k]).None?
    ensures ParseCeiling(text) == Err(CeilingErrorPrefix + text)
  {
  }

  /** So "2.x", or a minor part with any non-digit in it, is refused. */
  lemma CeilingNonDigitMinor(major: Int32, minor: string, i: nat)
    requires Lacks(minor, '.') && i < |minor| && !IsAsciiDigit(minor[i]) && !(i == 0 && IsSign(minor[0]))
    ensures ParseCeiling(IntToString(major) + "." + minor) == Err(CeilingErrorPrefix + IntToString(major) + "." + minor)
  {
    var a := IntToString(major);
    JoinTwo(a, minor, ".");
    JavaSplitJoin([a, minor], '.');
    ParseIntRejectsNonDigit(minor, i);
    CeilingNonIntegerPart(a + "." + minor, 1);
  }

  /** Four components are refused, whatever they hold. */
  lemma CeilingTooManyParts(a: string, b: string, c: string, d: string)
    requires Lacks(a, '.') && Lacks(b, '.') && Lacks(c, '.') && Lacks(d, '.') && d != ""
    ensures ParseCeiling(a + "." + b + "." + c + "." + d) == Err(CeilingErrorPrefix + a + "." + b + "." + c + "." + d)
  {
    var text := a + "." + b + "." + c + "." + d;
    JoinFour(a, b, c, d, ".");
    JavaSplitJoin([a, b, c, d], '.');
  }
}
