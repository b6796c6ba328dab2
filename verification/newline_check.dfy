/** NewlineCheck: the platform's line separator fixes a newline convention
    once, and every file whose full text breaks that convention gets one
    diagnostic. */
module NewlineCheck {
  import opened Strings
  import opened Checkstyle

  /** The conventions, in the order the enum declares them. */
  datatype NewlineType = Unknown | CR | LF | CRLF | LFCR | RS

  /** The enum constant's name, which is what the message prints. */
  function TypeName(t: NewlineType): string {
    match t
    case Unknown => "UNKNOWN"
    case CR => "CR"
    case LF => "LF"
    case CRLF => "CRLF"
    case LFCR => "LFCR"
    case RS => "RS"
  }

  /** The line separator each known convention stands for. */
  function Separator(t: NewlineType): string
    requires !t.Unknown?
  {
    match t
    case CR => "\r"
    case LF => "\n"
    case CRLF => "\r\n"
    case LFCR => "\n\r"
    case RS => "\U{001E}"
  }

  /** The static initialiser: `System.lineSeparator()` compared with the five
      known separators in turn. */
  function NewlineTypeOf(separator: string): NewlineType {
    if separator == "\n" then LF
    else if separator == "\r" then CR
    else if separator == "\r\n" then CRLF
    else if separator == "\n\r" then LFCR
    else if separator == "\U{001E}" then RS
    else Unknown
  }

  /** Each known convention is recognised from its own separator ... */
  lemma SeparatorRecognised(t: NewlineType)
    requires !t.Unknown?
    ensures NewlineTypeOf(Separator(t)) == t
  {
  }

  /** ... and only from it: every other separator leaves the type UNKNOWN. */
  lemma OnlyOwnSeparatorRecognised(separator: string)
    ensures NewlineTypeOf(separator).Unknown?
        <==> forall t: NewlineType :: !t.Unknown? ==> separator != Separator(t)
    ensures !NewlineTypeOf(separator).Unknown? ==> separator == Separator(NewlineTypeOf(separator))
  {
    if NewlineTypeOf(separator).Unknown? {
      forall t: NewlineType | !t.Unknown?
        ensures separator != Separator(t)
      {
        SeparatorRecognised(t);
      }
    } else {
      var t := NewlineTypeOf(separator);
      assert separator == Separator(t);
    }
  }

  /** The two-character patterns NON_CRLF and NON_LFCR. */
  datatype PairPattern = NonCrlf | NonLfcr

  /** Whether the pair (a, b) matches the pattern. A negated class such as
      `[^\r]` matches any other character, line terminators included. */
  predicate BadPair(p: PairPattern, a: char, b: char) {
    match p
    case NonCrlf => (a != '\r' && b == '\n') || (a == '\r' && b != '\n')
    case NonLfcr => (a != '\n' && b == '\r') || (a == '\n' && b != '\r')
  }

  predicate BadPairAt(p: PairPattern, s: string, j: int) {
    0 <= j && j + 1 < |s| && BadPair(p, s[j], s[j + 1])
  }

  /** The pattern occurs somewhere in the text. */
  ghost predicate HasBadPair(p: PairPattern, s: string) {
    exists j :: BadPairAt(p, s, j)
  }

  /** Matcher.find() from index `i` on: a scan over adjacent pairs. */
  function FindPairFrom(p: PairPattern, s: string, i: nat): (found: bool)
    ensures found <==> exists j :: i <= j && BadPairAt(p, s, j)
    decreases |s| - i
  {
    if i + 1 >= |s| then false
    else if BadPair(p, s[i], s[i + 1]) then assert BadPairAt(p, s, i); true
    else FindPairFrom(p, s, i + 1)
  }

  function FindPair(p: PairPattern, s: string): (found: bool)
    ensures found <==> HasBadPair(p, s)
  {
    FindPairFrom(p, s, 0)
  }

  /** The switch in `processFiltered`: whether the text breaks the convention. */
  predicate Violates(t: NewlineType, text: string) {
    match t
    case LF => IndexOf(text, '\r') >= 0
    case CR => IndexOf(text, '\n') >= 0
    case CRLF => FindPair(NonCrlf, text)
    case LFCR => FindPair(NonLfcr, text)
    case RS => IndexOf(text, '\U{001E}') >= 0
    case Unknown => false
  }

  function ViolationMessage(t: NewlineType): string {
    "invalid newline character (expected: " + TypeName(t) + ")"
  }

  /** `processFiltered` for a platform whose separator is `separator`, on a
      file whose full text is `text`. */
  function ProcessFiltered(separator: string, text: string): (r: seq<Diagnostic>)
    ensures |r| <= 1
    ensures forall d :: d in r ==> d.line == 0 && d.message == ViolationMessage(NewlineTypeOf(separator))
    ensures NewlineTypeOf(separator).Unknown? ==> r == []
    ensures NewlineTypeOf(separator) == LF ==> (r != [] <==> !Lacks(text, '\r'))
    ensures NewlineTypeOf(separator) == CR ==> (r != [] <==> !Lacks(text, '\n'))
    ensures NewlineTypeOf(separator) == CRLF ==> (r != [] <==> HasBadPair(NonCrlf, text))
    ensures NewlineTypeOf(separator) == LFCR ==> (r != [] <==> HasBadPair(NonLfcr, text))
    ensures NewlineTypeOf(separator) == RS ==> (r != [] <==> !Lacks(text, '\U{001E}'))
  {
    var t := NewlineTypeOf(separator);
    if Violates(t, text) then [Diagnostic(0, ViolationMessage(t))] else []
  }

  /** Pairs in a concatenation: those of each part and the one across the seam. */
  lemma PairsAppend(p: PairPattern, x: string, y: string)
    ensures HasBadPair(p, x + y)
        <==> HasBadPair(p, x) || HasBadPair(p, y) || (|x| > 0 && |y| > 0 && BadPair(p, x[|x| - 1], y[0]))
  {
    var z := x + y;
    if HasBadPair(p, z) {
      var j :| BadPairAt(p, z, j);
      if j + 1 < |x| {
        assert z[j] == x[j] && z[j + 1] == x[j + 1];
        assert BadPairAt(p, x, j);
      } else if j >= |x| {
        assert z[j] == y[j - |x|] && z[j + 1] == y[j + 1 - |x|];
        assert BadPairAt(p, y, j - |x|);
      }
    }
    if HasBadPair(p, x) {
      var j :| BadPairAt(p, x, j);
      assert z[j] == x[j] && z[j + 1] == x[j + 1];
      assert BadPairAt(p, z, j);
    }
    if HasBadPair(p, y) {
      var j :| BadPairAt(p, y, j);
      assert z[j + |x|] == y[j] && z[j + 1 + |x|] == y[j + 1];
      assert BadPairAt(p, z, j + |x|);
    }
    if |x| > 0 && |y| > 0 && BadPair(p, x[|x| - 1], y[0]) {
      assert z[|x| - 1] == x[|x| - 1] && z[|x|] == y[0];
      assert BadPairAt(p, z, |x| - 1);
    }
  }

  /** A line holds neither '\r' nor '\n'. */
  predicate PlainLine(s: string) {
    Lacks(s, '\r') && Lacks(s, '\n')
  }

  /** Every pair the patterns match involves a '\r' or a '\n'. */
  lemma PlainHasNoBadPair(p: PairPattern, s: string)
    requires PlainLine(s)
    ensures !HasBadPair(p, s)
  {
  }

  /** A pattern of two characters never occurs in a shorter text. */
  lemma ShortHasNoBadPair(p: PairPattern, s: string)
    requires |s| <= 1
    ensures !HasBadPair(p, s)
  {
  }

  /** The separator whose pairs the pattern accepts. */
  function PairSeparator(p: PairPattern): string {
    match p
    case NonCrlf => "\r\n"
    case NonLfcr => "\n\r"
  }

  /** The separator itself is not a match of its pattern. */
  lemma SeparatorHasNoBadPair(p: PairPattern)
    ensures !HasBadPair(p, PairSeparator(p))
  {
    var sep := PairSeparator(p);
    assert forall j :: BadPairAt(p, sep, j) ==> j == 0;
  }

  /** Lines joined with the convention's own two-character separator never
      match its pattern, and the joined text starts with a plain character or
      with the separator. */
  lemma {:induction false} JoinedHasNoBadPair(p: PairPattern, lines: seq<string>)
    requires forall k :: 0 <= k < |lines| ==> PlainLine(lines[k])
    ensures var text := JoinWith(lines, PairSeparator(p));
      && !HasBadPair(p, text)
      && (|text| > 0 ==> text[0] == PairSeparator(p)[0] || (text[0] != '\r' && text[0] != '\n'))
    decreases |lines|
  {
    var sep := PairSeparator(p);
    if |lines| == 1 {
      PlainHasNoBadPair(p, lines[0]);
    } else if |lines| > 1 {
      var rest := JoinWith(lines[1..], sep);
      JoinedHasNoBadPair(p, lines[1..]);
      PlainHasNoBadPair(p, lines[0]);
      SeparatorHasNoBadPair(p);
      PairsAppend(p, lines[0], sep);
      PairsAppend(p, lines[0] + sep, rest);
      assert (lines[0] + sep)[|lines[0] + sep| - 1] == sep[1];
      assert |lines[0]| > 0 ==> (lines[0] + sep)[0] == lines[0][0];
    }
  }

  /** A text whose lines are joined with the platform's own separator is
      never reported, for every convention but RS. */
  lemma OwnSeparatorAccepted(separator: string, lines: seq<string>)
    requires NewlineTypeOf(separator) in {LF, CR, CRLF, LFCR}
    requires forall k :: 0 <= k < |lines| ==> PlainLine(lines[k])
    ensures ProcessFiltered(separator, JoinWith(lines, separator)) == []
  {
    var t := NewlineTypeOf(separator);
    OnlyOwnSeparatorRecognised(separator);
    var text := JoinWith(lines, separator);
    match t
    case LF =>
      LacksJoin(lines, separator, '\r');
    case CR =>
      LacksJoin(lines, separator, '\n');
    case CRLF =>
      JoinedHasNoBadPair(NonCrlf, lines);
    case LFCR =>
      JoinedHasNoBadPair(NonLfcr, lines);
  }

  /** Under LF a carriage return anywhere is reported; under CR a line feed. */
  lemma ForeignTerminatorReported(a: string, b: string)
    ensures ProcessFiltered("\n", a + "\r" + b) == [Diagnostic(0, ViolationMessage(LF))]
    ensures ProcessFiltered("\r", a + "\n" + b) == [Diagnostic(0, ViolationMessage(CR))]
  {
    SeparatorRecognised(LF);
    SeparatorRecognised(CR);
    assert (a + "\r" + b)[|a|] == '\r';
    assert (a + "\n" + b)[|a|] == '\n';
  }

  /** Under CRLF a line feed after anything but '\r' is reported, and so is
      a '\r' followed by anything but '\n'. */
  lemma CrlfBareTerminatorReported(a: string, b: string)
    requires |a| > 0 && a[|a| - 1] != '\r'
    requires |b| > 0 && b[0] != '\n'
    ensures Violates(CRLF, a + "\n" + b)
    ensures Violates(CRLF, a + "\r" + b)
  {
    var x, y := a + "\n" + b, a + "\r" + b;
    assert x[|a| - 1] == a[|a| - 1] && x[|a|] == '\n';
    assert BadPairAt(NonCrlf, x, |a| - 1);
    assert y[|a|] == '\r' && y[|a| + 1] == b[0];
    assert BadPairAt(NonCrlf, y, |a|);
  }

  /** The pattern needs two characters, so under CRLF a line feed at the very
      start and a carriage return at the very end go unreported. */
  lemma CrlfEdgesUnreported(s: string)
    requires PlainLine(s)
    ensures !Violates(CRLF, "\n" + s)
    ensures !Violates(CRLF, s + "\r")
  {
    PlainHasNoBadPair(NonCrlf, s);
    PairsAppend(NonCrlf, "\n", s);
    PairsAppend(NonCrlf, s, "\r");
    ShortHasNoBadPair(NonCrlf, "\n");
    ShortHasNoBadPair(NonCrlf, "\r");
  }

  /** Under LFCR a '\r' after anything but '\n' is reported, and so is a
      '\n' followed by anything but '\r'. */
  lemma LfcrBareTerminatorReported(a: string, b: string)
    requires |a| > 0 && a[|a| - 1] != '\n'
    requires |b| > 0 && b[0] != '\r'
    ensures Violates(LFCR, a + "\r" + b)
    ensures Violates(LFCR, a + "\n" + b)
  {
    var x, y := a + "\r" + b, a + "\n" + b;
    assert x[|a| - 1] == a[|a| - 1] && x[|a|] == '\r';
    assert BadPairAt(NonLfcr, x, |a| - 1);
    assert y[|a|] == '\n' && y[|a| + 1] == b[0];
    assert BadPairAt(NonLfcr, y, |a|);
  }

  /** Under RS the check reports the record separator itself: two lines
      joined with the platform's own separator are reported. */
  lemma RsReportsOwnSeparator(a: string, b: string)
    ensures ProcessFiltered("\U{001E}", a + "\U{001E}" + b) == [Diagnostic(0, ViolationMessage(RS))]
  {
    SeparatorRecognised(RS);
    assert (a + "\U{001E}" + b)[|a|] == '\U{001E}';
  }
}
