/** GLIBC_PATTERN, `.+ GLIBC_([0-9]).([0-9]+)(.([0-9]+))? (.+)`, matched
    against a whole line with Matcher.matches(), written out by hand.

    Every `.` of the pattern (including the two unescaped ones between the
    version numbers) matches any character except a line terminator, so a
    line holding a terminator never matches and on any other line `.` is
    "any character". */
module GlibcPattern {
  import opened Results
  import opened Strings
  import opened Numbers
  import opened GlibcVersion

  /** The literal in front of the version numbers. */
  const Marker := " GLIBC_"

  /** One way of matching the pattern against a whole line:
        line[..at]                     `.+`             so at >= 1
        line[at..at + 7]               `" GLIBC_"`
        line[at + 7]                   `([0-9])`        group 1
        line[at + 8]                   `.`
        line[at + 9..MinorEnd(m)]      `([0-9]+)`       group 2, minorLen >= 1
        then, when bugfixLen > 0,      `(.([0-9]+))`    groups 3 and 4:
          one character and bugfixLen digits
        line[SpaceAt(m)]               `" "`
        line[SpaceAt(m) + 1..]         `(.+)`           group 5, non-empty
      A bugfixLen of 0 stands for the optional group being absent, since
      group 4 is never empty when present. */
  datatype Match = Match(at: nat, minorLen: nat, bugfixLen: nat)

  function MinorEnd(m: Match): nat {
    m.at + 9 + m.minorLen
  }

  /** Where the single space before group 5 sits, once group 2 ends at `e`. */
  function SpaceIndex(e: nat, bugfixLen: nat): nat {
    if bugfixLen == 0 then e else e + 1 + bugfixLen
  }

  function SpaceAt(m: Match): nat {
    SpaceIndex(MinorEnd(m), m.bugfixLen)
  }

  predicate DigitsBetween(line: string, lo: nat, hi: nat) {
    lo <= hi <= |line| && forall j :: lo <= j < hi ==> IsAsciiDigit(line[j])
  }

  /** What may follow group 2 when it ends at `e`: the optional group with
      `bugfixLen` digits (absent when 0), a space, and at least one character. */
  predicate TailFits(line: string, e: nat, bugfixLen: nat) {
    && SpaceIndex(e, bugfixLen) + 2 <= |line|
    && DigitsBetween(line, e + 1, e + 1 + bugfixLen)
    && line[SpaceIndex(e, bugfixLen)] == ' '
  }

  /** Everything from group 1 on fits, given the marker sits at `m.at`. */
  predicate AfterMarkerFits(line: string, m: Match) {
    && m.at + 9 <= |line|
    && IsAsciiDigit(line[m.at + 7])
    && m.minorLen >= 1
    && DigitsBetween(line, m.at + 9, MinorEnd(m))
    && TailFits(line, MinorEnd(m), m.bugfixLen)
  }

  predicate IsMatch(line: string, m: Match) {
    && NoLineTerminator(line)
    && 1 <= m.at
    && OccursAt(line, Marker, m.at)
    && AfterMarkerFits(line, m)
  }

  /** The backtracking matcher tries `a` before `b`: the greedy `.+` first
      tries a longer prefix, then the greedy group 2 a longer run, then the
      greedy `?` the optional group before its absence, with a longer group 4
      first. */
  predicate TriedBefore(a: Match, b: Match) {
    || a.at > b.at
    || (a.at == b.at && a.minorLen > b.minorLen)
    || (a.at == b.at && a.minorLen == b.minorLen && a.bugfixLen > b.bugfixLen)
  }

  /** The number of digits in the run starting at `i`. */
  function DigitRun(line: string, i: nat): (n: nat)
    requires i <= |line|
    ensures DigitsBetween(line, i, i + n)
    ensures i + n < |line| ==> !IsAsciiDigit(line[i + n])
    decreases |line| - i
  {
    if i < |line| && IsAsciiDigit(line[i]) then 1 + DigitRun(line, i + 1) else 0
  }

  /** The first way, in backtracking order, to finish the match once group 2
      ends at `e`; the result is the length of group 4 (0 when absent). */
  function MatchTail(line: string, e: nat): (r: Option<nat>)
    requires e <= |line|
    ensures r.Some? ==> TailFits(line, e, r.value)
    ensures forall k: nat :: TailFits(line, e, k) ==> r.Some? && k <= r.value
  {
    if e < |line| then
      var run := DigitRun(line, e + 1);
      if run > 0 && e + 1 + run + 2 <= |line| && line[e + 1 + run] == ' ' then Some(run)
      else if e + 2 <= |line| && line[e] == ' ' then Some(0)
      else None
    else None
  }

  /** The first match, in backtracking order, with the marker at `at` and a
      group 2 of at most `n` digits. */
  function MatchMinor(line: string, at: nat, n: nat): (r: Option<Match>)
    requires DigitsBetween(line, at + 9, at + 9 + n)
    ensures r.Some? ==> r.value.at == at && 1 <= r.value.minorLen <= n
    ensures r.Some? ==> TailFits(line, MinorEnd(r.value), r.value.bugfixLen)
    ensures forall m: Match :: m.at == at && 1 <= m.minorLen <= n && TailFits(line, MinorEnd(m), m.bugfixLen) ==>
      r.Some? && (m == r.value || TriedBefore(r.value, m))
    decreases n
  {
    if n == 0 then None
    else
      match MatchTail(line, at + 9 + n)
      case Some(b) => Some(Match(at, n, b))
      case None => MatchMinor(line, at, n - 1)
  }

  /** The first match, in backtracking order, with the marker at `at`. */
  function MatchAfterMarker(line: string, at: nat): (r: Option<Match>)
    ensures r.Some? ==> r.value.at == at && AfterMarkerFits(line, r.value)
    ensures forall m: Match :: m.at == at && AfterMarkerFits(line, m) ==>
      r.Some? && (m == r.value || TriedBefore(r.value, m))
  {
    if at + 9 <= |line| && IsAsciiDigit(line[at + 7]) then
      var run := DigitRun(line, at + 9);
      assert forall m: Match :: m.at == at && AfterMarkerFits(line, m) ==> m.minorLen <= run;
      MatchMinor(line, at, run)
    else None
  }

  /** The first match, in backtracking order, whose prefix `.+` ends at or
      before `p`. */
  function MatchFrom(line: string, p: nat): (r: Option<Match>)
    ensures r.Some? ==> 1 <= r.value.at <= p && OccursAt(line, Marker, r.value.at) && AfterMarkerFits(line, r.value)
    ensures forall m: Match :: 1 <= m.at <= p && OccursAt(line, Marker, m.at) && AfterMarkerFits(line, m) ==>
      r.Some? && (m == r.value || TriedBefore(r.value, m))
    decreases p
  {
    if p == 0 then None
    else if OccursAt(line, Marker, p) then
      match MatchAfterMarker(line, p)
      case Some(m) => Some(m)
      case None => MatchFrom(line, p - 1)
    else MatchFrom(line, p - 1)
  }

  /** Matcher.matches() with GLIBC_PATTERN: None when the line does not
      match, otherwise the match whose groups Java reports. */
  function MatchLine(line: string): (r: Option<Match>)
    ensures r.None? <==> forall m: Match :: !IsMatch(line, m)
    ensures r.Some? ==> IsMatch(line, r.value)
    ensures r.Some? ==> forall m: Match :: IsMatch(line, m) && m != r.value ==> TriedBefore(r.value, m)
  {
    if NoLineTerminator(line) then
      var r := MatchFrom(line, |line|);
      assert forall m: Match :: IsMatch(line, m) ==> m.at <= |line|;
      assert r.Some? ==> IsMatch(line, r.value);
      r
    else None
  }

  /** What `check` takes from a matching line: the version (groups 1, 2 and 4)
      and the trimmed symbol name (group 5). */
  datatype Requirement = Requirement(version: Version, symbol: string)

  /** The fate of one line in `check`: not matching, matching, or matching
      with a group 2 or group 4 too large for Integer.parseInt (the
      NumberFormatException `check` does not catch). */
  datatype LineParse = Skipped | Parsed(req: Requirement) | BadNumber(digits: string)

  /** Group 2, the minor version digits. */
  function Group2(line: string, m: Match): string
    requires SpaceAt(m) < |line|
  {
    line[m.at + 9..MinorEnd(m)]
  }

  /** Group 4, the bugfix digits; empty when the optional group is absent. */
  function Group4(line: string, m: Match): string
    requires SpaceAt(m) < |line|
  {
    line[MinorEnd(m) + 1..MinorEnd(m) + 1 + m.bugfixLen]
  }

  /** Group 5, the symbol name with its leading padding. */
  function Group5(line: string, m: Match): string
    requires SpaceAt(m) < |line|
  {
    line[SpaceAt(m) + 1..]
  }

  /** Turning the groups into a requirement, parsing group 2 before group 4
      as `check` does; an absent group 4 reads as bugfix 0. */
  function Assemble(major: Int32, minorDigits: string, bugfixDigits: string, symbol: string): (p: LineParse)
    requires minorDigits != "" && AllAsciiDigits(minorDigits) && AllAsciiDigits(bugfixDigits)
    ensures !p.Skipped?
    ensures p.Parsed? ==> p.req.version.major == major && p.req.version.minor >= 0 && p.req.version.bugfix >= 0
    ensures p.Parsed? ==> p.req.symbol == symbol
    ensures p.BadNumber? ==> p.digits != "" && AllAsciiDigits(p.digits) && DecimalValue(p.digits) > MaxInt32
    ensures p.Parsed? <==> DecimalValue(minorDigits) <= MaxInt32 && DecimalValue(bugfixDigits) <= MaxInt32
    ensures p.Parsed? ==> p.req.version.minor == DecimalValue(minorDigits) && p.req.version.bugfix == DecimalValue(bugfixDigits)
  {
    match ParseInt(minorDigits)
    case None => BadNumber(minorDigits)
    case Some(minor) =>
      if bugfixDigits == "" then Parsed(Requirement(Version(major, minor, 0), symbol))
      else
        match ParseInt(bugfixDigits)
        case None => BadNumber(bugfixDigits)
        case Some(bugfix) => Parsed(Requirement(Version(major, minor, bugfix), symbol))
  }

  function ParseLine(line: string): (p: LineParse)
    ensures p.Parsed? ==> 0 <= p.req.version.major <= 9 && p.req.version.minor >= 0 && p.req.version.bugfix >= 0
    ensures p.BadNumber? ==> p.digits != "" && AllAsciiDigits(p.digits) && DecimalValue(p.digits) > MaxInt32
  {
    match MatchLine(line)
    case None => Skipped
    case Some(m) =>
      GroupsOfMatch(line, m);
      ReadGroups(line, m)
  }

  /** What a matching line reads as: its groups, parsed. */
  function ReadGroups(line: string, m: Match): LineParse
    requires SpaceAt(m) < |line| && IsAsciiDigit(line[m.at + 7])
    requires Group2(line, m) != "" && AllAsciiDigits(Group2(line, m)) && AllAsciiDigits(Group4(line, m))
  {
    Assemble(DigitValue(line[m.at + 7]), Group2(line, m), Group4(line, m), JavaTrim(Group5(line, m)))
  }

  /** The optional third component as it appears in the line. */
  function BugfixSuffix(bugfix: string): string {
    if bugfix == "" then "" else "." + bugfix
  }

  /** The shape objdump -T gives a versioned symbol: anything, " GLIBC_", the
      version with two or three components (`bugfix` empty for two), blank
      padding and the symbol name. */
  function VersionedLine(head: string, major: char, minor: string, bugfix: string, pad: string, name: string): string {
    head + (Marker + VersionedTail(major, minor, bugfix, pad, name))
  }

  /** A versioned line from its major version digit on. */
  function VersionedTail(major: char, minor: string, bugfix: string, pad: string, name: string): string {
    [major] + ("." + (minor + (BugfixSuffix(bugfix) + (pad + name))))
  }

  /** Conditions under which a versioned line is read as intended: a name
      without 'G' leaves no later " GLIBC_", and one that does not start with a
      digit cannot be taken for a bugfix component. */
  predicate WellFormedVersioned(head: string, major: char, minor: string, bugfix: string, pad: string, name: string) {
    && head != "" && NoLineTerminator(head)
    && WellFormedTail(major, minor, bugfix, pad, name)
  }

  /** The shape conditions on everything after the marker. */
  predicate WellFormedTail(major: char, minor: string, bugfix: string, pad: string, name: string) {
    && IsAsciiDigit(major)
    && minor != "" && AllAsciiDigits(minor)
    && AllAsciiDigits(bugfix)
    && pad != "" && (forall j :: 0 <= j < |pad| ==> pad[j] == ' ')
    && name != "" && NoLineTerminator(name) && Lacks(name, 'G')
    && !IsAsciiDigit(name[0]) && name[0] > ' ' && name[|name| - 1] > ' '
  }

  /** The version, padding and name hold neither a 'G' nor a line terminator. */
  lemma VersionedTailClean(major: char, minor: string, bugfix: string, pad: string, name: string)
    requires WellFormedTail(major, minor, bugfix, pad, name)
    ensures var tail := VersionedTail(major, minor, bugfix, pad, name);
      Lacks(tail, 'G') && NoLineTerminator(tail)
  {
    var suffix := BugfixSuffix(bugfix);
    assert Lacks(suffix, 'G') && NoLineTerminator(suffix);
    LacksAppend(pad, name, 'G');
    NoLineTerminatorAppend(pad, name);
    LacksAppend(suffix, pad + name, 'G');
    NoLineTerminatorAppend(suffix, pad + name);
    LacksAppend(minor, suffix + (pad + name), 'G');
    NoLineTerminatorAppend(minor, suffix + (pad + name));
    LacksAppend(".", minor + (suffix + (pad + name)), 'G');
    NoLineTerminatorAppend(".", minor + (suffix + (pad + name)));
    LacksAppend([major], "." + (minor + (suffix + (pad + name))), 'G');
    NoLineTerminatorAppend([major], "." + (minor + (suffix + (pad + name))));
  }

  /** Where each piece of a versioned line sits, character by character: the
      marker at `h`, group 1 after it, group 2 from `h + 9`, the optional
      group after group 2, and `rest` (padding and name) from the space
      before group 5. */
  predicate PointLayout(line: string, h: nat, major: char, minor: string, bugfix: string, rest: string) {
    var e := h + 9 + |minor|;
    var sp := SpaceIndex(e, |bugfix|);
    && |line| == sp + |rest|
    && (forall j :: h <= j < h + 7 ==> line[j] == Marker[j - h])
    && line[h + 7] == major
    && (forall j :: h + 9 <= j < e ==> line[j] == minor[j - h - 9])
    && (bugfix != "" ==> line[e] == '.')
    && (forall j :: e + 1 <= j < e + 1 + |bugfix| ==> line[j] == bugfix[j - e - 1])
    && (forall j :: sp <= j < |line| ==> line[j] == rest[j - sp])
  }

  /** The same layout, stated with slices. */
  predicate SliceLayout(line: string, h: nat, major: char, minor: string, bugfix: string, rest: string) {
    var e := h + 9 + |minor|;
    var sp := SpaceIndex(e, |bugfix|);
    && |line| == sp + |rest|
    && OccursAt(line, Marker, h)
    && line[h + 7] == major
    && line[h + 9..e] == minor
    && (bugfix != "" ==> line[e] == '.' && line[e + 1..sp] == bugfix)
    && line[sp..] == rest
  }

  lemma PointToSlice(line: string, h: nat, major: char, minor: string, bugfix: string, rest: string)
    requires PointLayout(line, h, major, minor, bugfix, rest)
    ensures SliceLayout(line, h, major, minor, bugfix, rest)
  {
    var e := h + 9 + |minor|;
    var sp := SpaceIndex(e, |bugfix|);
    assert line[h..h + 7] == Marker;
    assert line[h + 9..e] == minor;
    if bugfix != "" {
      assert line[e + 1..sp] == bugfix;
    }
    assert line[sp..] == rest;
  }

  /** A versioned line has its pieces where they were put. */
  lemma VersionedLayout(head: string, major: char, minor: string, bugfix: string, pad: string, name: string)
    ensures PointLayout(VersionedLine(head, major, minor, bugfix, pad, name), |head|, major, minor, bugfix, pad + name)
  {
    LayoutMarker(head, major, minor, bugfix, pad, name);
    LayoutMinor(head, major, minor, bugfix, pad, name);
    LayoutBugfix(head, major, minor, bugfix, pad, name);
    LayoutRest(head, major, minor, bugfix, pad, name);
  }

  lemma LayoutMarker(head: string, major: char, minor: string, bugfix: string, pad: string, name: string)
    ensures var line := VersionedLine(head, major, minor, bugfix, pad, name);
      && |line| == SpaceIndex(|head| + 9 + |minor|, |bugfix|) + |pad + name|
      && (forall j :: |head| <= j < |head| + 7 ==> line[j] == Marker[j - |head|])
      && line[|head| + 7] == major
  {
  }

  /** Past four leading pieces, a nested concatenation reads its last piece. */
  lemma PastFour(a: string, b: string, c: string, d: string, x: string)
    ensures var n := |a| + |b| + |c| + |d|;
      forall j :: n <= j < n + |x| ==> (a + (b + (c + (d + x))))[j] == x[j - n]
  {
    var n := |a| + |b| + |c| + |d|;
    forall j | n <= j < n + |x|
      ensures (a + (b + (c + (d + x))))[j] == x[j - n]
    {
      assert (a + (b + (c + (d + x))))[j] == (b + (c + (d + x)))[j - |a|];
      assert (b + (c + (d + x)))[j - |a|] == (c + (d + x))[j - |a| - |b|];
      assert (c + (d + x))[j - |a| - |b|] == (d + x)[j - |a| - |b| - |c|];
    }
  }

  lemma LayoutMinor(head: string, major: char, minor: string, bugfix: string, pad: string, name: string)
    ensures var line := VersionedLine(head, major, minor, bugfix, pad, name);
      var h := |head|;
      forall j :: h + 9 <= j < h + 9 + |minor| ==> line[j] == minor[j - h - 9]
  {
    PastFour(head, Marker, [major], ".", minor + (BugfixSuffix(bugfix) + (pad + name)));
  }

  lemma LayoutBugfix(head: string, major: char, minor: string, bugfix: string, pad: string, name: string)
    ensures var line := VersionedLine(head, major, minor, bugfix, pad, name);
      var e := |head| + 9 + |minor|;
      && (bugfix != "" ==> line[e] == '.')
      && (forall j :: e + 1 <= j < e + 1 + |bugfix| ==> line[j] == bugfix[j - e - 1])
  {
    var tail := VersionedTail(major, minor, bugfix, pad, name);
    BugfixInTail(major, minor, bugfix, pad + name);
    ShiftPastMarker(head, tail);
  }

  /** In a tail, the dot and bugfix digits sit right after the minor digits. */
  lemma BugfixInTail(major: char, minor: string, bugfix: string, rest: string)
    ensures var t := [major] + ("." + (minor + (BugfixSuffix(bugfix) + rest)));
      && (bugfix != "" ==> t[2 + |minor|] == '.')
      && forall k :: 3 + |minor| <= k < 3 + |minor| + |bugfix| ==> t[k] == bugfix[k - 3 - |minor|]
  {
  }

  /** Past the head and the marker, a line reads its tail. */
  lemma ShiftPastMarker(head: string, tail: string)
    ensures forall j :: |head| + 7 <= j < |head| + 7 + |tail| ==> (head + (Marker + tail))[j] == tail[j - |head| - 7]
  {
  }

  lemma LayoutRest(head: string, major: char, minor: string, bugfix: string, pad: string, name: string)
    ensures var line := VersionedLine(head, major, minor, bugfix, pad, name);
      var sp := SpaceIndex(|head| + 9 + |minor|, |bugfix|);
      forall j :: sp <= j < |line| ==> line[j] == (pad + name)[j - sp]
  {
    var suffix := BugfixSuffix(bugfix);
    PastFour(head, Marker, [major], ".", minor + (suffix + (pad + name)));
    assert forall k :: |minor| + |suffix| <= k < |minor| + |suffix| + |pad + name| ==>
      (minor + (suffix + (pad + name)))[k] == (pad + name)[k - |minor| - |suffix|];
  }

  /** Putting a head and a tail without line terminators around the marker
      gives a line without them, with no 'G' after the marker's own if the
      tail has none. */
  lemma CleanLine(head: string, tail: string)
    requires NoLineTerminator(head) && NoLineTerminator(tail) && Lacks(tail, 'G')
    ensures var line := head + (Marker + tail);
      && NoLineTerminator(line)
      && forall j :: |head| + 7 <= j < |line| ==> line[j] != 'G'
  {
  }

  /** A well-formed versioned line holds no line terminator and no 'G' after
      its marker's. */
  lemma VersionedClean(head: string, major: char, minor: string, bugfix: string, pad: string, name: string)
    requires WellFormedVersioned(head, major, minor, bugfix, pad, name)
    ensures var line := VersionedLine(head, major, minor, bugfix, pad, name);
      && NoLineTerminator(line)
      && forall j :: |head| + 7 <= j < |line| ==> line[j] != 'G'
  {
    VersionedTailClean(major, minor, bugfix, pad, name);
    CleanLine(head, VersionedTail(major, minor, bugfix, pad, name));
  }

  /** A marker with no 'G' after its own can only be preceded by others:
      " GLIBC_" does not overlap itself. */
  lemma LastMarker(line: string, h: nat)
    requires OccursAt(line, Marker, h)
    requires forall j :: h + 7 <= j < |line| ==> line[j] != 'G'
    ensures forall a :: OccursAt(line, Marker, a) ==> a <= h
  {
    assert forall j :: h < j < h + 7 ==> line[j] == line[h..h + 7][j - h];
    forall a | OccursAt(line, Marker, a)
      ensures a <= h
    {
      assert line[a + 1] == line[a..a + 7][1] == 'G';
      assert line[a] == line[a..a + 7][0] == ' ';
    }
  }

  /** A run of digits cannot reach past a non-digit. */
  lemma DigitRunStops(line: string, lo: nat, hi: nat, stop: nat)
    requires DigitsBetween(line, lo, hi) && lo <= stop < |line| && !IsAsciiDigit(line[stop])
    ensures hi <= stop
  {
  }

  /** A match is the one Java reports when no marker follows it and the
      digit runs it takes for groups 2 and 4 cannot be extended. */
  lemma BestMatch(line: string, best: Match)
    requires IsMatch(line, best)
    requires forall a :: OccursAt(line, Marker, a) ==> a <= best.at
    requires !IsAsciiDigit(line[MinorEnd(best)])
    requires !IsAsciiDigit(line[MinorEnd(best) + 1 + best.bugfixLen])
    ensures MatchLine(line) == Some(best)
  {
    forall m: Match | IsMatch(line, m) && m != best
      ensures TriedBefore(best, m)
    {
      if m.at == best.at {
        DigitRunStops(line, m.at + 9, MinorEnd(m), MinorEnd(best));
        if m.minorLen == best.minorLen {
          DigitRunStops(line, MinorEnd(m) + 1, MinorEnd(m) + 1 + m.bugfixLen, MinorEnd(best) + 1 + best.bugfixLen);
        }
      }
    }
    var r := MatchLine(line);
    var found := r.value;
    assert found == best || (TriedBefore(found, best) && TriedBefore(best, found));
  }

  /** Padding followed by a name that does not start with a digit. */
  lemma PaddedName(pad: string, name: string)
    requires pad != "" && (forall j :: 0 <= j < |pad| ==> pad[j] == ' ')
    requires name != "" && !IsAsciiDigit(name[0])
    ensures |pad + name| >= 2 && (pad + name)[0] == ' ' && !IsAsciiDigit((pad + name)[1])
  {
  }

  /** A line laid out like a versioned line, described by position only. */
  lemma MatchFromLayout(line: string, h: nat, major: char, minor: string, bugfix: string, rest: string)
    requires 1 <= h && NoLineTerminator(line)
    requires SliceLayout(line, h, major, minor, bugfix, rest)
    requires forall j :: h + 7 <= j < |line| ==> line[j] != 'G'
    requires IsAsciiDigit(major) && minor != "" && AllAsciiDigits(minor) && AllAsciiDigits(bugfix)
    requires |rest| >= 2 && rest[0] == ' ' && !IsAsciiDigit(rest[1])
    ensures MatchLine(line) == Some(Match(h, |minor|, |bugfix|))
  {
    var best := Match(h, |minor|, |bugfix|);
    var e, sp := MinorEnd(best), SpaceAt(best);
    LastMarker(line, h);
    assert DigitsBetween(line, h + 9, e) by {
      assert forall j :: h + 9 <= j < e ==> line[j] == line[h + 9..e][j - h - 9];
    }
    assert line[sp] == rest[0] && line[sp + 1] == rest[1] by {
      assert line[sp..][0] == line[sp] && line[sp..][1] == line[sp + 1];
    }
    if bugfix != "" {
      assert forall j :: e + 1 <= j < sp ==> line[j] == line[e + 1..sp][j - e - 1];
    }
    assert TailFits(line, e, |bugfix|);
    assert IsMatch(line, best);
    BestMatch(line, best);
  }

  /** On a well-formed versioned line Java reports the marker at the end of
      `head`, all of `minor` as group 2 and all of `bugfix` as group 4. */
  lemma VersionedLineMatch(head: string, major: char, minor: string, bugfix: string, pad: string, name: string)
    requires WellFormedVersioned(head, major, minor, bugfix, pad, name)
    ensures MatchLine(VersionedLine(head, major, minor, bugfix, pad, name)) == Some(Match(|head|, |minor|, |bugfix|))
  {
    var line := VersionedLine(head, major, minor, bugfix, pad, name);
    VersionedLayout(head, major, minor, bugfix, pad, name);
    PointToSlice(line, |head|, major, minor, bugfix, pad + name);
    VersionedClean(head, major, minor, bugfix, pad, name);
    PaddedName(pad, name);
    MatchFromLayout(line, |head|, major, minor, bugfix, pad + name);
  }

  /** The groups of a match, read from a line described by position only. */
  lemma GroupsOfLayout(line: string, h: nat, major: char, minor: string, bugfix: string, rest: string)
    requires SliceLayout(line, h, major, minor, bugfix, rest) && rest != ""
    ensures var m := Match(h, |minor|, |bugfix|);
      && SpaceAt(m) < |line|
      && Group2(line, m) == minor
      && Group4(line, m) == bugfix
      && Group5(line, m) == rest[1..]
  {
    var m := Match(h, |minor|, |bugfix|);
    var sp := SpaceAt(m);
    assert line[sp + 1..] == line[sp..][1..];
  }

  /** The symbol group is the name once the padding after the first blank is trimmed. */
  lemma TrimmedSymbol(pad: string, name: string)
    requires pad != "" && forall j :: 0 <= j < |pad| ==> pad[j] <= ' '
    requires |name| > 0 && name[0] > ' ' && name[|name| - 1] > ' '
    ensures JavaTrim((pad + name)[1..]) == name
  {
    assert (pad + name)[1..] == pad[1..] + name;
    TrimPadded(pad[1..], name);
  }

  /** Groups that fit a Java `int` give a requirement. */
  lemma AssembleFitting(major: Int32, minor: string, bugfix: string, symbol: string)
    requires minor != "" && AllAsciiDigits(minor) && DecimalValue(minor) <= MaxInt32
    requires AllAsciiDigits(bugfix) && DecimalValue(bugfix) <= MaxInt32
    ensures Assemble(major, minor, bugfix, symbol)
         == Parsed(Requirement(Version(major, DecimalValue(minor), DecimalValue(bugfix)), symbol))
  {
  }

  /** Group 2 is parsed before group 4, so an overflowing minor version is
      the one reported even when the bugfix overflows too. */
  lemma AssembleOverflow(major: Int32, minor: string, bugfix: string, symbol: string)
    requires minor != "" && AllAsciiDigits(minor) && AllAsciiDigits(bugfix)
    ensures DecimalValue(minor) > MaxInt32 ==> Assemble(major, minor, bugfix, symbol) == BadNumber(minor)
    ensures DecimalValue(minor) <= MaxInt32 < DecimalValue(bugfix) ==> Assemble(major, minor, bugfix, symbol) == BadNumber(bugfix)
  {
  }

  /** The groups of a match lie inside the line, and groups 1, 2 and 4 are digits. */
  lemma GroupsOfMatch(line: string, m: Match)
    requires MatchLine(line) == Some(m)
    ensures SpaceAt(m) < |line| && IsAsciiDigit(line[m.at + 7])
    ensures AllAsciiDigits(Group2(line, m)) && AllAsciiDigits(Group4(line, m)) && Group2(line, m) != ""
  {
  }

  /** A matching line reads as its groups. */
  lemma ParseOfMatch(line: string, m: Match)
    requires MatchLine(line) == Some(m)
    ensures SpaceAt(m) < |line| && IsAsciiDigit(line[m.at + 7])
    ensures Group2(line, m) != "" && AllAsciiDigits(Group2(line, m)) && AllAsciiDigits(Group4(line, m))
    ensures ParseLine(line) == ReadGroups(line, m)
  {
    GroupsOfMatch(line, m);
  }

  /** Once the groups of the match are known, the line reads as they assemble. */
  lemma ParseOfGroups(line: string, m: Match, major: char, minor: string, bugfix: string, symbol: string)
    requires MatchLine(line) == Some(m) && SpaceAt(m) < |line|
    requires line[m.at + 7] == major && Group2(line, m) == minor && Group4(line, m) == bugfix
    requires JavaTrim(Group5(line, m)) == symbol
    requires IsAsciiDigit(major) && minor != "" && AllAsciiDigits(minor) && AllAsciiDigits(bugfix)
    ensures ParseLine(line) == Assemble(DigitValue(major), minor, bugfix, symbol)
  {
    ParseOfMatch(line, m);
  }

  /** What `check` reads from a matching line, in terms of the groups Java
      reports: the requirement takes group 1 as major, the values of groups 2
      and 4 (an absent group 4 being 0) and group 5 trimmed, whenever both
      numbers fit an `int`; otherwise the digits of group 2 or group 4 are
      the ones Integer.parseInt rejects. */
  lemma ReadingOfMatch(line: string, m: Match)
    requires MatchLine(line) == Some(m)
    ensures SpaceAt(m) < |line| && IsAsciiDigit(line[m.at + 7])
    ensures AllAsciiDigits(Group2(line, m)) && AllAsciiDigits(Group4(line, m))
    ensures ParseLine(line).Parsed? <==> DecimalValue(Group2(line, m)) <= MaxInt32 && DecimalValue(Group4(line, m)) <= MaxInt32
    ensures ParseLine(line).Parsed? ==>
      ParseLine(line).req == Requirement(
        Version(DigitValue(line[m.at + 7]), DecimalValue(Group2(line, m)), DecimalValue(Group4(line, m))),
        JavaTrim(Group5(line, m)))
    ensures ParseLine(line).BadNumber? ==> ParseLine(line).digits == Group2(line, m) || ParseLine(line).digits == Group4(line, m)
  {
    ParseOfMatch(line, m);
    AssembleOverflow(DigitValue(line[m.at + 7]), Group2(line, m), Group4(line, m), JavaTrim(Group5(line, m)));
  }

  /** A line laid out like a versioned line has the pieces as its groups. */
  lemma ReadLayout(line: string, h: nat, major: char, minor: string, bugfix: string, rest: string, name: string)
    requires SliceLayout(line, h, major, minor, bugfix, rest)
    requires rest != "" && JavaTrim(rest[1..]) == name
    ensures var m := Match(h, |minor|, |bugfix|);
      && SpaceAt(m) < |line|
      && line[h + 7] == major && Group2(line, m) == minor && Group4(line, m) == bugfix
      && JavaTrim(Group5(line, m)) == name
  {
    GroupsOfLayout(line, h, major, minor, bugfix, rest);
  }

  /** Field extraction: the line reads as its major digit, minor and bugfix
      digits (`bugfix` empty when group 4 is absent) and its name without
      the padding. */
  lemma ParseVersionedLine(head: string, major: char, minor: string, bugfix: string, pad: string, name: string)
    requires WellFormedVersioned(head, major, minor, bugfix, pad, name)
    ensures ParseLine(VersionedLine(head, major, minor, bugfix, pad, name)) == Assemble(DigitValue(major), minor, bugfix, name)
  {
    var line := VersionedLine(head, major, minor, bugfix, pad, name);
    VersionedLineMatch(head, major, minor, bugfix, pad, name);
    VersionedLayout(head, major, minor, bugfix, pad, name);
    PointToSlice(line, |head|, major, minor, bugfix, pad + name);
    TrimmedSymbol(pad, name);
    ReadLayout(line, |head|, major, minor, bugfix, pad + name, name);
    ParseOfGroups(line, Match(|head|, |minor|, |bugfix|), major, minor, bugfix, name);
  }

  /** A versioned line whose numbers fit an `int` gives its requirement; an
      absent bugfix reads as 0. */
  lemma VersionedLineParsed(head: string, major: char, minor: string, bugfix: string, pad: string, name: string)
    requires WellFormedVersioned(head, major, minor, bugfix, pad, name)
    requires DecimalValue(minor) <= MaxInt32 && DecimalValue(bugfix) <= MaxInt32
    ensures ParseLine(VersionedLine(head, major, minor, bugfix, pad, name))
         == Parsed(Requirement(Version(DigitValue(major), DecimalValue(minor), DecimalValue(bugfix)), name))
  {
    ParseVersionedLine(head, major, minor, bugfix, pad, name);
    AssembleFitting(DigitValue(major), minor, bugfix, name);
  }

  /** A versioned line whose minor version overflows an `int` stops the
      reading with those digits. */
  lemma VersionedLineOverflow(head: string, major: char, minor: string, bugfix: string, pad: string, name: string)
    requires WellFormedVersioned(head, major, minor, bugfix, pad, name)
    requires DecimalValue(minor) > MaxInt32
    ensures ParseLine(VersionedLine(head, major, minor, bugfix, pad, name)) == BadNumber(minor)
  {
    ParseVersionedLine(head, major, minor, bugfix, pad, name);
    AssembleOverflow(DigitValue(major), minor, bugfix, name);
  }

  /** A line is skipped exactly when the pattern does not match it. */
  lemma SkippedIffNoMatch(line: string)
    ensures ParseLine(line).Skipped? <==> forall m: Match :: !IsMatch(line, m)
  {
  }

  /** Lines without a 'G' (headers, unversioned symbols, "Base" lines) are
      skipped. */
  lemma SkipWithoutMarker(line: string)
    requires Lacks(line, 'G')
    ensures ParseLine(line) == Skipped
  {
    assert forall i :: OccursAt(line, Marker, i) ==> line[i..i + 7][1] == 'G';
  }

  /** A line holding a line terminator, such as one ending in '\r' from
      Windows line endings, is skipped whatever else it holds. */
  lemma SkipWithTerminator(line: string, i: nat)
    requires i < |line| && IsLineTerminator(line[i])
    ensures ParseLine(line) == Skipped
  {
  }
}
