/** The objdump output of the plugin's own test, as rows, and the three
    ceilings the test checks it against. */
module GlibcFixture {
  import opened Results
  import opened Strings
  import opened Numbers
  import opened GlibcVersion
  import opened GlibcPattern
  import opened GlibcCheck

  predicate IsHexDigit(c: char) {
    '0' <= c <= '9' || 'a' <= c <= 'f'
  }

  function HexDigit(d: nat): (c: char)
    requires d < 16
    ensures IsHexDigit(c)
  {
    if d < 10 then ('0' as int + d) as char else ('a' as int + d - 10) as char
  }

  /** The low `width` lower-case hexadecimal digits of `n`, padded with
      zeros: how objdump prints addresses and sizes. */
  function Hex(n: nat, width: nat): (s: string)
    ensures |s| == width && forall i :: 0 <= i < width ==> IsHexDigit(s[i])
  {
    if width == 0 then "" else Hex(n / 16, width - 1) + [HexDigit(n % 16)]
  }

  /** The flag and section columns of a dynamic symbol, with the tab that
      ends them. */
  datatype Flags =
    | LocalInit | WeakUndefined | Undefined | GlobalAbsolute | GlobalText | GlobalInit | GlobalFini
    | UndefinedFunction | WeakUndefinedFunction | UndefinedObject

  /** The seven flag characters objdump prints for a symbol. */
  function FlagColumns(f: Flags): string {
    match f
    case LocalInit => "l    d "
    case WeakUndefined => " w   D "
    case Undefined => "     D "
    case GlobalAbsolute => "g    D "
    case GlobalText | GlobalInit | GlobalFini => "g    DF"
    case UndefinedFunction => "     DF"
    case WeakUndefinedFunction => " w   DF"
    case UndefinedObject => "     DO"
  }

  /** The section a symbol belongs to, "*UND*" for undefined ones. */
  function Section(f: Flags): string {
    match f
    case LocalInit | GlobalInit => ".init"
    case GlobalText => ".text"
    case GlobalFini => ".fini"
    case GlobalAbsolute => "*ABS*"
    case WeakUndefined | Undefined | UndefinedFunction | WeakUndefinedFunction | UndefinedObject => "*UND*"
  }

  function FlagsText(f: Flags): string {
    " " + FlagColumns(f) + " " + Section(f) + "\t"
  }

  /** The version column of a symbol without a GLIBC version. */
  function VersionColumn(base: bool): string {
    if base then "  Base        " else "              "
  }

  function Spaces(n: nat): (s: string)
    ensures |s| == n && forall j :: 0 <= j < n ==> s[j] == ' '
  {
    seq(n, _ => ' ')
  }

  function BugfixDigits(bugfix: Option<nat>): string {
    if bugfix.Some? then NatToString(bugfix.value) else ""
  }

  /** Everything of a versioned line before " GLIBC_": an undefined symbol
      has address and size 0. */
  function UndefinedHead(f: Flags): string {
    Hex(0, 16) + FlagsText(f) + Hex(0, 16) + " "
  }

  /** One line of the output: empty, a heading (given as short pieces), a
      symbol without a GLIBC version, or an undefined symbol that needs
      GLIBC 2.`minor`[.`bugfix`]. Long names are given as short pieces. */
  datatype Row =
    | Blank
    | Heading(pieces: seq<string>)
    | Unversioned(address: nat, flags: Flags, size: nat, base: bool, pieces: seq<string>)
    | Versioned(flags: Flags, minor: nat, bugfix: Option<nat>, pad: nat, name: string)

  function RowText(r: Row): string {
    match r
    case Blank => ""
    case Heading(pieces) => JoinWith(pieces, "")
    case Unversioned(address, flags, size, base, pieces) =>
      Hex(address, 16) + FlagsText(flags) + Hex(size, 16) + VersionColumn(base) + JoinWith(pieces, "")
    case Versioned(flags, minor, bugfix, pad, name) =>
      VersionedLine(UndefinedHead(flags), '2', NatToString(minor), BugfixDigits(bugfix), Spaces(pad), name)
  }

  function RowTexts(rows: seq<Row>): (texts: seq<string>)
    ensures |texts| == |rows| && forall k :: 0 <= k < |rows| ==> texts[k] == RowText(rows[k])
  {
    if |rows| == 0 then [] else [RowText(rows[0])] + RowTexts(rows[1..])
  }

  /** A character of a line without a version: anything but a 'G' or a
      newline. */
  predicate PlainChar(c: char) {
    c != 'G' && c != '\n'
  }

  predicate PiecesOk(pieces: seq<string>) {
    forall k, i :: 0 <= k < |pieces| && 0 <= i < |pieces[k]| ==> PlainChar(pieces[k][i])
  }

  /** The characters of the versioned symbol names in the output: lower-case
      letters, digits and underscores. */
  predicate NameChar(c: char) {
    'a' <= c <= 'z' || '0' <= c <= '9' || c == '_'
  }

  /** A versioned symbol name that can follow the padding: not empty, not
      starting with a digit. */
  predicate NameOk(name: string) {
    name != "" && !IsAsciiDigit(name[0]) && forall i :: 0 <= i < |name| ==> NameChar(name[i])
  }

  predicate RowOk(r: Row) {
    match r
    case Blank => true
    case Heading(pieces) => |pieces| > 0 && pieces[0] != "" && PiecesOk(pieces)
    case Unversioned(_, _, _, _, pieces) => PiecesOk(pieces)
    case Versioned(_, minor, bugfix, pad, name) =>
      minor <= MaxInt32 && (bugfix.Some? ==> bugfix.value <= MaxInt32) && pad > 0 && NameOk(name)
  }

  predicate AllOk(rows: seq<Row>) {
    |rows| == 0 || (RowOk(rows[0]) && AllOk(rows[1..]))
  }

  /** A versioned row whose numbers fit a Java `int`. */
  predicate VersionFits(r: Row) {
    r.Versioned? && r.minor <= MaxInt32 && (r.bugfix.Some? ==> r.bugfix.value <= MaxInt32)
  }

  /** The version a versioned row asks for. */
  function RowVersion(r: Row): Version
    requires VersionFits(r)
  {
    Version(2, r.minor, if r.bugfix.Some? then r.bugfix.value else 0)
  }

  /** What `check` should say about one well-formed row. */
  function Expect(ceiling: Version, r: Row): CheckResult {
    if VersionFits(r) && Exceeds(RowVersion(r), ceiling) then
      Failed(FailureMessage(ceiling, Requirement(RowVersion(r), r.name)))
    else Passed
  }

  /** What `check` should say about well-formed rows: the first symbol above
      the ceiling, if any. */
  function ExpectAll(ceiling: Version, rows: seq<Row>): CheckResult {
    if |rows| == 0 then Passed
    else
      var first := Expect(ceiling, rows[0]);
      if first.Passed? then ExpectAll(ceiling, rows[1..]) else first
  }


  const Rows1: seq<Row> := [
    Blank,
    Heading(["/tmp/lib", "netty_tr", "ansport_", "native_e", "poll_x86", "_64.so: ", "    file", " format ", "elf64-x8", "6-64"]),
    Blank,
    Heading(["DYNAMIC ", "SYMBOL T", "ABLE:"])
  ]

  const Rows2: seq<Row> := [
    Unversioned(0x3a60, LocalInit, 0x0, false, [".init"]),
    Versioned(WeakUndefinedFunction, 9, None, 3, "pipe2"),
    Versioned(UndefinedFunction, 2, Some(5), 1, "memset"),
    Versioned(UndefinedFunction, 2, Some(5), 1, "snprintf")
  ]

  const Rows3: seq<Row> := [
    Versioned(UndefinedFunction, 2, Some(5), 1, "shutdown"),
    Versioned(UndefinedFunction, 2, Some(5), 1, "close"),
    Versioned(UndefinedFunction, 3, Some(2), 1, "epoll_create"),
    Unversioned(0x0, WeakUndefined, 0x0, false, ["__gmon_s", "tart__"])
  ]

  const Rows4: seq<Row> := [
    Unversioned(0x0, WeakUndefined, 0x0, false, ["_Jv_Regi", "sterClas", "ses"]),
    Versioned(UndefinedFunction, 2, Some(5), 1, "recvmsg"),
    Versioned(UndefinedFunction, 2, Some(5), 1, "uname"),
    Versioned(UndefinedFunction, 5, None, 3, "splice")
  ]

  const Rows5: seq<Row> := [
    Versioned(UndefinedFunction, 2, Some(5), 1, "getpeername"),
    Versioned(UndefinedFunction, 2, Some(5), 1, "read"),
    Versioned(UndefinedFunction, 2, Some(5), 1, "strncmp"),
    Versioned(UndefinedFunction, 2, Some(5), 1, "malloc")
  ]

  const Rows6: seq<Row> := [
    Versioned(UndefinedFunction, 2, Some(5), 1, "fopen"),
    Versioned(UndefinedFunction, 2, Some(5), 1, "unlink"),
    Versioned(UndefinedFunction, 2, Some(5), 1, "setsockopt"),
    Versioned(UndefinedFunction, 7, None, 3, "eventfd")
  ]

  const Rows7: seq<Row> := [
    Versioned(UndefinedFunction, 2, Some(5), 1, "fgets"),
    Versioned(UndefinedFunction, 2, Some(5), 1, "free"),
    Versioned(UndefinedFunction, 2, Some(5), 1, "strlen"),
    Versioned(UndefinedFunction, 2, Some(5), 1, "listen")
  ]

  const Rows8: seq<Row> := [
    Versioned(WeakUndefinedFunction, 2, Some(5), 1, "__cxa_finalize"),
    Versioned(UndefinedFunction, 2, Some(5), 1, "syscall"),
    Versioned(UndefinedFunction, 2, Some(5), 1, "pipe"),
    Versioned(WeakUndefinedFunction, 9, None, 3, "epoll_create1")
  ]

  const Rows9: seq<Row> := [
    Versioned(UndefinedFunction, 2, Some(5), 1, "sendmsg"),
    Versioned(UndefinedObject, 2, Some(5), 1, "in6addr_any"),
    Versioned(UndefinedFunction, 2, Some(5), 1, "strerror"),
    Versioned(UndefinedFunction, 3, Some(2), 1, "epoll_ctl")
  ]

  const Rows10: seq<Row> := [
    Versioned(UndefinedFunction, 2, Some(5), 1, "strstr"),
    Versioned(UndefinedFunction, 2, Some(5), 1, "strcat"),
    Versioned(UndefinedFunction, 2, Some(5), 1, "getsockopt"),
    Versioned(UndefinedFunction, 2, Some(5), 1, "strtol")
  ]

  const Rows11: seq<Row> := [
    Versioned(UndefinedFunction, 2, Some(5), 1, "getsockname"),
    Versioned(UndefinedFunction, 2, Some(5), 1, "connect"),
    Versioned(UndefinedFunction, 2, Some(5), 1, "memcpy"),
    Versioned(UndefinedFunction, 7, None, 3, "eventfd_read")
  ]

  const Rows12: seq<Row> := [
    Versioned(UndefinedFunction, 2, Some(5), 1, "socket"),
    Unversioned(0x0, Undefined, 0x0, false, ["dladdr"]),
    Versioned(UndefinedFunction, 2, Some(5), 1, "sendfile"),
    Versioned(UndefinedFunction, 2, Some(5), 1, "__errno_location")
  ]

  const Rows13: seq<Row> := [
    Versioned(WeakUndefinedFunction, 10, None, 2, "accept4"),
    Versioned(UndefinedFunction, 2, Some(5), 1, "strcpy"),
    Versioned(UndefinedFunction, 3, Some(2), 1, "epoll_wait"),
    Versioned(UndefinedFunction, 7, None, 3, "eventfd_write")
  ]

  const Rows14: seq<Row> := [
    Versioned(UndefinedFunction, 2, Some(5), 1, "calloc"),
    Versioned(UndefinedFunction, 3, Some(4), 1, "__xpg_strerror_r"),
    Versioned(UndefinedFunction, 2, Some(5), 1, "writev"),
    Versioned(UndefinedFunction, 2, Some(5), 1, "fclose")
  ]

  const Rows15: seq<Row> := [
    Versioned(UndefinedFunction, 2, Some(5), 1, "recvfrom"),
    Versioned(UndefinedObject, 2, Some(5), 1, "stderr"),
    Versioned(UndefinedFunction, 2, Some(5), 1, "sendto"),
    Versioned(UndefinedFunction, 2, Some(5), 1, "bind")
  ]

  const Rows16: seq<Row> := [
    Versioned(UndefinedFunction, 2, Some(5), 1, "fwrite"),
    Versioned(UndefinedFunction, 8, None, 3, "timerfd_create"),
    Versioned(UndefinedFunction, 2, Some(5), 1, "fprintf"),
    Versioned(UndefinedFunction, 8, None, 3, "timerfd_settime")
  ]

  const Rows17: seq<Row> := [
    Versioned(UndefinedFunction, 2, Some(5), 1, "write"),
    Versioned(UndefinedFunction, 2, Some(5), 1, "accept"),
    Versioned(UndefinedFunction, 2, Some(5), 1, "clock_gettime"),
    Versioned(UndefinedFunction, 2, Some(5), 1, "fcntl")
  ]

  const Rows18: seq<Row> := [
    Versioned(UndefinedFunction, 2, Some(5), 1, "open"),
    Versioned(UndefinedFunction, 2, Some(5), 1, "strndup"),
    Unversioned(0x20f950, GlobalAbsolute, 0x0, true, ["_end"]),
    Unversioned(0x20f864, GlobalAbsolute, 0x0, true, ["_edata"])
  ]

  const Rows19: seq<Row> := [
    Unversioned(0x6fa0, GlobalText, 0x99, true, ["JNI_OnUn", "load_net", "ty_trans", "port_nat", "ive_epol", "l"]),
    Unversioned(0x7040, GlobalText, 0x99, true, ["JNI_OnUn", "load"]),
    Unversioned(0x20f864, GlobalAbsolute, 0x0, true, ["__bss_st", "art"]),
    Unversioned(0x3a60, GlobalInit, 0x0, true, ["_init"])
  ]

  const Rows20: seq<Row> := [
    Unversioned(0xb0c8, GlobalFini, 0x0, true, ["_fini"]),
    Unversioned(0x6430, GlobalText, 0xa, true, ["JNI_OnLo", "ad"]),
    Unversioned(0x6440, GlobalText, 0xa, true, ["JNI_OnLo", "ad_netty", "_transpo", "rt_nativ", "e_epoll"])
  ]

  /** The test's output, in chunks of four rows. */
  const ObjdumpRows: seq<Row> :=
    Rows1 + Rows2 + Rows3 + Rows4 + Rows5 + Rows6 + Rows7 + Rows8
    + Rows9 + Rows10 + Rows11 + Rows12 + Rows13 + Rows14 + Rows15 + Rows16
    + Rows17 + Rows18 + Rows19 + Rows20

  /** OBJDUMP_OUTPUT of the test: the rows joined with newlines. */
  function ObjdumpOutput(): string {
    JoinWith(RowTexts(ObjdumpRows), "\n")
  }

  lemma HexClean(n: nat, width: nat)
    ensures Lacks(Hex(n, width), 'G') && NoLineTerminator(Hex(n, width))
  {
  }

  lemma FlagColumnsClean(f: Flags)
    ensures Lacks(FlagColumns(f), 'G') && NoLineTerminator(FlagColumns(f))
  {
  }

  lemma SectionClean(f: Flags)
    ensures Lacks(Section(f), 'G') && NoLineTerminator(Section(f))
  {
  }

  lemma FlagsClean(f: Flags)
    ensures Lacks(FlagsText(f), 'G') && NoLineTerminator(FlagsText(f))
  {
    var c, s := FlagColumns(f), Section(f);
    FlagColumnsClean(f);
    SectionClean(f);
    LacksAppend(" ", c, 'G');
    LacksAppend(" " + c, " ", 'G');
    LacksAppend(" " + c + " ", s, 'G');
    LacksAppend(" " + c + " " + s, "\t", 'G');
    NoLineTerminatorAppend(" ", c);
    NoLineTerminatorAppend(" " + c, " ");
    NoLineTerminatorAppend(" " + c + " ", s);
    NoLineTerminatorAppend(" " + c + " " + s, "\t");
  }

  /** The head of a versioned line holds no line terminator. */
  lemma UndefinedHeadClean(f: Flags)
    ensures UndefinedHead(f) != "" && NoLineTerminator(UndefinedHead(f))
  {
    var zeros := Hex(0, 16);
    HexClean(0, 16);
    FlagsClean(f);
    NoLineTerminatorAppend(zeros, FlagsText(f));
    NoLineTerminatorAppend(zeros + FlagsText(f), zeros);
    NoLineTerminatorAppend(zeros + FlagsText(f) + zeros, " ");
  }

  /** The names of the output meet what the pattern's last group needs. */
  lemma NameWellFormed(name: string)
    requires NameOk(name)
    ensures NoLineTerminator(name) && Lacks(name, 'G')
    ensures name[0] > ' ' && name[|name| - 1] > ' '
  {
    assert NameChar(name[|name| - 1]);
  }

  lemma PiecesClean(pieces: seq<string>)
    requires PiecesOk(pieces)
    ensures Lacks(JoinWith(pieces, ""), 'G') && Lacks(JoinWith(pieces, ""), '\n')
  {
    assert forall k :: 0 <= k < |pieces| ==> Lacks(pieces[k], 'G') && Lacks(pieces[k], '\n');
    LacksJoin(pieces, "", 'G');
    LacksJoin(pieces, "", '\n');
  }

  /** A heading is one token that never fails the check. */
  lemma HeadingVerdict(ceiling: Version, pieces: seq<string>)
    requires RowOk(Heading(pieces))
    ensures RowText(Heading(pieces)) != "" && Lacks(RowText(Heading(pieces)), '\n')
    ensures CheckLine(ceiling, RowText(Heading(pieces))) == Passed
  {
    PiecesClean(pieces);
    assert |JoinWith(pieces, "")| >= |pieces[0]|;
    CheckLineWithoutMarker(ceiling, JoinWith(pieces, ""));
  }

  /** Two strings without a 'G' or a newline make one without either. */
  lemma PlainAppend(a: string, b: string)
    requires Lacks(a, 'G') && Lacks(a, '\n') && Lacks(b, 'G') && Lacks(b, '\n')
    ensures Lacks(a + b, 'G') && Lacks(a + b, '\n')
  {
    LacksAppend(a, b, 'G');
    LacksAppend(a, b, '\n');
  }

  /** The columns before the name of a symbol without a GLIBC version. */
  lemma UnversionedColumnsClean(address: nat, flags: Flags, size: nat, base: bool)
    ensures var text := Hex(address, 16) + FlagsText(flags) + Hex(size, 16) + VersionColumn(base);
      Lacks(text, 'G') && Lacks(text, '\n')
  {
    var a, f, s, v := Hex(address, 16), FlagsText(flags), Hex(size, 16), VersionColumn(base);
    HexClean(address, 16);
    HexClean(size, 16);
    FlagsClean(flags);
    assert Lacks(v, 'G') && Lacks(v, '\n');
    assert Lacks(a, '\n') && Lacks(f, '\n') && Lacks(s, '\n');
    PlainAppend(a, f);
    PlainAppend(a + f, s);
    PlainAppend(a + f + s, v);
  }

  /** A symbol without a GLIBC version is one token that never fails the
      check. */
  lemma UnversionedVerdict(ceiling: Version, address: nat, flags: Flags, size: nat, base: bool, pieces: seq<string>)
    requires RowOk(Unversioned(address, flags, size, base, pieces))
    ensures var text := RowText(Unversioned(address, flags, size, base, pieces));
      text != "" && Lacks(text, '\n') && CheckLine(ceiling, text) == Passed
  {
    var columns := Hex(address, 16) + FlagsText(flags) + Hex(size, 16) + VersionColumn(base);
    UnversionedColumnsClean(address, flags, size, base);
    PiecesClean(pieces);
    PlainAppend(columns, JoinWith(pieces, ""));
    CheckLineWithoutMarker(ceiling, columns + JoinWith(pieces, ""));
  }

  /** A versioned row is one token, and it fails the check exactly when its
      version is above the ceiling. */
  lemma VersionedVerdict(ceiling: Version, flags: Flags, minor: nat, bugfix: Option<nat>, pad: nat, name: string)
    requires RowOk(Versioned(flags, minor, bugfix, pad, name))
    ensures var r := Versioned(flags, minor, bugfix, pad, name);
      RowText(r) != "" && Lacks(RowText(r), '\n') && CheckLine(ceiling, RowText(r)) == Expect(ceiling, r)
  {
    var head, minorDigits, bugfixDigits, spaces := UndefinedHead(flags), NatToString(minor), BugfixDigits(bugfix), Spaces(pad);
    UndefinedHeadClean(flags);
    NameWellFormed(name);
    assert AllAsciiDigits(bugfixDigits) && DecimalValue(bugfixDigits) == if bugfix.Some? then bugfix.value else 0;
    VersionedClean(head, '2', minorDigits, bugfixDigits, spaces, name);
    CheckVersionedLine(ceiling, head, '2', minorDigits, bugfixDigits, spaces, name);
  }

  /** Each non-blank row is one token, and `check` says about it what the
      row promises. */
  lemma RowVerdict(ceiling: Version, r: Row)
    requires RowOk(r) && !r.Blank?
    ensures RowText(r) != "" && Lacks(RowText(r), '\n')
    ensures CheckLine(ceiling, RowText(r)) == Expect(ceiling, r)
  {
    match r
    case Heading(pieces) => HeadingVerdict(ceiling, pieces);
    case Unversioned(address, flags, size, base, pieces) => UnversionedVerdict(ceiling, address, flags, size, base, pieces);
    case Versioned(flags, minor, bugfix, pad, name) => VersionedVerdict(ceiling, flags, minor, bugfix, pad, name);
  }

  lemma {:induction false} RowsLackNewline(rows: seq<Row>)
    requires AllOk(rows)
    ensures forall k :: 0 <= k < |rows| ==> Lacks(RowText(rows[k]), '\n')
    decreases |rows|
  {
    if |rows| > 0 {
      RowsLackNewline(rows[1..]);
      assert forall k :: 1 <= k < |rows| ==> rows[k] == rows[1..][k - 1];
      if !rows[0].Blank? {
        RowVerdict(Version(0, 0, 0), rows[0]);
      }
    }
  }

  /** Checking the rows' tokens gives what the rows promise. */
  lemma {:induction false} CheckRows(ceiling: Version, rows: seq<Row>)
    requires AllOk(rows)
    ensures CheckLines(ceiling, NonEmpty(RowTexts(rows))) == ExpectAll(ceiling, rows)
    decreases |rows|
  {
    if |rows| > 0 {
      var texts := RowTexts(rows);
      assert texts[1..] == RowTexts(rows[1..]);
      CheckRows(ceiling, rows[1..]);
      if !rows[0].Blank? {
        RowVerdict(ceiling, rows[0]);
        assert NonEmpty(texts) == [texts[0]] + NonEmpty(texts[1..]);
        CheckLinesAppend(ceiling, [texts[0]], NonEmpty(texts[1..]));
        assert CheckLines(ceiling, [texts[0]]) == CheckLine(ceiling, texts[0]);
      }
    }
  }

  lemma {:induction false} AllOkAppend(a: seq<Row>, b: seq<Row>)
    requires AllOk(a) && AllOk(b)
    ensures AllOk(a + b)
    decreases |a|
  {
    if |a| > 0 {
      AllOkAppend(a[1..], b);
      assert (a + b)[1..] == a[1..] + b;
    } else {
      assert a + b == b;
    }
  }

  lemma {:induction false} ExpectAllAppend(ceiling: Version, a: seq<Row>, b: seq<Row>)
    ensures ExpectAll(ceiling, a + b)
         == if ExpectAll(ceiling, a).Passed? then ExpectAll(ceiling, b) else ExpectAll(ceiling, a)
    decreases |a|
  {
    if |a| > 0 {
      ExpectAllAppend(ceiling, a[1..], b);
      assert (a + b)[1..] == a[1..] + b;
    } else {
      assert a + b == b;
    }
  }

  /** Joining two runs of rows that pass under a ceiling. */
  lemma AppendPassing(ceiling: Version, a: seq<Row>, b: seq<Row>)
    requires AllOk(a) && AllOk(b)
    requires ExpectAll(ceiling, a) == Passed && ExpectAll(ceiling, b) == Passed
    ensures AllOk(a + b) && ExpectAll(ceiling, a + b) == Passed
  {
    AllOkAppend(a, b);
    ExpectAllAppend(ceiling, a, b);
  }

  lemma Rows1Ok()
    ensures AllOk(Rows1) && ExpectAll(Version(2, 10, 0), Rows1) == Passed
  {
  }

  lemma Rows2Ok()
    ensures AllOk(Rows2) && ExpectAll(Version(2, 10, 0), Rows2) == Passed
  {
  }

  lemma Rows3Ok()
    ensures AllOk(Rows3) && ExpectAll(Version(2, 10, 0), Rows3) == Passed
  {
  }

  lemma Rows4Ok()
    ensures AllOk(Rows4) && ExpectAll(Version(2, 10, 0), Rows4) == Passed
  {
  }

  lemma Rows5Ok()
    ensures AllOk(Rows5) && ExpectAll(Version(2, 10, 0), Rows5) == Passed
  {
  }

  lemma Rows6Ok()
    ensures AllOk(Rows6) && ExpectAll(Version(2, 10, 0), Rows6) == Passed
  {
  }

  lemma Rows7Ok()
    ensures AllOk(Rows7) && ExpectAll(Version(2, 10, 0), Rows7) == Passed
  {
  }

  lemma Rows8Ok()
    ensures AllOk(Rows8) && ExpectAll(Version(2, 10, 0), Rows8) == Passed
  {
  }

  lemma Rows9Ok()
    ensures AllOk(Rows9) && ExpectAll(Version(2, 10, 0), Rows9) == Passed
  {
  }

  lemma Rows10Ok()
    ensures AllOk(Rows10) && ExpectAll(Version(2, 10, 0), Rows10) == Passed
  {
  }

  lemma Rows11Ok()
    ensures AllOk(Rows11) && ExpectAll(Version(2, 10, 0), Rows11) == Passed
  {
  }

  lemma Rows12Ok()
    ensures AllOk(Rows12) && ExpectAll(Version(2, 10, 0), Rows12) == Passed
  {
  }

  lemma Rows13Ok()
    ensures AllOk(Rows13) && ExpectAll(Version(2, 10, 0), Rows13) == Passed
  {
  }

  lemma Rows14Ok()
    ensures AllOk(Rows14) && ExpectAll(Version(2, 10, 0), Rows14) == Passed
  {
  }

  lemma Rows15Ok()
    ensures AllOk(Rows15) && ExpectAll(Version(2, 10, 0), Rows15) == Passed
  {
  }

  lemma Rows16Ok()
    ensures AllOk(Rows16) && ExpectAll(Version(2, 10, 0), Rows16) == Passed
  {
  }

  lemma Rows17Ok()
    ensures AllOk(Rows17) && ExpectAll(Version(2, 10, 0), Rows17) == Passed
  {
  }

  lemma Rows18Ok()
    ensures AllOk(Rows18) && ExpectAll(Version(2, 10, 0), Rows18) == Passed
  {
  }

  lemma Rows19Ok()
    ensures AllOk(Rows19) && ExpectAll(Version(2, 10, 0), Rows19) == Passed
  {
  }

  lemma Rows20Ok()
    ensures AllOk(Rows20) && ExpectAll(Version(2, 10, 0), Rows20) == Passed
  {
  }

  /** The rows of the test's output are well formed, and none needs more
      than GLIBC 2.10. */
  lemma ObjdumpRowsWithin()
    ensures AllOk(ObjdumpRows) && ExpectAll(Version(2, 10, 0), ObjdumpRows) == Passed
  {
    Rows1Ok();
    Rows2Ok();
    Rows3Ok();
    Rows4Ok();
    Rows5Ok();
    Rows6Ok();
    Rows7Ok();
    Rows8Ok();
    Rows9Ok();
    Rows10Ok();
    Rows11Ok();
    Rows12Ok();
    Rows13Ok();
    Rows14Ok();
    Rows15Ok();
    Rows16Ok();
    Rows17Ok();
    Rows18Ok();
    Rows19Ok();
    Rows20Ok();
    AppendPassing(Version(2, 10, 0), Rows1, Rows2);
    AppendPassing(Version(2, 10, 0), Rows1 + Rows2, Rows3);
    AppendPassing(Version(2, 10, 0), Rows1 + Rows2 + Rows3, Rows4);
    AppendPassing(Version(2, 10, 0), Rows1 + Rows2 + Rows3 + Rows4, Rows5);
    AppendPassing(Version(2, 10, 0), Rows1 + Rows2 + Rows3 + Rows4 + Rows5, Rows6);
    AppendPassing(Version(2, 10, 0), Rows1 + Rows2 + Rows3 + Rows4 + Rows5 + Rows6, Rows7);
    AppendPassing(Version(2, 10, 0), Rows1 + Rows2 + Rows3 + Rows4 + Rows5 + Rows6 + Rows7, Rows8);
    AppendPassing(Version(2, 10, 0), Rows1 + Rows2 + Rows3 + Rows4 + Rows5 + Rows6 + Rows7 + Rows8, Rows9);
    AppendPassing(Version(2, 10, 0), Rows1 + Rows2 + Rows3 + Rows4 + Rows5 + Rows6 + Rows7 + Rows8 + Rows9, Rows10);
    AppendPassing(Version(2, 10, 0), Rows1 + Rows2 + Rows3 + Rows4 + Rows5 + Rows6 + Rows7 + Rows8 + Rows9 + Rows10, Rows11);
    AppendPassing(Version(2, 10, 0), Rows1 + Rows2 + Rows3 + Rows4 + Rows5 + Rows6 + Rows7 + Rows8 + Rows9 + Rows10 + Rows11, Rows12);
    AppendPassing(Version(2, 10, 0), Rows1 + Rows2 + Rows3 + Rows4 + Rows5 + Rows6 + Rows7 + Rows8 + Rows9 + Rows10 + Rows11 + Rows12, Rows13);
    AppendPassing(Version(2, 10, 0), Rows1 + Rows2 + Rows3 + Rows4 + Rows5 + Rows6 + Rows7 + Rows8 + Rows9 + Rows10 + Rows11 + Rows12 + Rows13, Rows14);
    AppendPassing(Version(2, 10, 0), Rows1 + Rows2 + Rows3 + Rows4 + Rows5 + Rows6 + Rows7 + Rows8 + Rows9 + Rows10 + Rows11 + Rows12 + Rows13 + Rows14, Rows15);
    AppendPassing(Version(2, 10, 0), Rows1 + Rows2 + Rows3 + Rows4 + Rows5 + Rows6 + Rows7 + Rows8 + Rows9 + Rows10 + Rows11 + Rows12 + Rows13 + Rows14 + Rows15, Rows16);
    AppendPassing(Version(2, 10, 0), Rows1 + Rows2 + Rows3 + Rows4 + Rows5 + Rows6 + Rows7 + Rows8 + Rows9 + Rows10 + Rows11 + Rows12 + Rows13 + Rows14 + Rows15 + Rows16, Rows17);
    AppendPassing(Version(2, 10, 0), Rows1 + Rows2 + Rows3 + Rows4 + Rows5 + Rows6 + Rows7 + Rows8 + Rows9 + Rows10 + Rows11 + Rows12 + Rows13 + Rows14 + Rows15 + Rows16 + Rows17, Rows18);
    AppendPassing(Version(2, 10, 0), Rows1 + Rows2 + Rows3 + Rows4 + Rows5 + Rows6 + Rows7 + Rows8 + Rows9 + Rows10 + Rows11 + Rows12 + Rows13 + Rows14 + Rows15 + Rows16 + Rows17 + Rows18, Rows19);
    AppendPassing(Version(2, 10, 0), Rows1 + Rows2 + Rows3 + Rows4 + Rows5 + Rows6 + Rows7 + Rows8 + Rows9 + Rows10 + Rows11 + Rows12 + Rows13 + Rows14 + Rows15 + Rows16 + Rows17 + Rows18 + Rows19, Rows20);
  }

  /** Rows after a failing run are never looked at. */
  lemma FailingPrefix(ceiling: Version, a: seq<Row>, b: seq<Row>)
    requires AllOk(a) && AllOk(b) && !ExpectAll(ceiling, a).Passed?
    ensures AllOk(a + b) && ExpectAll(ceiling, a + b) == ExpectAll(ceiling, a)
  {
    AllOkAppend(a, b);
    ExpectAllAppend(ceiling, a, b);
  }

  /** The tokenizer gives back the test's output as its non-blank rows, and
      `check` says about them what the rows promise. */
  lemma CheckObjdump(ceiling: Version)
    ensures AllOk(ObjdumpRows)
    ensures CheckLines(ceiling, Tokens(ObjdumpOutput())) == ExpectAll(ceiling, ObjdumpRows)
  {
    ObjdumpRowsWithin();
    RowsLackNewline(ObjdumpRows);
    TokensOfJoin(RowTexts(ObjdumpRows));
    CheckRows(ceiling, ObjdumpRows);
  }

  lemma Pipe2Versions()
    ensures VersionText(Version(2, 9, 0)) == "2.9.0" && VersionText(Version(2, 8, 1)) == "2.8.1"
  {
  }

  lemma Pipe2Message()
    ensures FailureMessage(Version(2, 8, 1), Requirement(Version(2, 9, 0), "pipe2"))
         == "Required GLIBC 2.9.0 > 2.8.1. Required by 'pipe2'."
  {
    Pipe2Versions();
    MessageFront();
    MessageBack();
    MessageWhole();
  }

  lemma MessageFront()
    ensures "Required GLIBC " + "2.9.0" + " > " == "Required GLIBC 2.9.0 > "
  {
  }

  lemma MessageBack()
    ensures "2.8.1" + ". Required by '" + "pipe2" + "'." == "2.8.1. Required by 'pipe2'."
  {
  }

  lemma MessageWhole()
    ensures "Required GLIBC 2.9.0 > " + "2.8.1. Required by 'pipe2'." == "Required GLIBC 2.9.0 > 2.8.1. Required by 'pipe2'."
  {
  }

  /** pipe2, the sixth row, is the first to need more than GLIBC 2.8.1. */
  lemma Pipe2First()
    ensures AllOk(Rows1 + Rows2)
    ensures ExpectAll(Version(2, 8, 1), Rows1 + Rows2)
         == Failed(FailureMessage(Version(2, 8, 1), Requirement(Version(2, 9, 0), "pipe2")))
  {
    Rows1Ok();
    Rows2Ok();
    AllOkAppend(Rows1, Rows2);
    assert ExpectAll(Version(2, 8, 1), Rows1) == Passed;
    ExpectAllAppend(Version(2, 8, 1), Rows1, Rows2);
  }

  lemma ObjdumpFirstAbove()
    ensures AllOk(ObjdumpRows)
    ensures ExpectAll(Version(2, 8, 1), ObjdumpRows)
         == Failed(FailureMessage(Version(2, 8, 1), Requirement(Version(2, 9, 0), "pipe2")))
  {
    var low := Version(2, 8, 1);
    Pipe2First();
    Rows3Ok();
    Rows4Ok();
    Rows5Ok();
    Rows6Ok();
    Rows7Ok();
    Rows8Ok();
    Rows9Ok();
    Rows10Ok();
    Rows11Ok();
    Rows12Ok();
    Rows13Ok();
    Rows14Ok();
    Rows15Ok();
    Rows16Ok();
    Rows17Ok();
    Rows18Ok();
    Rows19Ok();
    Rows20Ok();
    FailingPrefix(low, Rows1 + Rows2, Rows3);
    FailingPrefix(low, Rows1 + Rows2 + Rows3, Rows4);
    FailingPrefix(low, Rows1 + Rows2 + Rows3 + Rows4, Rows5);
    FailingPrefix(low, Rows1 + Rows2 + Rows3 + Rows4 + Rows5, Rows6);
    FailingPrefix(low, Rows1 + Rows2 + Rows3 + Rows4 + Rows5 + Rows6, Rows7);
    FailingPrefix(low, Rows1 + Rows2 + Rows3 + Rows4 + Rows5 + Rows6 + Rows7, Rows8);
    FailingPrefix(low, Rows1 + Rows2 + Rows3 + Rows4 + Rows5 + Rows6 + Rows7 + Rows8, Rows9);
    FailingPrefix(low, Rows1 + Rows2 + Rows3 + Rows4 + Rows5 + Rows6 + Rows7 + Rows8 + Rows9, Rows10);
    FailingPrefix(low, Rows1 + Rows2 + Rows3 + Rows4 + Rows5 + Rows6 + Rows7 + Rows8 + Rows9 + Rows10, Rows11);
    FailingPrefix(low, Rows1 + Rows2 + Rows3 + Rows4 + Rows5 + Rows6 + Rows7 + Rows8 + Rows9 + Rows10 + Rows11, Rows12);
    FailingPrefix(low, Rows1 + Rows2 + Rows3 + Rows4 + Rows5 + Rows6 + Rows7 + Rows8 + Rows9 + Rows10 + Rows11 + Rows12, Rows13);
    FailingPrefix(low, Rows1 + Rows2 + Rows3 + Rows4 + Rows5 + Rows6 + Rows7 + Rows8 + Rows9 + Rows10 + Rows11 + Rows12 + Rows13, Rows14);
    FailingPrefix(low, Rows1 + Rows2 + Rows3 + Rows4 + Rows5 + Rows6 + Rows7 + Rows8 + Rows9 + Rows10 + Rows11 + Rows12 + Rows13 + Rows14, Rows15);
    FailingPrefix(low, Rows1 + Rows2 + Rows3 + Rows4 + Rows5 + Rows6 + Rows7 + Rows8 + Rows9 + Rows10 + Rows11 + Rows12 + Rows13 + Rows14 + Rows15, Rows16);
    FailingPrefix(low, Rows1 + Rows2 + Rows3 + Rows4 + Rows5 + Rows6 + Rows7 + Rows8 + Rows9 + Rows10 + Rows11 + Rows12 + Rows13 + Rows14 + Rows15 + Rows16, Rows17);
    FailingPrefix(low, Rows1 + Rows2 + Rows3 + Rows4 + Rows5 + Rows6 + Rows7 + Rows8 + Rows9 + Rows10 + Rows11 + Rows12 + Rows13 + Rows14 + Rows15 + Rows16 + Rows17, Rows18);
    FailingPrefix(low, Rows1 + Rows2 + Rows3 + Rows4 + Rows5 + Rows6 + Rows7 + Rows8 + Rows9 + Rows10 + Rows11 + Rows12 + Rows13 + Rows14 + Rows15 + Rows16 + Rows17 + Rows18, Rows19);
    FailingPrefix(low, Rows1 + Rows2 + Rows3 + Rows4 + Rows5 + Rows6 + Rows7 + Rows8 + Rows9 + Rows10 + Rows11 + Rows12 + Rows13 + Rows14 + Rows15 + Rows16 + Rows17 + Rows18 + Rows19, Rows20);
  }

  /** testMaxVersionLower: under the ceiling 2.8.1 the check fails on pipe2,
      the first symbol that needs more (GLIBC 2.9). */
  lemma MaxVersionLower()
    ensures CheckLines(Version(2, 8, 1), Tokens(ObjdumpOutput()))
         == Failed("Required GLIBC 2.9.0 > 2.8.1. Required by 'pipe2'.")
  {
    CheckObjdump(Version(2, 8, 1));
    ObjdumpFirstAbove();
    Pipe2Message();
  }

  /** testMaxVersionMatch: the ceiling 2.10.0, the highest version the output
      needs (accept4), lets it pass. */
  lemma MaxVersionMatch()
    ensures CheckLines(Version(2, 10, 0), Tokens(ObjdumpOutput())) == Passed
  {
    CheckObjdump(Version(2, 10, 0));
    ObjdumpRowsWithin();
  }

  /** testMaxVersionHigher: so does the ceiling 2.10.1. */
  lemma MaxVersionHigher()
    ensures CheckLines(Version(2, 10, 1), Tokens(ObjdumpOutput())) == Passed
  {
    MaxVersionMatch();
    RaisingCeilingKeepsPassing(Version(2, 10, 0), Version(2, 10, 1), Tokens(ObjdumpOutput()));
  }
}
