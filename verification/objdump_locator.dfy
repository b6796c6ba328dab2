/** Choosing the objdump executable at the start of `execute`: a configured
    path is taken as it is; otherwise the operating system's name picks one
    of two well-known installation paths, which must exist and be executable. */
module ObjdumpLocator {
  import opened Results
  import opened Strings

  /** `[a-z0-9]`: the characters the OS-name normalisation keeps. */
  predicate IsLowerAlnum(c: char) {
    'a' <= c <= 'z' || '0' <= c <= '9'
  }

  predicate AllLowerAlnum(s: string) {
    forall i :: 0 <= i < |s| ==> IsLowerAlnum(s[i])
  }

  /** `replaceAll("[^a-z0-9]+", "")`: removing every run of other characters
      is removing every other character. */
  function KeepLowerAlnum(s: string): (r: string)
    ensures AllLowerAlnum(r)
    ensures |r| <= |s|
  {
    if |s| == 0 then ""
    else if IsLowerAlnum(s[0]) then [s[0]] + KeepLowerAlnum(s[1..])
    else KeepLowerAlnum(s[1..])
  }

  /** The normalisation works piece by piece. */
  lemma {:induction false} KeepLowerAlnumAppend(a: string, b: string)
    ensures KeepLowerAlnum(a + b) == KeepLowerAlnum(a) + KeepLowerAlnum(b)
    decreases |a|
  {
    if |a| == 0 {
      assert a + b == b;
    } else {
      assert (a + b)[0] == a[0];
      assert (a + b)[1..] == a[1..] + b;
      KeepLowerAlnumAppend(a[1..], b);
    }
  }

  /** Text made of kept characters only is left as it is. */
  lemma {:induction false} KeepLowerAlnumOfClean(s: string)
    requires AllLowerAlnum(s)
    ensures KeepLowerAlnum(s) == s
    decreases |s|
  {
    if |s| > 0 {
      KeepLowerAlnumOfClean(s[1..]);
    }
  }

  /** Normalising twice is normalising once. */
  lemma KeepLowerAlnumIdempotent(s: string)
    ensures KeepLowerAlnum(KeepLowerAlnum(s)) == KeepLowerAlnum(s)
  {
    KeepLowerAlnumOfClean(KeepLowerAlnum(s));
  }

  /** The characters kept are those of the input, in order: removing the
      others never creates a character that was not there. */
  lemma {:induction false} KeptCharactersComeFromInput(s: string, i: nat)
    requires i < |KeepLowerAlnum(s)|
    ensures exists j :: 0 <= j < |s| && s[j] == KeepLowerAlnum(s)[i]
    decreases |s|
  {
    if IsLowerAlnum(s[0]) && i == 0 {
      assert s[0] == KeepLowerAlnum(s)[0];
    } else {
      var i' := if IsLowerAlnum(s[0]) then i - 1 else i;
      KeptCharactersComeFromInput(s[1..], i');
      var j :| 0 <= j < |s[1..]| && s[1..][j] == KeepLowerAlnum(s[1..])[i'];
      assert s[j + 1] == KeepLowerAlnum(s)[i];
    }
  }

  /** `System.getProperty("os.name", "")` lower-cased with Locale.US and
      stripped of everything but letters and digits. */
  function NormalizeOsName(osName: Option<string>): string {
    var name := if osName.Some? then osName.value else "";
    KeepLowerAlnum(ToLowerAscii(name))
  }

  /** The test `execute` applies to the normalised name. */
  predicate IsMacOsName(normalized: string) {
    StartsWith(normalized, "macosx") || StartsWith(normalized, "osx")
  }

  /** An installation path and the hint printed when it is missing. */
  datatype Candidate = Candidate(path: string, install: string)

  const MacObjdump := Candidate("/usr/local/opt/binutils/bin/gobjdump", "brew install binutils")
  const DefaultObjdump := Candidate("/usr/bin/objdump", "apt-get|yum install binutils")

  function CandidateFor(osName: Option<string>): (c: Candidate)
    ensures c == MacObjdump || c == DefaultObjdump
    ensures c == MacObjdump <==> IsMacOsName(NormalizeOsName(osName))
  {
    if IsMacOsName(NormalizeOsName(osName)) then MacObjdump else DefaultObjdump
  }

  /** The message `checkObjdumpExists` throws. */
  function MissingToolMessage(c: Candidate): string {
    "Unable to execute '" + c.path + "'." + " May need to install it via '" + c.install + "'."
  }

  /** `checkObjdumpExists`: the path itself when the file exists and can be
      executed (`usable`, a question put to the file system), an error naming
      the path and the install hint otherwise. */
  function CheckObjdumpExists(c: Candidate, usable: string -> bool): (r: Result<string>)
    ensures r.Ok? <==> usable(c.path)
    ensures r.Ok? ==> r.value == c.path
    ensures r.Err? ==> StartsWith(r.message, "Unable to execute '" + c.path + "'.")
  {
    if usable(c.path) then Ok(c.path) else Err(MissingToolMessage(c))
  }

  /** The objdump `execute` goes on with, or the error that stops it. */
  function LocateObjdump(configured: Option<string>, osName: Option<string>, usable: string -> bool): (r: Result<string>)
    ensures configured.Some? ==> r == Ok(configured.value)
    ensures configured.None? && r.Ok? ==> r.value == MacObjdump.path || r.value == DefaultObjdump.path
    ensures configured.None? ==> (r.Ok? <==> usable(CandidateFor(osName).path))
  {
    if configured.Some? then Ok(configured.value)
    else CheckObjdumpExists(CandidateFor(osName), usable)
  }

  /** A configured path is used even when the file system would reject it. */
  lemma ConfiguredPathWins(path: string, osName: Option<string>, usable: string -> bool)
    ensures LocateObjdump(Some(path), osName, usable) == Ok(path)
  {
  }

  /** Lower-casing works piece by piece. */
  lemma LowerAppend(a: string, b: string)
    ensures ToLowerAscii(a + b) == ToLowerAscii(a) + ToLowerAscii(b)
  {
    var r, ra, rb := ToLowerAscii(a + b), ToLowerAscii(a), ToLowerAscii(b);
    assert forall i :: 0 <= i < |a| ==> (a + b)[i] == a[i];
    assert forall i :: |a| <= i < |a + b| ==> (a + b)[i] == b[i - |a|];
    assert forall i :: 0 <= i < |r| ==> r[i] == (ra + rb)[i];
  }

  lemma MacOsXLowered()
    ensures ToLowerAscii("Mac OS X") == "mac os x"
  {
  }

  lemma MacOsXKept()
    ensures KeepLowerAlnum("mac os x") == "macosx"
  {
    assert KeepLowerAlnum("x") == "x";
    assert KeepLowerAlnum(" x") == "x";
    assert KeepLowerAlnum("s x") == "sx";
    assert KeepLowerAlnum("os x") == "osx";
    assert KeepLowerAlnum(" os x") == "osx";
    assert KeepLowerAlnum("c os x") == "cosx";
    assert KeepLowerAlnum("ac os x") == "acosx";
  }

  /** Any OS name that reads "Mac OS X" up to case, spaces and punctuation
      selects the Homebrew binutils, whatever follows. */
  lemma MacOsXSelectsHomebrew(rest: string)
    ensures CandidateFor(Some("Mac OS X" + rest)) == MacObjdump
  {
    LowerAppend("Mac OS X", rest);
    MacOsXLowered();
    KeepLowerAlnumAppend("mac os x", ToLowerAscii(rest));
    MacOsXKept();
  }

  /** So does a name that starts "OSX". */
  lemma OsxSelectsHomebrew(rest: string)
    ensures CandidateFor(Some("OSX" + rest)) == MacObjdump
  {
    LowerAppend("OSX", rest);
    assert ToLowerAscii("OSX") == "osx";
    KeepLowerAlnumAppend("osx", ToLowerAscii(rest));
    KeepLowerAlnumOfClean("osx");
  }

  /** Linux, and a missing `os.name`, take the default path. */
  lemma LinuxSelectsDefault()
    ensures CandidateFor(Some("Linux")) == DefaultObjdump
    ensures CandidateFor(None) == DefaultObjdump
  {
    assert ToLowerAscii("Linux") == "linux";
    KeepLowerAlnumOfClean("linux");
  }

  /** A name that differs from a prefix at some position does not start with it. */
  lemma MismatchIsNoPrefix(s: string, prefix: string, i: nat)
    requires i < |s| && i < |prefix| && s[i] != prefix[i]
    ensures !StartsWith(s, prefix)
  {
  }

  lemma MacOsLowered()
    ensures ToLowerAscii("macOS") == "macos"
  {
  }

  lemma OpenBsdLowered()
    ensures ToLowerAscii("OpenBSD") == "openbsd"
  {
  }

  /** "macOS" normalises to "macos", which is neither "macosx" nor "osx"
      followed by anything: such a name takes the default path. */
  lemma MacOsSelectsDefault()
    ensures CandidateFor(Some("macOS")) == DefaultObjdump
  {
    MacOsLowered();
    KeepLowerAlnumOfClean("macos");
    assert !StartsWith("macos", "macosx");
  }

  /** "OpenBSD" starts with 'o' but not with "osx": the default path too. */
  lemma OpenBsdSelectsDefault()
    ensures CandidateFor(Some("OpenBSD")) == DefaultObjdump
  {
    OpenBsdLowered();
    KeepLowerAlnumOfClean("openbsd");
    MismatchIsNoPrefix("openbsd", "macosx", 0);
    MismatchIsNoPrefix("openbsd", "osx", 1);
  }

  /** A name whose normalised form starts with any kept character other than
      'm' or 'o' cannot be a Mac name. */
  lemma OtherInitialSelectsDefault(osName: string)
    requires var n := NormalizeOsName(Some(osName)); |n| > 0 && n[0] != 'm' && n[0] != 'o'
    ensures CandidateFor(Some(osName)) == DefaultObjdump
  {
    var n := NormalizeOsName(Some(osName));
    assert "macosx"[0] == 'm' && "osx"[0] == 'o';
  }
}
