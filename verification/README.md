# netty-build: the GLIBC version check and three checkstyle helpers

This project models four pieces of netty-build in Dafny.

- **The `versioncheck` Maven goal** (`GlibcVersionCheckMojo`). It
  locates `objdump`, reads the `maxGlibcVersion` ceiling ("2", "2.17" or
  "2.17.1"), runs `objdump -T` on a native library and scans every output
  line with `GLIBC_PATTERN`. The build fails on the first symbol that needs
  a GLIBC newer than the ceiling.
- **`NewlineCheck`**. This checkstyle check reports a file when its text
  contains a line-terminator character that the platform's line separator
  does not allow.
- **`StaticFinalBufferCheck`**. This checkstyle check requires every
  `static final ...Buf` field to be initialised with
  `Unpooled.unreleasableBuffer(...).asReadOnly()`.
- **`SuppressionFilter`**. This checkstyle filter drops audit events by file
  name, by the name of the check that raised them, and by an "examples"
  file-name pattern.

## Modules

- `Results`, `Strings`, `Numbers` model the Java library calls the code
  relies on:
  - `StringTokenizer` with a newline delimiter (`Strings.Tokens`);
  - `String.split("\\.")` (`Strings.JavaSplit`);
  - `String.trim`;
  - ASCII `toLowerCase`;
  - `Integer.parseInt` with its 32-bit range (`Numbers.ParseInt`).
- `GlibcVersion` holds the version triple and its ordering. Its ordering is
  the nested comparison of `check`. It also parses the ceiling.
- `GlibcPattern` matches `GLIBC_PATTERN` with `Matcher.matches()`. Java's `.`
  does not match a line terminator. Among all ways to match, the model
  picks the one Java's greedy backtracking reports. It then turns groups
  1, 2, 4 and 5 into a requirement.
- `GlibcCheck` models `check` and `failure`: a fail-fast loop over the
  tokenizer's lines.
- `ObjdumpLocator` models how `execute` chooses the tool from `os.name`, and
  also `checkObjdumpExists`.
- `GlibcMojo` models `execute`, with the file system and the subprocess as
  oracles.
- `GlibcFixture` rebuilds the objdump output of the plugin's unit test and
  proves the three test scenarios.
- `Checkstyle`, `NewlineCheck`, `StaticFinalBufferCheck` and
  `SuppressionFilter` model the checkstyle side.

Some behaviour is modelled as written because it is what the code does:

- With the `RS` line separator (U+001E), `processFiltered` reports any file
  that contains U+001E. That is the platform's own separator.
- `SuppressionFilter.accept` dereferences `pattern` without a null check.
  With no pattern configured, every event that the JBoss rule has not
  already rejected raises a NullPointerException. The model returns `None`
  for that case.
- The two `.` between the version components of `GLIBC_PATTERN` are not
  escaped. They match any character except a line terminator, so
  " GLIBC_2x17" is read as version 2.17.
- A found minor or bugfix version that overflows `int` throws a
  NumberFormatException from `check`. Nothing catches it, so the model
  carries it out of `execute` as its own outcome.

## Model

| member | source | states |
|---|---|---|
| Strings.Contains | src/main/java/io/netty/build/checkstyle/SuppressionFilter.java:42 | `find()` of a literal pattern succeeds exactly when the literal occurs somewhere in the text. |
| Strings.IndexOf | src/main/java/io/netty/build/checkstyle/NewlineCheck.java:65 | `indexOf` is -1 exactly when the character is absent. Otherwise it is the position of its first occurrence. |
| Strings.ReplaceChar | src/main/java/io/netty/build/checkstyle/SuppressionFilter.java:41 | `replace` keeps the length and swaps every occurrence of one character, and only those, for another. |
| Strings.SplitOn | glibccheck-maven-plugin/src/main/java/io/netty/build/maven/GlibcVersionCheckMojo.java:64 | Splitting on a character gives pieces free of it that join back, with that character, to the input. |
| Strings.SplitJoin | glibccheck-maven-plugin/src/main/java/io/netty/build/maven/GlibcVersionCheckMojo.java:64 | Splitting the join of pieces free of the separator gives the pieces back. |
| Strings.JavaSplit | glibccheck-maven-plugin/src/main/java/io/netty/build/maven/GlibcVersionCheckMojo.java:64 | `String.split` leaves text without the separator whole, and its parts never contain the separator. Otherwise the parts are the full split with only empty pieces dropped from its end, and the last part is never empty. |
| Strings.JavaSplitTrailingEmpties | glibccheck-maven-plugin/src/main/java/io/netty/build/maven/GlibcVersionCheckMojo.java:64 | Pieces followed by any number of trailing separators split back into the pieces: the trailing empty pieces are dropped. |
| Strings.JavaSplitOnlySeparators | glibccheck-maven-plugin/src/main/java/io/netty/build/maven/GlibcVersionCheckMojo.java:64 | Text made of separators alone splits into no parts at all. |
| Strings.DropTrailingEmpties | glibccheck-maven-plugin/src/main/java/io/netty/build/maven/GlibcVersionCheckMojo.java:64 | Dropping trailing empty pieces removes exactly the empties added after a non-empty last piece. |
| Strings.JavaSplitJoin | glibccheck-maven-plugin/src/main/java/io/netty/build/maven/GlibcVersionCheckMojo.java:64 | `String.split` gives back any pieces joined by the separator, provided the last piece is not empty. |
| Strings.Tokens | glibccheck-maven-plugin/src/main/java/io/netty/build/maven/GlibcVersionCheckMojo.java:134-136 | The tokenizer yields non-empty lines without a newline. |
| Strings.TokensConcat | glibccheck-maven-plugin/src/main/java/io/netty/build/maven/GlibcVersionCheckMojo.java:134-136 | Tokenizing texts joined by a newline is tokenizing each in turn. |
| Strings.TokensJoin | glibccheck-maven-plugin/src/main/java/io/netty/build/maven/GlibcVersionCheckMojo.java:134-136 | Non-empty lines joined by newlines tokenize back into those lines. |
| Strings.JavaTrim | glibccheck-maven-plugin/src/main/java/io/netty/build/maven/GlibcVersionCheckMojo.java:142 | `trim` never lengthens the text, and what it leaves starts and ends above ' '. |
| Strings.JavaTrimRemovesBlankEnds | glibccheck-maven-plugin/src/main/java/io/netty/build/maven/GlibcVersionCheckMojo.java:142 | `trim` returns a piece of the text with only characters up to ' ' around it. |
| Strings.TrimPadded | glibccheck-maven-plugin/src/main/java/io/netty/build/maven/GlibcVersionCheckMojo.java:142 | A name padded with blanks in front trims back to the name. |
| Strings.ToLowerAscii | glibccheck-maven-plugin/src/main/java/io/netty/build/maven/GlibcVersionCheckMojo.java:55 | Lower-casing keeps the length and maps each ASCII capital to its small letter, leaving every other character alone. |
| Numbers.NatToString | glibccheck-maven-plugin/src/main/java/io/netty/build/maven/GlibcVersionCheckMojo.java:174-176 | The decimal text of a number is a non-empty digit string with no leading zero, and it reads back as that number. `failure` builds its message this way. |
| Numbers.ParseInt | glibccheck-maven-plugin/src/main/java/io/netty/build/maven/GlibcVersionCheckMojo.java:139-142 | Integer.parseInt succeeds exactly on an optional '-' or '+' followed by at least one ASCII digit whose signed value fits an `int`, and then gives that signed value. It fails on "", "-" and "+". |
| Numbers.ParseIntRejectsNonDigit | glibccheck-maven-plugin/src/main/java/io/netty/build/maven/GlibcVersionCheckMojo.java:74-83 | Any character that is not a digit, other than a leading sign, makes Integer.parseInt fail. |
| Numbers.ParseIntToString | glibccheck-maven-plugin/src/main/java/io/netty/build/maven/GlibcVersionCheckMojo.java:74-83 | Every `int` written in decimal parses back to itself. |
| GlibcVersion.ExceedsIsLexicographic | glibccheck-maven-plugin/src/main/java/io/netty/build/maven/GlibcVersionCheckMojo.java:143-153 | The nested major/minor/bugfix comparison of `check` is exactly lexicographic "greater than" on the triple. |
| GlibcVersion.ExceedsIrreflexive | glibccheck-maven-plugin/src/main/java/io/netty/build/maven/GlibcVersionCheckMojo.java:143-153 | A version never exceeds itself, so the ceiling itself passes. |
| GlibcVersion.ExceedsTransitive | glibccheck-maven-plugin/src/main/java/io/netty/build/maven/GlibcVersionCheckMojo.java:143-153 | Exceeding is transitive. |
| GlibcVersion.ExceedsTrichotomy | glibccheck-maven-plugin/src/main/java/io/netty/build/maven/GlibcVersionCheckMojo.java:143-153 | Two versions are equal, or exactly one of them exceeds the other. |
| GlibcVersion.ParseCeiling | glibccheck-maven-plugin/src/main/java/io/netty/build/maven/GlibcVersionCheckMojo.java:64-88 | The ceiling reads when the text splits on '.' into one to three parts, each of them an `int`. Missing parts are 0. Any other text is an error quoting the text after "Unable to parse maxGlibcVersion: ". |
| GlibcVersion.CeilingRoundTrip | glibccheck-maven-plugin/src/main/java/io/netty/build/maven/GlibcVersionCheckMojo.java:64-88 | The text "major.minor.bugfix" of any version reads back as that version. |
| GlibcVersion.CeilingMajorOnly | glibccheck-maven-plugin/src/main/java/io/netty/build/maven/GlibcVersionCheckMojo.java:74-77 | A ceiling given as a major version alone means major.0.0. |
| GlibcVersion.CeilingMajorMinor | glibccheck-maven-plugin/src/main/java/io/netty/build/maven/GlibcVersionCheckMojo.java:79-81 | A ceiling "major.minor" means major.minor.0. |
| GlibcVersion.CeilingMajorTrailingDots | glibccheck-maven-plugin/src/main/java/io/netty/build/maven/GlibcVersionCheckMojo.java:64-88 | Trailing dots are dropped by String.split, so "major." and "major..." read as major.0.0. |
| GlibcVersion.CeilingTrailingDots | glibccheck-maven-plugin/src/main/java/io/netty/build/maven/GlibcVersionCheckMojo.java:64-88 | Likewise "major.minor" followed by any number of dots reads as major.minor.0. |
| GlibcVersion.CeilingOnlyDots | glibccheck-maven-plugin/src/main/java/io/netty/build/maven/GlibcVersionCheckMojo.java:64-66 | A ceiling made of dots only splits into no parts and is refused with the ceiling's error message. |
| GlibcVersion.CeilingNonIntegerPart | glibccheck-maven-plugin/src/main/java/io/netty/build/maven/GlibcVersionCheckMojo.java:73-88 | If any part of the split ceiling is refused by Integer.parseInt, the whole ceiling is refused. |
| GlibcVersion.CeilingNonDigitMinor | glibccheck-maven-plugin/src/main/java/io/netty/build/maven/GlibcVersionCheckMojo.java:73-88 | A minor part with a non-digit in it (other than a leading sign), such as "2.x", makes the ceiling an error. |
| GlibcVersion.CeilingTooManyParts | glibccheck-maven-plugin/src/main/java/io/netty/build/maven/GlibcVersionCheckMojo.java:64-66 | Four parts are rejected with the ceiling error, whatever the parts are. |
| GlibcPattern.MatchLine | glibccheck-maven-plugin/src/main/java/io/netty/build/maven/GlibcVersionCheckMojo.java:42 | A line matches GLIBC_PATTERN exactly when some way of matching the whole line exists. The match reported is a valid one, and it is the first that Java's greedy backtracking tries. |
| GlibcPattern.Assemble | glibccheck-maven-plugin/src/main/java/io/netty/build/maven/GlibcVersionCheckMojo.java:139-142 | Groups that fit an `int` give the requirement with those numbers and the symbol. An absent group 4 reads as bugfix 0. Otherwise the digits that overflow are reported. |
| GlibcPattern.ParseLine | glibccheck-maven-plugin/src/main/java/io/netty/build/maven/GlibcVersionCheckMojo.java:137-142 | A requirement read from a line has a single-digit major version and non-negative minor and bugfix versions. An overflow names a digit run above the `int` range. |
| GlibcPattern.LastMarker | glibccheck-maven-plugin/src/main/java/io/netty/build/maven/GlibcVersionCheckMojo.java:42 | A " GLIBC_" with no 'G' after it is the last one in the line. |
| GlibcPattern.BestMatch | glibccheck-maven-plugin/src/main/java/io/netty/build/maven/GlibcVersionCheckMojo.java:42 | A match at the last " GLIBC_" whose digit runs cannot be extended is the one Java reports. |
| GlibcPattern.VersionedLineMatch | glibccheck-maven-plugin/src/main/java/io/netty/build/maven/GlibcVersionCheckMojo.java:42 | On a well-formed versioned objdump line, Java reports the marker after the head, with the minor and bugfix digits as written. |
| GlibcPattern.TrimmedSymbol | glibccheck-maven-plugin/src/main/java/io/netty/build/maven/GlibcVersionCheckMojo.java:142 | Trimming group 5 gives the symbol name without its padding. |
| GlibcPattern.AssembleFitting | glibccheck-maven-plugin/src/main/java/io/netty/build/maven/GlibcVersionCheckMojo.java:139-142 | Groups whose numbers fit an `int` give exactly the requirement they spell. |
| GlibcPattern.AssembleOverflow | glibccheck-maven-plugin/src/main/java/io/netty/build/maven/GlibcVersionCheckMojo.java:139-141 | Group 2 is parsed before group 4, so an overflowing minor version is the one reported. |
| GlibcPattern.ReadingOfMatch | glibccheck-maven-plugin/src/main/java/io/netty/build/maven/GlibcVersionCheckMojo.java:137-142 | For a line that matches, the major version is the single digit after "GLIBC_", and groups 2 and 4 are digit runs. The line reads as a requirement exactly when both groups fit an `int`. The requirement is then (major, group 2, group 4) with the trimmed symbol name, and otherwise the offending digits are group 2 or group 4. |
| GlibcPattern.ParseVersionedLine | glibccheck-maven-plugin/src/main/java/io/netty/build/maven/GlibcVersionCheckMojo.java:137-142 | A well-formed versioned line reads as its major digit, its minor and bugfix digits and its name. |
| GlibcPattern.VersionedLineParsed | glibccheck-maven-plugin/src/main/java/io/netty/build/maven/GlibcVersionCheckMojo.java:137-142 | A versioned line whose numbers fit gives the requirement it spells. A missing bugfix is 0. |
| GlibcPattern.VersionedLineOverflow | glibccheck-maven-plugin/src/main/java/io/netty/build/maven/GlibcVersionCheckMojo.java:140 | A versioned line whose minor version overflows an `int` gives the NumberFormatException for those digits. |
| GlibcPattern.SkippedIffNoMatch | glibccheck-maven-plugin/src/main/java/io/netty/build/maven/GlibcVersionCheckMojo.java:137-138 | A line is ignored exactly when the pattern cannot match it. |
| GlibcPattern.SkipWithoutMarker | glibccheck-maven-plugin/src/main/java/io/netty/build/maven/GlibcVersionCheckMojo.java:137-138 | Lines with no 'G' are ignored: headers, unversioned symbols and "Base" lines. |
| GlibcPattern.SkipWithTerminator | glibccheck-maven-plugin/src/main/java/io/netty/build/maven/GlibcVersionCheckMojo.java:42 | A line holding a line terminator (such as the '\r' of CRLF output) never matches, because `.` does not match it. |
| GlibcCheck.FirstFailure | glibccheck-maven-plugin/src/main/java/io/netty/build/maven/GlibcVersionCheckMojo.java:134-155 | A fail-fast loop passes exactly when every verdict passes. Otherwise its outcome is the first verdict that does not pass. |
| GlibcCheck.Verdicts | glibccheck-maven-plugin/src/main/java/io/netty/build/maven/GlibcVersionCheckMojo.java:134-137 | Each line the tokenizer gives is judged on its own. |
| GlibcCheck.CheckLines | glibccheck-maven-plugin/src/main/java/io/netty/build/maven/GlibcVersionCheckMojo.java:133-156 | `check` passes exactly when every line passes. Otherwise it throws what the first failing line throws. |
| GlibcCheck.Check | glibccheck-maven-plugin/src/main/java/io/netty/build/maven/GlibcVersionCheckMojo.java:133-156 | The tokenizer loop computes the same outcome as the fail-fast definition over the non-empty lines of the output. |
| GlibcCheck.CheckLinesAppend | glibccheck-maven-plugin/src/main/java/io/netty/build/maven/GlibcVersionCheckMojo.java:135-155 | Checking two runs of lines is checking the first, and then the second only if the first passed. |
| GlibcCheck.CheckTextConcat | glibccheck-maven-plugin/src/main/java/io/netty/build/maven/GlibcVersionCheckMojo.java:134-155 | Checking two texts joined by a newline is checking them in turn. |
| GlibcCheck.WithinHigherCeiling | glibccheck-maven-plugin/src/main/java/io/netty/build/maven/GlibcVersionCheckMojo.java:143-153 | A version within a ceiling is within any higher ceiling. |
| GlibcCheck.RaisingCeilingKeepsPassing | glibccheck-maven-plugin/src/main/java/io/netty/build/maven/GlibcVersionCheckMojo.java:133-156 | Output that passes under a ceiling passes under every higher ceiling. |
| GlibcCheck.FailureIsAboveCeiling | glibccheck-maven-plugin/src/main/java/io/netty/build/maven/GlibcVersionCheckMojo.java:143-153 | A failure always names a requirement, read from some line, that is above the ceiling, in `failure`'s wording. |
| GlibcCheck.CheckVersionedLine | glibccheck-maven-plugin/src/main/java/io/netty/build/maven/GlibcVersionCheckMojo.java:137-172 | A versioned line fails exactly when its version exceeds the ceiling, with the message naming both versions and the symbol. |
| GlibcCheck.CheckOverflowingLine | glibccheck-maven-plugin/src/main/java/io/netty/build/maven/GlibcVersionCheckMojo.java:140 | A versioned line whose minor version overflows ends the check with a NumberFormatException. |
| GlibcCheck.CheckLineWithoutMarker | glibccheck-maven-plugin/src/main/java/io/netty/build/maven/GlibcVersionCheckMojo.java:137-138 | A line with no 'G' always passes. |
| GlibcFixture.CheckRows | glibccheck-maven-plugin/src/test/java/io/netty/build/maven/GlibcVersionCheckMojoTest.java:23-101 | On well-formed objdump rows, `check` gives what each row's version says, row by row. |
| GlibcFixture.CheckObjdump | glibccheck-maven-plugin/src/test/java/io/netty/build/maven/GlibcVersionCheckMojoTest.java:23-101 | The test's objdump output tokenizes into its rows, and `check` on it says what the rows promise. |
| GlibcFixture.ObjdumpRowsWithin | glibccheck-maven-plugin/src/test/java/io/netty/build/maven/GlibcVersionCheckMojoTest.java:23-101 | No row of the test output needs more than GLIBC 2.10. |
| GlibcFixture.MaxVersionLower | glibccheck-maven-plugin/src/test/java/io/netty/build/maven/GlibcVersionCheckMojoTest.java:103-106 | Under the ceiling 2.8.1 the test output fails on pipe2 (GLIBC 2.9), with `failure`'s exact message. |
| GlibcFixture.MaxVersionMatch | glibccheck-maven-plugin/src/test/java/io/netty/build/maven/GlibcVersionCheckMojoTest.java:108-111 | Under the ceiling 2.10.0 the test output passes. |
| GlibcFixture.MaxVersionHigher | glibccheck-maven-plugin/src/test/java/io/netty/build/maven/GlibcVersionCheckMojoTest.java:113-116 | Under the ceiling 2.10.1 the test output passes. |
| ObjdumpLocator.KeepLowerAlnum | glibccheck-maven-plugin/src/main/java/io/netty/build/maven/GlibcVersionCheckMojo.java:55-56 | Removing every run of characters outside [a-z0-9] leaves only those characters and never lengthens the name. |
| ObjdumpLocator.KeepLowerAlnumAppend | glibccheck-maven-plugin/src/main/java/io/netty/build/maven/GlibcVersionCheckMojo.java:55-56 | The removal works piece by piece. |
| ObjdumpLocator.KeepLowerAlnumOfClean | glibccheck-maven-plugin/src/main/java/io/netty/build/maven/GlibcVersionCheckMojo.java:55-56 | A name made only of [a-z0-9] characters is left unchanged by the removal. |
| ObjdumpLocator.KeepLowerAlnumIdempotent | glibccheck-maven-plugin/src/main/java/io/netty/build/maven/GlibcVersionCheckMojo.java:55-56 | Applying the removal twice is applying it once. |
| ObjdumpLocator.KeptCharactersComeFromInput | glibccheck-maven-plugin/src/main/java/io/netty/build/maven/GlibcVersionCheckMojo.java:55-56 | Every character kept occurs in the input. |
| ObjdumpLocator.CandidateFor | glibccheck-maven-plugin/src/main/java/io/netty/build/maven/GlibcVersionCheckMojo.java:53-62 | Without a configured objdump, the tool is one of the two fixed installation paths. It is Homebrew's gobjdump exactly when the normalised `os.name` starts with "macosx" or "osx". |
| ObjdumpLocator.MacOsSelectsDefault | glibccheck-maven-plugin/src/main/java/io/netty/build/maven/GlibcVersionCheckMojo.java:55-61 | "macOS" normalises to "macos", which does not start with "macosx", so it selects /usr/bin/objdump. |
| ObjdumpLocator.OpenBsdSelectsDefault | glibccheck-maven-plugin/src/main/java/io/netty/build/maven/GlibcVersionCheckMojo.java:55-61 | "OpenBSD" starts with 'o' but not with "osx", so it selects /usr/bin/objdump. |
| ObjdumpLocator.CheckObjdumpExists | glibccheck-maven-plugin/src/main/java/io/netty/build/maven/GlibcVersionCheckMojo.java:158-165 | The path is accepted exactly when it exists and can be executed. The error starts by naming the path. |
| ObjdumpLocator.LocateObjdump | glibccheck-maven-plugin/src/main/java/io/netty/build/maven/GlibcVersionCheckMojo.java:52-63 | A configured path is taken as it is. Otherwise the OS-specific candidate is used, and only when it is usable. |
| ObjdumpLocator.ConfiguredPathWins | glibccheck-maven-plugin/src/main/java/io/netty/build/maven/GlibcVersionCheckMojo.java:53-63 | A configured objdump is used even when the file system would reject it. |
| ObjdumpLocator.LowerAppend | glibccheck-maven-plugin/src/main/java/io/netty/build/maven/GlibcVersionCheckMojo.java:55 | Lower-casing works piece by piece. |
| ObjdumpLocator.MacOsXSelectsHomebrew | glibccheck-maven-plugin/src/main/java/io/netty/build/maven/GlibcVersionCheckMojo.java:55-59 | Any `os.name` beginning "Mac OS X" selects Homebrew's gobjdump. |
| ObjdumpLocator.OsxSelectsHomebrew | glibccheck-maven-plugin/src/main/java/io/netty/build/maven/GlibcVersionCheckMojo.java:55-59 | Any `os.name` beginning "OSX" selects Homebrew's gobjdump. |
| ObjdumpLocator.LinuxSelectsDefault | glibccheck-maven-plugin/src/main/java/io/netty/build/maven/GlibcVersionCheckMojo.java:53-62 | "Linux", and a missing `os.name`, select /usr/bin/objdump. |
| ObjdumpLocator.OtherInitialSelectsDefault | glibccheck-maven-plugin/src/main/java/io/netty/build/maven/GlibcVersionCheckMojo.java:55-62 | A normalised name starting with a character other than 'm' or 'o' selects /usr/bin/objdump. |
| GlibcMojo.AfterRun | glibccheck-maven-plugin/src/main/java/io/netty/build/maven/GlibcVersionCheckMojo.java:96-115 | After the command runs, the goal succeeds exactly when objdump exits with 0 and its output passes `check`. A build failure carries `check`'s failure message. |
| GlibcMojo.Execute | glibccheck-maven-plugin/src/main/java/io/netty/build/maven/GlibcVersionCheckMojo.java:52-120 | `execute` gets past its preconditions only when the tool is located, the ceiling reads and the library is a file. |
| GlibcMojo.ExecuteSucceedsIff | glibccheck-maven-plugin/src/main/java/io/netty/build/maven/GlibcVersionCheckMojo.java:52-120 | The goal succeeds exactly when the tool is found, the ceiling reads, the library is a file, `objdump -T` exits with 0 and its output passes. |
| GlibcMojo.BuildFailureNamesRequirement | glibccheck-maven-plugin/src/main/java/io/netty/build/maven/GlibcVersionCheckMojo.java:111-172 | A build failure reports a requirement above the ceiling, found in the output of a run that exited with 0. |
| GlibcMojo.MissingToolReportedFirst | glibccheck-maven-plugin/src/main/java/io/netty/build/maven/GlibcVersionCheckMojo.java:53-66 | A missing default tool is reported before the ceiling is even read. |
| GlibcMojo.BadCeilingRunsNothing | glibccheck-maven-plugin/src/main/java/io/netty/build/maven/GlibcVersionCheckMojo.java:64-92 | An unreadable ceiling stops the goal with its message, whatever the library and objdump would do. |
| GlibcMojo.NotAFileRunsNothing | glibccheck-maven-plugin/src/main/java/io/netty/build/maven/GlibcVersionCheckMojo.java:90-98 | A library path that is not a file stops the goal before objdump runs. |
| GlibcMojo.NonZeroExitIgnoresOutput | glibccheck-maven-plugin/src/main/java/io/netty/build/maven/GlibcVersionCheckMojo.java:99-102 | A non-zero exit code fails the goal with the command line and the code, and the output is not checked. |
| GlibcMojo.ConfiguredCommandLine | glibccheck-maven-plugin/src/main/java/io/netty/build/maven/GlibcVersionCheckMojo.java:96-98 | The command run is the configured objdump, " -T " and the library path. |
| NewlineCheck.SeparatorRecognised | src/main/java/io/netty/build/checkstyle/NewlineCheck.java:42-57 | Each known convention is recognised from its own separator. |
| NewlineCheck.OnlyOwnSeparatorRecognised | src/main/java/io/netty/build/checkstyle/NewlineCheck.java:42-57 | A separator is recognised exactly when it is one of the five known ones, and then as its own convention. |
| NewlineCheck.FindPairFrom | src/main/java/io/netty/build/checkstyle/NewlineCheck.java:37-38 | The scan from a position finds the pattern exactly when a bad pair starts at or after that position. |
| NewlineCheck.FindPair | src/main/java/io/netty/build/checkstyle/NewlineCheck.java:37-38 | `find()` with NON_CRLF or NON_LFCR succeeds exactly when the text holds a terminator outside a proper pair. |
| NewlineCheck.ProcessFiltered | src/main/java/io/netty/build/checkstyle/NewlineCheck.java:59-94 | Each convention gives at most one report, at line 0, with its message. An unknown separator is never reported. LF reports any '\r', CR any '\n', CRLF and LFCR a bad pair, and RS any U+001E. |
| NewlineCheck.PairsAppend | src/main/java/io/netty/build/checkstyle/NewlineCheck.java:37-38 | A joined text holds a bad pair exactly when a part does or when one is formed across the join. |
| NewlineCheck.SeparatorHasNoBadPair | src/main/java/io/netty/build/checkstyle/NewlineCheck.java:37-38 | The CRLF or LFCR separator alone is not a match of its pattern. |
| NewlineCheck.JoinedHasNoBadPair | src/main/java/io/netty/build/checkstyle/NewlineCheck.java:37-38 | Lines free of terminators, joined with the pair separator, hold no bad pair. |
| NewlineCheck.OwnSeparatorAccepted | src/main/java/io/netty/build/checkstyle/NewlineCheck.java:59-83 | Under LF, CR, CRLF or LFCR, a file written with the platform's own separator is never reported. |
| NewlineCheck.ForeignTerminatorReported | src/main/java/io/netty/build/checkstyle/NewlineCheck.java:64-73 | Under LF any '\r' is reported, and under CR any '\n'. |
| NewlineCheck.CrlfBareTerminatorReported | src/main/java/io/netty/build/checkstyle/NewlineCheck.java:37 | Under CRLF a lone '\n' or '\r' inside the text is reported. |
| NewlineCheck.CrlfEdgesUnreported | src/main/java/io/netty/build/checkstyle/NewlineCheck.java:37 | NON_CRLF needs a character on each side, so a '\n' at the very start or a '\r' at the very end goes unreported. |
| NewlineCheck.LfcrBareTerminatorReported | src/main/java/io/netty/build/checkstyle/NewlineCheck.java:38 | Under LFCR a lone '\r' or '\n' inside the text is reported. |
| NewlineCheck.RsReportsOwnSeparator | src/main/java/io/netty/build/checkstyle/NewlineCheck.java:84-88 | Under RS the record separator itself is reported. |
| StaticFinalBufferCheck.SkipSpaces | common/src/main/java/io/netty/build/checkstyle/StaticFinalBufferCheck.java:25-27 | `\s*` taken greedily stops at the first non-space character. |
| StaticFinalBufferCheck.TailTakesWholeRun | common/src/main/java/io/netty/build/checkstyle/StaticFinalBufferCheck.java:25-27 | If ".asReadOnly()" follows a run of spaces, the greedy `\s*` ends exactly there. |
| StaticFinalBufferCheck.TailMatches | common/src/main/java/io/netty/build/checkstyle/StaticFinalBufferCheck.java:25-27 | The tail test succeeds exactly when ")", spaces and ".asReadOnly()" follow the position. |
| StaticFinalBufferCheck.ScanClose | common/src/main/java/io/netty/build/checkstyle/StaticFinalBufferCheck.java:25-27 | The scan finds a closing ")" followed by the tail, with no line terminator in between, exactly when one exists. |
| StaticFinalBufferCheck.PrefixIrrelevant | common/src/main/java/io/netty/build/checkstyle/StaticFinalBufferCheck.java:25-27 | Because `(Unpooled.)?` is optional, `find()` succeeds exactly when the call itself matches somewhere. |
| StaticFinalBufferCheck.CallMatches | common/src/main/java/io/netty/build/checkstyle/StaticFinalBufferCheck.java:25-27 | The test at a position succeeds exactly when the call pattern matches there. |
| StaticFinalBufferCheck.FindFrom | common/src/main/java/io/netty/build/checkstyle/StaticFinalBufferCheck.java:25-27 | The search from a position succeeds exactly when a match starts at or after it. |
| StaticFinalBufferCheck.FindPattern | common/src/main/java/io/netty/build/checkstyle/StaticFinalBufferCheck.java:65 | `find()` succeeds exactly when the pattern matches somewhere in the text. |
| StaticFinalBufferCheck.ShapedInitialiserFound | common/src/main/java/io/netty/build/checkstyle/StaticFinalBufferCheck.java:25-27 | An initialiser "unreleasableBuffer(args)", then spaces, then ".asReadOnly()", with args on one line, is accepted whatever surrounds it. |
| StaticFinalBufferCheck.NoCallNoMatch | common/src/main/java/io/netty/build/checkstyle/StaticFinalBufferCheck.java:25-27 | Text without "unreleasableBuffer(" never matches. |
| StaticFinalBufferCheck.ConcatAppend | common/src/main/java/io/netty/build/checkstyle/StaticFinalBufferCheck.java:59-64 | Appending the lines of two runs is appending their texts. |
| StaticFinalBufferCheck.CheckedText | common/src/main/java/io/netty/build/checkstyle/StaticFinalBufferCheck.java:59-64 | The text checked is the source lines from the '=' line to the ';' line, appended without separators. |
| StaticFinalBufferCheck.TwoLineText | common/src/main/java/io/netty/build/checkstyle/StaticFinalBufferCheck.java:59-64 | An initialiser spanning two lines is checked as those two lines run together. |
| StaticFinalBufferCheck.VisitToken | common/src/main/java/io/netty/build/checkstyle/StaticFinalBufferCheck.java:44-68 | Only `static final` fields of a `...Buf` type are looked at. A field with no '=' or ';' gets the missing-assignment message. Otherwise the field is reported, on its own line, exactly when the pattern is not found. |
| StaticFinalBufferCheck.CheckTokens | common/src/main/java/io/netty/build/checkstyle/StaticFinalBufferCheck.java:30-42 | Every visited token gives at most one report. |
| StaticFinalBufferCheck.CheckTokensAppend | common/src/main/java/io/netty/build/checkstyle/StaticFinalBufferCheck.java:30-45 | Walking two runs of tokens gives the first run's reports, then the second's. |
| StaticFinalBufferCheck.CheckTokensAt | common/src/main/java/io/netty/build/checkstyle/StaticFinalBufferCheck.java:30-68 | Each VARIABLE_DEF is visited in its place: the walk's reports are those of the tokens before it, then its own `visitToken` reports, then those of the tokens after it. |
| StaticFinalBufferCheck.VisitedReportsKept | common/src/main/java/io/netty/build/checkstyle/StaticFinalBufferCheck.java:44-68 | Every report `visitToken` makes for a VARIABLE_DEF, whether a missing assignment or a failed pattern, is among the walk's reports. |
| StaticFinalBufferCheck.CheckTokensEmptyIff | common/src/main/java/io/netty/build/checkstyle/StaticFinalBufferCheck.java:30-68 | The walk reports nothing exactly when `visitToken` reports nothing for every VARIABLE_DEF. |
| StaticFinalBufferCheck.DiagnosticsFromGuardedDefs | common/src/main/java/io/netty/build/checkstyle/StaticFinalBufferCheck.java:44-68 | Every report sits on the line of a `static final ...Buf` field. There are no more reports than such fields. |
| StaticFinalBufferCheck.GuardedDefs | common/src/main/java/io/netty/build/checkstyle/StaticFinalBufferCheck.java:46-52 | A definition is kept exactly when some VARIABLE_DEF token carries it and it is `static`, `final` and of a type ending in "Buf". Never more are kept than there are tokens. |
| StaticFinalBufferCheck.GuardedDefsAppend | common/src/main/java/io/netty/build/checkstyle/StaticFinalBufferCheck.java:46-52 | The guarded definitions of two runs of tokens are those of the first run followed by those of the second, so order and repetitions are kept. |
| StaticFinalBufferCheck.ShapedDeclarationAccepted | common/src/main/java/io/netty/build/checkstyle/StaticFinalBufferCheck.java:44-68 | A guarded field whose initialiser has the expected shape is not reported. |
| StaticFinalBufferCheck.UnshapedDeclarationReported | common/src/main/java/io/netty/build/checkstyle/StaticFinalBufferCheck.java:59-67 | A guarded field whose initialiser lacks the call is reported with the pattern message. |
| SuppressionFilter.DefaultExamplePattern | src/main/java/io/netty/build/checkstyle/SuppressionFilter.java:29 | The default `examples?` pattern is found exactly when "example" or "examples" occurs in the name. |
| SuppressionFilter.SetPattern | src/main/java/io/netty/build/checkstyle/SuppressionFilter.java:31-33 | `setPattern` installs the pattern and leaves the example pattern alone. |
| SuppressionFilter.SetExamplePattern | src/main/java/io/netty/build/checkstyle/SuppressionFilter.java:35-37 | `setExamplePattern` installs the example pattern and leaves the pattern alone. |
| SuppressionFilter.Normalize | src/main/java/io/netty/build/checkstyle/SuppressionFilter.java:41 | The normalised name has the same length and no backslash. |
| SuppressionFilter.NormalizeIdempotent | src/main/java/io/netty/build/checkstyle/SuppressionFilter.java:41 | Normalising twice is normalising once. |
| SuppressionFilter.Accept | src/main/java/io/netty/build/checkstyle/SuppressionFilter.java:40-60 | The filter throws exactly when no pattern is set and the JBoss rule did not fire. With a pattern set, an event is reported exactly when none of the JBoss, pattern and example rules fires. |
| SuppressionFilter.MissingOverrideOutsideJboss | src/main/java/io/netty/build/checkstyle/SuppressionFilter.java:42-59 | Outside /org/jboss/, the missing-@Override check is judged by the pattern and the example rule alone. |
| SuppressionFilter.SeparatorsDoNotMatter | src/main/java/io/netty/build/checkstyle/SuppressionFilter.java:41 | An event is judged the same whether its name uses '\' or '/'. |
| SuppressionFilter.NormalizeAppend | src/main/java/io/netty/build/checkstyle/SuppressionFilter.java:41 | Normalising works piece by piece. |
| SuppressionFilter.NormalizeWindowsPath | src/main/java/io/netty/build/checkstyle/SuppressionFilter.java:41 | A path written with Windows separators normalises back to its '/' form. |
| SuppressionFilter.WindowsDirectoryFound | src/main/java/io/netty/build/checkstyle/SuppressionFilter.java:41-42 | A directory written with Windows separators is still found in the normalised name. |
| SuppressionFilter.JbossOverrideRejected | src/main/java/io/netty/build/checkstyle/SuppressionFilter.java:42-46 | The missing-@Override check is suppressed in /org/jboss/ sources, on Windows paths too, whatever the configuration. |
| SuppressionFilter.JbossOtherChecksUnaffected | src/main/java/io/netty/build/checkstyle/SuppressionFilter.java:42-59 | Any other check is judged by the pattern and the example rule alone. |
| SuppressionFilter.ConfiguredPatternRejectsAll | src/main/java/io/netty/build/checkstyle/SuppressionFilter.java:48-50 | A file matched by the configured pattern is suppressed for every check. |
| SuppressionFilter.ExampleChecksSuppressed | src/main/java/io/netty/build/checkstyle/SuppressionFilter.java:51-58 | With the default example pattern, the package-Javadoc and utility-class-constructor checks are suppressed in any file whose name mentions "example". |
| SuppressionFilter.OtherChecksReportedInExamples | src/main/java/io/netty/build/checkstyle/SuppressionFilter.java:51-59 | Every other check is still reported in example files. |
| SuppressionFilter.WiderPatternSuppressesMore | src/main/java/io/netty/build/checkstyle/SuppressionFilter.java:48-50 | Whatever a wider pattern lets through, a narrower one lets through as well. |

## Left out

- Starting the subprocess and reading its output is modelled as the `World.run` oracle. That covers `ProcessBuilder`, the stream copy, UTF-8 decoding and `closeSilently`. The result is the exit code with the decoded text, an interruption, or an IOException.
- `File.exists`, `File.canExecute` and `File.isFile` are the `World.usable` and `World.isFile` oracles. The `os.name` system property is a parameter.
- `execute` stores the chosen path back into the `objdump` field. The model returns the path instead of keeping mutable state.
- Maven logging, `MojoExecutionException`/`MojoFailureException` causes, and the Mojo parameter injection are not modelled; outcomes are plain datatypes.
- Strings.ToLowerAscii: `toLowerCase(Locale.US)` is modelled for ASCII letters only, and every other character is kept as it is. Java also lower-cases non-ASCII letters. A few of them turn into ASCII letters, and those survive the `[^a-z0-9]+` removal in `ObjdumpLocator.NormalizeOsName`. U+0130 (capital I with dot above) becomes "i" followed by U+0307, and U+212A (KELVIN SIGN) becomes "k". So Java normalises an `os.name` of U+0130 followed by "OSX" to "iosx" and picks /usr/bin/objdump, while the model normalises it to "osx" and picks Homebrew's gobjdump. Names made of ASCII are unaffected.
- Numbers.ParseInt: only ASCII digits are accepted, while Java's `Character.digit` also accepts other Unicode decimal digits.
- Checkstyle's framework types are flattened. `processFiltered` receives the full text that `FileText.fromLines` builds; how checkstyle assembles it from the line list is outside this model. `DetailAST` is reduced to the parts of a VARIABLE_DEF the check reads. `AuditEvent` is reduced to its file name and source name. `log` is a list of `Diagnostic`s.
- `NewlineCheck.processFiltered` takes the platform's `line.separator` as a parameter.
- StaticFinalBufferCheck.CheckTokens: token registration (`getDefaultTokens` and friends) is modelled as the `Token` filter, since checkstyle's tree walk is not part of this model.
- The user-configured `pattern` and `examplePattern` of `SuppressionFilter` are opaque name tests: compiling arbitrary regular expressions is not modelled. Only the default `examples?` pattern is modelled concretely.
- GlibcFixture: the test output is proved for the three unit tests. The rows are rebuilt from their columns rather than stated as one literal.
