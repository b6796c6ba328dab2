/** The `check` step of the GLIBC version check: every line of the objdump
    output is matched against the pattern, and the first requirement newer
    than the configured ceiling stops the build with a failure message. */
module GlibcCheck {
  import opened Strings
  import opened Numbers
  import opened GlibcVersion
  import opened GlibcPattern

  /** How `check` ends: normally, with the MojoFailureException raised by
      `failure`, or with the NumberFormatException an out-of-range group
      raises (it is not caught). */
  datatype CheckResult = Passed | Failed(message: string) | NumberFormatError(digits: string)

  /** The message of `failure`, which renders both versions with `glibcVersion`. */
  function FailureMessage(ceiling: Version, req: Requirement): string {
    "Required GLIBC " + VersionText(req.version) + " > " + VersionText(ceiling)
      + ". Required by '" + req.symbol + "'."
  }

  /** One round of the tokenizer loop. */
  function CheckLine(ceiling: Version, line: string): CheckResult {
    Judge(ceiling, ParseLine(line))
  }

  function Judge(ceiling: Version, p: LineParse): CheckResult {
    match p
    case Skipped => Passed
    case BadNumber(digits) => NumberFormatError(digits)
    case Parsed(req) => if Exceeds(req.version, ceiling) then Failed(FailureMessage(ceiling, req)) else Passed
  }

  /** The verdict of a fail-fast loop: the first verdict that is not a pass. */
  function FirstFailure(verdicts: seq<CheckResult>): (r: CheckResult)
    ensures r.Passed? <==> forall k :: 0 <= k < |verdicts| ==> verdicts[k].Passed?
    ensures !r.Passed? ==>
      exists k :: 0 <= k < |verdicts| && r == verdicts[k] && forall i :: 0 <= i < k ==> verdicts[i].Passed?
  {
    if |verdicts| == 0 then Passed
    else if !verdicts[0].Passed? then verdicts[0]
    else
      var r := FirstFailure(verdicts[1..]);
      assert forall k :: 1 <= k < |verdicts| ==> verdicts[k] == verdicts[1..][k - 1];
      r
  }

  /** The verdict on each line, in order. */
  function Verdicts(ceiling: Version, lines: seq<string>): (vs: seq<CheckResult>)
    ensures |vs| == |lines| && forall k :: 0 <= k < |lines| ==> vs[k] == CheckLine(ceiling, lines[k])
  {
    if |lines| == 0 then []
    else [CheckLine(ceiling, lines[0])] + Verdicts(ceiling, lines[1..])
  }

  /** The loop over the lines, stopping at the first line that does not pass. */
  function CheckLines(ceiling: Version, lines: seq<string>): (r: CheckResult)
    ensures r.Passed? <==> forall k :: 0 <= k < |lines| ==> CheckLine(ceiling, lines[k]).Passed?
    ensures !r.Passed? ==>
      exists k :: 0 <= k < |lines| && r == CheckLine(ceiling, lines[k])
        && forall i :: 0 <= i < k ==> CheckLine(ceiling, lines[i]).Passed?
  {
    FirstFailure(Verdicts(ceiling, lines))
  }

  /** `check(major, minor, bugfix, in)`: the lines are the tokens of `in`
      split at '\n'. */
  method Check(ceiling: Version, text: string) returns (r: CheckResult)
    ensures r == CheckLines(ceiling, Tokens(text))
  {
    var lines := Tokens(text);
    var k := 0;
    while k < |lines|
      invariant 0 <= k <= |lines|
      invariant CheckLines(ceiling, lines) == CheckLines(ceiling, lines[k..])
    {
      var verdict := CheckLine(ceiling, lines[k]);
      if !verdict.Passed? {
        return verdict;
      }
      k := k + 1;
    }
    return Passed;
  }

  /** Splitting the lines in two: the second half is looked at only when the
      first passes. */
  lemma {:induction false} CheckLinesAppend(ceiling: Version, a: seq<string>, b: seq<string>)
    ensures CheckLines(ceiling, a + b)
         == if CheckLines(ceiling, a).Passed? then CheckLines(ceiling, b) else CheckLines(ceiling, a)
    decreases |a|
  {
    if |a| > 0 {
      assert (a + b)[0] == a[0];
      assert (a + b)[1..] == a[1..] + b;
      CheckLinesAppend(ceiling, a[1..], b);
    } else {
      assert a + b == b;
    }
  }

  /** The same on the text: output cut at a newline is checked piece by piece. */
  lemma CheckTextConcat(ceiling: Version, a: string, b: string)
    ensures CheckLines(ceiling, Tokens(a + "\n" + b))
         == if CheckLines(ceiling, Tokens(a)).Passed? then CheckLines(ceiling, Tokens(b))
            else CheckLines(ceiling, Tokens(a))
  {
    TokensConcat(a, b);
    CheckLinesAppend(ceiling, Tokens(a), Tokens(b));
  }

  /** A requirement within one ceiling is within every higher one. */
  lemma WithinHigherCeiling(v: Version, low: Version, high: Version)
    requires !Exceeds(v, low) && !Exceeds(low, high)
    ensures !Exceeds(v, high)
  {
    ExceedsTrichotomy(low, high);
    if Exceeds(v, high) {
      if low != high {
        ExceedsTransitive(v, high, low);
      }
      assert false;
    }
  }

  /** Output that passes under one ceiling passes under every higher one. */
  lemma RaisingCeilingKeepsPassing(low: Version, high: Version, lines: seq<string>)
    requires !Exceeds(low, high)
    requires CheckLines(low, lines).Passed?
    ensures CheckLines(high, lines).Passed?
  {
    forall k | 0 <= k < |lines|
      ensures CheckLine(high, lines[k]).Passed?
    {
      assert CheckLine(low, lines[k]).Passed?;
      var p := ParseLine(lines[k]);
      if p.Parsed? {
        WithinHigherCeiling(p.req.version, low, high);
      }
    }
  }

  /** A failure is reported only for a requirement strictly above the
      ceiling, and it names that requirement. */
  lemma FailureIsAboveCeiling(ceiling: Version, lines: seq<string>)
    requires CheckLines(ceiling, lines).Failed?
    ensures exists k, req :: (0 <= k < |lines| && ParseLine(lines[k]) == Parsed(req)
      && Exceeds(req.version, ceiling)
      && CheckLines(ceiling, lines).message == FailureMessage(ceiling, req))
  {
    var r := CheckLines(ceiling, lines);
    var k :| 0 <= k < |lines| && r == CheckLine(ceiling, lines[k])
      && forall i :: 0 <= i < k ==> CheckLine(ceiling, lines[i]).Passed?;
    var req := ParseLine(lines[k]).req;
    assert ParseLine(lines[k]) == Parsed(req);
  }

  /** A well-formed versioned line is judged by its version alone: it fails
      exactly when that version is above the ceiling. */
  lemma CheckVersionedLine(ceiling: Version, head: string, major: char, minor: string, bugfix: string, pad: string, name: string)
    requires WellFormedVersioned(head, major, minor, bugfix, pad, name)
    requires DecimalValue(minor) <= MaxInt32 && DecimalValue(bugfix) <= MaxInt32
    ensures var found := Version(DigitValue(major), DecimalValue(minor), DecimalValue(bugfix));
      CheckLine(ceiling, VersionedLine(head, major, minor, bugfix, pad, name))
        == if Exceeds(found, ceiling) then Failed(FailureMessage(ceiling, Requirement(found, name))) else Passed
  {
    VersionedLineParsed(head, major, minor, bugfix, pad, name);
  }

  /** A versioned line whose minor version overflows an `int` ends the check
      with a NumberFormatException, whatever the ceiling. */
  lemma CheckOverflowingLine(ceiling: Version, head: string, major: char, minor: string, bugfix: string, pad: string, name: string)
    requires WellFormedVersioned(head, major, minor, bugfix, pad, name)
    requires DecimalValue(minor) > MaxInt32
    ensures CheckLine(ceiling, VersionedLine(head, major, minor, bugfix, pad, name)) == NumberFormatError(minor)
  {
    VersionedLineOverflow(head, major, minor, bugfix, pad, name);
  }

  /** Lines without a 'G' never make the check fail. */
  lemma CheckLineWithoutMarker(ceiling: Version, line: string)
    requires Lacks(line, 'G')
    ensures CheckLine(ceiling, line) == Passed
  {
    SkipWithoutMarker(line);
  }
}
