/** StaticFinalBufferCheck: a `static final` field whose type name ends in
    "Buf" must be initialised with an unreleasable, read-only buffer, which
    the check recognises by the shape of the initialiser's source text. */
module StaticFinalBufferCheck {
  import opened Results
  import opened Strings
  import opened Checkstyle

  const OpenCall := "unreleasableBuffer("
  const ReadOnlyCall := ".asReadOnly()"
  const PrefixName := "Unpooled"

  /** The pattern's source text, as Pattern.toString prints it. */
  const PatternText := "(Unpooled\\s*\\.)?unreleasableBuffer\\(.*?\\)\\s*\\.asReadOnly\\(\\)"

  /** Every character of s[i..j] is matched by `\s`. */
  predicate AllSpaces(s: string, i: int, j: int) {
    0 <= i <= j <= |s| && forall k :: i <= k < j ==> IsRegexSpace(s[k])
  }

  /** No character of s[i..j] is a line terminator, so `.*` can consume it. */
  predicate Clean(s: string, i: int, j: int) {
    0 <= i <= j <= |s| && forall k :: i <= k < j ==> !IsLineTerminator(s[k])
  }

  /** The end of the run of `\s` characters starting at `i`. */
  function SkipSpaces(s: string, i: nat): (k: nat)
    requires i <= |s|
    ensures i <= k <= |s| && AllSpaces(s, i, k)
    ensures k < |s| ==> !IsRegexSpace(s[k])
    decreases |s| - i
  {
    if i < |s| && IsRegexSpace(s[i]) then SkipSpaces(s, i + 1) else i
  }

  /** `\)\s*\.asReadOnly\(\)` matches with its ')' at index e. */
  ghost predicate TailAt(s: string, e: int) {
    0 <= e < |s| && s[e] == ')' && exists d :: e < d && AllSpaces(s, e + 1, d) && OccursAt(s, ReadOnlyCall, d)
  }

  /** Since '.' is not a space, the run of spaces before ".asReadOnly()"
      is always taken whole. */
  lemma TailTakesWholeRun(s: string, e: nat, d: int)
    requires e < |s| && e < d && AllSpaces(s, e + 1, d) && OccursAt(s, ReadOnlyCall, d)
    ensures d == SkipSpaces(s, e + 1)
  {
    var k := SkipSpaces(s, e + 1);
    assert s[d] == ReadOnlyCall[0] == '.';
    if d < k {
      assert false;
    } else if k < d {
      assert false;
    }
  }

  /** A run free of line terminators extends one character to the left. */
  lemma CleanStep(s: string, c: nat, e: int)
    requires c < |s| && !IsLineTerminator(s[c]) && Clean(s, c + 1, e)
    ensures Clean(s, c, e)
  {
  }

  function TailMatches(s: string, e: nat): (b: bool)
    requires e < |s|
    ensures b <==> TailAt(s, e)
  {
    var k := SkipSpaces(s, e + 1);
    if s[e] == ')' && OccursAt(s, ReadOnlyCall, k) then
      assert AllSpaces(s, e + 1, k);
      true
    else
      assert forall d :: e < d && AllSpaces(s, e + 1, d) && OccursAt(s, ReadOnlyCall, d) ==> d == k by {
        forall d | e < d && AllSpaces(s, e + 1, d) && OccursAt(s, ReadOnlyCall, d) {
          TailTakesWholeRun(s, e, d);
        }
      }
      false
  }

  /** Some ')' at `c` or later completes the pattern, with nothing but
      non-terminators between `c` and it. */
  ghost predicate CloseFrom(s: string, c: int) {
    exists e :: c <= e && Clean(s, c, e) && TailAt(s, e)
  }

  /** The lazy `.*?\)`: try each ')' in turn until a line terminator stops the scan. */
  function ScanClose(s: string, c: nat): (found: bool)
    ensures found <==> CloseFrom(s, c)
    decreases |s| - c
  {
    if c >= |s| then
      assert forall e :: c <= e ==> !TailAt(s, e);
      false
    else if TailMatches(s, c) then
      assert Clean(s, c, c);
      true
    else if IsLineTerminator(s[c]) then
      assert forall e :: c < e ==> !Clean(s, c, e);
      false
    else
      var r := ScanClose(s, c + 1);
      assert r ==> CloseFrom(s, c) by {
        if r {
          var e :| c + 1 <= e && Clean(s, c + 1, e) && TailAt(s, e);
          CleanStep(s, c, e);
        }
      }
      r
  }

  /** The pattern without its optional prefix matches from index `a`. */
  ghost predicate CallMatchAt(s: string, a: int) {
    OccursAt(s, OpenCall, a) && CloseFrom(s, a + |OpenCall|)
  }

  /** The whole pattern matches from `start`: either the call itself starts
      there, or "Unpooled", spaces and '.' come first. */
  ghost predicate PatternMatchAt(s: string, start: int) {
    || CallMatchAt(s, start)
    || (OccursAt(s, PrefixName, start)
        && exists a :: start + |PrefixName| < a <= |s| && AllSpaces(s, start + |PrefixName|, a - 1)
             && s[a - 1] == '.' && CallMatchAt(s, a))
  }

  /** Matcher.find(): the pattern matches somewhere. */
  ghost predicate PatternFound(s: string) {
    exists start :: PatternMatchAt(s, start)
  }

  /** The optional `Unpooled\s*\.` prefix does not decide whether there is a
      match: every prefixed match contains an unprefixed one. */
  lemma PrefixIrrelevant(s: string)
    ensures PatternFound(s) <==> exists a :: CallMatchAt(s, a)
  {
    if PatternFound(s) {
      var start :| PatternMatchAt(s, start);
      if !CallMatchAt(s, start) {
        var a :| start + |PrefixName| < a <= |s| && AllSpaces(s, start + |PrefixName|, a - 1)
          && s[a - 1] == '.' && CallMatchAt(s, a);
      }
    }
    if exists a :: CallMatchAt(s, a) {
      var a :| CallMatchAt(s, a);
      assert PatternMatchAt(s, a);
    }
  }

  function CallMatches(s: string, a: nat): (b: bool)
    ensures b <==> CallMatchAt(s, a)
  {
    OccursAt(s, OpenCall, a) && ScanClose(s, a + |OpenCall|)
  }

  /** The scan over start positions. */
  function FindFrom(s: string, i: nat): (found: bool)
    ensures found <==> exists a :: i <= a && CallMatchAt(s, a)
    decreases |s| + 1 - i
  {
    if i > |s| then
      assert forall a :: i <= a ==> !OccursAt(s, OpenCall, a);
      false
    else if CallMatches(s, i) then true
    else FindFrom(s, i + 1)
  }

  function FindPattern(s: string): (found: bool)
    ensures found <==> PatternFound(s)
  {
    PrefixIrrelevant(s);
    assert forall a :: CallMatchAt(s, a) ==> 0 <= a;
    FindFrom(s, 0)
  }

  /** A text shaped like the pattern is recognised, wherever it sits and
      whatever the call's arguments, as long as they stay on one line. */
  lemma ShapedInitialiserFound(before: string, args: string, spaces: string, after: string)
    requires NoLineTerminator(args) && AllSpaces(spaces, 0, |spaces|)
    ensures FindPattern(before + OpenCall + args + ")" + spaces + ReadOnlyCall + after)
  {
    var s := before + OpenCall + args + ")" + spaces + ReadOnlyCall + after;
    var a := |before|;
    var c := a + |OpenCall|;
    var e := c + |args|;
    var d := e + 1 + |spaces|;
    assert s[a..a + |OpenCall|] == OpenCall;
    assert s[d..d + |ReadOnlyCall|] == ReadOnlyCall;
    assert forall k :: c <= k < e ==> s[k] == args[k - c];
    assert forall k :: e + 1 <= k < d ==> s[k] == spaces[k - e - 1];
    assert s[e] == ')';
    assert AllSpaces(s, e + 1, d) && OccursAt(s, ReadOnlyCall, d);
    assert TailAt(s, e);
    assert Clean(s, c, e);
    assert CallMatchAt(s, a);
    PrefixIrrelevant(s);
  }

  /** Without "unreleasableBuffer(" in the text there is no match. */
  lemma NoCallNoMatch(s: string)
    requires !Contains(s, OpenCall)
    ensures !FindPattern(s)
  {
    PrefixIrrelevant(s);
  }

  /** The parts of a VARIABLE_DEF the check looks at: its line, its
      modifiers, the text of its type, and the lines of its `=` and `;`
      when it has them. */
  datatype VariableDef = VariableDef(
    line: int,
    isStatic: bool,
    isFinal: bool,
    typeText: string,
    assignLine: Option<int>,
    semiLine: Option<int>)

  /** The token types the check asks for: VARIABLE_DEF only. */
  datatype Token = VariableDefToken(def: VariableDef) | OtherToken

  /** The lines from `first` to `last` (1-based, inclusive) exist in the file,
      so `getLine` is never asked for a missing one. */
  predicate LinesExist(lines: seq<string>, first: int, last: int) {
    first > last || (1 <= first && last <= |lines|)
  }

  predicate Placed(def: VariableDef, lines: seq<string>) {
    def.assignLine.Some? && def.semiLine.Some? ==> LinesExist(lines, def.assignLine.value, def.semiLine.value)
  }

  /** The pieces glued together with nothing in between (StringBuilder.append). */
  function Concat(pieces: seq<string>): (s: string)
    ensures |pieces| == 0 ==> s == ""
  {
    if |pieces| == 0 then "" else pieces[0] + Concat(pieces[1..])
  }

  lemma {:induction false} ConcatAppend(a: seq<string>, b: seq<string>)
    ensures Concat(a + b) == Concat(a) + Concat(b)
    decreases |a|
  {
    if |a| == 0 {
      assert a + b == b;
    } else {
      assert (a + b)[1..] == a[1..] + b;
      ConcatAppend(a[1..], b);
    }
  }

  /** The text the pattern is searched in: file lines `first` to `last`
      (1-based, inclusive) with no separator. */
  function CheckedText(lines: seq<string>, first: int, last: int): (s: string)
    requires LinesExist(lines, first, last)
    ensures first > last ==> s == ""
    ensures 1 <= first <= last ==> s == Concat(lines[first - 1..last])
    decreases last - first
  {
    if first > last then ""
    else
      var rest := CheckedText(lines, first + 1, last);
      assert lines[first - 1..last][1..] == lines[first..last];
      lines[first - 1] + rest
  }

  /** A declaration continued on the next line is checked as one text, so
      the shape may be broken across the two lines anywhere. */
  lemma TwoLineText(lines: seq<string>, first: int)
    requires 1 <= first && first + 1 <= |lines|
    ensures CheckedText(lines, first, first + 1) == lines[first - 1] + lines[first]
  {
    assert lines[first - 1..first + 1] == [lines[first - 1]] + [lines[first]];
    ConcatAppend([lines[first - 1]], [lines[first]]);
  }

  const MissingAssignmentMessage := "Missing assignment for static final buffer"

  function PatternMessage(): string {
    "static final buffer assignment should match pattern " + PatternText
  }

  /** The declarations the check is about. */
  predicate Guarded(def: VariableDef) {
    def.isStatic && def.isFinal && EndsWith(def.typeText, "Buf")
  }

  /** `visitToken` on one VARIABLE_DEF. */
  function VisitToken(def: VariableDef, lines: seq<string>): (r: seq<Diagnostic>)
    requires Placed(def, lines)
    ensures |r| <= 1
    ensures forall d :: d in r ==> d.line == def.line
    ensures !Guarded(def) ==> r == []
    ensures Guarded(def) && (def.assignLine.None? || def.semiLine.None?)
      ==> r == [Diagnostic(def.line, MissingAssignmentMessage)]
    ensures Guarded(def) && def.assignLine.Some? && def.semiLine.Some? ==>
      (r == [] <==> PatternFound(CheckedText(lines, def.assignLine.value, def.semiLine.value)))
    ensures r != [] ==> r[0].message in {MissingAssignmentMessage, PatternMessage()}
  {
    if !Guarded(def) then []
    else if def.assignLine.None? || def.semiLine.None? then [Diagnostic(def.line, MissingAssignmentMessage)]
    else if !FindPattern(CheckedText(lines, def.assignLine.value, def.semiLine.value)) then
      [Diagnostic(def.line, PatternMessage())]
    else []
  }

  predicate AllPlaced(tokens: seq<Token>, lines: seq<string>) {
    forall k :: 0 <= k < |tokens| ==> tokens[k].VariableDefToken? ==> Placed(tokens[k].def, lines)
  }

  /** The tree walk: every VARIABLE_DEF token is visited in order, and no
      other token is. */
  function CheckTokens(tokens: seq<Token>, lines: seq<string>): (r: seq<Diagnostic>)
    requires AllPlaced(tokens, lines)
    ensures |r| <= |tokens|
  {
    if |tokens| == 0 then []
    else
      var here := if tokens[0].VariableDefToken? then VisitToken(tokens[0].def, lines) else [];
      here + CheckTokens(tokens[1..], lines)
  }

  lemma AllPlacedAppend(a: seq<Token>, b: seq<Token>, lines: seq<string>)
    requires AllPlaced(a, lines) && AllPlaced(b, lines)
    ensures AllPlaced(a + b, lines)
  {
    forall k | 0 <= k < |a + b| && (a + b)[k].VariableDefToken?
      ensures Placed((a + b)[k].def, lines)
    {
      if k < |a| {
        assert (a + b)[k] == a[k];
      } else {
        assert (a + b)[k] == b[k - |a|];
      }
    }
  }

  lemma AllPlacedSlice(tokens: seq<Token>, lines: seq<string>, i: nat, j: nat)
    requires AllPlaced(tokens, lines) && i <= j <= |tokens|
    ensures AllPlaced(tokens[i..j], lines)
  {
    forall k | 0 <= k < j - i && tokens[i..j][k].VariableDefToken?
      ensures Placed(tokens[i..j][k].def, lines)
    {
      assert tokens[i..j][k] == tokens[i + k];
    }
  }

  /** A walk over two runs of tokens reports the first run's diagnostics,
      then the second's. */
  lemma {:induction false} CheckTokensAppend(a: seq<Token>, b: seq<Token>, lines: seq<string>)
    requires AllPlaced(a, lines) && AllPlaced(b, lines)
    ensures AllPlaced(a + b, lines)
    ensures CheckTokens(a + b, lines) == CheckTokens(a, lines) + CheckTokens(b, lines)
    decreases |a|
  {
    AllPlacedAppend(a, b, lines);
    if |a| == 0 {
      assert a + b == b;
    } else {
      AllPlacedSlice(a, lines, 1, |a|);
      assert (a + b)[0] == a[0];
      assert (a + b)[1..] == a[1..] + b;
      CheckTokensAppend(a[1..], b, lines);
    }
  }

  /** Each VARIABLE_DEF is visited in its place: the walk's reports are those
      of the tokens before it, then its own `visitToken` reports, then those
      of the tokens after it. */
  lemma CheckTokensAt(tokens: seq<Token>, lines: seq<string>, k: nat)
    requires AllPlaced(tokens, lines) && k < |tokens| && tokens[k].VariableDefToken?
    ensures CheckTokens(tokens, lines)
         == CheckTokens(tokens[..k], lines) + VisitToken(tokens[k].def, lines) + CheckTokens(tokens[k + 1..], lines)
  {
    var rest := tokens[k..];
    assert tokens == tokens[..k] + rest;
    AllPlacedSlice(tokens, lines, 0, k);
    AllPlacedSlice(tokens, lines, k, |tokens|);
    CheckTokensAppend(tokens[..k], rest, lines);
    assert rest[0] == tokens[k] && rest[1..] == tokens[k + 1..];
  }

  /** The walk reports nothing exactly when `visitToken` reports nothing for
      any VARIABLE_DEF. */
  lemma {:induction false} CheckTokensEmptyIff(tokens: seq<Token>, lines: seq<string>)
    requires AllPlaced(tokens, lines)
    ensures CheckTokens(tokens, lines) == [] <==>
      forall k :: 0 <= k < |tokens| && tokens[k].VariableDefToken? ==> VisitToken(tokens[k].def, lines) == []
    decreases |tokens|
  {
    if |tokens| > 0 {
      AllPlacedSlice(tokens, lines, 1, |tokens|);
      CheckTokensEmptyIff(tokens[1..], lines);
      assert forall k :: 0 <= k < |tokens[1..]| ==> tokens[1..][k] == tokens[k + 1];
      if CheckTokens(tokens, lines) != [] && tokens[0].VariableDefToken? && VisitToken(tokens[0].def, lines) == [] {
        var j :| 0 <= j < |tokens[1..]| && tokens[1..][j].VariableDefToken? && VisitToken(tokens[1..][j].def, lines) != [];
        assert tokens[j + 1] == tokens[1..][j];
      }
    }
  }

  /** So a report `visitToken` makes for any VARIABLE_DEF is among the walk's. */
  lemma VisitedReportsKept(tokens: seq<Token>, lines: seq<string>, k: nat)
    requires AllPlaced(tokens, lines) && k < |tokens| && tokens[k].VariableDefToken?
    ensures forall d :: d in VisitToken(tokens[k].def, lines) ==> d in CheckTokens(tokens, lines)
  {
    CheckTokensAt(tokens, lines, k);
  }

  /** Every diagnostic belongs to a guarded declaration and sits on its line;
      there are never more than there are such declarations. */
  lemma {:induction false} DiagnosticsFromGuardedDefs(tokens: seq<Token>, lines: seq<string>)
    requires AllPlaced(tokens, lines)
    ensures var r := CheckTokens(tokens, lines);
      forall d :: d in r ==>
        exists k :: (0 <= k < |tokens| && tokens[k].VariableDefToken?
          && Guarded(tokens[k].def) && d.line == tokens[k].def.line)
    ensures |CheckTokens(tokens, lines)| <= |GuardedDefs(tokens)|
    decreases |tokens|
  {
    if |tokens| > 0 {
      DiagnosticsFromGuardedDefs(tokens[1..], lines);
      var r := CheckTokens(tokens, lines);
      var rest := CheckTokens(tokens[1..], lines);
      var here := if tokens[0].VariableDefToken? then VisitToken(tokens[0].def, lines) else [];
      assert r == here + rest;
      forall d | d in r
        ensures exists k :: (0 <= k < |tokens| && tokens[k].VariableDefToken?
          && Guarded(tokens[k].def) && d.line == tokens[k].def.line)
      {
        if d in here {
          assert tokens[0].VariableDefToken? && Guarded(tokens[0].def);
        } else {
          var k :| 0 <= k < |tokens[1..]| && tokens[1..][k].VariableDefToken?
            && Guarded(tokens[1..][k].def) && d.line == tokens[1..][k].def.line;
          assert tokens[k + 1] == tokens[1..][k];
        }
      }
    }
  }

  /** The tokens that are guarded declarations. */
  function GuardedDefs(tokens: seq<Token>): (defs: seq<VariableDef>)
    ensures forall d :: d in defs ==> Guarded(d)
    ensures |defs| <= |tokens|
    ensures forall d :: d in defs <==>
      exists k :: 0 <= k < |tokens| && tokens[k] == VariableDefToken(d) && Guarded(d)
  {
    if |tokens| == 0 then []
    else if tokens[0].VariableDefToken? && Guarded(tokens[0].def) then [tokens[0].def] + GuardedDefs(tokens[1..])
    else GuardedDefs(tokens[1..])
  }

  /** The guarded declarations of two runs of tokens are those of the first
      run followed by those of the second: order and repetitions are kept. */
  lemma {:induction false} GuardedDefsAppend(a: seq<Token>, b: seq<Token>)
    ensures GuardedDefs(a + b) == GuardedDefs(a) + GuardedDefs(b)
    decreases |a|
  {
    if |a| == 0 {
      assert a + b == b;
    } else {
      assert (a + b)[0] == a[0];
      assert (a + b)[1..] == a[1..] + b;
      GuardedDefsAppend(a[1..], b);
    }
  }

  /** A guarded one-line declaration initialised in the expected shape gets
      no diagnostic. */
  lemma ShapedDeclarationAccepted(def: VariableDef, lines: seq<string>, before: string, args: string, spaces: string, after: string)
    requires Guarded(def) && def.assignLine.Some? && def.semiLine == def.assignLine
    requires 1 <= def.assignLine.value <= |lines|
    requires lines[def.assignLine.value - 1] == before + OpenCall + args + ")" + spaces + ReadOnlyCall + after
    requires NoLineTerminator(args) && AllSpaces(spaces, 0, |spaces|)
    ensures VisitToken(def, lines) == []
  {
    var n := def.assignLine.value;
    assert lines[n - 1..n] == [lines[n - 1]];
    assert CheckedText(lines, n, n) == lines[n - 1];
    ShapedInitialiserFound(before, args, spaces, after);
  }

  /** A guarded declaration whose initialiser never calls
      unreleasableBuffer gets the pattern diagnostic on its own line. */
  lemma UnshapedDeclarationReported(def: VariableDef, lines: seq<string>)
    requires Guarded(def) && def.assignLine.Some? && def.semiLine.Some? && Placed(def, lines)
    requires !Contains(CheckedText(lines, def.assignLine.value, def.semiLine.value), OpenCall)
    ensures VisitToken(def, lines) == [Diagnostic(def.line, PatternMessage())]
  {
    NoCallNoMatch(CheckedText(lines, def.assignLine.value, def.semiLine.value));
  }
}
