/** SuppressionFilter: decides, for each audit event, whether checkstyle
    reports it, from the event's file name (with Windows separators turned
    into '/') and the name of the check that raised it. */
module SuppressionFilter {
  import opened Results
  import opened Strings

  /** The two parts of an AuditEvent the filter reads. */
  datatype AuditEvent = AuditEvent(fileName: string, sourceName: string)

  /** A file-name test: whether Matcher.find() succeeds for a compiled pattern. */
  type NameTest = string -> bool

  /** The filter's configuration: `pattern`, absent until `setPattern` is
      called, and `examplePattern`. */
  datatype Filter = Filter(pattern: Option<NameTest>, examplePattern: NameTest)

  const JbossDirectory := "/org/jboss/"
  const ExampleWord := "example"

  /** Finding the default `examples?` somewhere: "example", optionally
      followed by 's', occurs in the name. */
  ghost predicate ExamplesFound(name: string) {
    exists i :: OccursAt(name, ExampleWord, i) || OccursAt(name, ExampleWord + "s", i)
  }

  /** The default example pattern, decided by looking for "example" alone. */
  function DefaultExamplePattern(name: string): (found: bool)
    ensures found <==> ExamplesFound(name)
  {
    if Contains(name, ExampleWord) then true
    else
      assert forall i :: OccursAt(name, ExampleWord + "s", i) ==> OccursAt(name, ExampleWord, i) by {
        forall i | OccursAt(name, ExampleWord + "s", i)
          ensures OccursAt(name, ExampleWord, i)
        {
          assert name[i..i + |ExampleWord|] == (ExampleWord + "s")[..|ExampleWord|];
        }
      }
      false
  }

  /** A freshly created filter: no pattern yet, the default example pattern. */
  const NewFilter := Filter(None, DefaultExamplePattern)

  /** `setPattern` and `setExamplePattern`. */
  function SetPattern(f: Filter, pattern: NameTest): (g: Filter)
    ensures g.pattern == Some(pattern) && g.examplePattern == f.examplePattern
  {
    f.(pattern := Some(pattern))
  }

  function SetExamplePattern(f: Filter, examplePattern: NameTest): (g: Filter)
    ensures g.examplePattern == examplePattern && g.pattern == f.pattern
  {
    f.(examplePattern := examplePattern)
  }

  /** The file name as the rules see it. */
  function Normalize(fileName: string): (n: string)
    ensures |n| == |fileName| && Lacks(n, '\\')
  {
    ReplaceChar(fileName, '\\', '/')
  }

  /** Normalising an already normalised name changes nothing. */
  lemma NormalizeIdempotent(fileName: string)
    ensures Normalize(Normalize(fileName)) == Normalize(fileName)
  {
    var n := Normalize(fileName);
    assert forall i :: 0 <= i < |n| ==> Normalize(n)[i] == n[i];
  }

  /** The rule for JBoss sources: the missing-@Override check is off there. */
  predicate JbossOverrideRule(name: string, source: string) {
    Contains(name, JbossDirectory) && EndsWith(source, "MissingOverrideCheck")
  }

  /** The rule for example sources: no package Javadoc or utility-class
      constructor checks there. */
  predicate ExampleRule(f: Filter, name: string, source: string) {
    f.examplePattern(name)
      && (EndsWith(source, ".JavadocPackageCheck") || EndsWith(source, ".HideUtilityClassConstructorCheck"))
  }

  /** `accept`: Some(whether the event is reported), or None for the
      NullPointerException raised when no pattern was ever set and the JBoss
      rule has not already rejected the event. */
  function Accept(f: Filter, evt: AuditEvent): (r: Option<bool>)
    ensures r == None <==> f.pattern.None? && !JbossOverrideRule(Normalize(evt.fileName), evt.sourceName)
    ensures r == Some(true) ==>
      && !JbossOverrideRule(Normalize(evt.fileName), evt.sourceName)
      && !f.pattern.value(Normalize(evt.fileName))
      && !ExampleRule(f, Normalize(evt.fileName), evt.sourceName)
    ensures f.pattern.Some? ==>
      (r == Some(true) <==>
        && !JbossOverrideRule(Normalize(evt.fileName), evt.sourceName)
        && !f.pattern.value(Normalize(evt.fileName))
        && !ExampleRule(f, Normalize(evt.fileName), evt.sourceName))
  {
    var name := Normalize(evt.fileName);
    if JbossOverrideRule(name, evt.sourceName) then Some(false)
    else if f.pattern.None? then None
    else if f.pattern.value(name) then Some(false)
    else if ExampleRule(f, name, evt.sourceName) then Some(false)
    else Some(true)
  }

  /** Backslashes never matter: an event is judged the same whether its name
      uses '\' or '/' as the separator. */
  lemma SeparatorsDoNotMatter(f: Filter, evt: AuditEvent)
    ensures Accept(f, evt) == Accept(f, evt.(fileName := Normalize(evt.fileName)))
  {
    NormalizeIdempotent(evt.fileName);
  }

  /** Normalising works piece by piece. */
  lemma NormalizeAppend(a: string, b: string)
    ensures Normalize(a + b) == Normalize(a) + Normalize(b)
  {
    var n, na, nb := Normalize(a + b), Normalize(a), Normalize(b);
    assert forall i :: 0 <= i < |a| ==> n[i] == na[i];
    assert forall i :: |a| <= i < |n| ==> (a + b)[i] == b[i - |a|];
    assert forall i :: 0 <= i < |n| ==> n[i] == (na + nb)[i];
  }

  /** A name written with Windows separators normalises back to its '/' form. */
  lemma NormalizeWindowsPath(path: string)
    requires Lacks(path, '\\')
    ensures Normalize(ReplaceChar(path, '/', '\\')) == path
  {
    var n := Normalize(ReplaceChar(path, '/', '\\'));
    assert forall i :: 0 <= i < |n| ==> n[i] == path[i];
  }

  /** `t` written between two pieces is found in the whole. */
  lemma FoundBetween(a: string, t: string, b: string)
    ensures Contains(a + t + b, t)
  {
    assert (a + t + b)[|a|..|a| + |t|] == t;
    assert OccursAt(a + t + b, t, |a|);
  }

  lemma EndsWithSuffix(s: string, suffix: string)
    ensures EndsWith(s + suffix, suffix)
  {
    assert (s + suffix)[|s|..] == suffix;
  }

  /** A directory written with Windows separators is still found. */
  lemma WindowsDirectoryFound(before: string, dir: string, after: string)
    requires Lacks(dir, '\\')
    ensures Contains(Normalize(before + ReplaceChar(dir, '/', '\\') + after), dir)
  {
    var windows := ReplaceChar(dir, '/', '\\');
    NormalizeAppend(before + windows, after);
    NormalizeAppend(before, windows);
    NormalizeWindowsPath(dir);
    FoundBetween(Normalize(before), dir, Normalize(after));
  }

  lemma JbossDirectoryPlain()
    ensures Lacks(JbossDirectory, '\\')
  {
  }

  /** The JBoss rule rejects the missing-@Override check on a Windows path
      too, and before the configuration is looked at. */
  lemma JbossOverrideRejected(f: Filter, before: string, after: string, check: string)
    ensures Accept(f, AuditEvent(before + ReplaceChar(JbossDirectory, '/', '\\') + after, check + "MissingOverrideCheck"))
         == Some(false)
  {
    JbossDirectoryPlain();
    WindowsDirectoryFound(before, JbossDirectory, after);
    EndsWithSuffix(check, "MissingOverrideCheck");
  }

  /** In JBoss sources only the missing-@Override check is affected by the
      JBoss rule: any other check is judged as it would be anywhere else. */
  lemma JbossOtherChecksUnaffected(f: Filter, evt: AuditEvent)
    requires !EndsWith(evt.sourceName, "MissingOverrideCheck")
    ensures !JbossOverrideRule(Normalize(evt.fileName), evt.sourceName)
    ensures Accept(f, evt) == if f.pattern.None? then None
      else Some(!f.pattern.value(Normalize(evt.fileName)) && !ExampleRule(f, Normalize(evt.fileName), evt.sourceName))
  {
  }

  /** Outside /org/jboss/, the missing-@Override check is judged like any
      other check: reported unless the pattern or the example rule says
      otherwise. */
  lemma MissingOverrideOutsideJboss(f: Filter, evt: AuditEvent)
    requires f.pattern.Some? && !Contains(Normalize(evt.fileName), JbossDirectory)
    ensures Accept(f, evt) == Some(!f.pattern.value(Normalize(evt.fileName)) && !ExampleRule(f, Normalize(evt.fileName), evt.sourceName))
  {
  }

  /** A file matched by the configured pattern is suppressed for every check. */
  lemma ConfiguredPatternRejectsAll(f: Filter, evt: AuditEvent)
    requires f.pattern.Some? && f.pattern.value(Normalize(evt.fileName))
    ensures Accept(f, evt) == Some(false)
  {
  }

  /** With the default example pattern, the two example checks are
      suppressed in any file whose name mentions "example". */
  lemma ExampleChecksSuppressed(pattern: NameTest, evt: AuditEvent)
    requires Contains(Normalize(evt.fileName), ExampleWord)
    requires EndsWith(evt.sourceName, ".JavadocPackageCheck") || EndsWith(evt.sourceName, ".HideUtilityClassConstructorCheck")
    ensures Accept(SetPattern(NewFilter, pattern), evt) == Some(false)
  {
  }

  /** With the default example pattern, every other check is reported in an
      example file unless the configured pattern or the JBoss rule says otherwise. */
  lemma OtherChecksReportedInExamples(pattern: NameTest, evt: AuditEvent)
    requires !pattern(Normalize(evt.fileName))
    requires !JbossOverrideRule(Normalize(evt.fileName), evt.sourceName)
    requires !EndsWith(evt.sourceName, ".JavadocPackageCheck") && !EndsWith(evt.sourceName, ".HideUtilityClassConstructorCheck")
    ensures Accept(SetPattern(NewFilter, pattern), evt) == Some(true)
  {
  }

  /** A pattern that matches more names suppresses more events: whatever a
      wider pattern lets through, a narrower one lets through as well. */
  lemma WiderPatternSuppressesMore(narrow: NameTest, wide: NameTest, examplePattern: NameTest, evt: AuditEvent)
    requires forall name :: narrow(name) ==> wide(name)
    requires Accept(Filter(Some(wide), examplePattern), evt) == Some(true)
    ensures Accept(Filter(Some(narrow), examplePattern), evt) == Some(true)
  {
  }
}
