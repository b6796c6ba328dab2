/** Character classes and string operations with the meaning that
    java.lang.String, java.util.StringTokenizer and java.util.regex give them. */
module Strings {

  /** The characters that `.` in a java.util.regex pattern does not match
      (the pattern is compiled without DOTALL and without UNIX_LINES). */
  predicate IsLineTerminator(c: char) {
    c == '\n' || c == '\r' || c == '\U{0085}' || c == '\U{2028}' || c == '\U{2029}'
  }

  predicate NoLineTerminator(s: string) {
    forall i :: 0 <= i < |s| ==> !IsLineTerminator(s[i])
  }

  /** `\s` in java.util.regex: one of [ \t\n\x0B\f\r]. */
  predicate IsRegexSpace(c: char) {
    c == ' ' || c == '\t' || c == '\n' || c == '\U{000B}' || c == '\U{000C}' || c == '\r'
  }

  /** `[0-9]` in a regex; also the only digits this model lets Integer.parseInt accept. */
  predicate IsAsciiDigit(c: char) {
    '0' <= c <= '9'
  }

  predicate AllAsciiDigits(s: string) {
    forall i :: 0 <= i < |s| ==> IsAsciiDigit(s[i])
  }

  predicate Lacks(s: string, c: char) {
    forall i :: 0 <= i < |s| ==> s[i] != c
  }

  predicate StartsWith(s: string, prefix: string) {
    prefix <= s
  }

  predicate EndsWith(s: string, suffix: string) {
    |suffix| <= |s| && s[|s| - |suffix|..] == suffix
  }

  /** `t` occurs in `s` starting at index `i`. */
  predicate OccursAt(s: string, t: string, i: int) {
    0 <= i && i + |t| <= |s| && s[i..i + |t|] == t
  }

  lemma LacksAppend(a: string, b: string, c: char)
    requires Lacks(a, c) && Lacks(b, c)
    ensures Lacks(a + b, c)
  {
    assert forall i :: |a| <= i < |a + b| ==> (a + b)[i] == b[i - |a|];
  }

  lemma NoLineTerminatorAppend(a: string, b: string)
    requires NoLineTerminator(a) && NoLineTerminator(b)
    ensures NoLineTerminator(a + b)
  {
    assert forall i :: |a| <= i < |a + b| ==> (a + b)[i] == b[i - |a|];
  }

  /** Whether `t` occurs in `s` at index `i` or later: String.indexOf(t, i) >= 0,
      and also what Matcher.find() answers for a pattern that is a plain literal. */
  function ContainsFrom(s: string, t: string, i: nat): (found: bool)
    ensures found <==> exists j :: i <= j && OccursAt(s, t, j)
    decreases |s| - i
  {
    if i + |t| > |s| then false
    else if s[i..i + |t|] == t then assert OccursAt(s, t, i); true
    else ContainsFrom(s, t, i + 1)
  }

  function Contains(s: string, t: string): (found: bool)
    ensures found <==> exists j :: OccursAt(s, t, j)
  {
    ContainsFrom(s, t, 0)
  }

  /** String.indexOf(char): the first index holding `c`, or -1. */
  function IndexOf(s: string, c: char): (r: int)
    ensures -1 <= r < |s|
    ensures r == -1 <==> Lacks(s, c)
    ensures r >= 0 ==> s[r] == c && Lacks(s[..r], c)
  {
    if |s| == 0 then -1
    else if s[0] == c then 0
    else
      var k := IndexOf(s[1..], c);
      if k == -1 then -1 else k + 1
  }

  /** String.replace(char, char). */
  function ReplaceChar(s: string, from: char, to: char): (r: string)
    ensures |r| == |s|
    ensures forall i :: 0 <= i < |s| ==> r[i] == (if s[i] == from then to else s[i])
  {
    if |s| == 0 then ""
    else [if s[0] == from then to else s[0]] + ReplaceChar(s[1..], from, to)
  }

  /** The pieces of `s` between occurrences of `sep`, keeping empty pieces:
      String.split with a negative limit on a one-character literal. */
  function SplitOn(s: string, sep: char): (pieces: seq<string>)
    ensures |pieces| >= 1
    ensures forall k :: 0 <= k < |pieces| ==> Lacks(pieces[k], sep)
    ensures JoinWith(pieces, [sep]) == s
    decreases |s|
  {
    if |s| == 0 then [""]
    else
      var rest := SplitOn(s[1..], sep);
      if s[0] == sep then
        assert s == [sep] + s[1..];
        [""] + rest
      else
        var pieces := [[s[0]] + rest[0]] + rest[1..];
        assert pieces[1..] == rest[1..];
        assert |rest| == 1 ==> s == [s[0]] + rest[0];
        assert |rest| > 1 ==> s == [s[0]] + rest[0] + [sep] + JoinWith(rest[1..], [sep]);
        pieces
  }

  /** The pieces joined with `sep` between consecutive ones (String.join). */
  function JoinWith(pieces: seq<string>, sep: string): string
  {
    if |pieces| == 0 then ""
    else if |pieces| == 1 then pieces[0]
    else pieces[0] + sep + JoinWith(pieces[1..], sep)
  }

  /** A piece without the separator is split into itself. */
  lemma {:induction false} SplitOnLacking(s: string, sep: char)
    requires Lacks(s, sep)
    ensures SplitOn(s, sep) == [s]
    decreases |s|
  {
    if |s| > 0 {
      SplitOnLacking(s[1..], sep);
      assert [s[0]] + s[1..] == s;
    }
  }

  /** One separator splits exactly between the pieces on either side of it. */
  lemma {:induction false} SplitOnConcat(x: string, y: string, sep: char)
    ensures SplitOn(x + [sep] + y, sep) == SplitOn(x, sep) + SplitOn(y, sep)
    decreases |x|
  {
    var s := x + [sep] + y;
    if |x| == 0 {
      assert s[1..] == y;
    } else {
      assert s[1..] == x[1..] + [sep] + y;
      SplitOnConcat(x[1..], y, sep);
    }
  }

  /** Splitting undoes joining when no piece holds the separator. */
  lemma {:induction false} SplitJoin(pieces: seq<string>, sep: char)
    requires |pieces| >= 1
    requires forall k :: 0 <= k < |pieces| ==> Lacks(pieces[k], sep)
    ensures SplitOn(JoinWith(pieces, [sep]), sep) == pieces
    decreases |pieces|
  {
    SplitOnLacking(pieces[0], sep);
    if |pieces| > 1 {
      SplitJoin(pieces[1..], sep);
      SplitOnConcat(pieces[0], JoinWith(pieces[1..], [sep]), sep);
      assert [pieces[0]] + pieces[1..] == pieces;
    }
  }

  lemma JoinTwo(a: string, b: string, sep: string)
    ensures JoinWith([a, b], sep) == a + sep + b
  {
    assert [a, b][1..] == [b];
  }

  lemma JoinThree(a: string, b: string, c: string, sep: string)
    ensures JoinWith([a, b, c], sep) == a + sep + b + sep + c
  {
    assert [a, b, c][1..] == [b, c];
    JoinTwo(b, c, sep);
  }

  lemma JoinFour(a: string, b: string, c: string, d: string, sep: string)
    ensures JoinWith([a, b, c, d], sep) == a + sep + b + sep + c + sep + d
  {
    assert [a, b, c, d][1..] == [b, c, d];
    JoinThree(b, c, d, sep);
  }

  function DropTrailingEmpty(pieces: seq<string>): (r: seq<string>)
    ensures r <= pieces
    ensures |r| > 0 ==> r[|r| - 1] != ""
    ensures forall k :: |r| <= k < |pieces| ==> pieces[k] == ""
  {
    if |pieces| == 0 then []
    else if pieces[|pieces| - 1] == "" then DropTrailingEmpty(pieces[..|pieces| - 1])
    else pieces
  }

  /** String.split(regex) for a regex matching exactly the character `sep`:
      without any occurrence the whole input is the only piece, otherwise
      trailing empty pieces are removed. */
  function JavaSplit(s: string, sep: char): (parts: seq<string>)
    ensures Lacks(s, sep) ==> parts == [s]
    ensures forall k :: 0 <= k < |parts| ==> Lacks(parts[k], sep)
    ensures !Lacks(s, sep) ==>
      && parts <= SplitOn(s, sep)
      && (forall k :: |parts| <= k < |SplitOn(s, sep)| ==> SplitOn(s, sep)[k] == "")
      && (|parts| > 0 ==> parts[|parts| - 1] != "")
  {
    if Lacks(s, sep) then [s] else DropTrailingEmpty(SplitOn(s, sep))
  }

  function NonEmpty(pieces: seq<string>): (r: seq<string>)
    ensures forall k :: 0 <= k < |r| ==> r[k] != "" && r[k] in pieces
  {
    if |pieces| == 0 then []
    else if pieces[0] == "" then NonEmpty(pieces[1..])
    else [pieces[0]] + NonEmpty(pieces[1..])
  }

  /** The tokens a java.util.StringTokenizer with the single delimiter '\n'
      hands out: the maximal non-empty runs of characters other than '\n'. */
  function Tokens(s: string): (tokens: seq<string>)
    ensures forall k :: 0 <= k < |tokens| ==> tokens[k] != "" && Lacks(tokens[k], '\n')
  {
    NonEmpty(SplitOn(s, '\n'))
  }

  /** String.split over the separator gives back the joined pieces as long as
      the last one is not empty. */
  lemma JavaSplitJoin(pieces: seq<string>, sep: char)
    requires |pieces| >= 1 && pieces[|pieces| - 1] != ""
    requires forall k :: 0 <= k < |pieces| ==> Lacks(pieces[k], sep)
    ensures JavaSplit(JoinWith(pieces, [sep]), sep) == pieces
  {
    var s := JoinWith(pieces, [sep]);
    SplitJoin(pieces, sep);
    if !Lacks(s, sep) {
      assert DropTrailingEmpty(pieces) == pieces;
    } else {
      SplitOnLacking(s, sep);
    }
  }

  /** `n` empty pieces. */
  function Empties(n: nat): (r: seq<string>)
    ensures |r| == n && forall k :: 0 <= k < n ==> r[k] == ""
  {
    seq(n, _ => "")
  }

  /** `n` copies of one character. */
  function Repeat(c: char, n: nat): (r: string)
    ensures |r| == n && forall k :: 0 <= k < n ==> r[k] == c
  {
    seq(n, _ => c)
  }

  /** Empty pieces after a non-empty last piece are all dropped, and nothing else is. */
  lemma {:induction false} DropTrailingEmpties(pieces: seq<string>, n: nat)
    requires |pieces| > 0 ==> pieces[|pieces| - 1] != ""
    ensures DropTrailingEmpty(pieces + Empties(n)) == pieces
    decreases n
  {
    if n == 0 {
      assert pieces + Empties(0) == pieces;
    } else {
      var all := pieces + Empties(n);
      assert all[|all| - 1] == "";
      assert all[..|all| - 1] == pieces + Empties(n - 1);
      DropTrailingEmpties(pieces, n - 1);
    }
  }

  /** Joining `n + 1` empty pieces leaves only the `n` separators. */
  lemma {:induction false} JoinEmpties(n: nat, sep: char)
    ensures JoinWith(Empties(n + 1), [sep]) == Repeat(sep, n)
    decreases n
  {
    if n > 0 {
      assert Empties(n + 1)[1..] == Empties(n);
      JoinEmpties(n - 1, sep);
      assert [sep] + Repeat(sep, n - 1) == Repeat(sep, n);
    }
  }

  /** Empty pieces appended before joining add one separator each. */
  lemma {:induction false} JoinAppendEmpties(pieces: seq<string>, n: nat, sep: char)
    requires |pieces| >= 1
    ensures JoinWith(pieces + Empties(n), [sep]) == JoinWith(pieces, [sep]) + Repeat(sep, n)
    decreases |pieces|
  {
    var all := pieces + Empties(n);
    if |pieces| == 1 {
      if n == 0 {
        assert all == pieces;
      } else {
        assert all[1..] == Empties(n);
        JoinEmpties(n - 1, sep);
        assert [sep] + Repeat(sep, n - 1) == Repeat(sep, n);
      }
    } else {
      assert all[1..] == pieces[1..] + Empties(n);
      JoinAppendEmpties(pieces[1..], n, sep);
    }
  }

  /** Two or more joined pieces contain the separator. */
  lemma JoinHoldsSeparator(pieces: seq<string>, sep: char)
    requires |pieces| >= 2
    ensures !Lacks(JoinWith(pieces, [sep]), sep)
  {
    assert JoinWith(pieces, [sep])[|pieces[0]|] == sep;
  }

  /** String.split drops every trailing empty piece: pieces ending in a
      non-empty one, followed by any number of empty ones, split back into
      the pieces alone. */
  lemma JavaSplitTrailingEmpties(pieces: seq<string>, n: nat, sep: char)
    requires |pieces| >= 1 && pieces[|pieces| - 1] != "" && |pieces| + n >= 2
    requires forall k :: 0 <= k < |pieces| ==> Lacks(pieces[k], sep)
    ensures JavaSplit(JoinWith(pieces + Empties(n), [sep]), sep) == pieces
  {
    var all := pieces + Empties(n);
    assert forall k :: 0 <= k < |all| ==> Lacks(all[k], sep);
    SplitJoin(all, sep);
    JoinHoldsSeparator(all, sep);
    DropTrailingEmpties(pieces, n);
  }

  /** A text made of separators only splits into no parts at all. */
  lemma JavaSplitOnlySeparators(n: nat, sep: char)
    requires n >= 1
    ensures JavaSplit(Repeat(sep, n), sep) == []
  {
    JoinEmpties(n, sep);
    SplitJoin(Empties(n + 1), sep);
    assert Repeat(sep, n)[0] == sep;
    assert [] + Empties(n + 1) == Empties(n + 1);
    DropTrailingEmpties([], n + 1);
  }

  lemma {:induction false} NonEmptyAppend(a: seq<string>, b: seq<string>)
    ensures NonEmpty(a + b) == NonEmpty(a) + NonEmpty(b)
    decreases |a|
  {
    if |a| == 0 {
      assert a + b == b;
    } else {
      assert (a + b)[0] == a[0];
      assert (a + b)[1..] == a[1..] + b;
      NonEmptyAppend(a[1..], b);
    }
  }

  /** A newline separates the tokens before it from those after it. */
  lemma TokensConcat(a: string, b: string)
    ensures Tokens(a + "\n" + b) == Tokens(a) + Tokens(b)
  {
    SplitOnConcat(a, b, '\n');
    NonEmptyAppend(SplitOn(a, '\n'), SplitOn(b, '\n'));
  }

  /** A non-empty line without a newline is a single token. */
  lemma TokensOfLine(line: string)
    requires line != "" && Lacks(line, '\n')
    ensures Tokens(line) == [line]
  {
    SplitOnLacking(line, '\n');
    assert NonEmpty([line][1..]) == [];
  }

  /** Joined with newlines, pieces without one come back from the tokenizer
      with the empty ones left out. */
  lemma TokensOfJoin(pieces: seq<string>)
    requires |pieces| >= 1
    requires forall k :: 0 <= k < |pieces| ==> Lacks(pieces[k], '\n')
    ensures Tokens(JoinWith(pieces, "\n")) == NonEmpty(pieces)
  {
    SplitJoin(pieces, '\n');
  }

  /** Joining pieces that lack a character with a separator that lacks it
      gives a string that lacks it. */
  lemma {:induction false} LacksJoin(pieces: seq<string>, sep: string, c: char)
    requires Lacks(sep, c)
    requires forall k :: 0 <= k < |pieces| ==> Lacks(pieces[k], c)
    ensures Lacks(JoinWith(pieces, sep), c)
    decreases |pieces|
  {
    if |pieces| > 1 {
      LacksJoin(pieces[1..], sep, c);
      LacksAppend(pieces[0], sep, c);
      LacksAppend(pieces[0] + sep, JoinWith(pieces[1..], sep), c);
    }
  }

  /** The tokenizer gives back lines joined with newlines, provided none is
      empty or holds a newline. */
  lemma {:induction false} TokensJoin(lines: seq<string>)
    requires forall k :: 0 <= k < |lines| ==> lines[k] != "" && Lacks(lines[k], '\n')
    ensures Tokens(JoinWith(lines, "\n")) == lines
    decreases |lines|
  {
    if |lines| == 1 {
      TokensOfLine(lines[0]);
    } else if |lines| > 1 {
      TokensJoin(lines[1..]);
      TokensOfLine(lines[0]);
      TokensConcat(lines[0], JoinWith(lines[1..], "\n"));
      assert [lines[0]] + lines[1..] == lines;
    }
  }

  /** The first index at or after `i` holding a character above ' ', or |s|. */
  function FirstAbove(s: string, i: nat): (k: nat)
    requires i <= |s|
    ensures i <= k <= |s|
    ensures forall j :: i <= j < k ==> s[j] <= ' '
    ensures k < |s| ==> s[k] > ' '
    decreases |s| - i
  {
    if i < |s| && s[i] <= ' ' then FirstAbove(s, i + 1) else i
  }

  /** The end of `s[lo..hi]` once trailing characters up to ' ' are dropped. */
  function EndAbove(s: string, lo: nat, hi: nat): (k: nat)
    requires lo <= hi <= |s|
    ensures lo <= k <= hi
    ensures forall j :: k <= j < hi ==> s[j] <= ' '
    ensures k > lo ==> s[k - 1] > ' '
    decreases hi
  {
    if hi > lo && s[hi - 1] <= ' ' then EndAbove(s, lo, hi - 1) else hi
  }

  /** `r` is `s` with `s[..start]` and the tail after `r` removed, both made
      only of characters up to ' '. */
  predicate TrimmedAt(s: string, r: string, start: int) {
    && 0 <= start && start + |r| <= |s| && s[start..start + |r|] == r
    && (forall j :: 0 <= j < start ==> s[j] <= ' ')
    && (forall j :: start + |r| <= j < |s| ==> s[j] <= ' ')
  }

  /** String.trim(): removes every leading and trailing character whose code is
      at most that of ' '. */
  function JavaTrim(s: string): (r: string)
    ensures |r| <= |s|
    ensures |r| == 0 || (r[0] > ' ' && r[|r| - 1] > ' ')
  {
    var st := FirstAbove(s, 0);
    var en := EndAbove(s, st, |s|);
    s[st..en]
  }

  /** What String.trim() removes: only characters up to ' ', and only from
      the two ends. */
  lemma JavaTrimRemovesBlankEnds(s: string)
    ensures exists start :: TrimmedAt(s, JavaTrim(s), start)
  {
    var st := FirstAbove(s, 0);
    var en := EndAbove(s, st, |s|);
    assert JavaTrim(s) == s[st..en];
    assert TrimmedAt(s, s[st..en], st);
  }

  /** Trimming blank padding off a name that neither starts nor ends with a
      blank yields the name. */
  lemma TrimPadded(pad: string, name: string)
    requires forall j :: 0 <= j < |pad| ==> pad[j] <= ' '
    requires |name| > 0 && name[0] > ' ' && name[|name| - 1] > ' '
    ensures JavaTrim(pad + name) == name
  {
    var s := pad + name;
    var st := FirstAbove(s, 0);
    assert forall j :: 0 <= j < |pad| ==> s[j] == pad[j];
    assert s[|pad|] == name[0];
    assert st == |pad|;
    assert EndAbove(s, st, |s|) == |s|;
    assert s[st..|s|] == name;
  }

  /** Character.toLowerCase on the ASCII letters; other characters are kept. */
  function LowerChar(c: char): char {
    if 'A' <= c <= 'Z' then (c as int + 32) as char else c
  }

  /** String.toLowerCase(Locale.US) on the ASCII letters; other characters are kept. */
  function ToLowerAscii(s: string): (r: string)
    ensures |r| == |s|
    ensures forall i :: 0 <= i < |s| ==> r[i] == LowerChar(s[i])
  {
    if |s| == 0 then ""
    else [LowerChar(s[0])] + ToLowerAscii(s[1..])
  }
}
