/** Which part of the capture editor gets the focus, from the line the `%?`
    cursor marker was on (`determineInitialSubEditor`), and the blank-template
    case of `parseCaptureTemplate`. */
module CaptureParsing {
  import opened Wrappers
  import opened Strings
  import opened CaptureSubstitution

  datatype SubEditor =
    | TitleEditor
    | DescriptionEditor
    | PropertyListEditor
    | ScheduledEditor
    | DeadlineEditor

  /** The number of line feeds in `s` (`(s.match(/\n/g) || []).length`). */
  function Newlines(s: string): nat
    decreases |s|
  {
    if |s| == 0 then 0 else (if s[0] == '\n' then 1 else 0) + Newlines(s[1..])
  }

  function Min(a: nat, b: nat): nat { if a <= b then a else b }

  /** What the focus decision sees in a line, once trimmed: the two drawer
      markers, the two planning keywords, or anything else. The empty line falls
      under `OtherLine`, which covers the truthiness test on the cursor line. */
  datatype LineKind = PropertiesLine | EndLine | ScheduledLine | DeadlineLine | OtherLine

  function Classify(line: string): LineKind
  {
    var t := Trim(line);
    if t == ":PROPERTIES:" then PropertiesLine
    else if t == ":END:" then EndLine
    else if StartsWith(t, "SCHEDULED:") then ScheduledLine
    else if StartsWith(t, "DEADLINE:") then DeadlineLine
    else OtherLine
  }

  function Kinds(lines: seq<string>): (r: seq<LineKind>)
    ensures |r| == |lines|
    decreases |lines|
  {
    if |lines| == 0 then [] else Kinds(lines[..|lines| - 1]) + [Classify(lines[|lines| - 1])]
  }

  /** Whether the loop over the lines up to the cursor line is inside a property
      drawer after its first `n` steps: `:PROPERTIES:` opens the drawer, `:END:`
      closes it only when it lies before the cursor line. */
  function InDrawer(kinds: seq<LineKind>, cursorLine: nat, n: nat): bool
    requires n <= |kinds|
    decreases n
  {
    if n == 0 then false
    else
      var inside := InDrawer(kinds, cursorLine, n - 1);
      if kinds[n - 1] == PropertiesLine then true
      else if kinds[n - 1] == EndLine && inside then n - 1 >= cursorLine
      else inside
  }

  /** The focus for a substituted text and its cursor position. */
  function InitialSubEditor(text: string, cursor: Option<nat>): SubEditor
  {
    if cursor.None? then TitleEditor
    else
      var lineNumber := Newlines(text[..Min(cursor.value, |text|)]);
      if lineNumber == 0 then TitleEditor
      else FocusOnLine(Kinds(Split(text, '\n')), lineNumber)
  }

  /** The focus for a cursor past the first line, from the kinds of the lines
      and the number of the cursor line. */
  function FocusOnLine(kinds: seq<LineKind>, lineNumber: nat): SubEditor
  {
    if InDrawer(kinds, lineNumber, Min(lineNumber + 1, |kinds|)) then PropertyListEditor
    else if lineNumber < |kinds| && kinds[lineNumber] == ScheduledLine then ScheduledEditor
    else if lineNumber < |kinds| && kinds[lineNumber] == DeadlineLine then DeadlineEditor
    else DescriptionEditor
  }

  /** `determineInitialSubEditor`: the line of the cursor is found, the drawer
      is tracked up to it, then the cursor line itself is looked at. */
  method DetermineInitialSubEditor(text: string, cursor: Option<nat>) returns (e: SubEditor)
    ensures e == InitialSubEditor(text, cursor)
  {
    if cursor.None? {
      return TitleEditor;
    }
    var lineNumber := Newlines(text[..Min(cursor.value, |text|)]);
    if lineNumber == 0 {
      return TitleEditor;
    }
    var kinds := Kinds(Split(text, '\n'));
    var inDrawer := false;
    var i := 0;
    while i <= lineNumber && i < |kinds|
      invariant i <= lineNumber + 1 && i <= |kinds|
      invariant inDrawer == InDrawer(kinds, lineNumber, i)
    {
      if kinds[i] == PropertiesLine {
        inDrawer := true;
      } else if kinds[i] == EndLine && inDrawer {
        if i < lineNumber {
          inDrawer := false;
        }
      }
      i := i + 1;
    }
    assert i == Min(lineNumber + 1, |kinds|);
    if inDrawer {
      return PropertyListEditor;
    }
    if lineNumber < |kinds| && kinds[lineNumber] == ScheduledLine {
      return ScheduledEditor;
    }
    if lineNumber < |kinds| && kinds[lineNumber] == DeadlineLine {
      return DeadlineEditor;
    }
    return DescriptionEditor;
  }

  /** Each line is classified on its own. */
  lemma {:induction false} KindsAt(lines: seq<string>, i: nat)
    requires i < |lines|
    ensures Kinds(lines)[i] == Classify(lines[i])
    decreases |lines|
  {
    if i < |lines| - 1 {
      KindsAt(lines[..|lines| - 1], i);
    }
  }

  /** A line is a planning line for the focus exactly when, trimmed, it starts
      with the keyword (`SCHEDULED:` taking precedence). */
  lemma PlanningLine(line: string)
    ensures Classify(line) == ScheduledLine <==> StartsWith(Trim(line), "SCHEDULED:")
    ensures Classify(line) == DeadlineLine <==>
      !StartsWith(Trim(line), "SCHEDULED:") && StartsWith(Trim(line), "DEADLINE:")
  {
    var t := Trim(line);
    if t == ":PROPERTIES:" {
      assert t[0] != "SCHEDULED:"[0] && t[0] != "DEADLINE:"[0];
    } else if t == ":END:" {
      assert t[0] != "SCHEDULED:"[0] && t[0] != "DEADLINE:"[0];
    }
  }

  /** The drawer is open after `n` lines exactly when some `:PROPERTIES:` line
      among them is not followed by an `:END:` line that lies before the cursor
      line. */
  predicate OpenDrawer(kinds: seq<LineKind>, cursorLine: nat, n: nat)
    requires n <= |kinds|
  {
    exists j :: 0 <= j < n && kinds[j] == PropertiesLine &&
      forall m :: j < m < n && m < cursorLine ==> kinds[m] != EndLine
  }

  lemma {:induction false} DrawerState(kinds: seq<LineKind>, cursorLine: nat, n: nat)
    requires n <= |kinds|
    ensures InDrawer(kinds, cursorLine, n) <==> OpenDrawer(kinds, cursorLine, n)
    decreases n
  {
    if n > 0 {
      DrawerState(kinds, cursorLine, n - 1);
      if kinds[n - 1] == PropertiesLine {
        assert 0 <= n - 1 < n && kinds[n - 1] == PropertiesLine;
      } else if kinds[n - 1] == EndLine && n - 1 < cursorLine {
        assert !OpenDrawer(kinds, cursorLine, n) by {
          forall j | 0 <= j < n && kinds[j] == PropertiesLine
            ensures exists m :: j < m < n && m < cursorLine && kinds[m] == EndLine
          {
            assert j < n - 1;
          }
        }
      } else {
        if OpenDrawer(kinds, cursorLine, n - 1) {
          var j :| 0 <= j < n - 1 && kinds[j] == PropertiesLine &&
            forall m :: j < m < n - 1 && m < cursorLine ==> kinds[m] != EndLine;
          assert 0 <= j < n && kinds[j] == PropertiesLine;
        }
        if OpenDrawer(kinds, cursorLine, n) {
          var j :| 0 <= j < n && kinds[j] == PropertiesLine &&
            forall m :: j < m < n && m < cursorLine ==> kinds[m] != EndLine;
          assert j < n - 1;
        }
      }
    }
  }

  lemma {:induction false} NewlinesAppend(a: string, b: string)
    ensures Newlines(a + b) == Newlines(a) + Newlines(b)
    decreases |a|
  {
    if |a| == 0 {
      assert a + b == b;
    } else {
      assert (a + b)[0] == a[0];
      assert (a + b)[1..] == a[1..] + b;
      NewlinesAppend(a[1..], b);
    }
  }

  /** No line feed is counted exactly when there is none. */
  lemma {:induction false} NoNewlines(s: string)
    ensures Newlines(s) == 0 <==> '\n' !in s
    decreases |s|
  {
    if |s| > 0 {
      NoNewlines(s[1..]);
      assert s == [s[0]] + s[1..];
    }
  }

  /** Splitting at line feeds gives one line more than there are line feeds. */
  lemma {:induction false} LineCount(s: string)
    ensures |Split(s, '\n')| == Newlines(s) + 1
    decreases |s|
  {
    var k := IndexOfChar(s, '\n');
    if k == -1 {
      NoNewlines(s);
    } else {
      LineCount(s[k + 1..]);
      assert s == s[..k] + ([s[k]] + s[k + 1..]);
      NewlinesAppend(s[..k], [s[k]] + s[k + 1..]);
      NoNewlines(s[..k]);
      assert ([s[k]] + s[k + 1..])[1..] == s[k + 1..];
    }
  }

  /** The cursor line is a line of the text. */
  lemma CursorLineExists(text: string, k: nat)
    ensures Newlines(text[..Min(k, |text|)]) < |Split(text, '\n')|
  {
    var p := Min(k, |text|);
    assert text == text[..p] + text[p..];
    NewlinesAppend(text[..p], text[p..]);
    LineCount(text);
  }

  /** The title editor gets the focus exactly when there is no cursor or no line
      feed before it. */
  lemma TitleIffFirstLine(text: string, cursor: Option<nat>)
    ensures InitialSubEditor(text, cursor) == TitleEditor <==>
      cursor.None? || '\n' !in text[..Min(cursor.value, |text|)]
  {
    if cursor.Some? {
      NoNewlines(text[..Min(cursor.value, |text|)]);
    }
  }

  /** Past the first line, the focus follows the drawer and the cursor line: the
      property list while a `:PROPERTIES:` line at or before the cursor line has
      no `:END:` strictly before the cursor line (so a cursor on the `:END:` line
      is still inside), else the planning line it is on, else the description. */
  lemma FocusAfterTitle(kinds: seq<LineKind>, cursorLine: nat)
    requires cursorLine < |kinds|
    ensures FocusOnLine(kinds, cursorLine) ==
      if OpenDrawer(kinds, cursorLine, cursorLine + 1) then PropertyListEditor
      else if kinds[cursorLine] == ScheduledLine then ScheduledEditor
      else if kinds[cursorLine] == DeadlineLine then DeadlineEditor
      else DescriptionEditor
  {
    DrawerState(kinds, cursorLine, cursorLine + 1);
  }

  /** A cursor on an `:END:` line that directly follows `:PROPERTIES:` is inside
      the drawer. */
  lemma EndLineIsInside(kinds: seq<LineKind>, cursorLine: nat)
    requires 0 < cursorLine < |kinds|
    requires kinds[cursorLine - 1] == PropertiesLine && kinds[cursorLine] == EndLine
    ensures FocusOnLine(kinds, cursorLine) == PropertyListEditor
  {
    FocusAfterTitle(kinds, cursorLine);
    assert OpenDrawer(kinds, cursorLine, cursorLine + 1) by {
      assert 0 <= cursorLine - 1 < cursorLine + 1 && kinds[cursorLine - 1] == PropertiesLine;
    }
  }

  /** `parseCaptureTemplate` without the parsed header: the substituted text and
      the focus. */
  function ParseCaptureTemplate(template: string, custom: seq<(string, string)>, c: Clock): (string, SubEditor)
  {
    if template == "" || Trim(template) == "" then ("", TitleEditor)
    else
      var (text, cursor) := Substituted(template, custom, c);
      (text, InitialSubEditor(text, cursor))
  }

  /** Trimming leaves nothing exactly when every character is white space. */
  lemma BlankIffWhitespace(s: string)
    ensures Trim(s) == "" <==> forall i :: 0 <= i < |s| ==> IsWhitespace(s[i])
  {
    var r := TrimRight(s);
    assert |r| > 0 ==> r[|r| - 1] == s[|r| - 1];
    assert forall i :: 0 <= i < |r| ==> r[i] == s[i];
  }

  /** An empty or white-space-only template gives no text and the title editor. */
  lemma BlankTemplate(template: string, custom: seq<(string, string)>, c: Clock)
    requires forall i :: 0 <= i < |template| ==> IsWhitespace(template[i])
    ensures ParseCaptureTemplate(template, custom, c) == ("", TitleEditor)
  {
    BlankIffWhitespace(template);
  }
}
