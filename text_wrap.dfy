/** Hard wrapping of long text (`formatTextWrap`): line breaks in the input
    become spaces, then the words are laid out again, a line break replacing
    the space before any word that would make the running line length reach
    the limit. */
module TextWrap {
  import opened Strings

  predicate IsBreak(c: char) { c == '\r' || c == '\n' }

  predicate NoBreaks(s: string) { forall i :: 0 <= i < |s| ==> !IsBreak(s[i]) }

  /** The input with its leading run of `\r` and `\n` removed. */
  function DropBreaks(s: string): (r: string)
    ensures |r| <= |s|
    ensures |r| == 0 || !IsBreak(r[0])
  {
    if |s| > 0 && IsBreak(s[0]) then DropBreaks(s[1..]) else s
  }

  /** `text.replace(/[\r\n]+/g, ' ')`: each maximal run of `\r` and `\n` becomes
      one space. */
  function CollapseBreaks(s: string): (r: string)
    ensures '\n' !in r && '\r' !in r
    decreases |s|
  {
    if |s| == 0 then ""
    else if IsBreak(s[0]) then " " + CollapseBreaks(DropBreaks(s[1..]))
    else [s[0]] + CollapseBreaks(s[1..])
  }

  /** Text without line breaks passes through unchanged. */
  lemma {:induction false} NoBreaksUnchanged(s: string)
    requires NoBreaks(s)
    ensures CollapseBreaks(s) == s
    decreases |s|
  {
    if |s| > 0 {
      assert NoBreaks(s[1..]) by {
        forall i | 0 <= i < |s| - 1 ensures !IsBreak(s[1..][i]) { assert s[1..][i] == s[i + 1]; }
      }
      NoBreaksUnchanged(s[1..]);
      assert s == [s[0]] + s[1..];
    }
  }

  /** A run of line breaks between two pieces of text becomes exactly one space. */
  lemma {:induction false} RunBecomesOneSpace(a: string, run: string, b: string)
    requires NoBreaks(a)
    requires |run| > 0 && forall i :: 0 <= i < |run| ==> IsBreak(run[i])
    requires |b| == 0 || !IsBreak(b[0])
    ensures CollapseBreaks(a + run + b) == a + " " + CollapseBreaks(b)
    decreases |a|
  {
    if |a| == 0 {
      RunAtStart(run, b);
      assert a + run + b == run + b;
      assert a + " " == " ";
    } else {
      var s := a + run + b;
      var tail := CollapseBreaks(b);
      assert NoBreaks(a[1..]) by {
        forall i | 0 <= i < |a| - 1 ensures !IsBreak(a[1..][i]) { assert a[1..][i] == a[i + 1]; }
      }
      RunBecomesOneSpace(a[1..], run, b);
      assert s[1..] == a[1..] + run + b;
      assert s[0] == a[0] && !IsBreak(a[0]);
      assert CollapseBreaks(s) == [a[0]] + (a[1..] + " " + tail);
      assert [a[0]] + (a[1..] + " " + tail) == a + " " + tail;
    }
  }

  lemma {:induction false} RunAtStart(run: string, b: string)
    requires |run| > 0 && forall i :: 0 <= i < |run| ==> IsBreak(run[i])
    requires |b| == 0 || !IsBreak(b[0])
    ensures CollapseBreaks(run + b) == " " + CollapseBreaks(b)
  {
    var s := run + b;
    assert IsBreak(s[0]);
    DropRun(run[1..], b);
    assert s[1..] == run[1..] + b;
  }

  lemma {:induction false} DropRun(run: string, b: string)
    requires forall i :: 0 <= i < |run| ==> IsBreak(run[i])
    requires |b| == 0 || !IsBreak(b[0])
    ensures DropBreaks(run + b) == b
    decreases |run|
  {
    if |run| > 0 {
      assert (run + b)[1..] == run[1..] + b;
      DropRun(run[1..], b);
    } else {
      assert run + b == b;
    }
  }

  /** The words the wrapping lays out: the collapsed text split at single spaces. */
  function Words(text: string): (r: seq<string>)
    ensures |r| >= 1
    ensures forall i :: 0 <= i < |r| ==> ' ' !in r[i] && '\n' !in r[i]
  {
    var ws := Split(CollapseBreaks(text), ' ');
    assert forall i :: 0 <= i < |ws| ==> '\n' !in ws[i] by {
      forall i | 0 <= i < |ws| ensures '\n' !in ws[i] {
        SplitPiecesFrom(CollapseBreaks(text), ' ', '\n');
      }
    }
    ws
  }

  /** A character absent from the text is absent from every piece of a split. */
  lemma {:induction false} SplitPiecesFrom(s: string, c: char, d: char)
    requires d !in s
    ensures forall i :: 0 <= i < |Split(s, c)| ==> d !in Split(s, c)[i]
    decreases |s|
  {
    var k := IndexOfChar(s, c);
    if k != -1 {
      assert forall x :: x in s[k + 1..] ==> x in s;
      assert forall x :: x in s[..k] ==> x in s;
      SplitPiecesFrom(s[k + 1..], c, d);
    }
  }

  /** The result built so far and the running length of its current line. */
  datatype WrapState = WrapState(result: string, lineLength: int)

  /** One step of the `reduce`: a word either starts a new line or is appended
      to the current one, after a space unless nothing has been emitted yet. */
  function Step(st: WrapState, word: string, maxLineLength: int): WrapState
  {
    if st.lineLength + |word| >= maxLineLength then
      WrapState(st.result + "\n" + word, |word|)
    else if st.result != "" then
      WrapState(st.result + " " + word, st.lineLength + |word| + 1)
    else
      WrapState(word, st.lineLength + |word|)
  }

  /** The `reduce` over the words, from the empty result and a line length of 0. */
  function Wrap(words: seq<string>, maxLineLength: int): WrapState
    decreases |words|
  {
    if |words| == 0 then WrapState("", 0)
    else Step(Wrap(words[..|words| - 1], maxLineLength), words[|words| - 1], maxLineLength)
  }

  /** `formatTextWrap`: the loop over the words with the mutable line length. */
  method FormatTextWrap(text: string, maxLineLength: int) returns (r: string)
    ensures r == Wrap(Words(text), maxLineLength).result
  {
    var words := Split(CollapseBreaks(text), ' ');
    var lineLength := 0;
    r := "";
    var i := 0;
    while i < |words|
      invariant 0 <= i <= |words|
      invariant WrapState(r, lineLength) == Wrap(words[..i], maxLineLength)
    {
      var word := words[i];
      WrapPrefix(words, i, maxLineLength);
      if lineLength + |word| >= maxLineLength {
        lineLength := |word|;
        r := r + "\n" + word;
      } else {
        lineLength := lineLength + |word| + (if r != "" then 1 else 0);
        r := if r != "" then r + " " + word else word;
      }
      i := i + 1;
    }
    assert words[..|words|] == words;
  }

  /** The wrap of one more word of a list is one more step. */
  lemma {:induction false} WrapPrefix(words: seq<string>, i: nat, maxLineLength: int)
    requires i < |words|
    ensures Wrap(words[..i + 1], maxLineLength) == Step(Wrap(words[..i], maxLineLength), words[i], maxLineLength)
  {
    assert words[..i + 1][..i] == words[..i];
  }

  /** A line break comes before a word exactly when the running length plus
      the word's length reaches the limit. */
  lemma {:induction false} BreakExactlyAtLimit(words: seq<string>, word: string, maxLineLength: int)
    ensures var st := Wrap(words, maxLineLength);
      Wrap(words + [word], maxLineLength).result == st.result + "\n" + word <==>
        st.lineLength + |word| >= maxLineLength
  {
    var st := Wrap(words, maxLineLength);
    assert (words + [word])[..|words|] == words;
    var r := Wrap(words + [word], maxLineLength).result;
    if st.lineLength + |word| < maxLineLength {
      if st.result != "" {
        assert r[|st.result|] == ' ';
        assert (st.result + "\n" + word)[|st.result|] == '\n';
      } else {
        assert |r| == |word|;
      }
    }
  }

  /** The lines of a text: the pieces between its line breaks, the last piece
      being what follows the last break. */
  function Lines(s: string): (r: seq<string>)
    ensures |r| >= 1
    decreases |s|
  {
    var k := LastBreak(s);
    if k == -1 then [s] else Lines(s[..k]) + [s[k + 1..]]
  }

  /** The position of the last line break, -1 when there is none. */
  function LastBreak(s: string): (r: int)
    ensures -1 <= r < |s|
  {
    if |s| == 0 then -1
    else if s[|s| - 1] == '\n' then |s| - 1
    else LastBreak(s[..|s| - 1])
  }

  /** A line respects the limit unless it is one word too long to share a line. */
  predicate LineFits(line: string, maxLineLength: int)
  {
    |line| <= maxLineLength || ' ' !in line
  }

  /** The running length is the length of the current line, and every line fits. */
  predicate Laid(st: WrapState, maxLineLength: int)
  {
    var lines := Lines(st.result);
    st.lineLength == |lines[|lines| - 1]| &&
    forall i :: 0 <= i < |lines| ==> LineFits(lines[i], maxLineLength)
  }

  /** After any number of words the running length is the length of the
      current line, and every line fits: no line that holds a space is longer
      than the limit. */
  lemma {:induction false} LinesFit(words: seq<string>, maxLineLength: int)
    requires forall i :: 0 <= i < |words| ==> ' ' !in words[i] && '\n' !in words[i]
    ensures Laid(Wrap(words, maxLineLength), maxLineLength)
    decreases |words|
  {
    if |words| == 0 {
      assert Lines("") == [""];
    } else {
      var ws := words[..|words| - 1];
      var w := words[|words| - 1];
      LinesFit(ws, maxLineLength);
      StepLaid(Wrap(ws, maxLineLength), w, maxLineLength);
    }
  }

  lemma {:induction false} StepLaid(st: WrapState, w: string, maxLineLength: int)
    requires Laid(st, maxLineLength) && ' ' !in w && '\n' !in w
    ensures Laid(Step(st, w, maxLineLength), maxLineLength)
  {
    if st.lineLength + |w| >= maxLineLength {
      BreakLaid(st, w, maxLineLength);
    } else if st.result != "" {
      SpaceLaid(st, w, maxLineLength);
    } else {
      FirstLaid(st, w, maxLineLength);
    }
  }

  lemma {:induction false} FirstLaid(st: WrapState, w: string, maxLineLength: int)
    requires Laid(st, maxLineLength) && '\n' !in w
    requires st.result == "" && st.lineLength + |w| < maxLineLength
    ensures Laid(WrapState(w, st.lineLength + |w|), maxLineLength)
  {
    assert Lines("") == [""];
    LastBreakAppend("", w);
    assert "" + w == w;
    assert Lines(w) == [w];
  }

  lemma {:induction false} BreakLaid(st: WrapState, w: string, maxLineLength: int)
    requires Laid(st, maxLineLength) && ' ' !in w && '\n' !in w
    ensures Laid(WrapState(st.result + "\n" + w, |w|), maxLineLength)
  {
    var lines := Lines(st.result);
    LinesBreak(st.result, w);
    var next := lines + [w];
    forall i | 0 <= i < |next| ensures LineFits(next[i], maxLineLength) {
      if i < |lines| {
        assert next[i] == lines[i];
      }
    }
  }

  lemma {:induction false} SpaceLaid(st: WrapState, w: string, maxLineLength: int)
    requires Laid(st, maxLineLength) && '\n' !in w
    requires st.lineLength + |w| < maxLineLength
    ensures Laid(WrapState(st.result + " " + w, st.lineLength + |w| + 1), maxLineLength)
  {
    var lines := Lines(st.result);
    assert '\n' !in " " + w;
    LinesAppend(st.result, " " + w);
    assert st.result + " " + w == st.result + (" " + w);
    var last := lines[|lines| - 1] + (" " + w);
    var next := lines[..|lines| - 1] + [last];
    forall i | 0 <= i < |next| ensures LineFits(next[i], maxLineLength) {
      if i < |lines| - 1 {
        assert next[i] == lines[i];
      }
    }
  }

  /** Text without a line break extends the current line. */
  lemma {:induction false} LinesAppend(a: string, x: string)
    requires '\n' !in x
    ensures var p := Lines(a);
      Lines(a + x) == p[..|p| - 1] + [p[|p| - 1] + x]
  {
    LastBreakAppend(a, x);
    var k := LastBreak(a);
    if k >= 0 {
      assert (a + x)[..k] == a[..k];
      assert (a + x)[k + 1..] == a[k + 1..] + x;
    }
  }

  /** A line break followed by text without one starts a new line. */
  lemma {:induction false} LinesBreak(a: string, w: string)
    requires '\n' !in w
    ensures Lines(a + "\n" + w) == Lines(a) + [w]
  {
    var s := a + "\n" + w;
    LastBreakAppend(a + "\n", w);
    assert (a + "\n")[..|a|] == a;
    assert LastBreak(a + "\n") == |a|;
    assert s[..|a|] == a;
    assert s[|a| + 1..] == w;
  }

  lemma {:induction false} LastBreakAppend(s: string, x: string)
    requires '\n' !in x
    ensures LastBreak(s + x) == LastBreak(s)
    decreases |x|
  {
    if |x| == 0 {
      assert s + x == s;
    } else {
      var y := x[..|x| - 1];
      assert x[|x| - 1] in x;
      assert forall c :: c in y ==> c in x;
      assert (s + x)[..|s + x| - 1] == s + y;
      LastBreakAppend(s, y);
    }
  }

  /** The output with its line breaks read as spaces. */
  function Flatten(s: string): (r: string)
    ensures |r| == |s|
  {
    seq(|s|, i requires 0 <= i < |s| => if s[i] == '\n' then ' ' else s[i])
  }

  lemma {:induction false} FlattenAppend(a: string, b: string)
    ensures Flatten(a + b) == Flatten(a) + Flatten(b)
  {
    assert forall i :: 0 <= i < |a| ==> (a + b)[i] == a[i];
    assert forall i :: |a| <= i < |a + b| ==> (a + b)[i] == b[i - |a|];
  }

  lemma {:induction false} FlattenPlain(w: string)
    requires '\n' !in w
    ensures Flatten(w) == w
  {
    assert forall i :: 0 <= i < |w| ==> w[i] in w;
  }

  /** Each step ends the result with the word just laid out. */
  lemma {:induction false} WrapEndsWithLast(words: seq<string>, maxLineLength: int)
    requires |words| >= 1
    ensures |Wrap(words, maxLineLength).result| >= |words[|words| - 1]|
  {
  }

  /** The words come out in order, each once, separated by one space or one line
      break; a line break stands first only when the first word alone reaches the limit. */
  lemma {:induction false} WordsInOrder(words: seq<string>, maxLineLength: int)
    requires |words| >= 1
    requires forall i :: 0 <= i < |words| ==> words[i] != "" && '\n' !in words[i]
    ensures Flatten(Wrap(words, maxLineLength).result) ==
      (if |words[0]| >= maxLineLength then " " else "") + Join(words, " ")
    decreases |words|
  {
    var ws := words[..|words| - 1];
    var w := words[|words| - 1];
    assert '\n' !in w;
    if |ws| == 0 {
      assert words == [w];
      FlattenPlain(w);
      if |w| >= maxLineLength {
        FlattenAppend("\n", w);
      }
    } else {
      WordsInOrder(ws, maxLineLength);
      var st := Wrap(ws, maxLineLength);
      WrapEndsWithLast(ws, maxLineLength);
      var sep := if st.lineLength + |w| >= maxLineLength then "\n" else " ";
      assert Wrap(words, maxLineLength).result == st.result + (sep + w);
      assert ws[0] == words[0];
      FlattenStep(st.result, sep, w, if |words[0]| >= maxLineLength then " " else "", Join(ws, " "));
      JoinSnoc(ws, w, " ");
      assert ws + [w] == words;
    }
  }

  lemma {:induction false} FlattenStep(r: string, sep: string, w: string, prefix: string, joined: string)
    requires Flatten(r) == prefix + joined
    requires sep == "\n" || sep == " "
    requires '\n' !in w
    ensures Flatten(r + (sep + w)) == prefix + (joined + " " + w)
  {
    FlattenAppend(r, sep + w);
    FlattenAppend(sep, w);
    FlattenPlain(w);
    assert Flatten(sep) == " ";
  }

  /** The output starts with a line break exactly when the first word alone
      reaches the limit. */
  lemma {:induction false} LeadingBreak(words: seq<string>, maxLineLength: int)
    requires |words| >= 1 && words[0] != "" && '\n' !in words[0]
    ensures var r := Wrap(words, maxLineLength).result;
      |r| > 0 && (r[0] == '\n' <==> |words[0]| >= maxLineLength)
    decreases |words|
  {
    if |words| > 1 {
      var ws := words[..|words| - 1];
      assert ws[0] == words[0];
      LeadingBreak(ws, maxLineLength);
    } else {
      assert words[0][0] in words[0];
    }
  }

  /** For any text, the wrapped output keeps the line length it reports and
      every line that holds a space fits within the limit. */
  lemma {:induction false} TextLinesFit(text: string, maxLineLength: int)
    ensures Laid(Wrap(Words(text), maxLineLength), maxLineLength)
  {
    LinesFit(Words(text), maxLineLength);
  }
}
