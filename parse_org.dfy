/** `src/lib/parse_org.js`: the id supply, title lines, `#+TODO:` keyword sets and
    the line-by-line parse of a whole file into headers. */
module ParseOrg {
  import opened Wrappers
  import opened Strings
  import opened OrgTypes
  import opened Links

  /** `getNextId`: a closure over a counter that starts at 0. */
  class IdCounter {
    var nextId: nat

    constructor()
      ensures nextId == 0
    {
      nextId := 0;
    }

    /** `nextId++`: hands out the current value and advances by one, so the ids
        handed out are 0, 1, 2, … and strictly increasing. */
    method GetNextId() returns (id: Id)
      modifies this
      ensures id == old(nextId) && nextId == old(nextId) + 1
    {
      id := nextId;
      nextId := nextId + 1;
    }
  }

  /** `defaultKeywordSets`. */
  const DefaultKeywordSets: seq<KeywordSet> := [KeywordSet(["TODO", "DONE"], [], "", true)]

  /** `todoKeywordSets.flatMap(set => set.keywords)`. */
  function AllKeywords(sets: seq<KeywordSet>): (r: seq<string>)
    ensures forall s, k :: s in sets && k in s.keywords ==> k in r
    ensures forall k :: k in r ==> exists s :: s in sets && k in s.keywords
    decreases |sets|
  {
    if |sets| == 0 then []
    else
      var rest := AllKeywords(sets[1..]);
      assert forall s :: s in sets[1..] ==> s in sets;
      assert forall s :: s in sets ==> s == sets[0] || s in sets[1..];
      sets[0].keywords + rest
  }

  /** `allKeywords.filter(k => line.startsWith(k + ' ')).first()`. */
  function FirstKeyword(line: string, keywords: seq<string>): (r: Option<string>)
    ensures r.None? <==> forall i :: 0 <= i < |keywords| ==> !StartsWith(line, keywords[i] + " ")
    ensures r.Some? ==>
      exists i :: (0 <= i < |keywords| && r.value == keywords[i] &&
        StartsWith(line, keywords[i] + " ") &&
        forall j :: 0 <= j < i ==> !StartsWith(line, keywords[j] + " "))
    decreases |keywords|
  {
    if |keywords| == 0 then None
    else if StartsWith(line, keywords[0] + " ") then Some(keywords[0])
    else
      var r := FirstKeyword(line, keywords[1..]);
      assert forall i :: 1 <= i < |keywords| ==> keywords[1..][i - 1] == keywords[i];
      if r.Some? then
        ghost var i :| 0 <= i < |keywords[1..]| && r.value == keywords[1..][i] &&
          StartsWith(line, keywords[1..][i] + " ") &&
          forall j :: 0 <= j < i ==> !StartsWith(line, keywords[1..][j] + " ");
        assert r.value == keywords[i + 1];
        r
      else r
  }

  /** `/^:[^\s]+:$/`: a colon, at least one non-white-space character, a colon. */
  predicate IsTagGroup(token: string)
  {
    |token| >= 3 && token[0] == ':' && token[|token| - 1] == ':' &&
    forall i :: 1 <= i < |token| - 1 ==> !IsWhitespace(token[i])
  }

  /** The last `' '`-separated piece of `s` (`titleParts[titleParts.length - 1]`). */
  function LastWord(s: string): (r: string)
    ensures EndsWith(s, r) && ' ' !in r
  {
    var k := LastIndexOfChar(s, ' ');
    SuffixEndsWith(s, k + 1);
    s[k + 1..]
  }

  /** `possibleTags.split(':').filter(tag => tag !== '')`. */
  function NonEmpty(pieces: seq<string>): (r: seq<string>)
    ensures forall t :: t in r ==> t != "" && t in pieces
    ensures forall t :: t in pieces && t != "" ==> t in r
    decreases |pieces|
  {
    if |pieces| == 0 then []
    else if pieces[0] == "" then NonEmpty(pieces[1..])
    else [pieces[0]] + NonEmpty(pieces[1..])
  }

  /** The tag step of `parseTitleLine` exactly as written: the tag group is cut
      off the UNTRIMMED title (`rawTitle.substr(0, rawTitle.length - possibleTags.length)`),
      so trailing white space after the group shifts the cut. */
  function ExtractTagsAsWritten(rawTitle: string): (r: (string, seq<string>))
    ensures |r.0| <= |rawTitle|
    ensures !EndsWith(TrimRight(rawTitle), ":") ==> r == (rawTitle, [])
  {
    var trimmed := TrimRight(rawTitle);
    if EndsWith(trimmed, ":") then
      var token := LastWord(trimmed);
      if IsTagGroup(token) then
        (rawTitle[..|rawTitle| - |token|], NonEmpty(Split(token, ':')))
      else (rawTitle, [])
    else (rawTitle, [])
  }

  /** Trailing white space after a tag group: `"Foo :a: "` keeps `"Foo :"` as its
      title instead of `"Foo "`. */
  lemma TagGroupA()
    ensures IsTagGroup(":a:") && NonEmpty(Split(":a:", ':')) == ["a"]
  {
    assert IndexOfChar(":a:", ':') == 0;
    assert IndexOfChar("a:", ':') == 1;
    assert ":a:"[..0] == "" && ":a:"[1..] == "a:";
    assert "a:"[..1] == "a" && "a:"[2..] == "";
    assert Split("", ':') == [""];
    assert Split("a:", ':') == ["a", ""];
    assert Split(":a:", ':') == ["", "a", ""];
    assert NonEmpty(["", "a", ""]) == ["a"];
  }

  lemma TrimmedFooA()
    ensures TrimRight("Foo :a: ") == "Foo :a:" && LastWord("Foo :a:") == ":a:"
  {
    var raw := "Foo :a: ";
    assert TrimRight(raw[..7]) == raw[..7];
    assert LastIndexOfChar("Foo :a:", ' ') == 3;
  }

  lemma FooACut()
    ensures EndsWith("Foo :a:", ":") && |":a:"| == 3 && "Foo :a: "[..5] == "Foo :"
  {
    assert "Foo :a:"[6..] == ":";
  }

  lemma TrailingSpaceCutsTitle()
    ensures ExtractTagsAsWritten("Foo :a: ") == ("Foo :", ["a"])
  {
    TagGroupA();
    TrimmedFooA();
    FooACut();
  }

  /** The tag step with the cut taken from the trimmed title, which is what the
      cut evidently means: the title is everything before the tag group. */
  function ExtractTags(rawTitle: string): (r: (string, seq<string>))
    ensures forall t :: t in r.1 ==> t != "" && ':' !in t && ' ' !in t
    ensures !EndsWith(TrimRight(rawTitle), ":") ==> r == (rawTitle, [])
    ensures r.0 != rawTitle ==>
      IsTagGroup(LastWord(TrimRight(rawTitle))) && r.0 + LastWord(TrimRight(rawTitle)) == TrimRight(rawTitle)
  {
    var trimmed := TrimRight(rawTitle);
    if EndsWith(trimmed, ":") then
      var token := LastWord(trimmed);
      if IsTagGroup(token) then
        var tags := NonEmpty(Split(token, ':'));
        assert forall t :: t in tags ==> t in Split(token, ':');
        assert forall t :: t in tags ==> ' ' !in t by {
          forall t | t in tags ensures ' ' !in t {
            assert t in Split(token, ':');
            SplitPiecesWithin(token, ':', t, ' ');
          }
        }
        assert trimmed[..|trimmed| - |token|] + token == trimmed;
        (trimmed[..|trimmed| - |token|], tags)
      else (rawTitle, [])
    else (rawTitle, [])
  }

  /** The two cuts find the same tags, and they give the same title unless
      white space follows the tag group. */
  lemma ExtractTagsAgree(rawTitle: string)
    ensures ExtractTagsAsWritten(rawTitle).1 == ExtractTags(rawTitle).1
    ensures TrimRight(rawTitle) == rawTitle ==> ExtractTagsAsWritten(rawTitle) == ExtractTags(rawTitle)
  {
  }

  /** Every piece of `s.split(c)` only holds characters of `s`. */
  lemma {:induction false} SplitPiecesWithin(s: string, c: char, piece: string, d: char)
    requires piece in Split(s, c) && d !in s
    ensures d !in piece
    decreases |s|
  {
    var k := IndexOfChar(s, c);
    if k != -1 {
      if piece != s[..k] {
        assert piece in Split(s[k + 1..], c);
        SplitPiecesWithin(s[k + 1..], c, piece, d);
      }
    }
  }

  /** `FirstKeyword` read on membership: absent exactly when no keyword and a
      space start the line; a found keyword is one of them and starts the line. */
  lemma FirstKeywordIn(line: string, keywords: seq<string>)
    ensures var r := FirstKeyword(line, keywords);
      (r.None? <==> forall k :: k in keywords ==> !StartsWith(line, k + " ")) &&
      (r.Some? ==> r.value in keywords && StartsWith(line, r.value + " "))
  {
    var r := FirstKeyword(line, keywords);
    if r.Some? {
      var i :| 0 <= i < |keywords| && r.value == keywords[i] && StartsWith(line, keywords[i] + " ");
      assert r.value in keywords;
    } else {
      forall k | k in keywords ensures !StartsWith(line, k + " ") {
        var i :| 0 <= i < |keywords| && keywords[i] == k;
      }
    }
  }

  /** What follows the keyword (and its space) in a title line, or the whole line. */
  function AfterKeyword(line: string, todoKeyword: string): string
  {
    if todoKeyword != "" then Substr(line, |todoKeyword| + 1) else line
  }

  /** `parseTitleLine`. */
  function ParseTitleLine(line: string, sets: seq<KeywordSet>): TitleLine
  {
    var todoKeyword := FirstKeyword(line, AllKeywords(sets));
    var (rawTitle, tags) := ExtractTagsAsWritten(AfterKeyword(line, todoKeyword.GetOr("")));
    TitleLine(ParseLinks(rawTitle), rawTitle, todoKeyword, tags)
  }

  /** The keyword is absent (JavaScript `undefined`) exactly when the line starts
      with no keyword and a space; a keyword that is found, the empty one of a
      `#+TODO:` line included, is one the line starts with, followed by a space;
      only a non-empty keyword is cut off the title; tags are non-empty words;
      without a tag group the line is exactly keyword, space and raw title. */
  lemma ParseTitleLineSpec(line: string, sets: seq<KeywordSet>)
    ensures var r := ParseTitleLine(line, sets);
      (r.todoKeyword.None? <==> forall k :: k in AllKeywords(sets) ==> !StartsWith(line, k + " ")) &&
      (r.todoKeyword.Some? ==>
        r.todoKeyword.value in AllKeywords(sets) && StartsWith(line, r.todoKeyword.value + " ")) &&
      (forall t :: t in r.tags ==> t != "" && ':' !in t && ' ' !in t) &&
      (!EndsWith(TrimRight(AfterKeyword(line, r.Keyword())), ":") ==>
        r.tags == [] && line == (if r.Keyword() != "" then r.Keyword() + " " else "") + r.rawTitle) &&
      r.title == ParseLinks(r.rawTitle)
  {
    ParseTitleLineKeyword(line, sets);
    ParseTitleLineTags(line, sets);
  }

  /** The keyword half of `ParseTitleLineSpec`. */
  lemma ParseTitleLineKeyword(line: string, sets: seq<KeywordSet>)
    ensures var r := ParseTitleLine(line, sets);
      (r.todoKeyword.None? <==> forall k :: k in AllKeywords(sets) ==> !StartsWith(line, k + " ")) &&
      (r.todoKeyword.Some? ==>
        r.todoKeyword.value in AllKeywords(sets) && StartsWith(line, r.todoKeyword.value + " "))
  {
    FirstKeywordIn(line, AllKeywords(sets));
    assert ParseTitleLine(line, sets).todoKeyword == FirstKeyword(line, AllKeywords(sets));
  }

  /** The title and tags half of `ParseTitleLineSpec`. */
  lemma ParseTitleLineTags(line: string, sets: seq<KeywordSet>)
    ensures var r := ParseTitleLine(line, sets);
      (forall t :: t in r.tags ==> t != "" && ':' !in t && ' ' !in t) &&
      (!EndsWith(TrimRight(AfterKeyword(line, r.Keyword())), ":") ==>
        r.tags == [] && line == (if r.Keyword() != "" then r.Keyword() + " " else "") + r.rawTitle) &&
      r.title == ParseLinks(r.rawTitle)
  {
    var keyword := FirstKeyword(line, AllKeywords(sets));
    FirstKeywordIn(line, AllKeywords(sets));
    var todoKeyword := keyword.GetOr("");
    var body := AfterKeyword(line, todoKeyword);
    assert todoKeyword != "" ==> line == todoKeyword + " " + body;
    ExtractTagsAgree(body);
  }

  /** A title that does not end in `:` (after trimming) has no tags, and is
      exactly the keyword, a space and the raw title, or just the raw title. */
  lemma ParseTitleLineUntagged(line: string, sets: seq<KeywordSet>)
    requires !EndsWith(TrimRight(line), ":")
    ensures var r := ParseTitleLine(line, sets);
      r.tags == [] &&
      line == (if r.Keyword() != "" then r.Keyword() + " " else "") + r.rawTitle
  {
    var keyword := FirstKeyword(line, AllKeywords(sets));
    var todoKeyword := keyword.GetOr("");
    var body := AfterKeyword(line, todoKeyword);
    if todoKeyword != "" {
      assert StartsWith(line, todoKeyword + " ");
      KeywordThenBody(line, todoKeyword);
    }
    assert ExtractTagsAsWritten(body) == (body, []);
  }

  /** After a recognised keyword the line is the keyword, a space and the body,
      and the body ends in `:` only when the line does. */
  lemma KeywordThenBody(line: string, todoKeyword: string)
    requires todoKeyword != "" && StartsWith(line, todoKeyword + " ")
    ensures line == todoKeyword + " " + AfterKeyword(line, todoKeyword)
    ensures EndsWith(TrimRight(AfterKeyword(line, todoKeyword)), ":") ==> EndsWith(TrimRight(line), ":")
  {
    var body := AfterKeyword(line, todoKeyword);
    assert body == line[|todoKeyword| + 1..];
    if EndsWith(TrimRight(body), ":") {
      TrimRightSuffix(line, |todoKeyword| + 1, ':');
    }
  }

  /** A title-line parser: `parseTitleLine` in `parseOrg`. The header builder
      and the line loop below take it as a parameter, so what is proved about
      them holds whatever the title parser. */
  type TitleParser = (string, seq<KeywordSet>) -> TitleLine

  /** `newHeaderWithTitle` with the id `getNextId` would hand out; an empty
      list of keyword sets falls back to the default one. */
  function NewHeaderWithTitle(parseTitle: TitleParser, line: string, nestingLevel: nat, sets: seq<KeywordSet>, id: Id): Header
  {
    var effective := if |sets| == 0 then DefaultKeywordSets else sets;
    Header(id, nestingLevel, false, parseTitle(line, effective), "", [], [], [], None, None)
  }

  /** `newHeaderWithTitle`, drawing its id from the counter. */
  method NewHeader(counter: IdCounter, parseTitle: TitleParser, line: string, nestingLevel: nat,
                   sets: seq<KeywordSet>)
    returns (h: Header)
    modifies counter
    ensures h == NewHeaderWithTitle(parseTitle, line, nestingLevel, sets, old(counter.nextId))
    ensures counter.nextId == old(counter.nextId) + 1
  {
    var id := counter.GetNextId();
    h := NewHeaderWithTitle(parseTitle, line, nestingLevel, sets, id);
  }

  /** `line.startsWith('*')`. */
  predicate IsHeaderLine(line: string)
  {
    |line| > 0 && line[0] == '*'
  }

  /** `line.indexOf(' ')`, or the line length when there is no space. */
  function LevelOf(line: string): (level: nat)
    ensures level <= |line|
  {
    var k := IndexOfChar(line, ' ');
    if k == -1 then |line| else k
  }

  /** The level is the length of the leading run of non-space characters, at
      least 1 on a `*` line. */
  lemma LevelOfSpec(line: string)
    ensures ' ' !in line[..LevelOf(line)]
    ensures LevelOf(line) == |line| || line[LevelOf(line)] == ' '
    ensures IsHeaderLine(line) ==> LevelOf(line) >= 1
  {
    assert line[..|line|] == line;
  }

  /** `line.substr(nestingLevel + 1)`. */
  function TitleOf(line: string): string
  {
    Substr(line, LevelOf(line) + 1)
  }

  predicate IsConfigLine(line: string)
  {
    StartsWith(line, "#+TODO: ") || StartsWith(line, "#+TYP_TODO: ")
  }

  function RemoveBars(words: seq<string>): (r: seq<string>)
    ensures forall w :: w in r <==> w in words && w != "|"
    decreases |words|
  {
    if |words| == 0 then []
    else if words[0] == "|" then RemoveBars(words[1..])
    else [words[0]] + RemoveBars(words[1..])
  }

  /** Group 1 of `/([^(]*)(\(.*\))?/`: everything before the first `(`. */
  function BeforeParen(word: string): (r: string)
    ensures StartsWith(word, r) && '(' !in r
    ensures '(' !in word ==> r == word
  {
    var k := IndexOfChar(word, '(');
    if k == -1 then assert word[..|word|] == word; word else word[..k]
  }

  function StripAnnotations(words: seq<string>): (r: seq<string>)
    ensures |r| == |words|
    ensures forall i :: 0 <= i < |words| ==> r[i] == BeforeParen(words[i])
  {
    seq(|words|, i requires 0 <= i < |words| => BeforeParen(words[i]))
  }

  /** The keyword set of a `#+TODO:` / `#+TYP_TODO:` line: the words after
      `': '`, split at every single white-space character, without `|`, each
      cut before its `(…)` annotation. */
  function KeywordSetFromConfigLine(line: string): KeywordSet
    requires IsConfigLine(line)
  {
    var colon := IndexOfChar(line, ':');
    KeywordSet(StripAnnotations(RemoveBars(SplitWhitespace(Substr(line, colon + 2)))), [], line, false)
  }

  /** A config line gives a non-default set whose keywords hold neither white
      space nor `(`. */
  lemma ConfigLineKeywords(line: string)
    requires IsConfigLine(line)
    ensures var r := KeywordSetFromConfigLine(line);
      r.configLine == line && !r.isDefault && r.completedKeywords == [] &&
      forall k :: k in r.keywords ==> '(' !in k && forall j :: 0 <= j < |k| ==> !IsWhitespace(k[j])
  {
    var colon := IndexOfChar(line, ':');
    var words := RemoveBars(SplitWhitespace(Substr(line, colon + 2)));
    var keywords := StripAnnotations(words);
    forall i, j | 0 <= i < |keywords| && 0 <= j < |keywords[i]|
      ensures !IsWhitespace(keywords[i][j])
    {
      assert words[i] in SplitWhitespace(Substr(line, colon + 2));
      assert keywords[i][j] == words[i][j];
    }
  }

  /** The accumulators of `parseOrg`'s `forEach`. */
  datatype ParseState = ParseState(headers: seq<Header>, sets: seq<KeywordSet>)

  /** `headers.updateIn([headers.size - 1, 'rawDescription'], d => d + '\n' + line)`. */
  function AppendDescription(headers: seq<Header>, line: string): (r: seq<Header>)
    requires |headers| > 0
    ensures |r| == |headers|
    ensures forall k :: 0 <= k < |r| - 1 ==> r[k] == headers[k]
  {
    var last := headers[|headers| - 1];
    headers[..|headers| - 1] + [last.(rawDescription := last.rawDescription + "\n" + line)]
  }

  /** One iteration of the `forEach` over the lines; `id` is the value the
      counter holds at that point. A header line gives the header
      `newHeaderWithTitle` builds, with `parseTitle` for `parseTitleLine`. */
  function Step(st: ParseState, line: string, id: Id, parseTitle: TitleParser): ParseState
  {
    if IsHeaderLine(line) then
      st.(headers := st.headers + [NewHeaderWithTitle(parseTitle, TitleOf(line), LevelOf(line), st.sets, id)])
    else if |st.headers| == 0 then
      if IsConfigLine(line) then st.(sets := st.sets + [KeywordSetFromConfigLine(line)]) else st
    else
      st.(headers := AppendDescription(st.headers, line))
  }

  /** The state after the `forEach` has seen the first `n` lines, the counter
      having started at `firstId`. */
  function ParsePrefix(lines: seq<string>, n: nat, firstId: Id, parseTitle: TitleParser): ParseState
    requires n <= |lines|
  {
    if n == 0 then ParseState([], [])
    else
      var st := ParsePrefix(lines, n - 1, firstId, parseTitle);
      Step(st, lines[n - 1], firstId + |st.headers|, parseTitle)
  }

  /** What `parseOrg` returns: the headers and the keyword sets only. The
      editor's file record, `OrgFiles.OrgFile`, adds the selection, narrowing
      and table-cell state that the reducers keep beside these. */
  datatype ParsedFile = ParsedFile(headers: seq<Header>, todoKeywordSets: seq<KeywordSet>)

  /** `headers.map(h => h.set('description', parseLinks(h.rawDescription)))`. */
  function WithDescriptions(headers: seq<Header>): (r: seq<Header>)
    ensures |r| == |headers|
    ensures forall i :: 0 <= i < |headers| ==>
      r[i] == headers[i].(description := ParseLinks(headers[i].rawDescription))
  {
    seq(|headers|, i requires 0 <= i < |headers| =>
      headers[i].(description := ParseLinks(headers[i].rawDescription)))
  }

  /** The specification of `parseOrg` for a counter that starts at `firstId`. */
  function ParseOrgSpec(fileContents: string, firstId: Id): ParsedFile
  {
    var lines := Split(fileContents, '\n');
    var st := ParsePrefix(lines, |lines|, firstId, ParseTitleLine);
    ParsedFile(WithDescriptions(st.headers), if |st.sets| == 0 then DefaultKeywordSets else st.sets)
  }

  lemma {:induction false} PrefixStep(lines: seq<string>, i: nat, n: nat, firstId: Id, parseTitle: TitleParser)
    requires i < |lines| && n == i + 1
    ensures ParsePrefix(lines, n, firstId, parseTitle) ==
      Step(ParsePrefix(lines, i, firstId, parseTitle), lines[i],
           firstId + |ParsePrefix(lines, i, firstId, parseTitle).headers|, parseTitle)
  {
  }

  /** The body of `parseOrg`'s `forEach` for the line at `i`: it takes the state
      after `i` lines to the state after `i + 1`. */
  method ParseLine(counter: IdCounter, parseTitle: TitleParser, lines: seq<string>, i: nat,
                   ghost firstId: Id, headers: seq<Header>, sets: seq<KeywordSet>)
    returns (headers': seq<Header>, sets': seq<KeywordSet>)
    requires i < |lines|
    requires ParseState(headers, sets) == ParsePrefix(lines, i, firstId, parseTitle)
    requires counter.nextId == firstId + |headers|
    modifies counter
    ensures ParseState(headers', sets') == ParsePrefix(lines, i + 1, firstId, parseTitle)
    ensures counter.nextId == firstId + |headers'|
  {
    var line := lines[i];
    assert ParsePrefix(lines, i + 1, firstId, parseTitle) ==
      Step(ParseState(headers, sets), line, firstId + |headers|, parseTitle);
    headers', sets' := headers, sets;
    if IsHeaderLine(line) {
      var h := NewHeader(counter, parseTitle, TitleOf(line), LevelOf(line), sets);
      headers' := headers + [h];
    } else if |headers| == 0 {
      if IsConfigLine(line) {
        sets' := sets + [KeywordSetFromConfigLine(line)];
      }
    } else {
      headers' := AppendDescription(headers, line);
    }
  }

  /** The `forEach` of `parseOrg` over the lines, accumulating headers and
      keyword sets. */
  method ParseLines(counter: IdCounter, parseTitle: TitleParser, lines: seq<string>) returns (st: ParseState)
    modifies counter
    ensures st == ParsePrefix(lines, |lines|, old(counter.nextId), parseTitle)
    ensures counter.nextId == old(counter.nextId) + |st.headers|
  {
    ghost var firstId := counter.nextId;
    var headers: seq<Header> := [];
    var sets: seq<KeywordSet> := [];
    var i := 0;
    while i < |lines|
      invariant 0 <= i <= |lines|
      invariant ParseState(headers, sets) == ParsePrefix(lines, i, firstId, parseTitle)
      invariant counter.nextId == firstId + |headers|
    {
      headers, sets := ParseLine(counter, parseTitle, lines, i, firstId, headers, sets);
      i := i + 1;
    }
    st := ParseState(headers, sets);
  }

  /** `parseOrg`: the line loop, then the default keyword set and the
      description parse. */
  method ParseOrg(counter: IdCounter, fileContents: string) returns (file: ParsedFile)
    modifies counter
    ensures file == ParseOrgSpec(fileContents, old(counter.nextId))
    ensures counter.nextId == old(counter.nextId) + |file.headers|
  {
    var lines := Split(fileContents, '\n');
    var st := ParseLines(counter, ParseTitleLine, lines);
    var sets := st.sets;
    if |sets| == 0 {
      sets := DefaultKeywordSets;
    }
    file := ParsedFile(WithDescriptions(st.headers), sets);
  }

  /** The number of header lines among the first `n`. */
  function CountHeaderLines(lines: seq<string>, n: nat): nat
    requires n <= |lines|
  {
    if n == 0 then 0
    else CountHeaderLines(lines, n - 1) + (if IsHeaderLine(lines[n - 1]) then 1 else 0)
  }

  lemma {:induction false} CountHeaderLinesMono(lines: seq<string>, j: nat, n: nat)
    requires j <= n <= |lines|
    ensures CountHeaderLines(lines, j) <= CountHeaderLines(lines, n)
    ensures j < n && IsHeaderLine(lines[j]) ==> CountHeaderLines(lines, j) < CountHeaderLines(lines, n)
    decreases n
  {
    if j < n {
      CountHeaderLinesMono(lines, j, n - 1);
    }
  }

  /** What one line does to the number of headers and to the keyword sets. */
  lemma StepCounts(st: ParseState, line: string, id: Id, parseTitle: TitleParser)
    ensures var r := Step(st, line, id, parseTitle);
      |r.headers| == |st.headers| + (if IsHeaderLine(line) then 1 else 0) &&
      r.sets == (if !IsHeaderLine(line) && |st.headers| == 0 && IsConfigLine(line)
                 then st.sets + [KeywordSetFromConfigLine(line)] else st.sets)
  {
  }

  /** What one line does to the headers: a header line adds the header
      `newHeaderWithTitle` builds, any other line (once there is a header)
      extends the last header's description. */
  lemma StepHeaders(st: ParseState, line: string, id: Id, parseTitle: TitleParser)
    ensures IsHeaderLine(line) ==>
      Step(st, line, id, parseTitle).headers ==
        st.headers + [NewHeaderWithTitle(parseTitle, TitleOf(line), LevelOf(line), st.sets, id)]
    ensures !IsHeaderLine(line) && |st.headers| > 0 ==>
      Step(st, line, id, parseTitle).headers == AppendDescription(st.headers, line)
  {
  }

  /** What one line does to the headers' count, levels and ids, and to the
      keyword sets. */
  lemma StepShape(st: ParseState, line: string, id: Id, parseTitle: TitleParser)
    ensures var r := Step(st, line, id, parseTitle);
      |r.headers| == |st.headers| + (if IsHeaderLine(line) then 1 else 0) &&
      (forall k :: 0 <= k < |st.headers| ==>
        r.headers[k].nestingLevel == st.headers[k].nestingLevel && r.headers[k].id == st.headers[k].id) &&
      (IsHeaderLine(line) ==>
        r.headers[|st.headers|].nestingLevel == LevelOf(line) && r.headers[|st.headers|].id == id) &&
      r.sets == (if !IsHeaderLine(line) && |st.headers| == 0 && IsConfigLine(line)
                 then st.sets + [KeywordSetFromConfigLine(line)] else st.sets)
  {
  }

  /** The headers after `n` lines match the `*` lines among them: the header of
      the `*` line at `j` sits at the number of earlier `*` lines, has the
      line's level and the id handed out at that point. */
  predicate HeadersMatchStarLines(lines: seq<string>, n: nat, firstId: Id, hs: seq<Header>)
    requires n <= |lines|
  {
    |hs| == CountHeaderLines(lines, n) &&
    forall j :: 0 <= j < n && IsHeaderLine(lines[j]) ==>
      CountHeaderLines(lines, j) < |hs| &&
      hs[CountHeaderLines(lines, j)].nestingLevel == LevelOf(lines[j]) &&
      hs[CountHeaderLines(lines, j)].id == firstId + CountHeaderLines(lines, j)
  }

  lemma StarLinesStep(lines: seq<string>, n: nat, firstId: Id, prev: seq<Header>, hs: seq<Header>)
    requires 0 < n <= |lines|
    requires HeadersMatchStarLines(lines, n - 1, firstId, prev)
    requires |hs| == |prev| + (if IsHeaderLine(lines[n - 1]) then 1 else 0)
    requires forall k :: 0 <= k < |prev| ==>
      hs[k].nestingLevel == prev[k].nestingLevel && hs[k].id == prev[k].id
    requires IsHeaderLine(lines[n - 1]) ==>
      hs[|prev|].nestingLevel == LevelOf(lines[n - 1]) && hs[|prev|].id == firstId + |prev|
    ensures HeadersMatchStarLines(lines, n, firstId, hs)
  {
    forall j | 0 <= j < n && IsHeaderLine(lines[j])
      ensures CountHeaderLines(lines, j) < |hs|
      ensures hs[CountHeaderLines(lines, j)].nestingLevel == LevelOf(lines[j])
      ensures hs[CountHeaderLines(lines, j)].id == firstId + CountHeaderLines(lines, j)
    {
      if j < n - 1 {
        CountHeaderLinesMono(lines, j, n - 1);
      }
    }
  }

  /** One header per `*` line, in order, with the line's level and the next id. */
  lemma {:induction false} HeaderPerStarLine(lines: seq<string>, n: nat, firstId: Id, parseTitle: TitleParser)
    requires n <= |lines|
    ensures HeadersMatchStarLines(lines, n, firstId, ParsePrefix(lines, n, firstId, parseTitle).headers)
    decreases n
  {
    if n > 0 {
      HeaderPerStarLine(lines, n - 1, firstId, parseTitle);
      HeaderPerStarLineStep(lines, n, firstId, parseTitle);
    }
  }

  lemma HeaderPerStarLineStep(lines: seq<string>, n: nat, firstId: Id, parseTitle: TitleParser)
    requires 0 < n <= |lines|
    requires HeadersMatchStarLines(lines, n - 1, firstId, ParsePrefix(lines, n - 1, firstId, parseTitle).headers)
    ensures HeadersMatchStarLines(lines, n, firstId, ParsePrefix(lines, n, firstId, parseTitle).headers)
  {
    var st := ParsePrefix(lines, n - 1, firstId, parseTitle);
    PrefixStep(lines, n - 1, n, firstId, parseTitle);
    StepShape(st, lines[n - 1], firstId + |st.headers|, parseTitle);
    StarLinesStep(lines, n, firstId, st.headers, ParsePrefix(lines, n, firstId, parseTitle).headers);
  }

  /** Every description `parseOrg` builds is empty or starts a new line, since
      each line is appended as `'\n' + line`. */
  lemma {:induction false} DescriptionsStartNewLine(lines: seq<string>, n: nat, firstId: Id, parseTitle: TitleParser)
    requires n <= |lines|
    ensures forall k :: 0 <= k < |ParsePrefix(lines, n, firstId, parseTitle).headers| ==>
      var d := ParsePrefix(lines, n, firstId, parseTitle).headers[k].rawDescription;
      d == "" || (|d| > 0 && d[0] == '\n')
    decreases n
  {
    if n > 0 {
      DescriptionsStartNewLine(lines, n - 1, firstId, parseTitle);
    }
  }

  /** The index of the first `*` line, or the number of lines. */
  function FirstHeaderIndex(lines: seq<string>): (r: nat)
    ensures r <= |lines|
    ensures forall j :: 0 <= j < r ==> !IsHeaderLine(lines[j])
    ensures r < |lines| ==> IsHeaderLine(lines[r])
  {
    FirstHeaderFrom(lines, 0)
  }

  /** The index of the first `*` line at or after `i`, or the number of lines. */
  function FirstHeaderFrom(lines: seq<string>, i: nat): (r: nat)
    requires i <= |lines|
    ensures i <= r <= |lines|
    ensures forall j :: i <= j < r ==> !IsHeaderLine(lines[j])
    ensures r < |lines| ==> IsHeaderLine(lines[r])
    decreases |lines| - i
  {
    if i == |lines| || IsHeaderLine(lines[i]) then i else FirstHeaderFrom(lines, i + 1)
  }

  /** The keyword sets of the config lines among `lines`, in order. */
  function ConfigSetsOf(lines: seq<string>): seq<KeywordSet>
    decreases |lines|
  {
    if |lines| == 0 then []
    else
      var last := lines[|lines| - 1];
      ConfigSetsOf(lines[..|lines| - 1]) + (if IsConfigLine(last) then [KeywordSetFromConfigLine(last)] else [])
  }

  lemma ConfigSetsOfSnoc(lines: seq<string>, line: string)
    ensures ConfigSetsOf(lines + [line]) ==
      ConfigSetsOf(lines) + (if IsConfigLine(line) then [KeywordSetFromConfigLine(line)] else [])
  {
    assert (lines + [line])[..|lines|] == lines;
  }

  function Min(a: nat, b: nat): nat
  {
    if a <= b then a else b
  }

  /** One header per `*` line. */
  lemma HeaderCount(lines: seq<string>, n: nat, firstId: Id, parseTitle: TitleParser)
    requires n <= |lines|
    ensures |ParsePrefix(lines, n, firstId, parseTitle).headers| == CountHeaderLines(lines, n)
  {
    HeaderPerStarLine(lines, n, firstId, parseTitle);
  }

  /** Before the first header line no header exists, and the keyword sets are
      those of the config lines read so far. */
  lemma {:induction false} SetsBeforeHeaders(lines: seq<string>, n: nat, firstId: Id, parseTitle: TitleParser)
    requires n <= FirstHeaderIndex(lines)
    ensures ParsePrefix(lines, n, firstId, parseTitle).headers == []
    ensures ParsePrefix(lines, n, firstId, parseTitle).sets == ConfigSetsOf(lines[..n])
    decreases n
  {
    if n > 0 {
      SetsBeforeHeaders(lines, n - 1, firstId, parseTitle);
      var st := ParsePrefix(lines, n - 1, firstId, parseTitle);
      assert ParsePrefix(lines, n, firstId, parseTitle) == Step(st, lines[n - 1], firstId, parseTitle);
      assert !IsHeaderLine(lines[n - 1]);
      StepCounts(st, lines[n - 1], firstId, parseTitle);
      assert lines[..n] == lines[..n - 1] + [lines[n - 1]];
      ConfigSetsOfSnoc(lines[..n - 1], lines[n - 1]);
    }
  }

  /** A header line, or any line once there is a header, leaves the keyword
      sets as they are. */
  lemma SetsKept(lines: seq<string>, n: nat, firstId: Id, parseTitle: TitleParser)
    requires 1 <= n <= |lines|
    requires IsHeaderLine(lines[n - 1]) || |ParsePrefix(lines, n - 1, firstId, parseTitle).headers| > 0
    ensures |ParsePrefix(lines, n, firstId, parseTitle).headers| > 0
    ensures ParsePrefix(lines, n, firstId, parseTitle).sets == ParsePrefix(lines, n - 1, firstId, parseTitle).sets
  {
    var st := ParsePrefix(lines, n - 1, firstId, parseTitle);
    PrefixStep(lines, n - 1, n, firstId, parseTitle);
    StepCounts(st, lines[n - 1], firstId + |st.headers|, parseTitle);
  }

  /** From the first header line on there is a header, and the keyword sets no
      longer change. */
  lemma {:induction false} SetsAfterHeader(lines: seq<string>, n: nat, firstId: Id, parseTitle: TitleParser)
    requires FirstHeaderIndex(lines) < n <= |lines|
    ensures |ParsePrefix(lines, n, firstId, parseTitle).headers| > 0
    ensures ParsePrefix(lines, n, firstId, parseTitle).sets ==
      ParsePrefix(lines, FirstHeaderIndex(lines), firstId, parseTitle).sets
    decreases n
  {
    if n - 1 > FirstHeaderIndex(lines) {
      SetsAfterHeader(lines, n - 1, firstId, parseTitle);
    } else {
      assert IsHeaderLine(lines[n - 1]);
    }
    SetsKept(lines, n, firstId, parseTitle);
  }

  /** Keyword sets come from the config lines before the first header, in order,
      and from nothing else. */
  lemma ConfigLinesBecomeSets(lines: seq<string>, n: nat, firstId: Id, parseTitle: TitleParser)
    requires n <= |lines|
    ensures ParsePrefix(lines, n, firstId, parseTitle).sets == ConfigSetsOf(lines[..Min(n, FirstHeaderIndex(lines))])
  {
    var fh := FirstHeaderIndex(lines);
    if n <= fh {
      SetsBeforeHeaders(lines, n, firstId, parseTitle);
    } else {
      SetsAfterHeader(lines, n, firstId, parseTitle);
      SetsBeforeHeaders(lines, fh, firstId, parseTitle);
    }
  }

}
