/** `exportOrg` (`src/lib/export_org.js`): the serialiser from headers and keyword
    sets back to Org text, and the parse-then-export round trip. */
module ExportOrg {
  import opened Wrappers
  import opened Strings
  import opened OrgTypes
  import opened ParseOrg

  /** `todoKeywordSets.map(set => set.configLine)`. */
  function ConfigLines(sets: seq<KeywordSet>): (r: seq<string>)
    ensures |r| == |sets|
    ensures forall i :: 0 <= i < |sets| ==> r[i] == sets[i].configLine
  {
    seq(|sets|, i requires 0 <= i < |sets| => sets[i].configLine)
  }

  /** The config block: the config lines and a blank line, unless the first
      keyword set is the default one. `get(0)` of an empty list would throw,
      so the file has at least one keyword set (`parseOrg` guarantees it). */
  function ConfigContent(sets: seq<KeywordSet>): string
    requires |sets| > 0
  {
    if !sets[0].isDefault then Join(ConfigLines(sets), "\n") + "\n\n" else ""
  }

  /** The title line: `nestingLevel` stars, the keyword when present, the raw
      title, the tag group when there are tags. */
  function HeadLine(h: Header): string
  {
    Repeat('*', h.nestingLevel)
    + (if h.titleLine.Keyword() != "" then " " + h.titleLine.Keyword() else "")
    + " " + h.titleLine.rawTitle
    + (if |h.titleLine.tags| > 0 then " :" + Join(h.titleLine.tags, ":") + ":" else "")
  }

  /** The line break put between the title line and a description that does not
      already start with one. (`header.description` is a list, which is always
      truthy, so the description branch is always taken.) */
  function DescriptionBreak(rawDescription: string): string
  {
    if rawDescription != "" && rawDescription[0] != '\n' then "\n" else ""
  }

  /** One header's text. */
  function ExportHeader(h: Header): string
  {
    HeadLine(h) + DescriptionBreak(h.rawDescription) + h.rawDescription
  }

  function ExportHeaders(headers: seq<Header>): (r: seq<string>)
    ensures |r| == |headers|
    ensures forall i :: 0 <= i < |headers| ==> r[i] == ExportHeader(headers[i])
  {
    seq(|headers|, i requires 0 <= i < |headers| => ExportHeader(headers[i]))
  }

  /** `exportOrg`. */
  function Export(headers: seq<Header>, sets: seq<KeywordSet>): string
    requires |sets| > 0
  {
    ConfigContent(sets) + Join(ExportHeaders(headers), "\n")
  }

  /** `a + b` starts with `a` and continues with `b`. */
  lemma ConcatAt(a: string, b: string)
    ensures (a + b)[..|a|] == a && (a + b)[|a|..] == b
  {
  }

  /** `p + a + b + c + d` starts with `p`. */
  lemma LeadingPart(p: string, a: string, b: string, c: string, d: string)
    ensures |p + a + b + c + d| >= |p|
    ensures forall i :: 0 <= i < |p| ==> (p + a + b + c + d)[i] == p[i]
  {
  }

  /** The exported header begins with `nestingLevel` asterisks and a space. */
  lemma ExportHeaderStars(h: Header)
    ensures var s := ExportHeader(h); var n := h.nestingLevel;
      |s| > n && (forall i :: 0 <= i < n ==> s[i] == '*') && s[n] == ' '
  {
    var n := h.nestingLevel;
    var stars := Repeat('*', n);
    var kw := h.titleLine.Keyword();
    var kwPart := if kw != "" then " " + kw else "";
    var tags := if |h.titleLine.tags| > 0 then " :" + Join(h.titleLine.tags, ":") + ":" else "";
    var lead := stars + kwPart + " ";
    assert lead[n] == ' ';
    assert forall i :: 0 <= i < n ==> lead[i] == '*';
    LeadingPart(lead, h.titleLine.rawTitle, tags, DescriptionBreak(h.rawDescription), h.rawDescription);
  }

  /** In `p + m + b + c + d`, `m` sits right after `p`. */
  lemma MiddlePart(p: string, m: string, b: string, c: string, d: string)
    ensures |p + m + b + c + d| >= |p| + |m|
    ensures (p + m + b + c + d)[|p|..|p| + |m|] == m
  {
    assert (p + m + b + c + d)[|p|..|p| + |m|] == (p + m)[|p|..];
  }

  /** After the stars and the space comes the keyword when there is one, and
      the raw title otherwise. */
  lemma ExportHeaderTitle(h: Header)
    ensures var s := ExportHeader(h); var n := h.nestingLevel;
      var kw := h.titleLine.Keyword(); var raw := h.titleLine.rawTitle;
      |s| >= n + 1 + |raw| &&
      (kw == "" ==> s[n + 1..n + 1 + |raw|] == raw) &&
      (kw != "" ==> |s| >= n + 1 + |kw| && s[n + 1..n + 1 + |kw|] == kw)
  {
    var s := ExportHeader(h);
    var n := h.nestingLevel;
    var stars := Repeat('*', n);
    var kw := h.titleLine.Keyword();
    var raw := h.titleLine.rawTitle;
    var kwPart := if kw != "" then " " + kw else "";
    var tags := if |h.titleLine.tags| > 0 then " :" + Join(h.titleLine.tags, ":") + ":" else "";
    var lead := stars + kwPart + " ";
    MiddlePart(lead, raw, tags, DescriptionBreak(h.rawDescription), h.rawDescription);
    if kw != "" {
      LeadingPart(lead, raw, tags, DescriptionBreak(h.rawDescription), h.rawDescription);
      assert forall i :: 0 <= i < |kw| ==> lead[n + 1 + i] == kw[i];
      assert s[n + 1..n + 1 + |kw|] == kw;
    }
  }

  /** The exported header ends with the raw title and the description when
      there are no tags and no break is needed, and with the tag group, the
      break and the description when there are tags. */
  lemma ExportHeaderEnd(h: Header)
    ensures var s := ExportHeader(h);
      ((h.titleLine.tags == [] && (h.rawDescription == "" || h.rawDescription[0] == '\n')) ==>
        EndsWith(s, h.titleLine.rawTitle + h.rawDescription)) &&
      (h.titleLine.tags != [] ==>
        EndsWith(s, ":" + Join(h.titleLine.tags, ":") + ":" + DescriptionBreak(h.rawDescription) + h.rawDescription))
  {
    var s := ExportHeader(h);
    var kw := h.titleLine.Keyword();
    var head := Repeat('*', h.nestingLevel) + (if kw != "" then " " + kw else "") + " ";
    var raw := h.titleLine.rawTitle;
    var brk := DescriptionBreak(h.rawDescription);
    if h.titleLine.tags == [] {
      if h.rawDescription == "" || h.rawDescription[0] == '\n' {
        assert s == head + (raw + h.rawDescription);
        ConcatAt(head, raw + h.rawDescription);
      }
    } else {
      var group := ":" + Join(h.titleLine.tags, ":") + ":" + brk + h.rawDescription;
      assert s == (head + raw + " ") + group;
      ConcatAt(head + raw + " ", group);
    }
  }

  /** The shape of one exported header: exactly `nestingLevel` asterisks, then
      ` KEYWORD` only when there is a keyword, then ` rawTitle`, then ` :a:b:`
      only when there are tags, then a line break only when the description is
      non-empty and does not start with one, then the description. */
  lemma ExportHeaderShape(h: Header)
    ensures var s := ExportHeader(h); var n := h.nestingLevel;
      |s| >= n + 1 + |h.titleLine.rawTitle| &&
      (forall i :: 0 <= i < n ==> s[i] == '*') &&
      s[n] == ' ' &&
      (h.titleLine.Keyword() == "" ==>
        s[n + 1..n + 1 + |h.titleLine.rawTitle|] == h.titleLine.rawTitle) &&
      (h.titleLine.Keyword() != "" ==>
        s[n + 1..n + 1 + |h.titleLine.Keyword()|] == h.titleLine.Keyword()) &&
      ((h.titleLine.tags == [] && (h.rawDescription == "" || h.rawDescription[0] == '\n')) ==>
        EndsWith(s, h.titleLine.rawTitle + h.rawDescription)) &&
      (h.titleLine.tags != [] ==>
        EndsWith(s, ":" + Join(h.titleLine.tags, ":") + ":" + DescriptionBreak(h.rawDescription) + h.rawDescription))
  {
    ExportHeaderStars(h);
    ExportHeaderTitle(h);
    ExportHeaderEnd(h);
  }

  /** Config lines and a blank line are prepended exactly when the first keyword
      set is not the default one. */
  lemma ExportConfigBlock(headers: seq<Header>, sets: seq<KeywordSet>)
    requires |sets| > 0
    ensures sets[0].isDefault ==> Export(headers, sets) == Join(ExportHeaders(headers), "\n")
    ensures !sets[0].isDefault ==>
      StartsWith(Export(headers, sets), Join(ConfigLines(sets), "\n") + "\n\n")
  {
  }

  // ---------------------------------------------------------------------------
  // Round trip

  /** A `*` line of the form stars, space, title. */
  predicate WellFormedHeaderLine(line: string)
  {
    exists n :: 1 <= n < |line| && line[n] == ' ' && forall i :: 0 <= i < n ==> line[i] == '*'
  }

  /** The title cannot hold a tag group: after trimming it does not end in `:`. */
  predicate NoTagGroup(line: string)
  {
    !EndsWith(TrimRight(TitleOf(line)), ":")
  }

  /** The inputs the round trip is stated for: the first line is a header, every
      `*` line is stars, a space and a title, and no title ends in a tag group.
      (Since the first line is a header, no `#+TODO:` line is read and the
      default keywords are in use.) */
  predicate RoundTripInput(s: string)
  {
    var lines := Split(s, '\n');
    IsHeaderLine(lines[0]) && HeaderLinesOk(lines)
  }

  lemma HeaderLineSplit(line: string)
    requires WellFormedHeaderLine(line)
    ensures LevelOf(line) < |line|
    ensures line == Repeat('*', LevelOf(line)) + " " + TitleOf(line)
  {
    var n :| 1 <= n < |line| && line[n] == ' ' && forall i :: 0 <= i < n ==> line[i] == '*';
    var k := IndexOfChar(line, ' ');
    assert forall i :: 0 <= i < n ==> line[i] != ' ';
    assert k == n;
    assert line == line[..n] + " " + line[n + 1..];
    assert line[..n] == Repeat('*', n);
  }


  /** A tag-free title line whose keyword and raw title make up `t` exports as
      the stars, a space and `t`. */
  lemma HeadLineOfTitle(h: Header, t: string)
    requires h.titleLine.tags == []
    requires t == (if h.titleLine.Keyword() != "" then h.titleLine.Keyword() + " " else "") + h.titleLine.rawTitle
    ensures HeadLine(h) == Repeat('*', h.nestingLevel) + " " + t
  {
    var kw := h.titleLine.Keyword();
    var raw := h.titleLine.rawTitle;
    var stars := Repeat('*', h.nestingLevel);
    if kw != "" {
      assert HeadLine(h) == stars + " " + kw + " " + raw + "";
      assert stars + " " + kw + " " + raw == stars + " " + (kw + " " + raw);
    } else {
      assert HeadLine(h) == stars + "" + " " + raw + "";
    }
  }

  /** On the title `t`, not ending in `:` after trimming, `parseTitle` finds no
      tags and splits `t` into keyword, space and raw title. */
  ghost predicate UntaggedOn(parseTitle: TitleParser, t: string, sets: seq<KeywordSet>)
  {
    !EndsWith(TrimRight(t), ":") ==>
      parseTitle(t, sets).tags == [] &&
      t == (if parseTitle(t, sets).Keyword() != "" then parseTitle(t, sets).Keyword() + " " else "")
           + parseTitle(t, sets).rawTitle
  }

  /** A title parser that is untagged on every title and every keyword sets. */
  ghost predicate RendersUntagged(parseTitle: TitleParser)
  {
    forall t: string, sets: seq<KeywordSet> {:trigger UntaggedOn(parseTitle, t, sets)} ::
      UntaggedOn(parseTitle, t, sets)
  }

  /** `parseTitleLine` is such a parser. */
  lemma ParseTitleLineRendersUntagged()
    ensures RendersUntagged(ParseTitleLine)
  {
    forall t: string, sets: seq<KeywordSet>
      ensures UntaggedOn(ParseTitleLine, t, sets)
    {
      if !EndsWith(TrimRight(t), ":") {
        ParseTitleLineUntagged(t, sets);
      }
    }
  }

  /** A well-formed, tag-free header line exports back to itself. */
  lemma HeadLineOfParsedLine(parseTitle: TitleParser, line: string, sets: seq<KeywordSet>, id: Id)
    requires RendersUntagged(parseTitle)
    requires WellFormedHeaderLine(line) && NoTagGroup(line)
    ensures var h := NewHeaderWithTitle(parseTitle, TitleOf(line), LevelOf(line), sets, id);
      h.rawDescription == "" && HeadLine(h) == line
  {
    var effective := if |sets| == 0 then DefaultKeywordSets else sets;
    var t := TitleOf(line);
    HeaderLineSplit(line);
    var h := NewHeaderWithTitle(parseTitle, t, LevelOf(line), sets, id);
    assert UntaggedOn(parseTitle, t, effective);
    assert h.titleLine == parseTitle(t, effective);
    HeadLineOfTitle(h, t);
  }

  /** Appending a description line adds `'\n' + line` to the exported header,
      provided the description was empty or already started a new line. */
  lemma ExportAppendDescription(h: Header, line: string)
    requires h.rawDescription == "" || h.rawDescription[0] == '\n'
    ensures ExportHeader(h.(rawDescription := h.rawDescription + "\n" + line)) ==
            ExportHeader(h) + "\n" + line
  {
    var d := h.rawDescription + "\n" + line;
    assert d[0] == '\n';
  }

  /** Replacing the last exported piece `x` by `x + sep + y` adds `sep + y`. */
  lemma JoinExtendLast(xs: seq<string>, x: string, y: string, sep: string)
    ensures Join(xs + [x + sep + y], sep) == Join(xs + [x], sep) + sep + y
  {
    if |xs| == 0 {
      assert xs + [x + sep + y] == [x + sep + y];
      assert xs + [x] == [x];
    } else {
      JoinSnoc(xs, x + sep + y, sep);
      JoinSnoc(xs, x, sep);
    }
  }

  /** A new header whose title line is `line` adds `'\n' + line` to the export. */
  lemma ExportPushHeader(prev: seq<Header>, h: Header, line: string)
    requires |prev| > 0 && h.rawDescription == "" && HeadLine(h) == line
    ensures Join(ExportHeaders(prev + [h]), "\n") == Join(ExportHeaders(prev), "\n") + "\n" + line
  {
    assert ExportHeader(h) == line;
    assert ExportHeaders(prev + [h]) == ExportHeaders(prev) + [line];
    JoinSnoc(ExportHeaders(prev), line, "\n");
  }

  /** A description line adds `'\n' + line` to the export. */
  lemma ExportPushDescription(prev: seq<Header>, line: string)
    requires |prev| > 0
    requires prev[|prev| - 1].rawDescription == "" || prev[|prev| - 1].rawDescription[0] == '\n'
    ensures Join(ExportHeaders(AppendDescription(prev, line)), "\n") ==
            Join(ExportHeaders(prev), "\n") + "\n" + line
  {
    var k := |prev| - 1;
    var last := prev[k];
    ExportAppendDescription(last, line);
    var init := ExportHeaders(prev[..k]);
    assert ExportHeaders(prev) == init + [ExportHeader(last)];
    assert ExportHeaders(AppendDescription(prev, line)) == init + [ExportHeader(last) + "\n" + line];
    JoinExtendLast(init, ExportHeader(last), line, "\n");
  }

  /** Line `j` of `lines`, if it is a header line, is well formed and carries
      no tag group. */
  predicate HeaderLineOk(lines: seq<string>, j: nat)
    requires j < |lines|
  {
    IsHeaderLine(lines[j]) ==> WellFormedHeaderLine(lines[j]) && NoTagGroup(lines[j])
  }

  /** The header lines of `lines` are well formed and carry no tag group. */
  predicate HeaderLinesOk(lines: seq<string>)
  {
    forall j {:trigger HeaderLineOk(lines, j)} :: 0 <= j < |lines| ==> HeaderLineOk(lines, j)
  }

  /** After the first line, a header line, the export is that line. */
  lemma ExportFirstLine(parseTitle: TitleParser, lines: seq<string>, firstId: Id)
    requires RendersUntagged(parseTitle)
    requires 1 <= |lines| && IsHeaderLine(lines[0]) && HeaderLinesOk(lines)
    ensures var hs := ParsePrefix(lines, 1, firstId, parseTitle).headers;
      |hs| > 0 && Join(ExportHeaders(hs), "\n") == Join(lines[..1], "\n")
  {
    var line := lines[0];
    assert HeaderLineOk(lines, 0);
    var h := NewHeaderWithTitle(parseTitle, TitleOf(line), LevelOf(line), [], firstId);
    HeadLineOfParsedLine(parseTitle, line, [], firstId);
    assert ParsePrefix(lines, 1, firstId, parseTitle).headers == [h];
    assert ExportHeaders([h]) == [ExportHeader(h)];
    assert lines[..1] == [line];
  }

  /** A header built from a well-formed untagged header line `line` adds
      `'\n' + line` to the export. */
  lemma ExportHeaderStep(parseTitle: TitleParser, prev: seq<Header>, line: string, sets: seq<KeywordSet>,
                         id: Id, next: seq<Header>)
    requires RendersUntagged(parseTitle)
    requires WellFormedHeaderLine(line) && NoTagGroup(line) && |prev| > 0
    requires next == prev + [NewHeaderWithTitle(parseTitle, TitleOf(line), LevelOf(line), sets, id)]
    ensures Join(ExportHeaders(next), "\n") == Join(ExportHeaders(prev), "\n") + "\n" + line
  {
    HeadLineOfParsedLine(parseTitle, line, sets, id);
    ExportPushHeader(prev, next[|prev|], line);
  }

  /** The last header parsed so far has an empty description or one that
      starts a new line. */
  lemma LastDescriptionNewLine(lines: seq<string>, m: nat, firstId: Id, parseTitle: TitleParser)
    requires m <= |lines|
    ensures var hs := ParsePrefix(lines, m, firstId, parseTitle).headers;
      |hs| > 0 ==> hs[|hs| - 1].rawDescription == "" || hs[|hs| - 1].rawDescription[0] == '\n'
  {
    DescriptionsStartNewLine(lines, m, firstId, parseTitle);
  }

  /** Line `n - 1` of the parse adds `'\n'` and that line to the export. */
  lemma ExportLine(parseTitle: TitleParser, lines: seq<string>, n: nat, firstId: Id)
    requires 2 <= n <= |lines|
    requires RendersUntagged(parseTitle)
    requires IsHeaderLine(lines[0]) && HeaderLinesOk(lines)
    requires |ParsePrefix(lines, n - 1, firstId, parseTitle).headers| > 0
    ensures var hs := ParsePrefix(lines, n, firstId, parseTitle).headers;
      |hs| > 0 &&
      Join(ExportHeaders(hs), "\n") ==
        Join(ExportHeaders(ParsePrefix(lines, n - 1, firstId, parseTitle).headers), "\n") + "\n" + lines[n - 1]
  {
    var st := ParsePrefix(lines, n - 1, firstId, parseTitle);
    var hs := ParsePrefix(lines, n, firstId, parseTitle).headers;
    var line := lines[n - 1];
    PrefixStep(lines, n - 1, n, firstId, parseTitle);
    StepHeaders(st, line, firstId + |st.headers|, parseTitle);
    if IsHeaderLine(line) {
      assert HeaderLineOk(lines, n - 1);
      ExportHeaderStep(parseTitle, st.headers, line, st.sets, firstId + |st.headers|, hs);
    } else {
      LastDescriptionNewLine(lines, n - 1, firstId, parseTitle);
      ExportPushDescription(st.headers, line);
    }
  }

  /** After the first `n` lines, the exported headers are exactly those lines. */
  lemma {:induction false} ExportPrefix(parseTitle: TitleParser, lines: seq<string>, n: nat, firstId: Id)
    requires 1 <= n <= |lines|
    requires RendersUntagged(parseTitle)
    requires IsHeaderLine(lines[0]) && HeaderLinesOk(lines)
    ensures var hs := ParsePrefix(lines, n, firstId, parseTitle).headers;
      |hs| > 0 && Join(ExportHeaders(hs), "\n") == Join(lines[..n], "\n")
    decreases n
  {
    if n == 1 {
      ExportFirstLine(parseTitle, lines, firstId);
    } else {
      ExportPrefix(parseTitle, lines, n - 1, firstId);
      ExportLine(parseTitle, lines, n, firstId);
      JoinTakeSnoc(lines, n, "\n");
    }
  }

  /** Setting the parsed description does not change what is exported. */
  lemma ExportIgnoresDescriptionParts(hs: seq<Header>)
    ensures ExportHeaders(WithDescriptions(hs)) == ExportHeaders(hs)
  {
    var w := WithDescriptions(hs);
    forall i | 0 <= i < |hs| ensures ExportHeader(w[i]) == ExportHeader(hs[i]) {
      assert w[i].titleLine == hs[i].titleLine && w[i].rawDescription == hs[i].rawDescription;
      assert w[i].nestingLevel == hs[i].nestingLevel;
    }
  }

  /** A file whose first line is a header reads no `#+TODO:` line and so keeps
      the default keyword set. */
  lemma HeaderFirstKeepsDefaults(lines: seq<string>, firstId: Id)
    requires |lines| > 0 && IsHeaderLine(lines[0])
    ensures ParsePrefix(lines, |lines|, firstId, ParseTitleLine).sets == []
  {
    ConfigLinesBecomeSets(lines, |lines|, firstId, ParseTitleLine);
    assert FirstHeaderIndex(lines) == 0;
    assert lines[..0] == [];
  }

  /** The headers `parseOrg`'s line loop builds export back to the lines. */
  lemma ParsedLinesExport(lines: seq<string>, firstId: Id)
    requires |lines| > 0 && IsHeaderLine(lines[0]) && HeaderLinesOk(lines)
    ensures Join(ExportHeaders(ParsePrefix(lines, |lines|, firstId, ParseTitleLine).headers), "\n") ==
            Join(lines, "\n")
  {
    ParseTitleLineRendersUntagged();
    ExportPrefix(ParseTitleLine, lines, |lines|, firstId);
    assert lines[..|lines|] == lines;
  }

  /** Round trip: exporting what `parseOrg` read gives back the text, for a file
      whose first line is a header, whose `*` lines are stars, a space and a
      title, and whose titles carry no tag group. */
  lemma ParseExportRoundTrip(s: string, firstId: Id)
    requires RoundTripInput(s)
    ensures var f := ParseOrgSpec(s, firstId);
      |f.todoKeywordSets| > 0 && Export(f.headers, f.todoKeywordSets) == s
  {
    var lines := Split(s, '\n');
    var st := ParsePrefix(lines, |lines|, firstId, ParseTitleLine);
    ParsedLinesExport(lines, firstId);
    HeaderFirstKeepsDefaults(lines, firstId);
    var f := ParseOrgSpec(s, firstId);
    assert f == ParsedFile(WithDescriptions(st.headers), DefaultKeywordSets);
    ExportIgnoresDescriptionParts(st.headers);
    JoinSplit(s, '\n');
    calc {
      Export(f.headers, f.todoKeywordSets);
      Join(ExportHeaders(WithDescriptions(st.headers)), "\n");
      Join(ExportHeaders(st.headers), "\n");
      Join(lines, "\n");
      s;
    }
  }
}
