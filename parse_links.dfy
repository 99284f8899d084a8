/** `parseLinks` (`src/lib/parse_org.js`): splitting a raw string into text and
    link parts with the global regex `(\[\[([^\]]*)\]\]|\[\[([^\]]*)\]\[([^\]]*)\]\])`. */
module Links {
  import opened Wrappers
  import opened Strings
  import opened OrgTypes

  /** The first `]` at or after `from` (the end of a `[^\]]*` run), or `|s|`. */
  function CloseBracket(s: string, from: nat): (q: nat)
    requires from <= |s|
    ensures from <= q <= |s|
    ensures forall k :: from <= k < q ==> s[k] != ']'
    ensures q == |s| || s[q] == ']'
    decreases |s| - from
  {
    if from == |s| || s[from] == ']' then from else CloseBracket(s, from + 1)
  }

  /** One regex match: where it starts, how long it is, and the link it yields. */
  datatype LinkMatch = LinkMatch(index: nat, length: nat, part: Part)

  /** The regex tried at position `p`. `[^\]]*` cannot give back characters usefully,
      so each alternative matches in at most one way: `[[u]]`, or `[[u][t]]` with
      `u` and `t` free of `]`. When the first alternative matches with an empty
      uri, group 2 is the falsy '' and groups 3 and 4 are undefined. */
  function MatchAt(s: string, p: nat): (r: Option<(nat, Part)>)
    requires p <= |s|
    ensures r.Some? ==> 4 <= r.value.0 <= |s| - p && r.value.1.Link?
  {
    if p + 2 <= |s| && s[p] == '[' && s[p + 1] == '[' then MatchAfterUri(s, p, CloseBracket(s, p + 2))
    else None
  }

  /** The rest of the regex once `[[` and the uri up to `q` have matched. */
  function MatchAfterUri(s: string, p: nat, q: nat): (r: Option<(nat, Part)>)
    requires p + 2 <= q <= |s|
    ensures r.Some? ==> 4 <= r.value.0 <= |s| - p && r.value.1.Link?
  {
    if q + 1 < |s| && s[q + 1] == ']' then
      var u := s[p + 2..q];
      Some((q + 2 - p, if u != "" then Link(Some(u), None) else Link(None, None)))
    else if q + 1 < |s| && s[q + 1] == '[' then MatchAfterTitle(s, p, q, CloseBracket(s, q + 2))
    else None
  }

  /** The rest of the second alternative once `][` and the title up to `r` have
      matched. */
  function MatchAfterTitle(s: string, p: nat, q: nat, r: nat): (m: Option<(nat, Part)>)
    requires p + 2 <= q && q + 2 <= r <= |s|
    ensures m.Some? ==> 4 <= m.value.0 <= |s| - p && m.value.1.Link?
  {
    if r + 1 < |s| && s[r + 1] == ']' then
      var u := s[p + 2..q];
      var t := s[q + 2..r];
      Some((r + 2 - p, Link(Some(u), if t != "" then Some(t) else None)))
    else None
  }

  /** `linkRegex.exec` with `lastIndex == from`: the leftmost match at or after `from`. */
  function NextMatch(s: string, from: nat): (r: Option<LinkMatch>)
    requires from <= |s|
    ensures r.Some? ==>
      from <= r.value.index && r.value.index + r.value.length <= |s| && r.value.length >= 4
    decreases |s| - from
  {
    match MatchAt(s, from)
    case Some(m) => Some(LinkMatch(from, m.0, m.1))
    case None => if from == |s| then None else NextMatch(s, from + 1)
  }

  /** The match found is a match of the regex at its position. */
  lemma {:induction false} NextMatchMatches(s: string, from: nat)
    requires from <= |s| && NextMatch(s, from).Some?
    ensures var m := NextMatch(s, from).value;
      MatchAt(s, m.index) == Some((m.length, m.part))
    decreases |s| - from
  {
    if MatchAt(s, from).None? {
      NextMatchMatches(s, from + 1);
    }
  }

  /** The match found is the leftmost one: the regex matches nowhere between `from`
      and it, and nowhere at all when there is no match. */
  lemma {:induction false} NextMatchLeftmost(s: string, from: nat, p: nat)
    requires from <= p <= |s|
    ensures NextMatch(s, from).Some? && p < NextMatch(s, from).value.index ==> MatchAt(s, p).None?
    ensures NextMatch(s, from).None? ==> MatchAt(s, p).None?
    decreases |s| - from
  {
    if p > from {
      NextMatchLeftmost(s, from + 1, p);
    }
  }

  /** The `while (match)` loop: every match, each search starting where the previous
      match ended. */
  function MatchesFrom(s: string, from: nat): seq<LinkMatch>
    requires from <= |s|
    decreases |s| - from
  {
    match NextMatch(s, from)
    case None => []
    case Some(m) => [m] + MatchesFrom(s, m.index + m.length)
  }

  lemma MatchesFromStep(s: string, from: nat)
    requires from <= |s|
    ensures NextMatch(s, from).None? ==> MatchesFrom(s, from) == []
    ensures NextMatch(s, from).Some? ==>
      var m := NextMatch(s, from).value;
      m.index + m.length <= |s| && MatchesFrom(s, from) == [m] + MatchesFrom(s, m.index + m.length)
  {
  }

  /** Matches that lie inside `s`, in order, none starting before `start`. */
  predicate Ordered(s: string, ms: seq<LinkMatch>, start: nat)
    decreases |ms|
  {
    |ms| == 0 ||
    (start <= ms[0].index && ms[0].index + ms[0].length <= |s| &&
     Ordered(s, ms[1..], ms[0].index + ms[0].length))
  }

  lemma {:induction false} MatchesOrdered(s: string, from: nat)
    requires from <= |s|
    ensures Ordered(s, MatchesFrom(s, from), from)
    decreases |s| - from
  {
    match NextMatch(s, from)
    case None =>
    case Some(m) =>
      MatchesOrdered(s, m.index + m.length);
      assert MatchesFrom(s, from)[1..] == MatchesFrom(s, m.index + m.length);
  }

  /** What one match adds: the text since the previous match, when there is any,
      then the link. */
  function Emitted(s: string, start: nat, m: LinkMatch): seq<Part>
    requires start <= m.index <= |s|
  {
    (if m.index != start then [Text(s[start..m.index])] else []) + [m.part]
  }

  /** The `forEach` over the matches plus the trailing text: text before a link is
      emitted only when non-empty, and so is the trailing text. */
  function Assemble(s: string, ms: seq<LinkMatch>, start: nat): seq<Part>
    requires start <= |s| && Ordered(s, ms, start)
    decreases |ms|
  {
    if |ms| == 0 then
      if start != |s| then [Text(s[start..])] else []
    else
      Emitted(s, start, ms[0]) + Assemble(s, ms[1..], ms[0].index + ms[0].length)
  }

  /** The specification of `parseLinks`. */
  function ParseLinks(s: string): seq<Part>
  {
    MatchesOrdered(s, 0);
    Assemble(s, MatchesFrom(s, 0), 0)
  }

  /** The state of the regex loop below: `matches` followed by every match from
      `lastIndex` on is every match. */
  ghost predicate CollectedFrom(s: string, lastIndex: nat, matches: seq<LinkMatch>)
  {
    lastIndex <= |s| && matches + MatchesFrom(s, lastIndex) == MatchesFrom(s, 0)
  }

  /** One round of the regex loop: keep the match, search on from its end. */
  lemma MatchStep(s: string, lastIndex: nat, matches: seq<LinkMatch>)
    requires CollectedFrom(s, lastIndex, matches) && NextMatch(s, lastIndex).Some?
    ensures var m := NextMatch(s, lastIndex).value;
      lastIndex < m.index + m.length && CollectedFrom(s, m.index + m.length, matches + [m])
  {
    var m := NextMatch(s, lastIndex).value;
    MatchesFromStep(s, lastIndex);
    AppendAssoc(matches, [m], MatchesFrom(s, m.index + m.length));
  }

  /** The `while (match = linkRegex.exec(...))` loop of `parseLinks`. */
  method CollectMatches(description: string) returns (matches: seq<LinkMatch>)
    ensures matches == MatchesFrom(description, 0)
  {
    matches := [];
    var lastIndex: nat := 0;
    var match_ := NextMatch(description, lastIndex);
    while match_.Some?
      invariant CollectedFrom(description, lastIndex, matches)
      invariant match_ == NextMatch(description, lastIndex)
      decreases |description| - lastIndex
    {
      var m := match_.value;
      MatchStep(description, lastIndex, matches);
      matches := matches + [m];
      lastIndex := m.index + m.length;
      match_ := NextMatch(description, lastIndex);
    }
    MatchesFromStep(description, lastIndex);
    assert matches + [] == matches;
  }

  lemma AppendAssoc<T>(a: seq<T>, b: seq<T>, c: seq<T>)
    ensures a + (b + c) == (a + b) + c
  {
  }

  /** The state of the `forEach` below after `k` matches: `parts` followed by what
      the remaining matches produce from `start` on is the whole result. */
  ghost predicate AssembledUpTo(s: string, ms: seq<LinkMatch>, k: nat, start: nat, parts: seq<Part>)
    requires Ordered(s, ms, 0)
  {
    k <= |ms| && start <= |s| && Ordered(s, ms[k..], start) &&
    parts + Assemble(s, ms[k..], start) == Assemble(s, ms, 0)
  }

  /** One round of the `forEach`: emit what the `k`th match adds. */
  lemma AssembleStep(s: string, ms: seq<LinkMatch>, k: nat, start: nat, parts: seq<Part>)
    requires Ordered(s, ms, 0) && AssembledUpTo(s, ms, k, start, parts) && k < |ms|
    ensures start <= ms[k].index && ms[k].index + ms[k].length <= |s|
    ensures AssembledUpTo(s, ms, k + 1, ms[k].index + ms[k].length, parts + Emitted(s, start, ms[k]))
  {
    var m := ms[k];
    AssembleUnfold(s, ms, k, start);
    AppendAssoc(parts, Emitted(s, start, m), Assemble(s, ms[k + 1..], m.index + m.length));
  }

  /** The first match contributes what it adds, the rest continue from its end. */
  lemma AssembleUnfold(s: string, ms: seq<LinkMatch>, k: nat, start: nat)
    requires k < |ms| && start <= |s| && Ordered(s, ms[k..], start)
    ensures start <= ms[k].index && ms[k].index + ms[k].length <= |s|
    ensures Ordered(s, ms[k + 1..], ms[k].index + ms[k].length)
    ensures Assemble(s, ms[k..], start) == Emitted(s, start, ms[k]) + Assemble(s, ms[k + 1..], ms[k].index + ms[k].length)
  {
    assert ms[k..][1..] == ms[k + 1..];
  }

  /** The `forEach` of `parseLinks` over the matches, then the trailing text. */
  method AssembleParts(description: string, matches: seq<LinkMatch>) returns (parts: seq<Part>)
    requires Ordered(description, matches, 0)
    ensures parts == Assemble(description, matches, 0)
  {
    parts := [];
    var startIndex: nat := 0;
    var k := 0;
    assert matches[0..] == matches;
    while k < |matches|
      invariant AssembledUpTo(description, matches, k, startIndex, parts)
      decreases |matches| - k
    {
      var m := matches[k];
      AssembleStep(description, matches, k, startIndex, parts);
      ghost var before := parts;
      if m.index != startIndex {
        parts := parts + [Text(description[startIndex..m.index])];
      }
      parts := parts + [m.part];
      assert parts == before + Emitted(description, startIndex, m);
      startIndex := m.index + m.length;
      k := k + 1;
    }
    assert matches[k..] == [];
    if startIndex != |description| {
      parts := parts + [Text(description[startIndex..])];
    }
  }

  /** `parseLinks`: the regex loop collecting matches, then the loop building parts. */
  method ParseLinksLoop(description: string) returns (parts: seq<Part>)
    ensures parts == ParseLinks(description)
  {
    var matches := CollectMatches(description);
    MatchesOrdered(description, 0);
    parts := AssembleParts(description, matches);
  }

  /** Every listed match is a match of the regex at its position. */
  predicate AllMatch(s: string, ms: seq<LinkMatch>)
  {
    forall k :: 0 <= k < |ms| ==>
      ms[k].index <= |s| && MatchAt(s, ms[k].index) == Some((ms[k].length, ms[k].part))
  }

  /** Renders a link part back to Org syntax (`[[uri]]` or `[[uri][title]]`). */
  function RenderPart(p: Part): string
  {
    match p
    case Text(t) => t
    case Link(u, t) => "[[" + u.GetOr("") + "]" + (if t.Some? then "[" + t.value + "]" else "") + "]"
    case _ => ""
  }

  function Render(parts: seq<Part>): string
    decreases |parts|
  {
    if |parts| == 0 then "" else RenderPart(parts[0]) + Render(parts[1..])
  }

  lemma {:induction false} RenderAppend(a: seq<Part>, b: seq<Part>)
    ensures Render(a + b) == Render(a) + Render(b)
    decreases |a|
  {
    if |a| > 0 {
      assert (a + b)[0] == a[0];
      assert (a + b)[1..] == a[1..] + b;
      RenderAppend(a[1..], b);
    } else {
      assert a + b == b;
    }
  }

  /** A match renders back to exactly the text it matched, unless it is a
      `[[u][]]` link, whose empty title is dropped. */
  lemma MatchRenders(s: string, p: nat)
    requires p <= |s| && MatchAt(s, p).Some?
    requires forall i :: 0 <= i <= |s| ==> !StartsWith(s[i..], "][]]")
    ensures RenderPart(MatchAt(s, p).value.1) == s[p..p + MatchAt(s, p).value.0]
  {
    var q := CloseBracket(s, p + 2);
    if q + 1 < |s| && s[q + 1] == ']' {
      PlainLinkRenders(s, p, q);
    } else {
      var r := CloseBracket(s, q + 2);
      TitledLinkRenders(s, p, q, r);
      assert s[q..][..4] != "][]]" by {
        assert !StartsWith(s[q..], "][]]");
      }
      assert r != q + 2;
    }
  }

  /** `[[u]]` renders back to itself. */
  lemma PlainLinkRenders(s: string, p: nat, q: nat)
    requires p + 2 <= q && q + 1 < |s|
    requires s[p] == '[' && s[p + 1] == '[' && s[q] == ']' && s[q + 1] == ']'
    ensures var u := s[p + 2..q];
      RenderPart(if u != "" then Link(Some(u), None) else Link(None, None)) == s[p..q + 2]
  {
    var u := s[p + 2..q];
    assert s[p..p + 2] == "[[";
    Cat(s, p, p + 2, q, "[[", u);
    assert s[q..q + 1] == "]";
    Cat(s, p, q, q + 1, "[[" + u, "]");
    assert s[q + 1..q + 2] == "]";
    Cat(s, p, q + 1, q + 2, "[[" + u + "]", "]");
    assert "[[" + u + "]" + "]" == "[[" + u + "]" + "" + "]";
  }

  /** `[[u][t]]` renders back to itself. */
  lemma TitledLinkRenders(s: string, p: nat, q: nat, r: nat)
    requires p + 2 <= q && q + 2 <= r && r + 1 < |s|
    requires s[p] == '[' && s[p + 1] == '[' && s[q] == ']' && s[q + 1] == '['
    requires s[r] == ']' && s[r + 1] == ']'
    ensures RenderPart(Link(Some(s[p + 2..q]), Some(s[q + 2..r]))) == s[p..r + 2]
  {
    var u := s[p + 2..q];
    var t := s[q + 2..r];
    assert s[p..p + 2] == "[[";
    Cat(s, p, p + 2, q, "[[", u);
    assert s[q..q + 1] == "]";
    Cat(s, p, q, q + 1, "[[" + u, "]");
    assert s[q + 1..q + 2] == "[";
    Cat(s, q + 1, q + 2, r, "[", t);
    assert s[r..r + 1] == "]";
    Cat(s, q + 1, r, r + 1, "[" + t, "]");
    Cat(s, p, q + 1, r + 1, "[[" + u + "]", "[" + t + "]");
    assert s[r + 1..r + 2] == "]";
    Cat(s, p, r + 1, r + 2, "[[" + u + "]" + ("[" + t + "]"), "]");
  }

  /** Two adjacent slices with known contents make up their union. */
  lemma Cat(s: string, a: nat, b: nat, c: nat, x: string, y: string)
    requires a <= b <= c <= |s| && s[a..b] == x && s[b..c] == y
    ensures s[a..c] == x + y
  {
    assert s[a..c] == s[a..b] + s[b..c];
  }

  /** A suffix cut at an inner point. */
  lemma DropSplit(s: string, a: nat, b: nat)
    requires a <= b <= |s|
    ensures s[a..] == s[a..b] + s[b..]
  {
  }

  /** Every listed match renders back to the text it matched. */
  predicate Faithful(s: string, ms: seq<LinkMatch>)
  {
    forall k :: 0 <= k < |ms| ==>
      ms[k].index + ms[k].length <= |s| &&
      RenderPart(ms[k].part) == s[ms[k].index..ms[k].index + ms[k].length]
  }

  /** What a faithful match adds renders back to the text from `start` to the end
      of the match. */
  lemma EmittedRenders(s: string, start: nat, m: LinkMatch)
    requires start <= m.index && m.index + m.length <= |s|
    requires RenderPart(m.part) == s[m.index..m.index + m.length]
    ensures Render(Emitted(s, start, m)) == s[start..m.index + m.length]
  {
    var before: seq<Part> := if m.index != start then [Text(s[start..m.index])] else [];
    assert Render(before) == s[start..m.index] by {
      if m.index != start {
        assert Render(before) == s[start..m.index] + Render([]);
      }
    }
    assert Render([m.part]) == RenderPart(m.part) + Render([]);
    RenderAppend(before, [m.part]);
    Cat(s, start, m.index, m.index + m.length, s[start..m.index], s[m.index..m.index + m.length]);
  }

  lemma {:induction false} AssembleRenders(s: string, ms: seq<LinkMatch>, start: nat)
    requires start <= |s| && Ordered(s, ms, start)
    requires Faithful(s, ms)
    ensures Render(Assemble(s, ms, start)) == s[start..]
    decreases |ms|
  {
    if |ms| == 0 {
      if start != |s| {
        assert Render([Text(s[start..])]) == s[start..] + Render([]);
      }
    } else {
      var m := ms[0];
      var end := m.index + m.length;
      assert Faithful(s, ms[1..]) by {
        forall k | 0 <= k < |ms[1..]| ensures ms[1..][k] == ms[k + 1] { }
      }
      AssembleRenders(s, ms[1..], end);
      assert RenderPart(ms[0].part) == s[ms[0].index..ms[0].index + ms[0].length];
      EmittedRenders(s, start, m);
      RenderAppend(Emitted(s, start, m), Assemble(s, ms[1..], end));
      DropSplit(s, start, end);
    }
  }

  lemma MatchesFaithful(s: string, ms: seq<LinkMatch>)
    requires AllMatch(s, ms)
    requires forall i :: 0 <= i <= |s| ==> !StartsWith(s[i..], "][]]")
    ensures Faithful(s, ms)
  {
    forall k | 0 <= k < |ms|
      ensures ms[k].index + ms[k].length <= |s|
      ensures RenderPart(ms[k].part) == s[ms[k].index..ms[k].index + ms[k].length]
    {
      MatchRenders(s, ms[k].index);
    }
  }

  lemma {:induction false} MatchesAreMatches(s: string, from: nat)
    requires from <= |s|
    ensures AllMatch(s, MatchesFrom(s, from))
    decreases |s| - from
  {
    match NextMatch(s, from)
    case None =>
    case Some(m) =>
      NextMatchMatches(s, from);
      MatchesAreMatches(s, m.index + m.length);
      var rest := MatchesFrom(s, m.index + m.length);
      assert MatchesFrom(s, from) == [m] + rest;
  }

  /** Round trip: re-rendering the parts and concatenating them gives back the
      input, provided no `[[u][]]` link (empty title) occurs. */
  lemma ParseLinksRoundTrip(s: string)
    requires !Contains(s, "][]]")
    ensures Render(ParseLinks(s)) == s
  {
    MatchesOrdered(s, 0);
    MatchesAreMatches(s, 0);
    assert forall i :: 0 <= i <= |s| ==> !StartsWith(s[i..], "][]]");
    MatchesFaithful(s, MatchesFrom(s, 0));
    AssembleRenders(s, MatchesFrom(s, 0), 0);
    assert s[0..] == s;
  }

  predicate NoEmptyText(parts: seq<Part>)
  {
    forall k :: 0 <= k < |parts| && parts[k].Text? ==> parts[k].contents != ""
  }

  lemma {:induction false} AssembleTextsNonEmpty(s: string, ms: seq<LinkMatch>, start: nat)
    requires start <= |s| && Ordered(s, ms, start)
    requires AllMatch(s, ms)
    ensures NoEmptyText(Assemble(s, ms, start))
    decreases |ms|
  {
    if |ms| > 0 {
      var m := ms[0];
      assert AllMatch(s, ms[1..]) by {
        forall k | 0 <= k < |ms[1..]| ensures ms[1..][k] == ms[k + 1] { }
      }
      AssembleTextsNonEmpty(s, ms[1..], m.index + m.length);
      var rest := Assemble(s, ms[1..], m.index + m.length);
      assert NoEmptyText(Emitted(s, start, m));
    }
  }

  /** Text parts are never empty. */
  lemma ParseLinksTextsNonEmpty(s: string)
    ensures forall k :: 0 <= k < |ParseLinks(s)| && ParseLinks(s)[k].Text? ==>
              ParseLinks(s)[k].contents != ""
  {
    MatchesOrdered(s, 0);
    MatchesAreMatches(s, 0);
    AssembleTextsNonEmpty(s, MatchesFrom(s, 0), 0);
  }

  /** `[[u]]` yields one link with uri `u` and no title. */
  lemma LinkWithoutTitle(u: string)
    requires u != "" && ']' !in u
    ensures ParseLinks("[[" + u + "]]") == [Link(Some(u), None)]
  {
    var s := "[[" + u + "]]";
    assert s[|u| + 2] == ']';
    var q := CloseBracket(s, 2);
    assert q == |u| + 2;
    assert s[2..q] == u;
    var m := LinkMatch(0, |s|, Link(Some(u), None));
    assert MatchAt(s, 0) == Some((|s|, Link(Some(u), None)));
    assert NextMatch(s, 0) == Some(m);
    assert NextMatch(s, |s|).None?;
    assert MatchesFrom(s, 0) == [m];
    assert Assemble(s, [m], 0) == Emitted(s, 0, m) + Assemble(s, [], |s|);
  }

  /** `[[u][t]]` yields one link with uri `u` and title `t`. */
  lemma LinkWithTitle(u: string, t: string)
    requires t != "" && ']' !in u && ']' !in t
    ensures ParseLinks("[[" + u + "][" + t + "]]") == [Link(Some(u), Some(t))]
  {
    var s := "[[" + u + "][" + t + "]]";
    assert s[|u| + 2] == ']' && s[|u| + 3] == '[';
    var q := CloseBracket(s, 2);
    assert q == |u| + 2;
    assert q == |u| + 2;
    assert s[|u| + |t| + 4] == ']' && s[|u| + |t| + 5] == ']';
    var r := CloseBracket(s, q + 2);
    assert r == |u| + |t| + 4;
    assert s[2..q] == u;
    assert s[q + 2..r] == t;
    var m := LinkMatch(0, |s|, Link(Some(u), Some(t)));
    assert MatchAt(s, 0) == Some((|s|, Link(Some(u), Some(t))));
    assert NextMatch(s, 0) == Some(m);
    assert NextMatch(s, |s|).None?;
    assert MatchesFrom(s, 0) == [m];
    assert Assemble(s, [m], 0) == Emitted(s, 0, m) + Assemble(s, [], |s|);
  }
}
