/** The headline search matcher (`isMatch`): a search is a list of groups, every
    group must be satisfied, and a group is satisfied by any one of its words. */
module HeadlineFilter {
  import opened Strings
  import opened OrgTypes

  /** One parsed search group. `exclude` is carried by the parser's output but
      the matcher never reads it; any other kind of group (a time range, say)
      is ignored by the matcher. */
  datatype FilterTerm =
    | TagTerm(words: seq<string>, exclude: bool)
    | CaseSensitiveTerm(words: seq<string>, exclude: bool)
    | IgnoreCaseTerm(words: seq<string>, exclude: bool)
    | PropertyTerm(property: string, words: seq<string>, exclude: bool)
    | OtherTerm(kind: string)

  /** `todoKeyword rawTitle`, or the raw title alone without a keyword. */
  function HeadlineText(h: Header): string
  {
    if h.titleLine.Keyword() != "" then h.titleLine.Keyword() + " " + h.titleLine.rawTitle
    else h.titleLine.rawTitle
  }

  /** The words of the tag groups, in order. */
  function TagGroups(filter: seq<FilterTerm>): seq<seq<string>>
    decreases |filter|
  {
    if |filter| == 0 then []
    else (if filter[0].TagTerm? then [filter[0].words] else []) + TagGroups(filter[1..])
  }

  function CaseSensitiveGroups(filter: seq<FilterTerm>): seq<seq<string>>
    decreases |filter|
  {
    if |filter| == 0 then []
    else (if filter[0].CaseSensitiveTerm? then [filter[0].words] else []) + CaseSensitiveGroups(filter[1..])
  }

  function IgnoreCaseGroups(filter: seq<FilterTerm>): seq<seq<string>>
    decreases |filter|
  {
    if |filter| == 0 then []
    else (if filter[0].IgnoreCaseTerm? then [filter[0].words] else []) + IgnoreCaseGroups(filter[1..])
  }

  function PropertyGroups(filter: seq<FilterTerm>): seq<(string, seq<string>)>
    decreases |filter|
  {
    if |filter| == 0 then []
    else
      (if filter[0].PropertyTerm? then [(filter[0].property, filter[0].words)] else []) +
      PropertyGroups(filter[1..])
  }

  /** `orChain(tags)`: some word of the group is one of the tags (list membership). */
  predicate TagGroupMatches(tags: seq<string>, words: seq<string>)
  {
    exists w :: w in words && w in tags
  }

  /** `orChain(text)`: some word of the group occurs in the text. */
  predicate TextGroupMatches(text: string, words: seq<string>)
  {
    exists w :: w in words && Contains(text, w)
  }

  /** `propertyFilter`: some property has the group's name as key and a value
      that contains one of the group's words. */
  predicate PropertyGroupMatches(props: seq<PropertyItem>, name: string, words: seq<string>)
  {
    exists p :: p in props && p.property == name && TextGroupMatches(p.value, words)
  }

  /** `isMatch(filterExpr)(header)`. */
  predicate IsMatch(filter: seq<FilterTerm>, h: Header)
  {
    var text := HeadlineText(h);
    (forall g :: g in TagGroups(filter) ==> TagGroupMatches(h.titleLine.tags, g)) &&
    (forall g :: g in CaseSensitiveGroups(filter) ==> TextGroupMatches(text, g)) &&
    (forall g :: g in IgnoreCaseGroups(filter) ==> TextGroupMatches(Lower(text), g)) &&
    (forall g :: g in PropertyGroups(filter) ==> PropertyGroupMatches(h.propertyListItems, g.0, g.1))
  }

  /** What one group demands of a header. */
  predicate TermMatches(t: FilterTerm, h: Header)
  {
    match t
    case TagTerm(words, _) => TagGroupMatches(h.titleLine.tags, words)
    case CaseSensitiveTerm(words, _) => TextGroupMatches(HeadlineText(h), words)
    case IgnoreCaseTerm(words, _) => TextGroupMatches(Lower(HeadlineText(h)), words)
    case PropertyTerm(name, words, _) => PropertyGroupMatches(h.propertyListItems, name, words)
    case OtherTerm(_) => true
  }

  /** The matcher is the conjunction of its groups, whatever their kinds. */
  lemma {:induction false} MatchIsConjunction(filter: seq<FilterTerm>, h: Header)
    ensures IsMatch(filter, h) <==> forall i :: 0 <= i < |filter| ==> TermMatches(filter[i], h)
    decreases |filter|
  {
    if |filter| > 0 {
      var t, rest := filter[0], filter[1..];
      MatchIsConjunction(rest, h);
      assert IsMatch(filter, h) <==> TermMatches(t, h) && IsMatch(rest, h) by {
        GroupsCons(filter);
      }
      assert (forall i :: 0 <= i < |filter| ==> TermMatches(filter[i], h)) <==>
        TermMatches(t, h) && (forall i :: 0 <= i < |rest| ==> TermMatches(rest[i], h)) by {
        assert forall i :: 0 < i < |filter| ==> filter[i] == rest[i - 1];
      }
    }
  }

  /** How the four group lists grow by one term at the front. */
  lemma GroupsCons(filter: seq<FilterTerm>)
    requires |filter| > 0
    ensures TagGroups(filter) == (if filter[0].TagTerm? then [filter[0].words] else []) + TagGroups(filter[1..])
    ensures CaseSensitiveGroups(filter) ==
      (if filter[0].CaseSensitiveTerm? then [filter[0].words] else []) + CaseSensitiveGroups(filter[1..])
    ensures IgnoreCaseGroups(filter) ==
      (if filter[0].IgnoreCaseTerm? then [filter[0].words] else []) + IgnoreCaseGroups(filter[1..])
    ensures PropertyGroups(filter) ==
      (if filter[0].PropertyTerm? then [(filter[0].property, filter[0].words)] else []) + PropertyGroups(filter[1..])
  {
  }

  /** Reordering (or repeating) groups does not change the result. */
  lemma SameGroupsSameMatch(f1: seq<FilterTerm>, f2: seq<FilterTerm>, h: Header)
    requires forall t :: t in f1 <==> t in f2
    ensures IsMatch(f1, h) == IsMatch(f2, h)
  {
    MatchIsConjunction(f1, h);
    MatchIsConjunction(f2, h);
    if IsMatch(f1, h) {
      forall i | 0 <= i < |f2| ensures TermMatches(f2[i], h) {
        assert f2[i] in f1;
      }
    }
    if IsMatch(f2, h) {
      forall i | 0 <= i < |f1| ensures TermMatches(f1[i], h) {
        assert f1[i] in f2;
      }
    }
  }

  /** A filter of groups the matcher ignores, the empty filter among them,
      matches every header. */
  lemma EmptyFilterMatchesAll(filter: seq<FilterTerm>, h: Header)
    requires forall i :: 0 <= i < |filter| ==> filter[i].OtherTerm?
    ensures IsMatch(filter, h)
  {
    MatchIsConjunction(filter, h);
  }

  /** The `exclude` flag of a group makes no difference to the matcher. */
  lemma ExcludeIgnored(filter: seq<FilterTerm>, i: nat, h: Header)
    requires i < |filter| && !filter[i].OtherTerm?
    ensures IsMatch(filter[i := filter[i].(exclude := !filter[i].exclude)], h) == IsMatch(filter, h)
  {
    var g := filter[i := filter[i].(exclude := !filter[i].exclude)];
    MatchIsConjunction(filter, h);
    MatchIsConjunction(g, h);
    assert TermMatches(g[i], h) == TermMatches(filter[i], h);
    assert forall k :: 0 <= k < |filter| && k != i ==> g[k] == filter[k];
  }

  /** A tag group is matched by exact tag names only, never by part of a tag. */
  lemma TagMatchIsExact(w: string, h: Header)
    ensures IsMatch([TagTerm([w], false)], h) <==> w in h.titleLine.tags
  {
    var f := [TagTerm([w], false)];
    MatchIsConjunction(f, h);
    assert IsMatch(f, h) <==> TagGroupMatches(h.titleLine.tags, [w]) by {
      assert forall i :: 0 <= i < |f| ==> f[i] == f[0];
    }
    if w in h.titleLine.tags {
      assert w in [w];
    }
  }

  /** A case-sensitive word must occur in `KEYWORD title` (or the title alone). */
  lemma CaseSensitiveMatch(w: string, h: Header)
    ensures IsMatch([CaseSensitiveTerm([w], false)], h) <==> Contains(HeadlineText(h), w)
  {
    var f := [CaseSensitiveTerm([w], false)];
    MatchIsConjunction(f, h);
    assert IsMatch(f, h) <==> TextGroupMatches(HeadlineText(h), [w]) by {
      assert forall i :: 0 <= i < |f| ==> f[i] == f[0];
    }
    if Contains(HeadlineText(h), w) {
      assert w in [w];
    }
  }

  /** Ignore-case groups compare against the lower-cased headline, while the
      words themselves stay as given: a word with an upper-case letter never
      matches. */
  lemma UpperCaseWordNeverMatches(w: string, k: nat, h: Header)
    requires k < |w| && 'A' <= w[k] <= 'Z'
    ensures !IsMatch([IgnoreCaseTerm([w], false)], h)
  {
    var f := [IgnoreCaseTerm([w], false)];
    MatchIsConjunction(f, h);
    var text := Lower(HeadlineText(h));
    assert IsMatch(f, h) <==> TextGroupMatches(text, [w]) by {
      assert forall i :: 0 <= i < |f| ==> f[i] == f[0];
    }
    forall j | 0 <= j <= |text| ensures !StartsWith(text[j..], w) {
      if j + |w| <= |text| {
        assert text[j..][..|w|][k] == text[j + k] == LowerChar(HeadlineText(h)[j + k]);
      }
    }
  }

  /** A property group needs a property whose key is the group's name and whose
      value contains one of the words. */
  lemma PropertyMatch(name: string, words: seq<string>, h: Header)
    ensures IsMatch([PropertyTerm(name, words, false)], h) <==>
      exists p :: p in h.propertyListItems && p.property == name &&
        exists w :: w in words && Contains(p.value, w)
  {
    var f := [PropertyTerm(name, words, false)];
    MatchIsConjunction(f, h);
    assert IsMatch(f, h) <==> PropertyGroupMatches(h.propertyListItems, name, words) by {
      assert forall i :: 0 <= i < |f| ==> f[i] == f[0];
    }
  }
}
