/** `searchHeaders` (`src/reducers/org.js`): the headline search runs over the
    viewed file first and then over the other files, and stops collecting once
    200 matching headers have been found. The search is stated for any matcher
    and any type of path; `Accepts` is the matcher the app runs it with. */
module SearchHeaders {
  import opened OrgTypes
  import opened HeadlineFilter
  import SeqOps

  /** The files to search, in the key order of the Immutable map. */
  type Files<Path, H> = seq<(Path, seq<H>)>

  predicate DistinctKeys<Path(==), H>(files: Files<Path, H>)
  {
    forall a, b :: 0 <= a < b < |files| ==> files[a].0 != files[b].0
  }

  /** The number of results the search collects at most. */
  const Limit: nat := 200

  /** `isMatch(filterExpr)`, the matcher the search is run with. */
  function Accepts(filter: seq<FilterTerm>): Header -> bool
  {
    h => IsMatch(filter, h)
  }

  /** With `isMatch(filterExpr)` as matcher, a file's matches are the headers
      that satisfy every group of the filter. */
  lemma {:induction false} AcceptsIsMatch(filter: seq<FilterTerm>, headers: seq<Header>)
    ensures forall h :: h in SeqOps.Filter(Accepts(filter), headers) <==> h in headers && IsMatch(filter, h)
  {
    SeqOps.FilterMembers(Accepts(filter), headers);
  }

  /** `headersToSearch.get(path)`. */
  function HeadersOf<Path(==), H>(files: Files<Path, H>, path: Path): seq<H>
    decreases |files|
  {
    if |files| == 0 then [] else if files[0].0 == path then files[0].1 else HeadersOf(files[1..], path)
  }

  /** The `forEach` over the other files, from position `i` on, with `budget`
      results still to find and `found` collected so far. */
  function SearchFrom<Path(==), H>(files: Files<Path, H>, i: nat, path: Path, matches: seq<H> -> seq<H>, budget: nat,
                      found: map<Path, seq<H>>): map<Path, seq<H>>
    requires i <= |files|
    decreases |files| - i
  {
    if i == |files| then found
    else if files[i].0 == path || budget == 0 then SearchFrom(files, i + 1, path, matches, budget, found)
    else
      var inFile := SeqOps.Take(matches(files[i].1), budget);
      SearchFrom(files, i + 1, path, matches, budget - |inFile|, found[files[i].0 := inFile])
  }

  /** `filter(accept)` applied to a file's headers. */
  function Matcher<H>(accept: H -> bool): seq<H> -> seq<H>
  {
    headers => SeqOps.Filter(accept, headers)
  }

  /** What `searchHeaders` returns. */
  function Search<Path(==), H>(files: Files<Path, H>, path: Path, accept: H -> bool): map<Path, seq<H>>
  {
    var current := SeqOps.Take(SeqOps.Filter(accept, HeadersOf(files, path)), Limit);
    SearchFrom(files, 0, path, Matcher(accept), Limit - |current|, map[path := current])
  }

  /** `searchHeaders`: the viewed file's matches first, then the other files. */
  method SearchHeadersIn<Path(==), H>(files: Files<Path, H>, path: Path, accept: H -> bool)
    returns (r: map<Path, seq<H>>)
    ensures r == Search(files, path, accept)
  {
    var matches := Matcher(accept);
    var current := SeqOps.Take(matches(HeadersOf(files, path)), Limit);
    r := SearchOtherFiles(files, path, matches, Limit - |current|, map[path := current]);
  }

  /** The `forEach` over the other files, counting down `nrOfHeadersToSearch`. */
  method SearchOtherFiles<Path(==), H>(files: Files<Path, H>, path: Path, matches: seq<H> -> seq<H>,
                                       budget: nat, found: map<Path, seq<H>>)
    returns (r: map<Path, seq<H>>)
    ensures r == SearchFrom(files, 0, path, matches, budget, found)
  {
    var nrOfHeadersToSearch: nat := budget;
    r := found;
    var i := 0;
    while i < |files|
      invariant i <= |files|
      invariant SearchFrom(files, i, path, matches, nrOfHeadersToSearch, r) == SearchFrom(files, 0, path, matches, budget, found)
    {
      var (filePath, headers) := files[i];
      if filePath != path && nrOfHeadersToSearch > 0 {
        var inFile := SeqOps.Take(matches(headers), nrOfHeadersToSearch);
        nrOfHeadersToSearch := nrOfHeadersToSearch - |inFile|;
        r := r[filePath := inFile];
      }
      i := i + 1;
    }
  }

  /** The results found in the files from position `i` on, the viewed file aside. */
  function FoundFrom<Path(==), H>(files: Files<Path, H>, i: nat, path: Path, r: map<Path, seq<H>>): nat
    requires i <= |files|
    decreases |files| - i
  {
    if i == |files| then 0
    else (if files[i].0 != path && files[i].0 in r then |r[files[i].0]| else 0) + FoundFrom(files, i + 1, path, r)
  }

  /** The keys of the files from position `i` on. */
  function KeysFrom<Path(==), H>(files: Files<Path, H>, i: nat): set<Path>
    requires i <= |files|
    decreases |files| - i
  {
    if i == |files| then {} else {files[i].0} + KeysFrom(files, i + 1)
  }

  lemma {:induction false} KeyNotLater<Path, H>(files: Files<Path, H>, i: nat, j: nat)
    requires DistinctKeys(files) && i < j <= |files|
    ensures files[i].0 !in KeysFrom(files, j)
    decreases |files| - j
  {
    if j < |files| {
      KeyNotLater(files, i, j + 1);
    }
  }

  /** The tail of the search keeps what was found for the viewed file and for
      files it does not visit. */
  lemma {:induction false} SearchFromKeeps<Path, H>(files: Files<Path, H>, i: nat, path: Path, matches: seq<H> -> seq<H>, budget: nat,
                                           found: map<Path, seq<H>>)
    requires i <= |files|
    ensures var r := SearchFrom(files, i, path, matches, budget, found);
      forall k :: k in found && (k == path || k !in KeysFrom(files, i)) ==> k in r && r[k] == found[k]
    decreases |files| - i
  {
    if i < |files| {
      var r := SearchFrom(files, i, path, matches, budget, found);
      if files[i].0 == path || budget == 0 {
        assert r == SearchFrom(files, i + 1, path, matches, budget, found);
        SearchFromKeeps(files, i + 1, path, matches, budget, found);
      } else {
        var inFile := SeqOps.Take(matches(files[i].1), budget);
        var found' := found[files[i].0 := inFile];
        assert r == SearchFrom(files, i + 1, path, matches, budget - |inFile|, found');
        SearchFromKeeps(files, i + 1, path, matches, budget - |inFile|, found');
        forall k | k in found && (k == path || k !in KeysFrom(files, i))
          ensures k in r && r[k] == found[k]
        {
          assert k != files[i].0;
          assert k in found' && found'[k] == found[k];
        }
      }
    }
  }

  /** The tail of the search adds only keys of the files it visits. */
  lemma {:induction false} SearchFromAdds<Path, H>(files: Files<Path, H>, i: nat, path: Path, matches: seq<H> -> seq<H>, budget: nat,
                                          found: map<Path, seq<H>>)
    requires i <= |files|
    ensures var r := SearchFrom(files, i, path, matches, budget, found);
      forall k :: k in r ==> k in found || k in KeysFrom(files, i)
    decreases |files| - i
  {
    if i < |files| {
      if files[i].0 == path || budget == 0 {
        SearchFromAdds(files, i + 1, path, matches, budget, found);
      } else {
        var inFile := SeqOps.Take(matches(files[i].1), budget);
        SearchFromAdds(files, i + 1, path, matches, budget - |inFile|, found[files[i].0 := inFile]);
      }
    }
  }

  /** The tail of the search finds no more than its budget. */
  lemma {:induction false} SearchFromBudget<Path, H>(files: Files<Path, H>, i: nat, path: Path, matches: seq<H> -> seq<H>, budget: nat,
                                            found: map<Path, seq<H>>)
    requires i <= |files| && DistinctKeys(files)
    requires forall j :: i <= j < |files| && files[j].0 != path ==> files[j].0 !in found
    ensures FoundFrom(files, i, path, SearchFrom(files, i, path, matches, budget, found)) <= budget
    decreases |files| - i
  {
    if i < |files| {
      var key := files[i].0;
      var r := SearchFrom(files, i, path, matches, budget, found);
      if key == path || budget == 0 {
        assert r == SearchFrom(files, i + 1, path, matches, budget, found);
        SearchFromBudget(files, i + 1, path, matches, budget, found);
        if key != path {
          SearchFromAdds(files, i + 1, path, matches, budget, found);
          KeyNotLater(files, i, i + 1);
          assert key !in r;
        }
        assert FoundFrom(files, i, path, r) == FoundFrom(files, i + 1, path, r);
      } else {
        var inFile := SeqOps.Take(matches(files[i].1), budget);
        var found' := found[key := inFile];
        assert r == SearchFrom(files, i + 1, path, matches, budget - |inFile|, found');
        assert forall j :: i + 1 <= j < |files| && files[j].0 != path ==> files[j].0 !in found';
        SearchFromBudget(files, i + 1, path, matches, budget - |inFile|, found');
        SearchFromKeeps(files, i + 1, path, matches, budget - |inFile|, found');
        KeyNotLater(files, i, i + 1);
        assert r[key] == inFile;
        assert FoundFrom(files, i, path, r) == |inFile| + FoundFrom(files, i + 1, path, r);
      }
    }
  }

  /** `r` is the first `|r|` matches of `headers`. */
  ghost predicate IsPrefixOfMatches<H>(r: seq<H>, matches: seq<H> -> seq<H>, headers: seq<H>)
  {
    r == SeqOps.Take(matches(headers), |r|)
  }

  /** Every file from position `i` on that `r` holds and `found` did not is
      mapped to its first matches. */
  ghost predicate PrefixesFrom<Path, H>(files: Files<Path, H>, i: nat, matches: seq<H> -> seq<H>, found: map<Path, seq<H>>,
                         r: map<Path, seq<H>>)
    requires i <= |files|
  {
    forall j :: i <= j < |files| && files[j].0 in r && files[j].0 !in found ==>
      IsPrefixOfMatches(r[files[j].0], matches, files[j].1)
  }

  /** A file the search skips is either absent from the result or was there before. */
  lemma {:induction false} PrefixesSkip<Path, H>(files: Files<Path, H>, i: nat, matches: seq<H> -> seq<H>, found: map<Path, seq<H>>,
                                        r: map<Path, seq<H>>)
    requires i < |files|
    requires PrefixesFrom(files, i + 1, matches, found, r)
    requires files[i].0 in r ==> files[i].0 in found
    ensures PrefixesFrom(files, i, matches, found, r)
  {
  }

  /** A file the search visits holds its first matches. */
  lemma {:induction false} PrefixesTake<Path, H>(files: Files<Path, H>, i: nat, matches: seq<H> -> seq<H>, found: map<Path, seq<H>>,
                                        inFile: seq<H>, r: map<Path, seq<H>>)
    requires i < |files| && DistinctKeys(files)
    requires PrefixesFrom(files, i + 1, matches, found[files[i].0 := inFile], r)
    requires files[i].0 in r && r[files[i].0] == inFile && IsPrefixOfMatches(inFile, matches, files[i].1)
    ensures PrefixesFrom(files, i, matches, found, r)
  {
    forall j | i + 1 <= j < |files| && files[j].0 in r && files[j].0 !in found
      ensures IsPrefixOfMatches(r[files[j].0], matches, files[j].1)
    {
      assert files[j].0 != files[i].0;
    }
  }

  /** What the tail of the search adds for a file are that file's first matches. */
  lemma {:induction false} SearchFromMatches<Path, H>(files: Files<Path, H>, i: nat, path: Path, matches: seq<H> -> seq<H>, budget: nat,
                                             found: map<Path, seq<H>>)
    requires i <= |files| && DistinctKeys(files)
    ensures PrefixesFrom(files, i, matches, found, SearchFrom(files, i, path, matches, budget, found))
    decreases |files| - i, 1
  {
    if i < |files| {
      if files[i].0 == path || budget == 0 {
        SkippedMatches(files, i, path, matches, budget, found);
      } else {
        VisitedMatches(files, i, path, matches, budget, found);
      }
    }
  }

  lemma {:induction false} SkippedMatches<Path, H>(files: Files<Path, H>, i: nat, path: Path, matches: seq<H> -> seq<H>, budget: nat,
                                          found: map<Path, seq<H>>)
    requires i < |files| && DistinctKeys(files) && (files[i].0 == path || budget == 0)
    ensures PrefixesFrom(files, i, matches, found, SearchFrom(files, i, path, matches, budget, found))
    decreases |files| - i, 0
  {
    var r := SearchFrom(files, i, path, matches, budget, found);
    assert r == SearchFrom(files, i + 1, path, matches, budget, found);
    SearchFromMatches(files, i + 1, path, matches, budget, found);
    SearchFromAdds(files, i + 1, path, matches, budget, found);
    KeyNotLater(files, i, i + 1);
    PrefixesSkip(files, i, matches, found, r);
  }

  lemma {:induction false} VisitedMatches<Path, H>(files: Files<Path, H>, i: nat, path: Path, matches: seq<H> -> seq<H>, budget: nat,
                                          found: map<Path, seq<H>>)
    requires i < |files| && DistinctKeys(files) && files[i].0 != path && budget > 0
    ensures PrefixesFrom(files, i, matches, found, SearchFrom(files, i, path, matches, budget, found))
    decreases |files| - i, 0
  {
    var r := SearchFrom(files, i, path, matches, budget, found);
    var inFile := SeqOps.Take(matches(files[i].1), budget);
    var found' := found[files[i].0 := inFile];
    assert r == SearchFrom(files, i + 1, path, matches, budget - |inFile|, found');
    SearchFromMatches(files, i + 1, path, matches, budget - |inFile|, found');
    SearchFromKeeps(files, i + 1, path, matches, budget - |inFile|, found');
    KeyNotLater(files, i, i + 1);
    PrefixesTake(files, i, matches, found, inFile, r);
  }

  /** The viewed file is searched first: its results are its first 200 matches. */
  lemma {:induction false} SearchViewedFirst<Path, H>(files: Files<Path, H>, path: Path, accept: H -> bool)
    ensures var r := Search(files, path, accept);
      path in r && r[path] == SeqOps.Take(SeqOps.Filter(accept, HeadersOf(files, path)), Limit)
  {
    var current := SeqOps.Take(SeqOps.Filter(accept, HeadersOf(files, path)), Limit);
    var found := map[path := current];
    assert path in found && found[path] == current;
    SearchFromKeeps(files, 0, path, Matcher(accept), Limit - |current|, found);
  }

  /** The search never collects more than 200 headers in all. */
  lemma {:induction false} SearchWithinLimit<Path, H>(files: Files<Path, H>, path: Path, accept: H -> bool)
    requires DistinctKeys(files)
    ensures var r := Search(files, path, accept);
      path in r && |r[path]| + FoundFrom(files, 0, path, r) <= Limit
  {
    var current := SeqOps.Take(SeqOps.Filter(accept, HeadersOf(files, path)), Limit);
    var found := map[path := current];
    assert path in found && found[path] == current;
    SearchFromKeeps(files, 0, path, Matcher(accept), Limit - |current|, found);
    SearchFromBudget(files, 0, path, Matcher(accept), Limit - |current|, found);
  }

  /** Every other file's results are its first matches, in order. */
  lemma {:induction false} SearchOthersArePrefixes<Path, H>(files: Files<Path, H>, path: Path, accept: H -> bool)
    requires DistinctKeys(files)
    ensures var r := Search(files, path, accept);
      forall j :: 0 <= j < |files| && files[j].0 != path && files[j].0 in r ==>
        r[files[j].0] == SeqOps.Take(SeqOps.Filter(accept, files[j].1), |r[files[j].0]|)
  {
    var current := SeqOps.Take(SeqOps.Filter(accept, HeadersOf(files, path)), Limit);
    SearchFromMatches(files, 0, path, Matcher(accept), Limit - |current|, map[path := current]);
  }
}
