/** The `Link` pagination response header (section 3 of RFC 8288) as the GitLab
    and Gitea clients read it: the header is split at `,` and each entry is
    matched against `/<(.*)>; rel="(\w*)"/`. This module writes that regular
    expression out: the leftmost match, with `(.*)` taken greedily and never
    crossing a line terminator. */
module LinkHeader {
  import opened Wrappers
  import opened Strings

  /** `\w`: ASCII letters, digits and `_`. */
  predicate IsWordChar(c: char)
  {
    'a' <= c <= 'z' || 'A' <= c <= 'Z' || '0' <= c <= '9' || c == '_'
  }

  /** The characters `.` does not match. */
  predicate IsLineTerminator(c: char)
  {
    c == '\n' || c == '\r' || c == '\U{2028}' || c == '\U{2029}'
  }

  /** The end of the run of word characters that starts at `k`. */
  function WordEnd(s: string, k: nat): (r: nat)
    requires k <= |s|
    ensures k <= r <= |s|
    ensures forall i :: k <= i < r ==> IsWordChar(s[i])
    ensures r == |s| || !IsWordChar(s[r])
    decreases |s| - k
  {
    if k < |s| && IsWordChar(s[k]) then WordEnd(s, k + 1) else k
  }

  /** The first line terminator at or after `k`, or the end. */
  function LineEnd(s: string, k: nat): (r: nat)
    requires k <= |s|
    ensures k <= r <= |s|
    ensures forall i :: k <= i < r ==> !IsLineTerminator(s[i])
    ensures r == |s| || IsLineTerminator(s[r])
    decreases |s| - k
  {
    if k < |s| && !IsLineTerminator(s[k]) then LineEnd(s, k + 1) else k
  }

  const RelMarker: string := ">; rel=\""

  /** `>; rel="\w*"` matches at `j`. */
  predicate RelAt(s: string, j: nat)
  {
    j + |RelMarker| <= |s| && s[j..j + |RelMarker|] == RelMarker &&
    WordEnd(s, j + |RelMarker|) < |s| && s[WordEnd(s, j + |RelMarker|)] == '"'
  }

  /** The expression matches with its `<` at `i` and the `>` that closes `(.*)`
      at `j`. */
  predicate LinkAt(s: string, i: nat, j: nat)
  {
    i < j <= |s| && s[i] == '<' && RelAt(s, j) && forall k :: i < k < j ==> !IsLineTerminator(s[k])
  }

  /** The last position in `[lo, hi)` where `RelAt` holds. */
  function LastRel(s: string, lo: nat, hi: nat): (r: Option<nat>)
    ensures r.Some? ==> lo <= r.value < hi && RelAt(s, r.value)
    ensures r.Some? ==> forall j :: r.value < j < hi ==> !RelAt(s, j)
    ensures r.None? ==> forall j :: lo <= j < hi ==> !RelAt(s, j)
    decreases hi
  {
    if hi <= lo then None
    else if RelAt(s, hi - 1) then Some(hi - 1)
    else LastRel(s, lo, hi - 1)
  }

  /** `RelAt` starts with the `>` that closes `(.*)`. */
  lemma RelAtCloses(s: string, j: nat)
    ensures RelAt(s, j) ==> j < |s| && s[j] == '>'
  {
    if RelAt(s, j) {
      assert s[j] == s[j..j + |RelMarker|][0];
    }
  }

  /** From a `<` at `i`, `(.*)` can close exactly at the `>; rel="…"` positions
      before the end of the line. */
  lemma {:induction false} ClosesOnLine(s: string, i: nat, stop: nat)
    requires i < |s| && s[i] == '<' && stop == LineEnd(s, i + 1)
    ensures forall j: nat :: LinkAt(s, i, j) <==> i + 1 <= j < stop && RelAt(s, j)
  {
    forall j: nat | LinkAt(s, i, j)
      ensures j < stop
    {
      RelAtCloses(s, j);
    }
    forall j: nat | i + 1 <= j < stop && RelAt(s, j)
      ensures LinkAt(s, i, j)
    {
    }
  }

  /** Where a match that starts at `i` closes `(.*)`: the last `>; rel="…"` on
      the same line. */
  function CloseFrom(s: string, i: nat): (r: Option<nat>)
    requires i < |s|
    ensures r.Some? ==> LinkAt(s, i, r.value)
    ensures forall j: nat :: LinkAt(s, i, j) ==> r.Some? && j <= r.value
  {
    if s[i] == '<' then
      var stop := LineEnd(s, i + 1);
      ClosesOnLine(s, i, stop);
      LastRel(s, i + 1, stop)
    else None
  }

  /** The leftmost match that starts at or after `from`, as the positions of its
      `<` and of the `>` closing `(.*)`. */
  function FirstLink(s: string, from: nat): (r: Option<(nat, nat)>)
    requires from <= |s|
    ensures r.Some? ==> from <= r.value.0 && LinkAt(s, r.value.0, r.value.1)
    ensures r.Some? ==> forall j: nat :: LinkAt(s, r.value.0, j) ==> j <= r.value.1
    ensures r.Some? ==> forall i: nat, j: nat :: from <= i < r.value.0 ==> !LinkAt(s, i, j)
    ensures r.None? ==> forall i: nat, j: nat :: from <= i ==> !LinkAt(s, i, j)
    decreases |s| - from
  {
    if from == |s| then None
    else
      match CloseFrom(s, from)
      case Some(j) => Some((from, j))
      case None => FirstLink(s, from + 1)
  }

  /** `link.match(/<(.*)>; rel="(\w*)"/)`: the captured url and relation name,
      or `None` for `null`. */
  function MatchLink(s: string): (r: Option<(string, string)>)
    ensures r.None? <==> forall i: nat, j: nat :: !LinkAt(s, i, j)
    ensures r.Some? ==> forall c :: c in r.value.1 ==> IsWordChar(c)
    ensures r.Some? ==> forall c :: c in r.value.0 ==> !IsLineTerminator(c)
  {
    match FirstLink(s, 0)
    case None => None
    case Some((i, j)) =>
      var url := s[i + 1..j];
      var rel := s[j + |RelMarker|..WordEnd(s, j + |RelMarker|)];
      assert forall c :: c in url ==> !IsLineTerminator(c) by {
        forall c | c in url
          ensures !IsLineTerminator(c)
        {
          var k :| 0 <= k < |url| && url[k] == c;
          assert s[i + 1 + k] == c;
        }
      }
      assert forall c :: c in rel ==> IsWordChar(c) by {
        forall c | c in rel
          ensures IsWordChar(c)
        {
          var k :| 0 <= k < |rel| && rel[k] == c;
          assert s[j + |RelMarker| + k] == c;
        }
      }
      Some((url, rel))
  }

  /** The entry a server writes, `<url>; rel="name"`. */
  function LinkEntry(url: string, rel: string): string
  {
    "<" + url + RelMarker + rel + "\""
  }

  /** A `>` that `RelAt` could start at lies at or before the `>` of the marker. */
  lemma {:induction false} NoRelAfterMarker(url: string, rel: string, j: nat)
    requires forall c :: c in rel ==> IsWordChar(c)
    requires |url| + 1 < j
    ensures !RelAt(LinkEntry(url, rel), j)
  {
    var s := LinkEntry(url, rel);
    var m := |url| + 1;
    RelAtCloses(s, j);
    if j < |s| {
      if j < m + |RelMarker| {
        assert s[j] == RelMarker[j - m];
      } else if j < m + |RelMarker| + |rel| {
        assert s[j] == rel[j - m - |RelMarker|] && rel[j - m - |RelMarker|] in rel;
      } else {
        assert s[j] == '"';
      }
    }
  }

  /** Where the parts of `<url>; rel="name"` lie. */
  lemma {:induction false} LinkEntryShape(url: string, rel: string)
    requires forall c :: c in url ==> !IsLineTerminator(c)
    requires forall c :: c in rel ==> IsWordChar(c)
    ensures var s := LinkEntry(url, rel);
      var m := |url| + 1;
      var w := m + |RelMarker|;
      LinkAt(s, 0, m) && WordEnd(s, w) == w + |rel| && s[1..m] == url && s[w..w + |rel|] == rel
  {
    var s := LinkEntry(url, rel);
    var m := |url| + 1;
    var w := m + |RelMarker|;
    assert s[..1] == "<" && s[1..m] == url && s[m..w] == RelMarker && s[w..w + |rel|] == rel;
    assert s[w + |rel|] == '"';
    assert WordEnd(s, w) == w + |rel| by {
      forall k | w <= k < w + |rel|
        ensures IsWordChar(s[k])
      {
        assert s[k] == rel[k - w] && rel[k - w] in rel;
      }
      WordEndAt(s, w, w + |rel|);
    }
    assert RelAt(s, m);
    forall k | 0 < k < m
      ensures !IsLineTerminator(s[k])
    {
      assert s[k] == url[k - 1] && url[k - 1] in url;
    }
  }

  /** Matching an entry written as `<url>; rel="name"` gives back the url and the
      name, whatever the url holds (other than a line break). */
  lemma {:induction false} MatchLinkEntry(url: string, rel: string)
    requires forall c :: c in url ==> !IsLineTerminator(c)
    requires forall c :: c in rel ==> IsWordChar(c)
    ensures MatchLink(LinkEntry(url, rel)) == Some((url, rel))
  {
    var s := LinkEntry(url, rel);
    var m: nat := |url| + 1;
    LinkEntryShape(url, rel);
    var first := FirstLink(s, 0);
    assert first.Some? && first.value.0 == 0;
    if first.value.1 != m {
      NoRelAfterMarker(url, rel, first.value.1);
    }
    assert first == Some((0, m));
  }

  /** `WordEnd` stops at the first character that is not a word character. */
  lemma {:induction false} WordEndAt(s: string, k: nat, e: nat)
    requires k <= e <= |s|
    requires forall i :: k <= i < e ==> IsWordChar(s[i])
    requires e == |s| || !IsWordChar(s[e])
    ensures WordEnd(s, k) == e
    decreases e - k
  {
    if k < e {
      WordEndAt(s, k + 1, e);
    }
  }

  /** Reads a url and a relation name off one entry, or nothing. */
  type Matcher = string -> Option<(string, string)>

  /** The name→url mapping the entries give under `matcher`, a later entry
      overwriting an earlier one with the same name, and entries that do not
      match skipped. The clients read entries with `MatchLink`. */
  function Links(matcher: Matcher, entries: seq<string>): map<string, string>
    decreases |entries|
  {
    if |entries| == 0 then map[]
    else
      var acc := Links(matcher, entries[..|entries| - 1]);
      match matcher(entries[|entries| - 1])
      case None => acc
      case Some((url, rel)) => acc[rel := url]
  }

  /** Entry `i` matches with the relation name `rel`. */
  predicate NamesRel(matcher: Matcher, entries: seq<string>, i: nat, rel: string)
    requires i < |entries|
  {
    matcher(entries[i]).Some? && matcher(entries[i]).value.1 == rel
  }

  /** Entry `i` is the last entry with the relation name `rel`. */
  predicate LastNamesRel(matcher: Matcher, entries: seq<string>, i: nat, rel: string)
  {
    i < |entries| && NamesRel(matcher, entries, i, rel) &&
    forall k: nat :: i < k < |entries| ==> !NamesRel(matcher, entries, k, rel)
  }

  /** A name is mapped exactly when some entry carries it, and it is mapped to
      the url of the last entry that does. */
  lemma {:induction false} LinksMeaning(matcher: Matcher, entries: seq<string>, rel: string)
    ensures rel in Links(matcher, entries) <==> exists i: nat :: i < |entries| && NamesRel(matcher, entries, i, rel)
    ensures rel in Links(matcher, entries) ==>
      exists i: nat :: LastNamesRel(matcher, entries, i, rel) &&
        matcher(entries[i]).value.0 == Links(matcher, entries)[rel]
    decreases |entries|
  {
    if |entries| > 0 {
      var n := |entries| - 1;
      var front := entries[..n];
      assert forall k: nat :: k < n ==> front[k] == entries[k];
      LinksMeaning(matcher, front, rel);
      var m := matcher(entries[n]);
      if NamesRel(matcher, entries, n, rel) {
        assert Links(matcher, entries) == Links(matcher, front)[rel := m.value.0];
        assert LastNamesRel(matcher, entries, n, rel);
      } else {
        assert rel in Links(matcher, entries) <==> rel in Links(matcher, front);
        if rel in Links(matcher, front) {
          assert Links(matcher, entries)[rel] == Links(matcher, front)[rel];
          var i: nat :| LastNamesRel(matcher, front, i, rel) &&
            matcher(front[i]).value.0 == Links(matcher, front)[rel];
          forall k: nat | i < k < |entries|
            ensures !NamesRel(matcher, entries, k, rel)
          {
            if k < n {
              assert !NamesRel(matcher, front, k, rel);
            }
          }
          assert NamesRel(matcher, entries, i, rel) by {
            assert NamesRel(matcher, front, i, rel);
          }
          assert LastNamesRel(matcher, entries, i, rel);
        } else {
          forall k: nat | k < |entries|
            ensures !NamesRel(matcher, entries, k, rel)
          {
            if k < n {
              assert !NamesRel(matcher, front, k, rel);
            }
          }
        }
      }
    }
  }
}
