/** JavaScript / Java string primitives the model relies on (startsWith, indexOf,
    split, join, trim, replace), written out over `seq<char>`. */
module Strings {
  predicate StartsWith(s: string, prefix: string)
  {
    |prefix| <= |s| && s[..|prefix|] == prefix
  }

  predicate EndsWith(s: string, suffix: string)
  {
    |suffix| <= |s| && s[|s| - |suffix|..] == suffix
  }

  /** Every suffix is one the string ends with. */
  lemma SuffixEndsWith(s: string, n: nat)
    requires n <= |s|
    ensures EndsWith(s, s[n..])
  {
    assert |s| - |s[n..]| == n;
  }

  /** `s.includes(p)`: `p` occurs somewhere in `s`. */
  predicate Contains(s: string, p: string)
  {
    exists i :: 0 <= i <= |s| && StartsWith(s[i..], p)
  }

  /** `s.indexOf(p)`: the first position where `p` occurs, or -1. */
  function IndexOf(s: string, p: string): (r: int)
    ensures r == -1 || 0 <= r <= |s| - |p|
    decreases |s|
  {
    if StartsWith(s, p) then 0
    else if |s| == 0 then -1
    else
      var k := IndexOf(s[1..], p);
      if k == -1 then -1 else k + 1
  }

  /** Where `indexOf` answers a position, `p` occurs there. */
  lemma {:induction false} IndexOfFound(s: string, p: string)
    requires IndexOf(s, p) >= 0
    ensures StartsWith(s[IndexOf(s, p)..], p)
    decreases |s|
  {
    if StartsWith(s, p) {
      assert s[0..] == s;
    } else {
      var k := IndexOf(s[1..], p);
      IndexOfFound(s[1..], p);
      assert s[k + 1..] == s[1..][k..];
    }
  }

  /** `indexOf` answers -1 exactly when `p` does not occur, and no position before
      the one it answers holds `p`. */
  lemma {:induction false} IndexOfFirst(s: string, p: string)
    ensures IndexOf(s, p) == -1 <==> !Contains(s, p)
    ensures forall j :: 0 <= j < IndexOf(s, p) ==> !StartsWith(s[j..], p)
    decreases |s|
  {
    assert s[0..] == s;
    if !StartsWith(s, p) && |s| > 0 {
      IndexOfFirst(s[1..], p);
      assert forall j :: 1 <= j <= |s| ==> s[1..][j - 1..] == s[j..];
      var k := IndexOf(s[1..], p);
      if k >= 0 {
        IndexOfFound(s[1..], p);
        assert s[k + 1..] == s[1..][k..];
      } else {
        assert !Contains(s, p) by {
          forall i | 0 <= i <= |s| ensures !StartsWith(s[i..], p) {
            if i > 0 { assert s[i..] == s[1..][i - 1..]; }
          }
        }
      }
    }
  }

  /** `s.indexOf(c)` for a single character. */
  function IndexOfChar(s: string, c: char): (r: int)
    ensures -1 <= r < |s|
    ensures r >= 0 ==> s[r] == c && c !in s[..r]
    ensures r == -1 <==> c !in s
  {
    if |s| == 0 then -1
    else if s[0] == c then 0
    else
      var k := IndexOfChar(s[1..], c);
      assert s[1..] == s[1..|s|];
      if k == -1 then -1 else k + 1
  }

  /** `s.lastIndexOf(c)` for a single character. */
  function LastIndexOfChar(s: string, c: char): (r: int)
    ensures -1 <= r < |s|
    ensures r >= 0 ==> s[r] == c && c !in s[r + 1..]
    ensures r == -1 <==> c !in s
  {
    if |s| == 0 then -1
    else if s[|s| - 1] == c then |s| - 1
    else
      assert s == s[..|s| - 1] + [s[|s| - 1]];
      LastIndexOfChar(s[..|s| - 1], c)
  }

  /** `s.split(c)` with a one-character separator: the pieces between separators. */
  function Split(s: string, c: char): (r: seq<string>)
    ensures |r| >= 1
    ensures forall i :: 0 <= i < |r| ==> c !in r[i]
    decreases |s|
  {
    var k := IndexOfChar(s, c);
    if k == -1 then [s] else [s[..k]] + Split(s[k + 1..], c)
  }

  /** `s.split(/\s/)`: the pieces between single white-space characters, so two
      adjacent white-space characters give an empty piece. */
  function SplitWhitespace(s: string): (r: seq<string>)
    ensures |r| >= 1
    ensures forall i, j :: 0 <= i < |r| && 0 <= j < |r[i]| ==> !IsWhitespace(r[i][j])
    decreases |s|
  {
    if |s| == 0 then [""]
    else
      var rest := SplitWhitespace(s[1..]);
      if IsWhitespace(s[0]) then [""] + rest
      else
        assert forall j :: 1 <= j < |[s[0]] + rest[0]| ==> ([s[0]] + rest[0])[j] == rest[0][j - 1];
        [[s[0]] + rest[0]] + rest[1..]
  }

  /** `s.substr(start)`: the empty string when `start` is past the end. */
  function Substr(s: string, start: nat): string
  {
    if start <= |s| then s[start..] else ""
  }

  /** `parts.join(sep)`. */
  function Join(parts: seq<string>, sep: string): string
  {
    if |parts| == 0 then ""
    else if |parts| == 1 then parts[0]
    else parts[0] + sep + Join(parts[1..], sep)
  }

  /** Joining one more part appends the separator and that part. */
  lemma {:induction false} JoinSnoc(parts: seq<string>, x: string, sep: string)
    requires |parts| > 0
    ensures Join(parts + [x], sep) == Join(parts, sep) + sep + x
    decreases |parts|
  {
    if |parts| > 1 {
      assert (parts + [x])[1..] == parts[1..] + [x];
      JoinSnoc(parts[1..], x, sep);
    } else {
      assert (parts + [x])[1..] == [x];
    }
  }

  /** Joining the first `n` parts is joining the first `n - 1` and then the last. */
  lemma JoinTakeSnoc(parts: seq<string>, n: nat, sep: string)
    requires 2 <= n <= |parts|
    ensures Join(parts[..n], sep) == Join(parts[..n - 1], sep) + sep + parts[n - 1]
  {
    assert parts[..n] == parts[..n - 1] + [parts[n - 1]];
    JoinSnoc(parts[..n - 1], parts[n - 1], sep);
  }

  /** Joining a part in front of at least one more part. */
  lemma JoinCons(x: string, rest: seq<string>, sep: string)
    requires |rest| > 0
    ensures Join([x] + rest, sep) == x + sep + Join(rest, sep)
  {
    assert ([x] + rest)[1..] == rest;
  }

  lemma {:induction false} JoinSplit(s: string, c: char)
    ensures Join(Split(s, c), [c]) == s
    decreases |s|
  {
    var k := IndexOfChar(s, c);
    if k != -1 {
      var rest := Split(s[k + 1..], c);
      assert Split(s, c) == [s[..k]] + rest;
      JoinSplit(s[k + 1..], c);
      JoinCons(s[..k], rest, [c]);
      assert s == s[..k] + [c] + s[k + 1..];
    } else {
      assert Split(s, c) == [s];
    }
  }

  lemma {:induction false} IndexOfCharAfter(a: string, c: char, b: string)
    requires c !in a
    ensures IndexOfChar(a + [c] + b, c) == |a|
    decreases |a|
  {
    if |a| > 0 {
      assert (a + [c] + b)[1..] == a[1..] + [c] + b;
      IndexOfCharAfter(a[1..], c, b);
    }
  }

  lemma {:induction false} SplitJoin(parts: seq<string>, c: char)
    requires |parts| >= 1
    requires forall i :: 0 <= i < |parts| ==> c !in parts[i]
    ensures Split(Join(parts, [c]), c) == parts
    decreases |parts|
  {
    if |parts| > 1 {
      var tail := Join(parts[1..], [c]);
      assert parts == [parts[0]] + parts[1..];
      JoinCons(parts[0], parts[1..], [c]);
      var s := Join(parts, [c]);
      assert s == parts[0] + [c] + tail;
      IndexOfCharAfter(parts[0], c, tail);
      var k := |parts[0]|;
      assert s[k + 1..] == tail && s[..k] == parts[0];
      assert Split(s, c) == [parts[0]] + Split(tail, c);
      SplitJoin(parts[1..], c);
    } else {
      assert parts == [parts[0]];
      assert IndexOfChar(parts[0], c) == -1;
    }
  }

  /** The characters JavaScript's `\s` and `trim` treat as white space
      (WhiteSpace and LineTerminator of ECMAScript). */
  predicate IsWhitespace(c: char)
  {
    c == ' ' || c == '\t' || c == '\n' || c == '\r' || c == '\U{000B}' || c == '\U{000C}'
    || c == '\U{00A0}' || c == '\U{1680}' || ('\U{2000}' <= c <= '\U{200A}')
    || c == '\U{2028}' || c == '\U{2029}' || c == '\U{202F}' || c == '\U{205F}'
    || c == '\U{3000}' || c == '\U{FEFF}'
  }

  /** `s.trimRight()` / `s.trimEnd()`. */
  function TrimRight(s: string): (r: string)
    ensures StartsWith(s, r)
    ensures |r| == 0 || !IsWhitespace(r[|r| - 1])
    ensures forall i :: |r| <= i < |s| ==> IsWhitespace(s[i])
  {
    if |s| > 0 && IsWhitespace(s[|s| - 1]) then TrimRight(s[..|s| - 1]) else s
  }

  /** Trimming a suffix of `s` ends in `c` (not white space) only if trimming
      `s` does. */
  lemma TrimRightSuffix(s: string, k: nat, c: char)
    requires k <= |s| && !IsWhitespace(c)
    requires EndsWith(TrimRight(s[k..]), [c])
    ensures EndsWith(TrimRight(s), [c])
  {
    var r' := TrimRight(s[k..]);
    var r := TrimRight(s);
    var m := k + |r'|;
    assert s[m - 1] == c by { assert r'[|r'| - 1] == s[k..][|r'| - 1]; }
    forall i | m <= i < |s| ensures IsWhitespace(s[i]) { assert s[i] == s[k..][i - k]; }
    assert |r| > 0 ==> s[|r| - 1] == r[|r| - 1];
    assert |r| == m;
    assert r[|r| - 1] == c;
  }

  /** `s.trimLeft()` / `s.trimStart()`. */
  function TrimLeft(s: string): (r: string)
    ensures |r| <= |s|
    ensures |r| == 0 || !IsWhitespace(r[0])
    ensures forall i :: 0 <= i < |s| - |r| ==> IsWhitespace(s[i])
  {
    s[LeadingSpace(s, 0)..]
  }

  /** The end of the run of white space that starts at `i`. */
  function LeadingSpace(s: string, i: nat): (r: nat)
    requires i <= |s|
    ensures i <= r <= |s| && (r == |s| || !IsWhitespace(s[r]))
    ensures forall j :: i <= j < r ==> IsWhitespace(s[j])
    decreases |s| - i
  {
    if i < |s| && IsWhitespace(s[i]) then LeadingSpace(s, i + 1) else i
  }

  /** `s.trim()`. */
  function Trim(s: string): string
  {
    TrimLeft(TrimRight(s))
  }

  /** `s.replace(p, v)` with a literal pattern and a replacement free of `$`
      patterns: only the first occurrence is replaced. */
  function ReplaceFirst(s: string, p: string, v: string): (r: string)
  {
    var k := IndexOf(s, p);
    if k == -1 then s else s[..k] + v + s[k + |p|..]
  }

  /** `s.replace(/p/g, v)` with a literal, non-empty pattern: every
      non-overlapping occurrence, scanning left to right, is replaced. */
  function ReplaceAll(s: string, p: string, v: string): (r: string)
    requires |p| > 0
    decreases |s|
  {
    if |s| == 0 then ""
    else if StartsWith(s, p) then v + ReplaceAll(s[|p|..], p, v)
    else [s[0]] + ReplaceAll(s[1..], p, v)
  }

  /** `c.repeat(n)`. */
  function Repeat(c: char, n: nat): (r: string)
    ensures |r| == n
    ensures forall i :: 0 <= i < n ==> r[i] == c
  {
    if n == 0 then "" else [c] + Repeat(c, n - 1)
  }

  /** ASCII part of `toLowerCase`. */
  function LowerChar(c: char): char
  {
    if 'A' <= c <= 'Z' then (c as int + 32) as char else c
  }

  function Lower(s: string): (r: string)
    ensures |r| == |s|
    ensures forall i :: 0 <= i < |s| ==> r[i] == LowerChar(s[i])
  {
    if |s| == 0 then "" else [LowerChar(s[0])] + Lower(s[1..])
  }
}
