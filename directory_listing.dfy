/** What the sync back-ends share when they turn a provider's directory listing
    into the app's own: the entry record, JavaScript's string order and the order
    "directories first, then by name" that the listings are sorted into. */
module DirectoryListing {
  import opened SeqOps

  /** An entry of a directory listing as the app consumes it. */
  datatype Entry = Entry(id: string, name: string, path: string, isDirectory: bool)

  function IsDir(e: Entry): bool { e.isDirectory }

  function Name(e: Entry): string { e.name }

  /** JavaScript's `a < b` on strings, read on characters: the first differing
      character decides, and a proper prefix comes first. JavaScript compares
      UTF-16 code units instead, which orders a character above U+FFFF before
      one in U+E000 to U+FFFF; the two orders agree on every other pair. */
  predicate NameLess(a: string, b: string)
    decreases |a|
  {
    |b| > 0 && (|a| == 0 || a[0] < b[0] || (a[0] == b[0] && NameLess(a[1..], b[1..])))
  }

  lemma {:induction false} NameLessAsymmetric(a: string, b: string)
    ensures !(NameLess(a, b) && NameLess(b, a))
    decreases |a|
  {
    if |a| > 0 && |b| > 0 && a[0] == b[0] {
      NameLessAsymmetric(a[1..], b[1..]);
    }
  }

  lemma {:induction false} NameLessTotal(a: string, b: string)
    ensures a == b || NameLess(a, b) || NameLess(b, a)
    decreases |a|
  {
    if |a| > 0 && |b| > 0 && a[0] == b[0] {
      NameLessTotal(a[1..], b[1..]);
      if a[1..] == b[1..] {
        assert a == [a[0]] + a[1..] && b == [b[0]] + b[1..];
      }
    }
  }

  lemma {:induction false} NameLessTransitive(a: string, b: string, c: string)
    requires NameLess(a, b) && NameLess(b, c)
    ensures NameLess(a, c)
    decreases |a|
  {
    if |a| > 0 && a[0] == b[0] && b[0] == c[0] {
      NameLessTransitive(a[1..], b[1..], c[1..]);
    }
  }

  /** `a` may be listed before `b`: a directory before a file, and otherwise in
      ascending name order. `isDir` and `name` read the two keys off an entry of
      whatever record the back-end sorts. */
  predicate ListedBefore<T>(isDir: T -> bool, name: T -> string, a: T, b: T)
  {
    (isDir(a) && !isDir(b)) || (isDir(a) == isDir(b) && !NameLess(name(b), name(a)))
  }

  lemma ListedBeforeTotal<T>(isDir: T -> bool, name: T -> string, a: T, b: T)
    ensures ListedBefore(isDir, name, a, b) || ListedBefore(isDir, name, b, a)
  {
    NameLessAsymmetric(name(a), name(b));
  }

  lemma ListedBeforeTransitive<T>(isDir: T -> bool, name: T -> string, a: T, b: T, c: T)
    requires ListedBefore(isDir, name, a, b) && ListedBefore(isDir, name, b, c)
    ensures ListedBefore(isDir, name, a, c)
  {
    if isDir(a) == isDir(b) == isDir(c) && NameLess(name(c), name(a)) {
      NameLessTotal(name(b), name(a));
      if NameLess(name(b), name(a)) {
      } else if NameLess(name(a), name(b)) {
        NameLessTransitive(name(c), name(a), name(b));
      }
    }
  }

  predicate Sorted<T>(isDir: T -> bool, name: T -> string, s: seq<T>)
  {
    forall i, j :: 0 <= i < j < |s| ==> ListedBefore(isDir, name, s[i], s[j])
  }

  /** An entry that may precede every entry of a sorted listing can head it. */
  lemma ConsSorted<T>(isDir: T -> bool, name: T -> string, y: T, rest: seq<T>)
    requires Sorted(isDir, name, rest)
    requires forall k :: 0 <= k < |rest| ==> ListedBefore(isDir, name, y, rest[k])
    ensures Sorted(isDir, name, [y] + rest)
  {
    assert forall k :: 0 < k <= |rest| ==> ([y] + rest)[k] == rest[k - 1];
  }

  /** `x` inserted into a sorted listing in front of the first entry it may
      precede. */
  function InsertSorted<T>(isDir: T -> bool, name: T -> string, x: T, s: seq<T>): (r: seq<T>)
    requires Sorted(isDir, name, s)
    ensures Sorted(isDir, name, r)
    ensures multiset(r) == multiset(s) + multiset{x}
    decreases |s|
  {
    if |s| == 0 then [x]
    else if ListedBefore(isDir, name, x, s[0]) then
      assert forall k :: 0 < k < |s| ==> ListedBefore(isDir, name, x, s[k]) by {
        forall k | 0 < k < |s|
          ensures ListedBefore(isDir, name, x, s[k])
        {
          ListedBeforeTransitive(isDir, name, x, s[0], s[k]);
        }
      }
      ConsSorted(isDir, name, x, s);
      [x] + s
    else
      ListedBeforeTotal(isDir, name, x, s[0]);
      var rest := InsertSorted(isDir, name, x, s[1..]);
      assert s == [s[0]] + s[1..];
      assert forall k :: 0 <= k < |rest| ==> ListedBefore(isDir, name, s[0], rest[k]) by {
        forall k | 0 <= k < |rest|
          ensures ListedBefore(isDir, name, s[0], rest[k])
        {
          assert rest[k] in multiset(rest);
          if rest[k] != x {
            assert rest[k] in multiset(s[1..]);
            var m :| 0 <= m < |s[1..]| && s[1..][m] == rest[k];
            assert s[m + 1] == rest[k];
          }
        }
      }
      ConsSorted(isDir, name, s[0], rest);
      [s[0]] + rest
  }

  /** The listing sorted into directories-first, name order (an insertion sort;
      the source leaves the algorithm to `Array.prototype.sort`). */
  function Sort<T>(isDir: T -> bool, name: T -> string, s: seq<T>): (r: seq<T>)
    ensures Sorted(isDir, name, r)
    ensures multiset(r) == multiset(s)
    decreases |s|
  {
    if |s| == 0 then []
    else
      assert s == [s[0]] + s[1..];
      InsertSorted(isDir, name, s[0], Sort(isDir, name, s[1..]))
  }

  lemma SortedTail<T>(isDir: T -> bool, name: T -> string, s: seq<T>)
    requires Sorted(isDir, name, s) && |s| > 0
    ensures Sorted(isDir, name, s[1..])
  {
    assert forall k :: 0 <= k < |s| - 1 ==> s[1..][k] == s[k + 1];
  }

  /** Entries that may each precede the other and differ share their keys. */
  lemma BothBefore<T>(isDir: T -> bool, name: T -> string, x: T, y: T)
    requires ListedBefore(isDir, name, x, y) && ListedBefore(isDir, name, y, x)
    ensures name(x) == name(y)
  {
    NameLessTotal(name(x), name(y));
  }

  /** Two sorted listings with the same entries and distinct names start alike. */
  lemma SortedHeads<T>(isDir: T -> bool, name: T -> string, a: seq<T>, b: seq<T>)
    requires Sorted(isDir, name, a) && Sorted(isDir, name, b) && multiset(a) == multiset(b) && |a| > 0
    requires forall i, j :: 0 <= i < j < |a| ==> name(a[i]) != name(a[j])
    ensures |b| > 0 && a[0] == b[0]
  {
    assert a[0] in multiset(b) && b[0] in multiset(a);
    var i :| 0 <= i < |b| && b[i] == a[0];
    var j :| 0 <= j < |a| && a[j] == b[0];
    if j != 0 && i != 0 {
      assert ListedBefore(isDir, name, a[0], a[j]);
      assert ListedBefore(isDir, name, b[0], b[i]);
      BothBefore(isDir, name, a[0], a[j]);
    }
  }

  /** Dropping a common first entry keeps the entries equal. */
  lemma TailMultiset<T>(a: seq<T>, b: seq<T>)
    requires multiset(a) == multiset(b) && |a| > 0 && |b| > 0 && a[0] == b[0]
    ensures multiset(a[1..]) == multiset(b[1..])
  {
    assert a == [a[0]] + a[1..] && b == [b[0]] + b[1..];
    assert multiset(a) == multiset{a[0]} + multiset(a[1..]);
    assert multiset(b) == multiset{a[0]} + multiset(b[1..]);
    assert multiset(a[1..]) == multiset(a) - multiset{a[0]};
    assert multiset(b[1..]) == multiset(b) - multiset{a[0]};
  }

  /** Dropping the first entry keeps the names distinct. */
  lemma DistinctTail<T>(name: T -> string, a: seq<T>)
    requires |a| > 0 && forall i, j :: 0 <= i < j < |a| ==> name(a[i]) != name(a[j])
    ensures forall i, j :: 0 <= i < j < |a[1..]| ==> name(a[1..][i]) != name(a[1..][j])
  {
    var a' := a[1..];
    forall i, j | 0 <= i < j < |a'|
      ensures name(a'[i]) != name(a'[j])
    {
      assert a'[i] == a[i + 1] && a'[j] == a[j + 1];
    }
  }

  /** Two sorted listings with the same entries, no two of which share both keys,
      are the same listing: the order fixes the result whatever sort produced it. */
  lemma {:induction false} SortedUnique<T>(isDir: T -> bool, name: T -> string, a: seq<T>, b: seq<T>)
    requires Sorted(isDir, name, a) && Sorted(isDir, name, b) && multiset(a) == multiset(b)
    requires forall i, j :: 0 <= i < j < |a| ==> name(a[i]) != name(a[j])
    ensures a == b
    decreases |a|
  {
    assert |a| == |multiset(a)| == |b|;
    if |a| > 0 {
      SortedHeads(isDir, name, a, b);
      TailMultiset(a, b);
      DistinctTail(name, a);
      SortedTail(isDir, name, a);
      SortedTail(isDir, name, b);
      SortedUnique(isDir, name, a[1..], b[1..]);
      assert a == [a[0]] + a[1..] && b == [b[0]] + b[1..];
    }
  }

  /** Sorting keeps exactly the entries it was given. */
  lemma SortMembers<T>(isDir: T -> bool, name: T -> string, s: seq<T>)
    ensures |Sort(isDir, name, s)| == |s|
    ensures forall x :: x in Sort(isDir, name, s) <==> x in s
  {
    var r := Sort(isDir, name, s);
    assert |r| == |multiset(r)| == |multiset(s)| == |s|;
    forall x
      ensures x in r <==> x in s
    {
      assert x in r <==> x in multiset(r);
      assert x in s <==> x in multiset(s);
    }
  }

  /** A map that carries both keys over keeps a sorted listing sorted. */
  lemma MapSorted<A, B>(f: A -> B, isDirA: A -> bool, nameA: A -> string, isDirB: B -> bool,
                        nameB: B -> string, s: seq<A>)
    requires forall a :: isDirB(f(a)) == isDirA(a) && nameB(f(a)) == nameA(a)
    requires Sorted(isDirA, nameA, s)
    ensures Sorted(isDirB, nameB, Map(f, s))
  {
  }

  /** The entries made from the kept items, sorted: one per kept item, and
      nothing else. */
  lemma SortedListingMembers<A>(keep: A -> bool, f: A -> Entry, s: seq<A>)
    ensures |Sort(IsDir, Name, Map(f, Filter(keep, s)))| == |Filter(keep, s)|
    ensures forall e :: e in Sort(IsDir, Name, Map(f, Filter(keep, s))) <==>
      exists x :: x in s && keep(x) && e == f(x)
  {
    FilterMembers(keep, s);
    MapMembers(f, Filter(keep, s));
    SortMembers(IsDir, Name, Map(f, Filter(keep, s)));
  }
}
