/** The Immutable.js `List` operations the reducers are written with: `insert`,
    `delete`, `splice`-based moves and `take`. */
module SeqOps {
  /** `List.insert(i, x)`: an index past the end appends. */
  function Insert<T>(s: seq<T>, i: nat, x: T): (r: seq<T>)
    ensures |r| == |s| + 1
  {
    var k := if i <= |s| then i else |s|;
    s[..k] + [x] + s[k..]
  }

  /** `List.delete(i)` for an index inside the list. */
  function Remove<T>(s: seq<T>, i: nat): (r: seq<T>)
    requires i < |s|
    ensures |r| == |s| - 1
  {
    s[..i] + s[i + 1..]
  }

  /** Inserting and then deleting at the same (in-range) index gives back the list. */
  lemma RemoveInsert<T>(s: seq<T>, i: nat, x: T)
    requires i <= |s|
    ensures Insert(s, i, x)[i] == x
    ensures Remove(Insert(s, i, x), i) == s
  {
    assert Insert(s, i, x) == s[..i] + [x] + s[i..];
    assert Remove(Insert(s, i, x), i) == s[..i] + s[i..];
  }

  /** Inserting at `i` keeps what lies before `i`, puts `x` at `i` and shifts the
      rest up by one. */
  lemma InsertShape<T>(s: seq<T>, i: nat, x: T)
    requires i <= |s|
    ensures Insert(s, i, x)[..i] == s[..i] && Insert(s, i, x)[i] == x && Insert(s, i, x)[i + 1..] == s[i..]
  {
    var r := Insert(s, i, x);
    assert r == s[..i] + [x] + s[i..];
    assert r[..i] == (s[..i] + [x])[..i];
  }

  /** Deleting takes exactly one occurrence out of the multiset. */
  lemma RemoveMultiset<T>(s: seq<T>, i: nat)
    requires i < |s|
    ensures multiset(Remove(s, i)) + multiset{s[i]} == multiset(s)
  {
    assert s == s[..i] + [s[i]] + s[i + 1..];
  }

  lemma InsertMultiset<T>(s: seq<T>, i: nat, x: T)
    ensures multiset(Insert(s, i, x)) == multiset(s) + multiset{x}
  {
    var k := if i <= |s| then i else |s|;
    assert s == s[..k] + s[k..];
  }

  /** `List.delete(i)` with Immutable's index resolution: a negative index counts
      from the end (so -1 is the last element) and an index outside the list
      changes nothing. */
  function DeleteAt<T>(s: seq<T>, i: int): (r: seq<T>)
    ensures var k := if i < 0 then |s| + i else i;
      if 0 <= k < |s| then |r| == |s| - 1 && r == Remove(s, k) else r == s
  {
    var k := if i < 0 then |s| + i else i;
    if 0 <= k < |s| then Remove(s, k) else s
  }

  /** Index -1 deletes the last element. */
  lemma DeleteAtLast<T>(s: seq<T>)
    ensures |s| > 0 ==> DeleteAt(s, -1) == s[..|s| - 1]
  {
    if |s| > 0 {
      assert Remove(s, |s| - 1) == s[..|s| - 1] + s[|s|..];
    }
  }

  /** `list.insert(i, list.get(i + 1)).delete(i + 2)`, the shape of every table row
      and column move: the neighbours at `i` and `i + 1` trade places. */
  lemma SwapNext<T>(s: seq<T>, i: nat)
    requires i + 1 < |s|
    ensures Remove(Insert(s, i, s[i + 1]), i + 2) == s[i := s[i + 1]][i + 1 := s[i]]
  {
    var t := Insert(s, i, s[i + 1]);
    assert t == s[..i] + [s[i + 1]] + s[i..];
    var r := Remove(t, i + 2);
    assert r == t[..i + 2] + t[i + 3..];
    assert t[..i + 2] == s[..i] + [s[i + 1], s[i]];
    assert t[i + 3..] == s[i + 2..];
    assert r == s[..i] + [s[i + 1], s[i]] + s[i + 2..];
  }

  /** `List.findIndex(p)`: the first index whose element satisfies `p`, or -1. */
  function FindIndex<T>(s: seq<T>, p: T -> bool): (r: int)
    ensures -1 <= r < |s|
  {
    if |s| == 0 then -1
    else if p(s[0]) then 0
    else
      var r := FindIndex(s[1..], p);
      if r < 0 then -1 else r + 1
  }

  /** -1 exactly when no element satisfies `p`; otherwise the first one that does. */
  lemma {:induction false} FindIndexMeaning<T>(s: seq<T>, p: T -> bool)
    ensures var r := FindIndex(s, p);
      (r >= 0 ==> p(s[r]) && forall k :: 0 <= k < r ==> !p(s[k])) &&
      (r < 0 <==> forall k :: 0 <= k < |s| ==> !p(s[k]))
  {
    if |s| > 0 && !p(s[0]) {
      FindIndexMeaning(s[1..], p);
      var r := FindIndex(s[1..], p);
      forall k | 1 <= k < |s| ensures s[k] == s[1..][k - 1] { }
    }
  }

  /** `list.splice(from, 1).splice(to, 0, list.get(from))`: the drag-and-drop
      reorder. `from` must name an element; a `to` past the end appends. */
  function Move<T>(s: seq<T>, from: nat, to: nat): (r: seq<T>)
    requires from < |s|
  {
    Insert(Remove(s, from), to, s[from])
  }

  /** A move keeps the length and the multiset, puts the moved element at its
      (clamped) target index and keeps every other element in its order. */
  lemma MoveIsPermutation<T>(s: seq<T>, from: nat, to: nat)
    requires from < |s|
    ensures var r := Move(s, from, to);
      var t := if to < |s| then to else |s| - 1;
      |r| == |s| && multiset(r) == multiset(s) && r[t] == s[from] &&
      Remove(r, t) == Remove(s, from)
  {
    var t := if to < |s| then to else |s| - 1;
    RemoveMultiset(s, from);
    InsertMultiset(Remove(s, from), to, s[from]);
    RemoveInsert(Remove(s, from), t, s[from]);
  }

  /** Moving the element back to where it came from undoes a move. */
  lemma MoveBack<T>(s: seq<T>, from: nat, to: nat)
    requires from < |s| && to < |s|
    ensures Move(Move(s, from, to), to, from) == s
  {
    var r := Move(s, from, to);
    RemoveInsert(Remove(s, from), to, s[from]);
    assert r[to] == s[from] && Remove(r, to) == Remove(s, from);
    calc {
      Move(r, to, from);
      Insert(Remove(s, from), from, s[from]);
      { assert s == s[..from] + [s[from]] + s[from + 1..];
        assert Remove(s, from)[..from] == s[..from];
        assert Remove(s, from)[from..] == s[from + 1..]; }
      s;
    }
  }

  /** `List.take(n)`. */
  function Take<T>(s: seq<T>, n: nat): (r: seq<T>)
    ensures |r| == if n < |s| then n else |s|
    ensures r == s[..|r|]
  {
    if n < |s| then s[..n] else s
  }

  /** `List.filter(x => x !== v)`. */
  function Without<T(==)>(s: seq<T>, v: T): (r: seq<T>)
    ensures |r| <= |s|
    ensures v !in r
    ensures forall i :: 0 <= i < |r| ==> r[i] in s && r[i] != v
    ensures forall i :: 0 <= i < |s| && s[i] != v ==> s[i] in r
  {
    if |s| == 0 then []
    else if s[0] == v then Without(s[1..], v)
    else [s[0]] + Without(s[1..], v)
  }

  /** `s.filter(keep)`: the kept elements, in their order. */
  function Filter<T>(keep: T -> bool, s: seq<T>): (r: seq<T>)
    ensures |r| <= |s|
    decreases |s|
  {
    if |s| == 0 then []
    else (if keep(s[0]) then [s[0]] else []) + Filter(keep, s[1..])
  }

  /** The filtered sequence holds exactly the kept elements. */
  lemma {:induction false} FilterMembers<T>(keep: T -> bool, s: seq<T>)
    ensures forall x :: x in Filter(keep, s) <==> x in s && keep(x)
    decreases |s|
  {
    if |s| > 0 {
      FilterMembers(keep, s[1..]);
      assert s == [s[0]] + s[1..];
    }
  }

  /** Filtering keeps the order: it distributes over concatenation. */
  lemma {:induction false} FilterAppend<T>(keep: T -> bool, a: seq<T>, b: seq<T>)
    ensures Filter(keep, a + b) == Filter(keep, a) + Filter(keep, b)
    decreases |a|
  {
    if |a| > 0 {
      assert (a + b)[1..] == a[1..] + b;
      FilterAppend(keep, a[1..], b);
    } else {
      assert a + b == b;
    }
  }

  /** Filtering keeps the kept elements with their multiplicities. */
  lemma {:induction false} FilterMultiset<T>(keep: T -> bool, s: seq<T>, x: T)
    requires keep(x)
    ensures multiset(Filter(keep, s))[x] == multiset(s)[x]
    decreases |s|
  {
    if |s| > 0 {
      FilterMultiset(keep, s[1..], x);
      assert s == [s[0]] + s[1..];
    }
  }

  /** `s.map(f)`. */
  function Map<A, B>(f: A -> B, s: seq<A>): (r: seq<B>)
    ensures |r| == |s|
    ensures forall i :: 0 <= i < |s| ==> r[i] == f(s[i])
  {
    seq(|s|, i requires 0 <= i < |s| => f(s[i]))
  }

  /** The mapped sequence holds exactly the images of the elements. */
  lemma MapMembers<A, B>(f: A -> B, s: seq<A>)
    ensures forall y :: y in Map(f, s) <==> exists x :: x in s && y == f(x)
  {
    forall y | y in Map(f, s)
      ensures exists x :: x in s && y == f(x)
    {
      var i :| 0 <= i < |s| && Map(f, s)[i] == y;
      assert s[i] in s;
    }
  }

  /** Mapping distributes over concatenation. */
  lemma MapAppend<A, B>(f: A -> B, a: seq<A>, b: seq<A>)
    ensures Map(f, a + b) == Map(f, a) + Map(f, b)
  {
  }
}
