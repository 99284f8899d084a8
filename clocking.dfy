/** Clock-time totals (`src/lib/clocking.js`). Timestamps are abstracted to
    integers, so the duration of a CLOCK entry is its end minus its start. */
module Clocking {
  import opened Wrappers
  import opened OrgTypes
  import opened OrgUtils

  /** A clock filter: a test on one timestamp. */
  type Filter = int -> bool

  /** Only an entry with both a start and an end has a duration. */
  function EntryDuration(e: LogEntry): int
  {
    if e.start.Some? && e.end.Some? then e.end.value - e.start.value else 0
  }

  predicate Complete(e: LogEntry) { e.start.Some? && e.end.Some? }

  function Sum(xs: seq<int>): int
    decreases |xs|
  {
    if |xs| == 0 then 0 else xs[0] + Sum(xs[1..])
  }

  /** The sum of the durations of the entries. */
  function SumDurations(entries: seq<LogEntry>): int
    decreases |entries|
  {
    if |entries| == 0 then 0 else EntryDuration(entries[0]) + SumDurations(entries[1..])
  }

  /** `totalTimeLogged`: the summed durations of the header's logbook. */
  function TotalTimeLogged(h: Header): int
  {
    SumDurations(h.logBookEntries)
  }

  /** The entries that have both a start and an end, in order. */
  function CompleteEntries(entries: seq<LogEntry>): (r: seq<LogEntry>)
    ensures |r| <= |entries|
    ensures forall k :: 0 <= k < |r| ==> Complete(r[k])
    decreases |entries|
  {
    if |entries| == 0 then []
    else if Complete(entries[0]) then [entries[0]] + CompleteEntries(entries[1..])
    else CompleteEntries(entries[1..])
  }

  /** Entries without both timestamps contribute nothing: the total is the sum of
      end minus start over the complete entries alone; an empty logbook gives 0. */
  lemma {:induction false} OnlyCompleteEntriesCount(entries: seq<LogEntry>)
    ensures SumDurations(entries) == SumDurations(CompleteEntries(entries))
    ensures entries == [] ==> SumDurations(entries) == 0
    decreases |entries|
  {
    if |entries| > 0 {
      OnlyCompleteEntriesCount(entries[1..]);
      if Complete(entries[0]) {
        assert ([entries[0]] + CompleteEntries(entries[1..]))[1..] == CompleteEntries(entries[1..]);
      }
    }
  }

  /** `filters.every(f => f(t))`. */
  function PassesAll(filters: seq<Filter>, t: int): bool
    decreases |filters|
  {
    |filters| == 0 || (filters[0](t) && PassesAll(filters[1..], t))
  }

  /** A complete clock counts when its start or its end passes every filter. */
  predicate Counted(filters: seq<Filter>, e: LogEntry)
  {
    Complete(e) && (PassesAll(filters, e.start.value) || PassesAll(filters, e.end.value))
  }

  /** The counted clocks, in order. */
  function CountedClocks(filters: seq<Filter>, entries: seq<LogEntry>): (r: seq<LogEntry>)
    ensures |r| <= |entries|
    decreases |entries|
  {
    if |entries| == 0 then []
    else if Counted(filters, entries[0]) then [entries[0]] + CountedClocks(filters, entries[1..])
    else CountedClocks(filters, entries[1..])
  }

  /** `totalFilteredTimeLogged`: the summed durations of the counted clocks. */
  function TotalFilteredTimeLogged(filters: seq<Filter>, h: Header): int
  {
    SumDurations(CountedClocks(filters, h.logBookEntries))
  }

  /** An entry is among the counted clocks exactly when it is complete and one of
      its two timestamps passes every filter. */
  lemma {:induction false} CountedClocksExactly(filters: seq<Filter>, entries: seq<LogEntry>, e: LogEntry)
    ensures e in CountedClocks(filters, entries) <==> e in entries && Counted(filters, e)
    decreases |entries|
  {
    if |entries| > 0 {
      CountedClocksExactly(filters, entries[1..], e);
      assert e in entries <==> e == entries[0] || e in entries[1..];
    }
  }

  /** With no filter every complete clock counts, so the filtered total is the total. */
  lemma {:induction false} NoFiltersCountAll(entries: seq<LogEntry>)
    ensures SumDurations(CountedClocks([], entries)) == SumDurations(entries)
    decreases |entries|
  {
    if |entries| > 0 {
      NoFiltersCountAll(entries[1..]);
      if Complete(entries[0]) {
        assert ([entries[0]] + CountedClocks([], entries[1..]))[1..] == CountedClocks([], entries[1..]);
      }
    }
  }

  /** No entry runs backwards. */
  predicate NonNegative(entries: seq<LogEntry>)
  {
    forall k :: 0 <= k < |entries| ==> EntryDuration(entries[k]) >= 0
  }

  /** With no entry running backwards the filtered total lies between 0 and the
      unfiltered total. */
  lemma {:induction false} FilteredWithinTotal(filters: seq<Filter>, entries: seq<LogEntry>)
    requires NonNegative(entries)
    ensures 0 <= SumDurations(CountedClocks(filters, entries)) <= SumDurations(entries)
    decreases |entries|
  {
    if |entries| > 0 {
      assert NonNegative(entries[1..]) by {
        forall k | 0 <= k < |entries| - 1 ensures EntryDuration(entries[1..][k]) >= 0 {
          assert entries[1..][k] == entries[k + 1];
        }
      }
      assert EntryDuration(entries[0]) >= 0;
      FilteredWithinTotal(filters, entries[1..]);
      if Counted(filters, entries[0]) {
        assert ([entries[0]] + CountedClocks(filters, entries[1..]))[1..] == CountedClocks(filters, entries[1..]);
      }
    }
  }

  /** `subheadersOfHeaderWithIndex`: the subtree of the header at `i`, without it. */
  function SubheadersOfHeaderWithIndex(headers: seq<Header>, i: nat): (r: seq<Header>)
    requires i < |headers|
    ensures |r| < |headers| - i
  {
    headers[i + 1..SubtreeEnd(headers, i)]
  }

  /** The own total of each header (its value stored by the first `map`), and
      the recursive total of the header at `i`: its own plus its subheaders' own. */
  function RecursiveTotal(headers: seq<Header>, own: seq<int>, i: nat): int
    requires |own| == |headers| && i < |headers|
  {
    own[i] + Sum(own[i + 1..SubtreeEnd(headers, i)])
  }

  /** Both totals for every header. */
  function Totals(headers: seq<Header>, own: seq<int>): (r: seq<ClockTotals>)
    requires |own| == |headers|
    ensures |r| == |headers|
  {
    seq(|headers|, i requires 0 <= i < |headers| => ClockTotals(own[i], RecursiveTotal(headers, own, i)))
  }

  function OwnTotals(headers: seq<Header>): (r: seq<int>)
    ensures |r| == |headers|
  {
    seq(|headers|, i requires 0 <= i < |headers| => TotalTimeLogged(headers[i]))
  }

  function OwnFilteredTotals(filters: seq<Filter>, headers: seq<Header>): (r: seq<int>)
    ensures |r| == |headers|
  {
    seq(|headers|, i requires 0 <= i < |headers| => TotalFilteredTimeLogged(filters, headers[i]))
  }

  /** `updateHeadersTotalTimeLoggedRecursive`: a missing header list is returned
      as it is; otherwise each header gets its own and its recursive total. */
  function UpdateHeadersTotalTimeLoggedRecursive(headers: Option<seq<Header>>): (r: Option<seq<Header>>)
    ensures r.None? <==> headers.None?
    ensures r.Some? ==> |r.value| == |headers.value|
  {
    match headers
    case None => None
    case Some(hs) =>
      var totals := Totals(hs, OwnTotals(hs));
      Some(seq(|hs|, i requires 0 <= i < |hs| => hs[i].(totalTimeLogged := Some(totals[i]))))
  }

  /** `updateHeadersTotalFilteredTimeLoggedRecursive`, the same over the filtered totals. */
  function UpdateHeadersTotalFilteredTimeLoggedRecursive(filters: seq<Filter>, headers: Option<seq<Header>>): (r: Option<seq<Header>>)
    ensures r.None? <==> headers.None?
    ensures r.Some? ==> |r.value| == |headers.value|
  {
    match headers
    case None => None
    case Some(hs) =>
      var totals := Totals(hs, OwnFilteredTotals(filters, hs));
      Some(seq(|hs|, i requires 0 <= i < |hs| => hs[i].(totalFilteredTimeLogged := Some(totals[i]))))
  }

  /** Each header keeps everything but its totals; its own total is its logbook's,
      and its recursive total adds the own totals of exactly its subheaders. */
  lemma TotalsOfHeader(hs: seq<Header>, i: nat)
    requires i < |hs|
    ensures var r := UpdateHeadersTotalTimeLoggedRecursive(Some(hs)).value;
      var own := TotalTimeLogged(hs[i]);
      r[i] == hs[i].(totalTimeLogged := r[i].totalTimeLogged) &&
      r[i].totalTimeLogged == Some(ClockTotals(own, own + Sum(OwnTotals(SubheadersOfHeaderWithIndex(hs, i)))))
  {
    var own := OwnTotals(hs);
    var e := SubtreeEnd(hs, i);
    assert own[i + 1..e] == OwnTotals(hs[i + 1..e]);
  }

  /** A header without subheaders has equal own and recursive totals. */
  lemma LeafTotals(hs: seq<Header>, i: nat)
    requires i < |hs|
    requires i + 1 == |hs| || hs[i + 1].nestingLevel <= hs[i].nestingLevel
    ensures var t := UpdateHeadersTotalTimeLoggedRecursive(Some(hs)).value[i].totalTimeLogged;
      t.Some? && t.value.recursive == t.value.own
  {
    assert SubtreeEnd(hs, i) == i + 1;
  }

  lemma {:induction false} SumNonNegative(xs: seq<int>)
    requires forall k :: 0 <= k < |xs| ==> xs[k] >= 0
    ensures Sum(xs) >= 0
    decreases |xs|
  {
    if |xs| > 0 {
      assert forall k :: 0 <= k < |xs| - 1 ==> xs[1..][k] == xs[k + 1];
      SumNonNegative(xs[1..]);
    }
  }

  /** When no clock in the file runs backwards, every recursive total is at least
      the header's own total. */
  lemma RecursiveAtLeastOwn(hs: seq<Header>, i: nat)
    requires i < |hs|
    requires forall k :: 0 <= k < |hs| ==> NonNegative(hs[k].logBookEntries)
    ensures var t := UpdateHeadersTotalTimeLoggedRecursive(Some(hs)).value[i].totalTimeLogged;
      t.Some? && t.value.recursive >= t.value.own
  {
    var own := OwnTotals(hs);
    var sub := own[i + 1..SubtreeEnd(hs, i)];
    forall k | 0 <= k < |sub| ensures sub[k] >= 0 {
      var j := i + 1 + k;
      assert sub[k] == TotalTimeLogged(hs[j]);
      OwnNonNegative(hs[j].logBookEntries);
    }
    SumNonNegative(sub);
  }

  lemma {:induction false} OwnNonNegative(entries: seq<LogEntry>)
    requires NonNegative(entries)
    ensures SumDurations(entries) >= 0
    decreases |entries|
  {
    if |entries| > 0 {
      assert NonNegative(entries[1..]) by {
        forall k | 0 <= k < |entries| - 1 ensures EntryDuration(entries[1..][k]) >= 0 {
          assert entries[1..][k] == entries[k + 1];
        }
      }
      assert EntryDuration(entries[0]) >= 0;
      OwnNonNegative(entries[1..]);
    }
  }

  /** The filtered update, like the plain one, changes only its own field and
      adds exactly the subheaders' filtered totals. */
  lemma FilteredTotalsOfHeader(filters: seq<Filter>, hs: seq<Header>, i: nat)
    requires i < |hs|
    ensures var r := UpdateHeadersTotalFilteredTimeLoggedRecursive(filters, Some(hs)).value;
      var own := TotalFilteredTimeLogged(filters, hs[i]);
      r[i] == hs[i].(totalFilteredTimeLogged := r[i].totalFilteredTimeLogged) &&
      r[i].totalFilteredTimeLogged ==
        Some(ClockTotals(own, own + Sum(OwnFilteredTotals(filters, SubheadersOfHeaderWithIndex(hs, i)))))
  {
    var own := OwnFilteredTotals(filters, hs);
    var e := SubtreeEnd(hs, i);
    assert own[i + 1..e] == OwnFilteredTotals(filters, hs[i + 1..e]);
  }
}
