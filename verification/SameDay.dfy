/** The degraded selector used when no contiguous block exists: slots of a single day, best runs first. */
module SameDay {
  import opened Prelude
  import opened Timetable

  datatype DayProfile = DayProfile(day: string, slots: seq<TimeSlot>, runs: seq<seq<TimeSlot>>, longestRun: nat)

  function Flatten(runs: seq<seq<TimeSlot>>): seq<TimeSlot> {
    if runs == [] then [] else Flatten(runs[..|runs| - 1]) + runs[|runs| - 1]
  }

  function LongestFirst(): seq<TimeSlot> -> int { (r: seq<TimeSlot>) => -|r| }

  /** The largest number of allowed slots that one of the days offers. */
  function LargestDay(slots: seq<TimeSlot>, days: seq<string>): (r: nat)
    ensures forall day :: day in days ==> |OnDay(slots, day)| <= r
    ensures r == 0 || exists day :: day in days && |OnDay(slots, day)| == r
  {
    if days == [] then 0
    else
      var last := days[|days| - 1];
      var rest := LargestDay(slots, days[..|days| - 1]);
      assert forall day :: day in days <==> day in days[..|days| - 1] || day == last;
      assert last in days &&
        (rest == 0 || exists day :: day in days[..|days| - 1] && day in days && |OnDay(slots, day)| == rest);
      if rest >= |OnDay(slots, last)| then rest else |OnDay(slots, last)|
  }

  function MostSlots(ids: seq<int>, lookup: SlotLookup): nat {
    LargestDay(Resolve(ids, lookup), Days(Resolve(ids, lookup)))
  }

  /** Distinct allowed slots of one day. */
  ghost predicate OneDay(picked: seq<int>, ids: seq<int>, lookup: SlotLookup) {
    && NoDup(picked)
    && (forall i :: 0 <= i < |picked| ==> picked[i] in ids && picked[i] in lookup)
    && (forall i, j :: 0 <= i < |picked| && 0 <= j < |picked| ==> lookup[picked[i]].day == lookup[picked[j]].day)
  }

  /** As many slots of one day as the duration asks for, or as the fullest day offers: a block whenever one exists,
      and a choice of as few runs as possible otherwise. */
  ghost predicate SameDayPick(picked: seq<int>, ids: seq<int>, d: int, lookup: SlotLookup) {
    && OneDay(picked, ids, lookup)
    && |picked| == Min(Max(d, 0), MostSlots(ids, lookup))
    && if Blocks(ids, d, lookup) != [] then picked in Blocks(ids, d, lookup) else BestPick(picked, ids, d, lookup)
  }

  // ---------------------------------------------------------------- the best pick, said of the timetable

  /** s[a..b) is a maximal back-to-back run. */
  ghost predicate IsMaximal(s: seq<TimeSlot>, a: int, b: int) {
    && 0 <= a < b <= |s| && Linked(s, a, b)
    && (a > 0 ==> s[a - 1].endTime != s[a].startTime)
    && (b < |s| ==> s[b - 1].endTime != s[b].startTime)
  }

  /** Exactly the maximal runs of s, longer ones first and earlier ones first among those of one length. */
  ghost predicate LongestRunsFirst(s: seq<TimeSlot>, ranges: seq<(int, int)>) {
    && (forall i :: 0 <= i < |ranges| ==> IsMaximal(s, ranges[i].0, ranges[i].1))
    && (forall a, b :: IsMaximal(s, a, b) ==> (a, b) in ranges)
    && (forall i, j :: 0 <= i < j < |ranges| ==> ListedBefore(ranges[i], ranges[j]))
  }

  ghost predicate ListedBefore(r: (int, int), t: (int, int)) {
    r.1 - r.0 > t.1 - t.0 || (r.1 - r.0 == t.1 - t.0 && r.0 < t.0)
  }

  function Slice(s: seq<TimeSlot>, r: (int, int)): seq<TimeSlot> {
    if 0 <= r.0 <= r.1 <= |s| then s[r.0..r.1] else []
  }

  function Slices(s: seq<TimeSlot>, ranges: seq<(int, int)>): seq<seq<TimeSlot>> {
    if ranges == [] then [] else Slices(s, ranges[..|ranges| - 1]) + [Slice(s, ranges[|ranges| - 1])]
  }

  ghost predicate BestRuns(s: seq<TimeSlot>, runs: seq<seq<TimeSlot>>) {
    exists ranges :: LongestRunsFirst(s, ranges) && runs == Slices(s, ranges)
  }

  /** The first d slots of the day, its runs listed longest first. */
  ghost predicate BestOfDay(picked: seq<int>, s: seq<TimeSlot>, d: nat) {
    exists runs :: BestRuns(s, runs) && picked == FirstSlots(runs, d)
  }

  /** No day has a longer run. */
  ghost predicate LongestRunOn(day: string, ids: seq<int>, lookup: SlotLookup) {
    day in Days(Resolve(ids, lookup)) &&
    exists w, k :: IsRun(DaySlots(ids, lookup, day), w, k) && IsLongestRun(ids, lookup, k)
  }

  /** No day has more slots. */
  ghost predicate FullestOn(day: string, ids: seq<int>, lookup: SlotLookup) {
    day in Days(Resolve(ids, lookup)) && |DaySlots(ids, lookup, day)| == MostSlots(ids, lookup)
  }

  /** Taken from a day with the longest run, unless that is too small and smaller than the fullest day; then from a
      fullest day. */
  ghost predicate BestPick(picked: seq<int>, ids: seq<int>, d: int, lookup: SlotLookup) {
    if d <= 0 || Resolve(ids, lookup) == [] then picked == []
    else
      exists primary, day ::
        && LongestRunOn(primary, ids, lookup)
        && BestOfDay(picked, DaySlots(ids, lookup, day), d)
        && if |DaySlots(ids, lookup, primary)| >= Min(d, MostSlots(ids, lookup)) then day == primary
           else FullestOn(day, ids, lookup)
  }

  // ---------------------------------------------------------------- runs of one day

  /** Each run is a back-to-back slice of s. */
  ghost predicate IsSlice(s: seq<TimeSlot>, run: seq<TimeSlot>) {
    exists a :: IsRun(s, a, |run|) && run == s[a..a + |run|]
  }

  ghost predicate RunsOf(s: seq<TimeSlot>, runs: seq<seq<TimeSlot>>) {
    && (forall r :: r in runs ==> r != [] && IsSlice(s, r))
    && (forall w, d :: IsRun(s, w, d) && d > 0 ==> exists r :: r in runs && d <= |r|)
  }

  /** Some listed run is at least as long as any run that ends by n. */
  ghost predicate Covered(s: seq<TimeSlot>, runs: seq<seq<TimeSlot>>, n: nat) {
    forall w, d :: IsRun(s, w, d) && d > 0 && w + d <= n ==> exists r :: r in runs && d <= |r|
  }

  lemma NothingToCover(s: seq<TimeSlot>)
    ensures Covered(s, [], 0) && Flatten([]) == []
  {
  }

  lemma ChainIsSlice(s: seq<TimeSlot>, start: nat, i: nat)
    requires start < i <= |s| && Linked(s, start, i)
    ensures IsSlice(s, s[start..i])
  {
    assert IsRun(s, start, |s[start..i]|);
  }

  lemma FlattenSnoc(runs: seq<seq<TimeSlot>>, run: seq<TimeSlot>)
    ensures Flatten(runs + [run]) == Flatten(runs) + run
  {
    assert (runs + [run])[..|runs|] == runs;
  }

  lemma AllCovered(s: seq<TimeSlot>, runs: seq<seq<TimeSlot>>)
    requires Covered(s, runs, |s|) && forall r :: r in runs ==> r != [] && IsSlice(s, r)
    ensures RunsOf(s, runs)
  {
    hide IsSlice;
    forall w, d | IsRun(s, w, d) && d > 0 ensures exists r :: r in runs && d <= |r| {
      assert w + d <= |s|;
    }
  }

  /** Adding the maximal chain [start, i) covers everything up to its end. */
  lemma RunsCover(s: seq<TimeSlot>, before: seq<seq<TimeSlot>>, start: nat, i: nat)
    requires Covered(s, before, start) && start < i <= |s| && Linked(s, start, i)
    requires 0 < start < |s| ==> s[start - 1].endTime != s[start].startTime
    ensures Covered(s, before + [s[start..i]], i)
  {
    var runs := before + [s[start..i]];
    forall w, d | IsRun(s, w, d) && d > 0 && w + d <= i ensures exists r :: r in runs && d <= |r| {
      if w + d <= start {
        var r :| r in before && d <= |r|;
        assert r in runs;
      } else {
        RunStaysInChain(s, start, w, d);
        assert s[start..i] in runs;
      }
    }
  }

  /** The maximal runs that end by n, in the order of the list. */
  ghost predicate RangesUpTo(s: seq<TimeSlot>, ranges: seq<(int, int)>, n: int) {
    && (forall i :: 0 <= i < |ranges| ==> IsMaximal(s, ranges[i].0, ranges[i].1) && ranges[i].1 <= n)
    && (forall a, b :: IsMaximal(s, a, b) && b <= n ==> (a, b) in ranges)
    && (forall i, j :: 0 <= i < j < |ranges| ==> ranges[i].1 <= ranges[j].0)
  }

  lemma RangesStep(s: seq<TimeSlot>, ranges: seq<(int, int)>, start: nat, i: nat)
    requires RangesUpTo(s, ranges, start) && start < i <= |s| && Linked(s, start, i)
    requires start > 0 ==> s[start - 1].endTime != s[start].startTime
    requires i < |s| ==> s[i - 1].endTime != s[i].startTime
    ensures RangesUpTo(s, ranges + [(start, i)], i)
    ensures Slices(s, ranges + [(start, i)]) == Slices(s, ranges) + [s[start..i]]
  {
    SlicesSnoc(s, ranges, (start, i));
    assert IsMaximal(s, start, i);
    hide Slices, Linked, IsMaximal;
    forall a, b | IsMaximal(s, a, b) && b <= i ensures (a, b) in ranges || (a, b) == (start, i) {
      if b > start { OnlyMaximal(s, start, i, a, b); }
    }
    RangesBy(s, ranges, start, i);
  }

  lemma RangesBy(s: seq<TimeSlot>, ranges: seq<(int, int)>, start: nat, i: nat)
    requires RangesUpTo(s, ranges, start) && start < i && IsMaximal(s, start, i)
    requires forall a, b :: IsMaximal(s, a, b) && b <= i ==> (a, b) in ranges || (a, b) == (start, i)
    ensures RangesUpTo(s, ranges + [(start, i)], i)
  {
    hide IsMaximal;
    var all := ranges + [(start, i)];
    forall a, b | IsMaximal(s, a, b) && b <= i ensures (a, b) in all {
      assert all[|ranges|] == (start, i);
    }
    forall k, j | 0 <= k < j < |all| ensures all[k].1 <= all[j].0 {
      assert j < |ranges| ==> ranges[k].1 <= ranges[j].0;
    }
  }

  /** Maximal runs that overlap are the same. */
  lemma OnlyMaximal(s: seq<TimeSlot>, a: int, b: int, a': int, b': int)
    requires IsMaximal(s, a, b) && IsMaximal(s, a', b') && a < b' <= b
    ensures a' == a && b' == b
  {
    assert IsRun(s, a', b' - a');
    RunStaysInChain(s, a, a', b' - a');
    forall k | a < k < b ensures s[k - 1].endTime == s[k].startTime {
      assert s[k - 1].endTime == s[k - 1 + 1].startTime;
    }
  }

  lemma NoRanges(s: seq<TimeSlot>)
    ensures RangesUpTo(s, [], 0) && Slices(s, []) == []
  {
  }

  method SplitRuns(slots: seq<TimeSlot>) returns (runs: seq<seq<TimeSlot>>, ghost ranges: seq<(int, int)>)
    ensures Flatten(runs) == slots && RunsOf(slots, runs)
    ensures runs == Slices(slots, ranges) && RangesUpTo(slots, ranges, |slots|)
  {
    runs, ranges := [], [];
    var start := 0;
    NothingToCover(slots);
    NoRanges(slots);
    hide Covered, IsSlice, IsRun, Flatten, RunsOf, Slices, RangesUpTo;
    for i := 1 to |slots| + 1
      invariant start < i && (slots != [] && i <= |slots| ==> Linked(slots, start, i))
      invariant i == |slots| + 1 ==> start == |slots|
      invariant start <= |slots| && Flatten(runs) == slots[..start]
      invariant 0 < start < |slots| ==> slots[start - 1].endTime != slots[start].startTime
      invariant forall r :: r in runs ==> r != [] && IsSlice(slots, r)
      invariant Covered(slots, runs, start) && RangesUpTo(slots, ranges, start) && runs == Slices(slots, ranges)
    {
      var continues := i < |slots| && slots[i - 1].endTime == slots[i].startTime;
      if !continues {
        var run := slots[start..i];
        ChainIsSlice(slots, start, i);
        RunsCover(slots, runs, start, i);
        FlattenSnoc(runs, run);
        RangesStep(slots, ranges, start, i);
        runs, ranges := runs + [run], ranges + [(start, i)];
        assert slots[..i] == slots[..start] + run;
        start := i;
      }
    }
    assert slots[..|slots|] == slots;
    AllCovered(slots, runs);
  }

  function LongestRange(s: seq<TimeSlot>): ((int, int)) -> int { (r: (int, int)) => -|Slice(s, r)| }

  lemma SlicesSnoc(s: seq<TimeSlot>, ranges: seq<(int, int)>, x: (int, int))
    ensures Slices(s, ranges + [x]) == Slices(s, ranges) + [Slice(s, x)]
  {
    assert (ranges + [x])[..|ranges|] == ranges;
  }

  lemma InsertSnoc<T>(y: T, s: seq<T>, last: T, key: T -> int)
    ensures InsertBy(y, s + [last], key) ==
      if key(last) <= key(y) then s + [last] + [y] else InsertBy(y, s, key) + [last]
  {
    assert (s + [last])[..|s|] == s;
  }

  lemma {:induction false} InsertSlice(s: seq<TimeSlot>, x: (int, int), ranges: seq<(int, int)>)
    ensures Slices(s, InsertBy(x, ranges, LongestRange(s))) == InsertBy(Slice(s, x), Slices(s, ranges), LongestFirst())
  {
    hide Slice, Slices, InsertBy;
    if ranges == [] {
      InsertFirst(s, x);
    } else {
      var front, last := ranges[..|ranges| - 1], ranges[|ranges| - 1];
      assert ranges == front + [last];
      InsertSlice(s, x, front);
      InsertSnoc(x, front, last, LongestRange(s));
      SlicesSnoc(s, front, last);
      InsertSnoc(Slice(s, x), Slices(s, front), Slice(s, last), LongestFirst());
      SlicesSnoc(s, ranges, x);
      SlicesSnoc(s, InsertBy(x, front, LongestRange(s)), last);
    }
  }

  lemma InsertFirst(s: seq<TimeSlot>, x: (int, int))
    ensures Slices(s, InsertBy(x, [], LongestRange(s))) == InsertBy(Slice(s, x), Slices(s, []), LongestFirst())
  {
    assert [x][..0] == [];
  }

  /** Sorting the slices by length is sorting their ranges by length. */
  lemma {:induction false} SortSlices(s: seq<TimeSlot>, ranges: seq<(int, int)>)
    ensures Slices(s, StableSort(ranges, LongestRange(s))) == StableSort(Slices(s, ranges), LongestFirst())
  {
    if ranges == [] {
      NothingSorted(s);
    } else {
      hide *;
      var front, x := ranges[..|ranges| - 1], ranges[|ranges| - 1];
      assert ranges == front + [x];
      SortSlices(s, front);
      InsertSlice(s, x, StableSort(front, LongestRange(s)));
      SlicesSnoc(s, front, x);
      SortSnoc(front, x, LongestRange(s));
      SortSnoc(Slices(s, front), Slice(s, x), LongestFirst());
    }
  }

  lemma NothingSorted(s: seq<TimeSlot>)
    ensures Slices(s, StableSort([], LongestRange(s))) == StableSort(Slices(s, []), LongestFirst())
  {
  }

  lemma SortSnoc<T>(front: seq<T>, x: T, key: T -> int)
    ensures StableSort(front + [x], key) == InsertBy(x, StableSort(front, key), key)
  {
    hide InsertBy;
    assert (front + [x])[..|front|] == front;
  }

  /** The sorted runs are the maximal runs, longest first. */
  lemma SortedAreBest(s: seq<TimeSlot>, runs: seq<seq<TimeSlot>>, ranges: seq<(int, int)>)
    requires runs == Slices(s, ranges) && RangesUpTo(s, ranges, |s|)
    ensures BestRuns(s, StableSort(runs, LongestFirst()))
  {
    hide Slices, StableSort;
    SortSlices(s, ranges);
    var r := StableSort(ranges, LongestRange(s));
    SameMultiset(r, ranges);
    forall i | 0 <= i < |r| ensures r[i] in ranges {
      assert r[i] in Elements(ranges);
    }
    forall x | x in ranges ensures x in r {
      assert x in Elements(r);
    }
    StableSortStable(ranges, LongestRange(s));
    forall i, j | 0 <= i < j < |r| ensures ListedBefore(r[i], r[j]) {
      assert ComesFirst(ranges, LongestRange(s), r[i], r[j]);
    }
    assert LongestRunsFirst(s, r);
  }

  lemma FlattenStep(runs: seq<seq<TimeSlot>>)
    requires runs != []
    ensures multiset(Flatten(runs)) == multiset(Flatten(runs[..|runs| - 1])) + multiset(runs[|runs| - 1])
  {
  }

  lemma {:induction false} FlattenWithout(runs: seq<seq<TimeSlot>>, k: nat)
    requires k < |runs|
    ensures multiset(Flatten(runs)) == multiset(Flatten(runs[..k] + runs[k + 1..])) + multiset(runs[k])
  {
    hide Flatten;
    var n, rest := |runs| - 1, runs[..k] + runs[k + 1..];
    FlattenStep(runs);
    if k < n {
      FlattenWithout(runs[..n], k);
      RestOfPrefix(runs, k);
      FlattenStep(rest);
    } else {
      assert rest == runs[..n];
    }
  }

  lemma {:induction false} FlattenPermuted(a: seq<seq<TimeSlot>>, b: seq<seq<TimeSlot>>)
    requires multiset(a) == multiset(b)
    ensures multiset(Flatten(a)) == multiset(Flatten(b))
    decreases |a|
  {
    hide *;
    SameMultiset(a, b);
    if a != [] {
      var n := |a| - 1;
      var k := LastIn(a, b);
      FlattenPermuted(a[..n], b[..k] + b[k + 1..]);
      FlattenWithout(b, k);
      FlattenStep(a);
    }
  }

  ghost predicate ProfileOk(p: DayProfile, ids: seq<int>, lookup: SlotLookup) {
    && p.day in Days(Resolve(ids, lookup))
    && p.slots == DaySlots(ids, lookup, p.day)
    && multiset(Flatten(p.runs)) == multiset(p.slots)
    && p.runs != [] && p.longestRun == |p.runs[0]| && IsSlice(p.slots, p.runs[0])
    && (forall w, d :: IsRun(p.slots, w, d) ==> d <= p.longestRun)
    && BestRuns(p.slots, p.runs)
  }

  method BuildProfile(day: string, bucket: seq<TimeSlot>, ghost ids: seq<int>, ghost lookup: SlotLookup)
    returns (p: DayProfile)
    requires day in Days(Resolve(ids, lookup)) && bucket == OnDay(Resolve(ids, lookup), day)
    ensures ProfileOk(p, ids, lookup) && p.day == day
  {
    hide *;
    var slots := StableSort(bucket, StartKey());
    var runs;
    ghost var ranges;
    runs, ranges := SplitRuns(slots);
    var sorted := StableSort(runs, LongestFirst());
    SortedAreBest(slots, runs, ranges);
    SortedAreProfile(day, ids, lookup, slots, runs, sorted);
    p := DayProfile(day, slots, sorted, |sorted[0]|);
  }

  lemma SortedAreProfile(day: string, ids: seq<int>, lookup: SlotLookup, slots: seq<TimeSlot>,
                         runs: seq<seq<TimeSlot>>, sorted: seq<seq<TimeSlot>>)
    requires day in Days(Resolve(ids, lookup)) && slots == StableSort(OnDay(Resolve(ids, lookup), day), StartKey())
    requires Flatten(runs) == slots && RunsOf(slots, runs) && sorted == StableSort(runs, LongestFirst())
    requires BestRuns(slots, sorted)
    ensures sorted != [] && ProfileOk(DayProfile(day, slots, sorted, |sorted[0]|), ids, lookup)
  {
    hide Flatten, RunsOf, BestRuns, IsSlice, IsRun, StableSort, Days, Resolve, OnDay;
    SortedDayNotEmpty(ids, lookup, day);
    SortedRuns(slots, runs, sorted);
  }

  lemma SortedDayNotEmpty(ids: seq<int>, lookup: SlotLookup, day: string)
    requires day in Days(Resolve(ids, lookup))
    ensures StableSort(OnDay(Resolve(ids, lookup), day), StartKey()) != []
  {
    DayNotEmpty(Resolve(ids, lookup), day);
  }

  lemma SortedRuns(slots: seq<TimeSlot>, runs: seq<seq<TimeSlot>>, sorted: seq<seq<TimeSlot>>)
    requires slots != [] && Flatten(runs) == slots && RunsOf(slots, runs) && sorted == StableSort(runs, LongestFirst())
    ensures sorted != [] && multiset(Flatten(sorted)) == multiset(slots)
    ensures IsSlice(slots, sorted[0])
    ensures forall w, d :: IsRun(slots, w, d) ==> d <= |sorted[0]|
  {
    hide Flatten, StableSort, IsSlice, IsRun, RunsOf;
    SameMultiset(runs, sorted);
    FlattenPermuted(runs, sorted);
    assert runs != [] by { NoRunsNothing(); }
    assert sorted[0] in Elements(runs);
    SlicesOf(slots, runs, sorted[0]);
    forall w, d | IsRun(slots, w, d) ensures d <= |sorted[0]| {
      if d > 0 {
        var r := LongRun(slots, runs, w, d);
        assert r in Elements(sorted);
        FirstIsLongest(runs, r);
      }
    }
  }

  lemma NoRunsNothing()
    ensures Flatten([]) == []
  {
  }

  lemma SlicesOf(slots: seq<TimeSlot>, runs: seq<seq<TimeSlot>>, r: seq<TimeSlot>)
    requires RunsOf(slots, runs) && r in runs
    ensures IsSlice(slots, r)
  {
  }

  lemma LongRun(slots: seq<TimeSlot>, runs: seq<seq<TimeSlot>>, w: int, d: int) returns (r: seq<TimeSlot>)
    requires RunsOf(slots, runs) && IsRun(slots, w, d) && d > 0
    ensures r in runs && d <= |r|
  {
    hide IsSlice, IsRun;
    r :| r in runs && d <= |r|;
  }

  lemma FirstIsLongest(runs: seq<seq<TimeSlot>>, r: seq<TimeSlot>)
    requires r in StableSort(runs, LongestFirst())
    ensures |r| <= |StableSort(runs, LongestFirst())[0]|
  {
    var sorted := StableSort(runs, LongestFirst());
    StableSortSorts(runs, LongestFirst());
    var k :| 0 <= k < |sorted| && sorted[k] == r;
    assert LongestFirst()(sorted[0]) <= LongestFirst()(sorted[k]);
  }

  // ---------------------------------------------------------------- taking slots run by run

  /** The first n slots of the listed runs, fewer if there are not so many. */
  function FirstSlots(runs: seq<seq<TimeSlot>>, n: int): seq<int>
    requires n >= 0
  {
    Ids(Flatten(runs))[..Min(n, |Flatten(runs)|)]
  }

  method TakeFromRuns(runs: seq<seq<TimeSlot>>, duration: nat) returns (picked: seq<int>)
    ensures picked == FirstSlots(runs, duration)
  {
    picked := [];
    for i := 0 to |runs|
      invariant picked == Ids(Flatten(runs[..i])) && |picked| <= duration
    {
      for j := 0 to |runs[i]|
        invariant picked == Ids(Flatten(runs[..i]) + runs[i][..j]) && |picked| <= duration
      {
        if |picked| >= duration {
          PrefixOfFlatten(runs, i, j);
          return;
        }
        picked := picked + [runs[i][j].id];
      }
      assert runs[..i + 1][..i] == runs[..i] && runs[i][..|runs[i]|] == runs[i];
    }
    assert runs[..|runs|] == runs;
  }

  lemma {:induction false} PrefixOfFlatten(runs: seq<seq<TimeSlot>>, i: nat, j: nat)
    requires i < |runs| && j <= |runs[i]|
    ensures Flatten(runs[..i]) + runs[i][..j] <= Flatten(runs)
  {
    var n := |runs| - 1;
    if i < n {
      PrefixOfFlatten(runs[..n], i, j);
      assert runs[..n][..i] == runs[..i];
    }
  }

  /** What is taken from one day's profile. */
  lemma TakenFromProfile(p: DayProfile, ids: seq<int>, lookup: SlotLookup, d: nat, picked: seq<int>)
    requires LookupOk(lookup) && NoDup(ids) && ProfileOk(p, ids, lookup)
    requires picked == FirstSlots(p.runs, d)
    ensures OneDay(picked, ids, lookup)
    ensures |picked| == Min(d, |p.slots|)
  {
    var f := Flatten(p.runs);
    DaySlotsFacts(ids, lookup, p.day);
    SameMultiset(p.slots, f);
    forall i | 0 <= i < |picked|
      ensures picked[i] in ids && picked[i] in lookup && lookup[picked[i]] == f[i] && f[i].day == p.day {
      assert f[i] in Elements(f);
      assert f[i] in p.slots;
    }
  }

  /** With a run long enough, what is taken is the start of the longest run: a block. */
  lemma TakenIsBlock(p: DayProfile, ids: seq<int>, lookup: SlotLookup, d: nat, picked: seq<int>)
    requires ProfileOk(p, ids, lookup) && 0 < d <= p.longestRun
    requires picked == FirstSlots(p.runs, d)
    ensures picked in Blocks(ids, d, lookup)
  {
    hide DaySlots, Flatten, Blocks, Days, Resolve;
    var a :| IsRun(p.slots, a, |p.runs[0]|) && p.runs[0] == p.slots[a..a + |p.runs[0]|];
    FirstRunFirst(p.runs);
    var b := Ids(p.slots[a..a + d]);
    assert IsRun(p.slots, a, d);
    assert IsWindow(b, ids, d, lookup, p.day, a);
    BlocksExact(ids, d, lookup);
    assert picked == b;
  }

  lemma {:induction false} FirstRunFirst(runs: seq<seq<TimeSlot>>)
    requires runs != []
    ensures runs[0] <= Flatten(runs)
  {
    if |runs| > 1 { FirstRunFirst(runs[..|runs| - 1]); }
    else { assert Flatten(runs[..0]) == []; }
  }

  // ---------------------------------------------------------------- pickSameDaySessionSlots

  /** One profile per day. */
  ghost predicate ProfilesOk(profiles: seq<DayProfile>, ids: seq<int>, lookup: SlotLookup) {
    var days := Days(Resolve(ids, lookup));
    |profiles| == |days| &&
      forall i :: 0 <= i < |days| ==> ProfileOk(profiles[i], ids, lookup) && profiles[i].day == days[i]
  }

  method BuildProfiles(ids: seq<int>, lookup: SlotLookup) returns (profiles: seq<DayProfile>)
    ensures ProfilesOk(profiles, ids, lookup)
  {
    hide ProfileOk, OnDay;
    var resolved := Resolve(ids, lookup);
    var days, byDay := GroupByDay(resolved);
    profiles := [];
    for i := 0 to |days|
      invariant |profiles| == i
      invariant forall j :: 0 <= j < i ==> ProfileOk(profiles[j], ids, lookup) && profiles[j].day == days[j]
    {
      assert days[i] in byDay;
      var p := BuildProfile(days[i], byDay[days[i]], ids, lookup);
      profiles := profiles + [p];
    }
  }

  /** The profiles that reach the largest value of key, chosen from at random. */
  method PickBest(profiles: seq<DayProfile>, key: DayProfile -> int) returns (best: DayProfile)
    requires profiles != []
    ensures best in profiles && forall p :: p in profiles ==> key(p) <= key(best)
  {
    var largest := key(profiles[0]);
    for i := 1 to |profiles|
      invariant forall j :: 0 <= j < i ==> key(profiles[j]) <= largest
      invariant exists j :: 0 <= j < i && key(profiles[j]) == largest
    {
      largest := Max(largest, key(profiles[i]));
    }
    var tied := [];
    for i := 0 to |profiles|
      invariant forall p :: p in tied <==> p in profiles[..i] && key(p) == largest
    {
      assert profiles[..i + 1] == profiles[..i] + [profiles[i]];
      if key(profiles[i]) == largest { tied := tied + [profiles[i]]; }
    }
    assert profiles[..|profiles|] == profiles;
    assert tied != [];
    var k := RandomIndex(|tied|);
    best := tied[k];
    assert best in tied;
  }

  method PickSameDaySessionSlots(possibleTimeSlotIds: seq<int>, duration: int, lookup: SlotLookup)
    returns (picked: seq<int>)
    requires LookupOk(lookup) && NoDup(possibleTimeSlotIds)
    ensures SameDayPick(picked, possibleTimeSlotIds, duration, lookup)
    ensures BestPick(picked, possibleTimeSlotIds, duration, lookup)
  {
    hide ProfileOk, ProfilesOk, SameDayPick, BestPick, Resolve, LookupOk;
    if duration <= 0 || Resolve(possibleTimeSlotIds, lookup) == [] {
      NothingToPick(possibleTimeSlotIds, duration, lookup);
      return [];
    }
    var profiles := BuildProfiles(possibleTimeSlotIds, lookup);
    ProfilesFacts(profiles, possibleTimeSlotIds, lookup);
    var primary := PickBest(profiles, (p: DayProfile) => p.longestRun);
    picked := TakeFromRuns(primary.runs, duration);
    var fallbackDay := PickBest(profiles, (p: DayProfile) => |p.slots|);
    PrimaryPick(profiles, primary, fallbackDay, possibleTimeSlotIds, lookup, duration, picked);
    if |picked| >= duration { return; }
    if |fallbackDay.slots| > |picked| && fallbackDay.day != primary.day {
      var alt := TakeFromRuns(fallbackDay.runs, duration);
      FallbackPick(profiles, primary, fallbackDay, possibleTimeSlotIds, lookup, duration, picked, alt);
      if |alt| > |picked| { return alt; }
    }
  }

  lemma NothingToPick(ids: seq<int>, d: int, lookup: SlotLookup)
    requires d <= 0 || Resolve(ids, lookup) == []
    ensures SameDayPick([], ids, d, lookup) && BestPick([], ids, d, lookup)
  {
  }

  lemma ProfilesFacts(profiles: seq<DayProfile>, ids: seq<int>, lookup: SlotLookup)
    requires ProfilesOk(profiles, ids, lookup) && Resolve(ids, lookup) != []
    ensures profiles != []
    ensures forall p :: p in profiles ==> ProfileOk(p, ids, lookup)
  {
    var resolved := Resolve(ids, lookup);
    DaysMembers(resolved);
    assert resolved[0].day in Days(resolved);
  }

  lemma ProfileOfDay(profiles: seq<DayProfile>, ids: seq<int>, lookup: SlotLookup, day: string) returns (p: DayProfile)
    requires ProfilesOk(profiles, ids, lookup) && day in Days(Resolve(ids, lookup))
    ensures p in profiles && p.slots == DaySlots(ids, lookup, day)
    ensures forall w, d :: IsRun(p.slots, w, d) ==> d <= p.longestRun
  {
    hide DaySlots, IsRun, IsSlice, Days, Resolve;
    var i :| 0 <= i < |Days(Resolve(ids, lookup))| && Days(Resolve(ids, lookup))[i] == day;
    p := profiles[i];
    assert ProfileOk(p, ids, lookup);
  }

  lemma RunOfProfile(p: DayProfile, ids: seq<int>, lookup: SlotLookup)
    requires ProfileOk(p, ids, lookup)
    ensures HasRun(ids, p.longestRun, lookup)
  {
    hide DaySlots, Days, Resolve, Flatten;
    var a :| IsRun(p.slots, a, |p.runs[0]|) && p.runs[0] == p.slots[a..a + |p.runs[0]|];
  }

  /** The day with the longest run decides whether a block exists. */
  lemma LongestProfile(profiles: seq<DayProfile>, primary: DayProfile, ids: seq<int>, lookup: SlotLookup)
    requires ProfilesOk(profiles, ids, lookup) && ProfileOk(primary, ids, lookup)
    requires forall p :: p in profiles ==> p.longestRun <= primary.longestRun
    ensures IsLongestRun(ids, lookup, primary.longestRun)
  {
    hide ProfileOk, ProfilesOk, DaySlots, IsRun, Days, Resolve;
    forall d, day, w | d > primary.longestRun && day in Days(Resolve(ids, lookup)) &&
      IsRun(DaySlots(ids, lookup, day), w, d)
      ensures false
    {
      var p := ProfileOfDay(profiles, ids, lookup, day);
    }
    RunOfProfile(primary, ids, lookup);
  }

  /** The fullest day bounds every pick. */
  lemma FullestDay(profiles: seq<DayProfile>, fullest: DayProfile, ids: seq<int>, lookup: SlotLookup)
    requires LookupOk(lookup) && ProfilesOk(profiles, ids, lookup) && ProfileOk(fullest, ids, lookup)
    requires forall p :: p in profiles ==> |p.slots| <= |fullest.slots|
    ensures MostSlots(ids, lookup) == |fullest.slots|
  {
    hide ProfilesOk, DaySlots, IsRun, IsSlice, Days, Resolve, LookupOk, Flatten;
    var resolved := Resolve(ids, lookup);
    forall day | day in Days(resolved) ensures |OnDay(resolved, day)| <= |fullest.slots| {
      DaySlotsFacts(ids, lookup, day);
      var p := ProfileOfDay(profiles, ids, lookup, day);
    }
    DaySlotsFacts(ids, lookup, fullest.day);
  }

  lemma PrimaryPick(profiles: seq<DayProfile>, primary: DayProfile, fullest: DayProfile, ids: seq<int>,
                    lookup: SlotLookup, d: int, picked: seq<int>)
    requires LookupOk(lookup) && NoDup(ids) && ProfilesOk(profiles, ids, lookup)
    requires primary in profiles && ProfileOk(primary, ids, lookup) && ProfileOk(fullest, ids, lookup)
    requires forall p :: p in profiles ==> p.longestRun <= primary.longestRun
    requires forall p :: p in profiles ==> |p.slots| <= |fullest.slots|
    requires d > 0 && picked == FirstSlots(primary.runs, d)
    ensures |picked| >= d || |picked| == |fullest.slots| || fullest.day == primary.day ==>
      SameDayPick(picked, ids, d, lookup) && BestPick(picked, ids, d, lookup)
    ensures |picked| <= d && |picked| <= |fullest.slots| && |picked| == Min(d, |primary.slots|)
    ensures |picked| < d ==> Blocks(ids, d, lookup) == []
  {
    hide Flatten, Blocks, OneDay, ProfilesOk, DaySlots, IsSlice, LookupOk, IsRun, BestPick, BestRuns, FirstSlots;
    PrimaryIsBest(profiles, primary, fullest, ids, lookup, d, picked);
    LongestProfile(profiles, primary, ids, lookup);
    FullestDay(profiles, fullest, ids, lookup);
    BlocksExistIffRunFits(ids, d, lookup, primary.longestRun);
    TakenFromProfile(primary, ids, lookup, d, picked);
    if d <= primary.longestRun {
      TakenIsBlock(primary, ids, lookup, d, picked);
      LongestFits(primary, ids, lookup);
    }
  }

  lemma LongestOnDay(profiles: seq<DayProfile>, primary: DayProfile, ids: seq<int>, lookup: SlotLookup)
    requires ProfilesOk(profiles, ids, lookup) && ProfileOk(primary, ids, lookup)
    requires forall p :: p in profiles ==> p.longestRun <= primary.longestRun
    ensures LongestRunOn(primary.day, ids, lookup)
  {
    hide ProfilesOk, DaySlots, BestRuns, Flatten, Days, Resolve, IsLongestRun, Linked;
    LongestProfile(profiles, primary, ids, lookup);
    var a :| IsRun(primary.slots, a, |primary.runs[0]|) &&
      primary.runs[0] == primary.slots[a..a + |primary.runs[0]|];
  }

  lemma ProfileIsBest(p: DayProfile, ids: seq<int>, lookup: SlotLookup, d: nat, picked: seq<int>)
    requires ProfileOk(p, ids, lookup) && picked == FirstSlots(p.runs, d)
    ensures BestOfDay(picked, DaySlots(ids, lookup, p.day), d) && p.slots == DaySlots(ids, lookup, p.day)
    ensures Resolve(ids, lookup) != []
  {
    DaysMembers(Resolve(ids, lookup));
    hide DaySlots, FirstSlots, BestRuns, Resolve, IsRun;
  }

  lemma PrimaryIsBest(profiles: seq<DayProfile>, primary: DayProfile, fullest: DayProfile, ids: seq<int>,
                      lookup: SlotLookup, d: int, picked: seq<int>)
    requires LookupOk(lookup) && ProfilesOk(profiles, ids, lookup)
    requires ProfileOk(primary, ids, lookup) && ProfileOk(fullest, ids, lookup)
    requires forall p :: p in profiles ==> p.longestRun <= primary.longestRun
    requires forall p :: p in profiles ==> |p.slots| <= |fullest.slots|
    requires d > 0 && picked == FirstSlots(primary.runs, d)
    ensures |primary.slots| >= Min(d, |fullest.slots|) ==> BestPick(picked, ids, d, lookup)
  {
    hide *;
    FullestDay(profiles, fullest, ids, lookup);
    LongestOnDay(profiles, primary, ids, lookup);
    ProfileIsBest(primary, ids, lookup, d, picked);
    if |primary.slots| >= Min(d, |fullest.slots|) {
      BestPickBy(primary.day, primary.day, ids, d, lookup, picked);
    }
  }

  lemma BestPickBy(primary: string, day: string, ids: seq<int>, d: int, lookup: SlotLookup, picked: seq<int>)
    requires d > 0 && Resolve(ids, lookup) != [] && LongestRunOn(primary, ids, lookup)
    requires BestOfDay(picked, DaySlots(ids, lookup, day), d)
    requires if |DaySlots(ids, lookup, primary)| >= Min(d, MostSlots(ids, lookup)) then day == primary
             else FullestOn(day, ids, lookup)
    ensures BestPick(picked, ids, d, lookup)
  {
    hide Resolve, LongestRunOn, BestOfDay, DaySlots, MostSlots, FullestOn;
  }

  lemma FallbackIsBest(profiles: seq<DayProfile>, primary: DayProfile, fullest: DayProfile, ids: seq<int>,
                       lookup: SlotLookup, d: int, alt: seq<int>)
    requires LookupOk(lookup) && ProfilesOk(profiles, ids, lookup)
    requires ProfileOk(primary, ids, lookup) && ProfileOk(fullest, ids, lookup)
    requires forall p :: p in profiles ==> p.longestRun <= primary.longestRun
    requires forall p :: p in profiles ==> |p.slots| <= |fullest.slots|
    requires d > 0 && alt == FirstSlots(fullest.runs, d) && |primary.slots| < Min(d, |fullest.slots|)
    ensures BestPick(alt, ids, d, lookup)
  {
    hide *;
    FullestDay(profiles, fullest, ids, lookup);
    LongestOnDay(profiles, primary, ids, lookup);
    ProfileIsBest(primary, ids, lookup, d, FirstSlots(primary.runs, d));
    ProfileIsBest(fullest, ids, lookup, d, alt);
    assert FullestOn(fullest.day, ids, lookup) by { DayOfProfile(fullest, ids, lookup); }
    BestPickBy(primary.day, fullest.day, ids, d, lookup, alt);
  }

  lemma DayOfProfile(p: DayProfile, ids: seq<int>, lookup: SlotLookup)
    requires ProfileOk(p, ids, lookup) && |p.slots| == MostSlots(ids, lookup)
    ensures FullestOn(p.day, ids, lookup)
  {
    hide DaySlots, BestRuns, Flatten, Days, Resolve, MostSlots, IsRun;
  }

  lemma LongestFits(p: DayProfile, ids: seq<int>, lookup: SlotLookup)
    requires ProfileOk(p, ids, lookup)
    ensures p.longestRun <= |p.slots|
  {
  }

  lemma FallbackPick(profiles: seq<DayProfile>, primary: DayProfile, fullest: DayProfile, ids: seq<int>,
                     lookup: SlotLookup, d: int, picked: seq<int>, alt: seq<int>)
    requires LookupOk(lookup) && NoDup(ids) && ProfilesOk(profiles, ids, lookup) && ProfileOk(fullest, ids, lookup)
    requires ProfileOk(primary, ids, lookup) && forall p :: p in profiles ==> p.longestRun <= primary.longestRun
    requires forall p :: p in profiles ==> |p.slots| <= |fullest.slots|
    requires d > 0 && |picked| < d && |picked| < |fullest.slots| && Blocks(ids, d, lookup) == []
    requires |picked| == Min(d, |primary.slots|) && alt == FirstSlots(fullest.runs, d)
    ensures SameDayPick(alt, ids, d, lookup) && BestPick(alt, ids, d, lookup) && |alt| > |picked|
  {
    hide Flatten, Blocks, OneDay, ProfilesOk, ProfileOk, DaySlots, LookupOk, NoDup, BestPick, FirstSlots;
    FallbackIsBest(profiles, primary, fullest, ids, lookup, d, alt);
    FullestDay(profiles, fullest, ids, lookup);
    TakenFromProfile(fullest, ids, lookup, d, alt);
  }

  // ---------------------------------------------------------------- no choice uses fewer runs

  function TotalLength(ranges: seq<(int, int)>): int {
    if ranges == [] then 0
    else TotalLength(ranges[..|ranges| - 1]) + (ranges[|ranges| - 1].1 - ranges[|ranges| - 1].0)
  }

  ghost predicate LongerFirst(ranges: seq<(int, int)>) {
    forall i, j :: 0 <= i < j < |ranges| ==> ranges[i].1 - ranges[i].0 >= ranges[j].1 - ranges[j].0
  }

  lemma {:induction false} LengthWithout(ranges: seq<(int, int)>, k: nat)
    requires k < |ranges|
    ensures TotalLength(ranges) == TotalLength(ranges[..k] + ranges[k + 1..]) + (ranges[k].1 - ranges[k].0)
  {
    var n, rest := |ranges| - 1, ranges[..k] + ranges[k + 1..];
    if k < n {
      LengthWithout(ranges[..n], k);
      RestOfPrefix(ranges, k);
    } else {
      assert rest == ranges[..n];
    }
  }

  /** Some of the ranges are together no longer than as many from the front of the list. */
  lemma {:induction false} FrontIsLongest(ranges: seq<(int, int)>, picks: seq<(int, int)>)
    requires LongerFirst(ranges) && NoDup(picks) && forall r :: r in picks ==> r in ranges
    ensures |picks| <= |ranges| && TotalLength(picks) <= TotalLength(ranges[..|picks|])
  {
    if picks == [] {
      assert ranges[..0] == [];
    } else {
      assert picks[0] in ranges;
      hide TotalLength, NoDup;
      var front, last := ranges[..|ranges| - 1], ranges[|ranges| - 1];
      assert ranges == front + [last];
      if last in picks {
        var k :| 0 <= k < |picks| && picks[k] == last;
        WithoutMember(picks, k, front);
        FrontIsLongest(front, picks[..k] + picks[k + 1..]);
        LastPicked(ranges, picks, k);
      } else {
        FrontIsLongest(front, picks);
        assert front[..|picks|] == ranges[..|picks|];
      }
    }
  }

  lemma LastPicked(ranges: seq<(int, int)>, picks: seq<(int, int)>, k: nat)
    requires LongerFirst(ranges) && ranges != [] && k < |picks| <= |ranges| && picks[k] == ranges[|ranges| - 1]
    requires var front, rest := ranges[..|ranges| - 1], picks[..k] + picks[k + 1..];
      TotalLength(rest) <= TotalLength(front[..|rest|])
    ensures TotalLength(picks) <= TotalLength(ranges[..|picks|])
  {
    hide TotalLength;
    var j := |picks| - 1;
    LengthWithout(picks, k);
    assert ranges[..|ranges| - 1][..j] == ranges[..j];
    OneMoreRange(ranges, j);
  }

  lemma OneMoreRange(ranges: seq<(int, int)>, j: nat)
    requires j < |ranges|
    ensures TotalLength(ranges[..j + 1]) == TotalLength(ranges[..j]) + (ranges[j].1 - ranges[j].0)
  {
    assert ranges[..j + 1][..j] == ranges[..j];
  }

  lemma WithoutMember<T>(s: seq<T>, k: nat, front: seq<T>)
    requires NoDup(s) && k < |s| && forall x :: x in s ==> x in front || x == s[k]
    ensures var rest := s[..k] + s[k + 1..]; NoDup(rest) && forall x :: x in rest ==> x in front
  {
    var rest := s[..k] + s[k + 1..];
    forall i | 0 <= i < |rest| ensures rest[i] in front {
      assert rest[i] == s[if i < k then i else i + 1] && rest[i] != s[k];
    }
  }

  lemma {:induction false} SlicesHold(s: seq<TimeSlot>, ranges: seq<(int, int)>)
    requires forall i :: 0 <= i < |ranges| ==> IsMaximal(s, ranges[i].0, ranges[i].1)
    ensures |Flatten(Slices(s, ranges))| == TotalLength(ranges)
  {
    hide Linked;
    if ranges != [] {
      var front, last := ranges[..|ranges| - 1], ranges[|ranges| - 1];
      SlicesHold(s, front);
      assert ranges == front + [last];
      SlicesSnoc(s, front, last);
      FlattenSnoc(Slices(s, front), Slice(s, last));
    }
  }

  lemma {:induction false} SlicesPrefix(s: seq<TimeSlot>, ranges: seq<(int, int)>, j: nat)
    requires j <= |ranges|
    ensures Flatten(Slices(s, ranges[..j])) <= Flatten(Slices(s, ranges))
  {
    if j < |ranges| {
      var front, last := ranges[..|ranges| - 1], ranges[|ranges| - 1];
      SlicesPrefix(s, front, j);
      assert front[..j] == ranges[..j] && ranges == front + [last];
      SlicesSnoc(s, front, last);
      FlattenSnoc(Slices(s, front), Slice(s, last));
    } else {
      assert ranges[..j] == ranges;
    }
  }

  /** If some runs of the day hold d slots, the best pick needs no more runs than those. */
  lemma FewestRuns(s: seq<TimeSlot>, ranges: seq<(int, int)>, picks: seq<(int, int)>, d: nat)
    requires LongestRunsFirst(s, ranges) && NoDup(picks) && TotalLength(picks) >= d
    requires forall r :: r in picks ==> IsMaximal(s, r.0, r.1)
    ensures |picks| <= |ranges|
    ensures FirstSlots(Slices(s, ranges), d) == FirstSlots(Slices(s, ranges[..|picks|]), d)
  {
    hide IsMaximal, Slices, Flatten, TotalLength;
    FrontIsLongest(ranges, picks);
    var first := ranges[..|picks|];
    SlicesHold(s, first);
    SlicesPrefix(s, ranges, |picks|);
  }
}
