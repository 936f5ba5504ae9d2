/** Slot topology: which sequences of allowed slots are same-day, back-to-back blocks. */
module Timetable {
  import opened Prelude

  /** Times are minutes; only their order and equality matter. */
  datatype TimeSlot = TimeSlot(id: int, day: string, startTime: int, endTime: int)

  type SlotLookup = map<int, TimeSlot>

  /** new Map(allTimeSlots.map(ts => [ts.id, ts])): a later slot with the same id wins. */
  function BuildSlotLookup(all: seq<TimeSlot>): (m: SlotLookup)
    ensures LookupOk(m)
    ensures forall k :: k in m <==> exists ts :: ts in all && ts.id == k
  {
    if all == [] then map[]
    else
      var last := all[|all| - 1];
      assert all == all[..|all| - 1] + [last];
      BuildSlotLookup(all[..|all| - 1])[last.id := last]
  }

  ghost predicate LookupOk(m: SlotLookup) {
    forall k :: k in m ==> m[k].id == k
  }

  // ---------------------------------------------------------------- grouping and sorting

  /** ids.map(lookup.get).filter(defined) */
  function Resolve(ids: seq<int>, lookup: SlotLookup): (r: seq<TimeSlot>)
    ensures |r| <= |ids|
  {
    if ids == [] then []
    else
      Resolve(ids[..|ids| - 1], lookup) + (if ids[|ids| - 1] in lookup then [lookup[ids[|ids| - 1]]] else [])
  }

  function Ids(slots: seq<TimeSlot>): (r: seq<int>)
    ensures |r| == |slots|
    ensures forall i :: 0 <= i < |r| ==> r[i] == slots[i].id
  {
    seq(|slots|, i requires 0 <= i < |slots| => slots[i].id)
  }

  /** The slots of one day, in the order given. */
  function OnDay(slots: seq<TimeSlot>, day: string): seq<TimeSlot> {
    if slots == [] then []
    else
      var last := slots[|slots| - 1];
      OnDay(slots[..|slots| - 1], day) + (if last.day == day then [last] else [])
  }

  /** The days that occur, in order of first appearance. */
  function Days(slots: seq<TimeSlot>): seq<string> {
    if slots == [] then []
    else
      var before := Days(slots[..|slots| - 1]);
      if slots[|slots| - 1].day in before then before else before + [slots[|slots| - 1].day]
  }

  function StartKey(): TimeSlot -> int { (ts: TimeSlot) => ts.startTime }

  /** One day's allowed slots in chronological order. */
  function DaySlots(ids: seq<int>, lookup: SlotLookup, day: string): seq<TimeSlot> {
    StableSort(OnDay(Resolve(ids, lookup), day), StartKey())
  }

  ghost predicate Grouped(days: seq<string>, byDay: map<string, seq<TimeSlot>>, slots: seq<TimeSlot>) {
    && days == Days(slots)
    && (forall day :: day in byDay <==> day in days)
    && (forall day :: OnDay(slots, day) == if day in byDay then byDay[day] else [])
  }

  lemma NothingGrouped()
    ensures Grouped([], map[], [])
  {
  }

  lemma GroupStep(days: seq<string>, byDay: map<string, seq<TimeSlot>>, slots: seq<TimeSlot>, ts: TimeSlot)
    requires Grouped(days, byDay, slots)
    ensures Grouped(if ts.day in byDay then days else days + [ts.day],
                    byDay[ts.day := (if ts.day in byDay then byDay[ts.day] else []) + [ts]], slots + [ts])
  {
    hide Days, OnDay;
    var byDay' := byDay[ts.day := (if ts.day in byDay then byDay[ts.day] else []) + [ts]];
    DaysSnoc(slots, ts);
    forall day ensures OnDay(slots + [ts], day) == if day in byDay' then byDay'[day] else [] {
      OnDaySnoc(slots, ts, day);
    }
  }

  lemma DaysSnoc(slots: seq<TimeSlot>, ts: TimeSlot)
    ensures Days(slots + [ts]) == if ts.day in Days(slots) then Days(slots) else Days(slots) + [ts.day]
  {
    assert (slots + [ts])[..|slots|] == slots;
  }

  lemma OnDaySnoc(slots: seq<TimeSlot>, ts: TimeSlot, day: string)
    ensures OnDay(slots + [ts], day) == OnDay(slots, day) + (if ts.day == day then [ts] else [])
  {
    assert (slots + [ts])[..|slots|] == slots;
  }

  lemma GroupedMeans(days: seq<string>, byDay: map<string, seq<TimeSlot>>, slots: seq<TimeSlot>)
    requires Grouped(days, byDay, slots)
    ensures days == Days(slots) && byDay.Keys == Elements(days)
    ensures forall day :: day in byDay ==> byDay[day] == OnDay(slots, day)
  {
  }

  /** byDay: the insertion-ordered map from day to bucket. */
  method GroupByDay(slots: seq<TimeSlot>) returns (days: seq<string>, byDay: map<string, seq<TimeSlot>>)
    ensures days == Days(slots)
    ensures byDay.Keys == Elements(days)
    ensures forall day :: day in byDay ==> byDay[day] == OnDay(slots, day)
  {
    days, byDay := [], map[];
    NothingGrouped();
    hide Grouped, Days, OnDay;
    for i := 0 to |slots|
      invariant Grouped(days, byDay, slots[..i])
    {
      var ts := slots[i];
      GroupStep(days, byDay, slots[..i], ts);
      assert slots[..i] + [ts] == slots[..i + 1];
      if ts.day !in byDay {
        days := days + [ts.day];
      }
      byDay := byDay[ts.day := (if ts.day in byDay then byDay[ts.day] else []) + [ts]];
    }
    assert slots[..|slots|] == slots;
    GroupedMeans(days, byDay, slots);
  }

  lemma {:induction false} ResolveMembers(ids: seq<int>, lookup: SlotLookup)
    requires LookupOk(lookup)
    ensures forall ts :: ts in Resolve(ids, lookup) <==> ts.id in ids && ts.id in lookup && lookup[ts.id] == ts
    ensures NoDup(ids) ==> NoDup(Resolve(ids, lookup))
  {
    if ids != [] {
      var front, last := ids[..|ids| - 1], ids[|ids| - 1];
      ResolveMembers(front, lookup);
      assert ids == front + [last];
      if NoDup(ids) { assert last !in front; }
    }
  }

  lemma {:induction false} OnDayMembers(slots: seq<TimeSlot>, day: string)
    ensures forall ts :: ts in OnDay(slots, day) <==> ts in slots && ts.day == day
    ensures NoDup(slots) ==> NoDup(OnDay(slots, day))
    ensures |OnDay(slots, day)| <= |slots|
  {
    if slots != [] {
      var front, last := slots[..|slots| - 1], slots[|slots| - 1];
      OnDayMembers(front, day);
      assert slots == front + [last];
      if NoDup(slots) { assert last !in front; }
    }
  }

  lemma {:induction false} DaysMembers(slots: seq<TimeSlot>)
    ensures forall day :: day in Days(slots) <==> exists ts :: ts in slots && ts.day == day
    ensures NoDup(Days(slots))
  {
    if slots != [] {
      var front, last := slots[..|slots| - 1], slots[|slots| - 1];
      DaysMembers(front);
      assert slots == front + [last];
    }
  }

  /** A day's list holds exactly the allowed, known slots of that day, each once, ordered by start. */
  lemma DaySlotsFacts(ids: seq<int>, lookup: SlotLookup, day: string)
    requires LookupOk(lookup)
    ensures forall ts :: ts in DaySlots(ids, lookup, day) <==>
      ts.id in ids && ts.id in lookup && lookup[ts.id] == ts && ts.day == day
    ensures NoDup(ids) ==> NoDup(DaySlots(ids, lookup, day)) && NoDup(Ids(DaySlots(ids, lookup, day)))
    ensures SortedBy(DaySlots(ids, lookup, day), StartKey())
    ensures |DaySlots(ids, lookup, day)| == |OnDay(Resolve(ids, lookup), day)|
  {
    var resolved, s := Resolve(ids, lookup), DaySlots(ids, lookup, day);
    ResolveMembers(ids, lookup);
    OnDayMembers(resolved, day);
    SameMultiset(OnDay(resolved, day), s);
    assert forall ts :: ts in s <==> ts in Elements(OnDay(resolved, day));
    StableSortSorts(OnDay(resolved, day), StartKey());
    hide DaySlots, Resolve, OnDay, SortedBy, StableSort;
    if NoDup(ids) { SlotIdsDistinct(s, lookup); }
  }

  lemma SlotIdsDistinct(s: seq<TimeSlot>, lookup: SlotLookup)
    requires NoDup(s) && forall ts :: ts in s ==> ts.id in lookup && lookup[ts.id] == ts
    ensures NoDup(Ids(s))
  {
    forall i, j | 0 <= i < j < |s| ensures Ids(s)[i] != Ids(s)[j] {
      assert s[i] in s && s[j] in s;
    }
  }

  // ---------------------------------------------------------------- back-to-back runs

  /** s[lo..hi) is strictly back-to-back. */
  predicate Linked(s: seq<TimeSlot>, lo: int, hi: int) {
    0 <= lo && hi <= |s| && forall k :: lo <= k && k + 1 < hi ==> s[k].endTime == s[k + 1].startTime
  }

  predicate IsRun(s: seq<TimeSlot>, w: int, d: int) {
    0 <= w && 0 <= d && w + d <= |s| && Linked(s, w, w + d)
  }

  /** The id windows of length d that start before n, in order of their start. */
  function WindowsBelow(s: seq<TimeSlot>, d: nat, n: nat): seq<seq<int>> {
    if n == 0 then []
    else WindowsBelow(s, d, n - 1) + if IsRun(s, n - 1, d) then [Ids(s[n - 1..n - 1 + d])] else []
  }

  /** Every window of length d of one day. */
  function Windows(s: seq<TimeSlot>, d: nat): seq<seq<int>> {
    WindowsBelow(s, d, |s|)
  }

  function BlocksOfDays(ids: seq<int>, d: nat, lookup: SlotLookup, days: seq<string>): seq<seq<int>> {
    if days == [] then []
    else BlocksOfDays(ids, d, lookup, days[..|days| - 1]) + Windows(DaySlots(ids, lookup, days[|days| - 1]), d)
  }

  /** What findContiguousSlots computes: day by day, every back-to-back window. */
  function Blocks(ids: seq<int>, d: int, lookup: SlotLookup): seq<seq<int>> {
    if d <= 0 then [] else BlocksOfDays(ids, d, lookup, Days(Resolve(ids, lookup)))
  }

  /** Some day offers d slots back to back. */
  ghost predicate HasRun(ids: seq<int>, d: int, lookup: SlotLookup) {
    exists day, w :: day in Days(Resolve(ids, lookup)) && IsRun(DaySlots(ids, lookup, day), w, d)
  }

  lemma {:induction false} WindowsBelowExact(s: seq<TimeSlot>, d: nat, n: nat)
    ensures forall b :: b in WindowsBelow(s, d, n) <==>
      exists w :: 0 <= w < n && IsRun(s, w, d) && b == Ids(s[w..w + d])
  {
    if n > 0 { WindowsBelowExact(s, d, n - 1); }
  }

  lemma {:induction false} BlocksOfDaysExact(ids: seq<int>, d: nat, lookup: SlotLookup, days: seq<string>)
    ensures forall b :: b in BlocksOfDays(ids, d, lookup, days) <==>
      exists day :: day in days && b in Windows(DaySlots(ids, lookup, day), d)
  {
    if days != [] {
      BlocksOfDaysExact(ids, d, lookup, days[..|days| - 1]);
      assert days == days[..|days| - 1] + [days[|days| - 1]];
    }
  }

  /** b is a window of length d of some day's chronological list. */
  ghost predicate IsBlock(b: seq<int>, ids: seq<int>, d: int, lookup: SlotLookup) {
    exists day, w :: IsWindow(b, ids, d, lookup, day, w)
  }

  ghost predicate IsWindow(b: seq<int>, ids: seq<int>, d: int, lookup: SlotLookup, day: string, w: int) {
    day in Days(Resolve(ids, lookup)) && IsRun(DaySlots(ids, lookup, day), w, d) &&
    b == Ids(DaySlots(ids, lookup, day)[w..w + d])
  }

  lemma BlocksExact(ids: seq<int>, d: int, lookup: SlotLookup)
    ensures forall b :: b in Blocks(ids, d, lookup) <==> d > 0 && IsBlock(b, ids, d, lookup)
  {
    if d > 0 {
      var days := Days(Resolve(ids, lookup));
      BlocksOfDaysExact(ids, d, lookup, days);
      forall b ensures b in Blocks(ids, d, lookup) <==> IsBlock(b, ids, d, lookup) {
        if b in Blocks(ids, d, lookup) {
          var day :| day in days && b in Windows(DaySlots(ids, lookup, day), d);
          WindowsBelowExact(DaySlots(ids, lookup, day), d, |DaySlots(ids, lookup, day)|);
          var w :| IsRun(DaySlots(ids, lookup, day), w, d) && b == Ids(DaySlots(ids, lookup, day)[w..w + d]);
          assert IsWindow(b, ids, d, lookup, day, w);
        }
        if IsBlock(b, ids, d, lookup) {
          var day, w :| IsWindow(b, ids, d, lookup, day, w);
          WindowsBelowExact(DaySlots(ids, lookup, day), d, |DaySlots(ids, lookup, day)|);
          assert b in Windows(DaySlots(ids, lookup, day), d);
        }
      }
    }
  }

  /** What a caller gets: d distinct allowed slots of one day, each ending when the next begins. */
  ghost predicate BackToBack(b: seq<int>, ids: seq<int>, d: int, lookup: SlotLookup) {
    && |b| == d
    && NoDup(b)
    && (forall i :: 0 <= i < |b| ==> b[i] in ids && b[i] in lookup)
    && (forall i, j :: 0 <= i < |b| && 0 <= j < |b| ==> lookup[b[i]].day == lookup[b[j]].day)
    && (forall i :: 0 <= i < |b| - 1 ==> lookup[b[i]].endTime == lookup[b[i + 1]].startTime)
  }

  lemma BlockIsBackToBack(b: seq<int>, ids: seq<int>, d: int, lookup: SlotLookup)
    requires LookupOk(lookup) && NoDup(ids) && IsBlock(b, ids, d, lookup)
    ensures BackToBack(b, ids, d, lookup)
  {
    var day, w :| IsWindow(b, ids, d, lookup, day, w);
    var s := DaySlots(ids, lookup, day);
    DaySlotsFacts(ids, lookup, day);
    forall i | 0 <= i < |b| ensures b[i] == s[w + i].id && s[w + i] in s {
    }
    forall i, j | 0 <= i < j < |b| ensures b[i] != b[j] {
      assert Ids(s)[w + i] != Ids(s)[w + j];
    }
  }

  // ---------------------------------------------------------------- findContiguousSlots

  lemma {:induction false} NoRunsBetween(s: seq<TimeSlot>, d: nat, a: nat, b: nat)
    requires a <= b && forall w :: a <= w < b ==> !IsRun(s, w, d)
    ensures WindowsBelow(s, d, b) == WindowsBelow(s, d, a)
  {
    if a < b { NoRunsBetween(s, d, a, b - 1); }
  }

  /** Inside a maximal chain [c, i) the windows are exactly those that end by i. */
  lemma ChainWindows(s: seq<TimeSlot>, d: nat, c: nat, i: nat)
    requires d > 0 && c < i <= |s| && Linked(s, c, i)
    requires i == |s| || s[i - 1].endTime != s[i].startTime
    ensures forall w :: c <= w < i ==> (IsRun(s, w, d) <==> w + d <= i)
  {
  }

  lemma WindowNext(s: seq<TimeSlot>, d: nat, w: nat)
    requires IsRun(s, w, d)
    ensures WindowsBelow(s, d, w + 1) == WindowsBelow(s, d, w) + [Ids(s[w..w + d])]
  {
  }

  /** Cut one sorted day into maximal chains and list the windows of each. */
  method ScanDay(daySlots: seq<TimeSlot>, duration: nat) returns (blocks: seq<seq<int>>)
    requires duration > 0
    ensures blocks == Windows(daySlots, duration)
  {
    blocks := [];
    var chainStart := 0;
    assert WindowsBelow(daySlots, duration, 0) == [];
    hide WindowsBelow;
    for i := 1 to |daySlots| + 1
      invariant chainStart < i && (daySlots != [] && i <= |daySlots| ==> Linked(daySlots, chainStart, i))
      invariant i == |daySlots| + 1 ==> chainStart == |daySlots|
      invariant chainStart <= |daySlots| && blocks == WindowsBelow(daySlots, duration, chainStart)
    {
      var continues := i < |daySlots| && daySlots[i - 1].endTime == daySlots[i].startTime;
      if !continues {
        ChainWindows(daySlots, duration, chainStart, i);
        if i - chainStart >= duration {
          var w := chainStart;
          while w <= i - duration
            invariant chainStart <= w <= i - duration + 1
            invariant blocks == WindowsBelow(daySlots, duration, w)
          {
            WindowNext(daySlots, duration, w);
            blocks := blocks + [Ids(daySlots[w..w + duration])];
            w := w + 1;
          }
          NoRunsBetween(daySlots, duration, w, i);
        } else {
          NoRunsBetween(daySlots, duration, chainStart, i);
        }
        chainStart := i;
      }
    }
  }

  lemma {:induction false} ShortDayHasNoWindows(s: seq<TimeSlot>, d: nat, n: nat)
    requires |s| < d
    ensures WindowsBelow(s, d, n) == []
  {
    if n > 0 { ShortDayHasNoWindows(s, d, n - 1); }
  }

  lemma {:induction false} FewSlotsHaveNoBlocks(ids: seq<int>, d: nat, lookup: SlotLookup, days: seq<string>)
    requires LookupOk(lookup) && |Resolve(ids, lookup)| < d
    ensures BlocksOfDays(ids, d, lookup, days) == []
  {
    if days != [] {
      var day := days[|days| - 1];
      FewSlotsHaveNoBlocks(ids, d, lookup, days[..|days| - 1]);
      DaySlotsFacts(ids, lookup, day);
      OnDayMembers(Resolve(ids, lookup), day);
      ShortDayHasNoWindows(DaySlots(ids, lookup, day), d, |DaySlots(ids, lookup, day)|);
    }
  }

  lemma DayBucket(ids: seq<int>, lookup: SlotLookup, day: string, d: nat)
    requires LookupOk(lookup)
    ensures DaySlots(ids, lookup, day) == StableSort(OnDay(Resolve(ids, lookup), day), StartKey())
    ensures |OnDay(Resolve(ids, lookup), day)| < d ==> Windows(DaySlots(ids, lookup, day), d) == []
  {
    var s := DaySlots(ids, lookup, day);
    DaySlotsFacts(ids, lookup, day);
    if |s| < d { ShortDayHasNoWindows(s, d, |s|); }
  }

  method FindContiguousSlots(availableSlotIds: seq<int>, duration: int, lookup: SlotLookup)
    returns (blocks: seq<seq<int>>)
    requires LookupOk(lookup)
    ensures blocks == Blocks(availableSlotIds, duration, lookup)
  {
    hide Windows, DaySlots, OnDay, Days, LookupOk;
    if duration <= 0 { return []; }
    var resolved := Resolve(availableSlotIds, lookup);
    if |availableSlotIds| < duration || |resolved| < duration {
      FewSlotsHaveNoBlocks(availableSlotIds, duration, lookup, Days(resolved));
      return [];
    }
    var days, byDay := GroupByDay(resolved);
    blocks := [];
    for i := 0 to |days|
      invariant blocks == BlocksOfDays(availableSlotIds, duration, lookup, days[..i])
    {
      assert days[..i + 1][..i] == days[..i];
      assert days[i] in byDay;
      var daySlots := byDay[days[i]];
      DayBucket(availableSlotIds, lookup, days[i], duration);
      if |daySlots| >= duration {
        daySlots := StableSort(daySlots, StartKey());
        var more := ScanDay(daySlots, duration);
        blocks := blocks + more;
      }
    }
    assert days[..|days|] == days;
  }

  /** Blocks of length d whose first slots are pairwise different. */
  ghost predicate DistinctStarts(r: seq<seq<int>>, d: nat) {
    && (forall i :: 0 <= i < |r| ==> |r[i]| == d && d > 0)
    && (forall i, j :: 0 <= i < j < |r| ==> r[i][0] != r[j][0])
  }

  /** Distinct blocks start at distinct slots. */
  lemma BlockStartsDistinct(ids: seq<int>, d: int, lookup: SlotLookup)
    requires LookupOk(lookup) && NoDup(ids)
    ensures DistinctStarts(Blocks(ids, d, lookup), Max(d, 0))
  {
    if d > 0 {
      var days := Days(Resolve(ids, lookup));
      DaysMembers(Resolve(ids, lookup));
      StartsDistinct(ids, d, lookup, days);
    }
  }

  lemma {:induction false} WindowStarts(s: seq<TimeSlot>, d: nat, n: nat)
    requires d > 0 && NoDup(Ids(s)) && n <= |s|
    ensures DistinctStarts(WindowsBelow(s, d, n), d)
    ensures forall i :: 0 <= i < |WindowsBelow(s, d, n)| ==> WindowsBelow(s, d, n)[i][0] in Ids(s)[..n]
  {
    if n > 0 {
      WindowStarts(s, d, n - 1);
      var before, x := Ids(s)[..n - 1], Ids(s)[n - 1];
      LastIsNew(Ids(s), n - 1);
      hide NoDup, DistinctStarts;
      if IsRun(s, n - 1, d) {
        StartAdded(WindowsBelow(s, d, n - 1), Ids(s[n - 1..n - 1 + d]), d, before);
      }
    }
  }

  lemma StartAdded(r: seq<seq<int>>, b: seq<int>, d: nat, before: seq<int>)
    requires d > 0 && DistinctStarts(r, d) && |b| == d && b[0] !in before
    requires forall i :: 0 <= i < |r| ==> |r[i]| > 0 && r[i][0] in before
    ensures DistinctStarts(r + [b], d)
  {
  }

  lemma {:induction false} StartsDistinct(ids: seq<int>, d: nat, lookup: SlotLookup, days: seq<string>)
    requires LookupOk(lookup) && NoDup(ids) && NoDup(days) && d > 0
    ensures DistinctStarts(BlocksOfDays(ids, d, lookup, days), d)
    ensures forall b :: b in BlocksOfDays(ids, d, lookup, days) && b != [] ==>
      b[0] in lookup && lookup[b[0]].day in days
  {
    if days != [] {
      var front, day := days[..|days| - 1], days[|days| - 1];
      var r, w := BlocksOfDays(ids, d, lookup, front), Windows(DaySlots(ids, lookup, day), d);
      assert days == front + [day];
      NoDupSnoc(front, day);
      StartsDistinct(ids, d, lookup, front);
      WindowStartsOnDay(ids, d, lookup, day);
      hide LookupOk, NoDup, Windows, DaySlots, DistinctStarts;
      StartsConcat(r, w, d, lookup, front, day);
    }
  }

  /** Blocks of another day start elsewhere. */
  lemma StartsConcat(r: seq<seq<int>>, w: seq<seq<int>>, d: nat, lookup: SlotLookup, front: seq<string>, day: string)
    requires DistinctStarts(r, d) && DistinctStarts(w, d) && day !in front
    requires forall b :: b in r && b != [] ==> b[0] in lookup && lookup[b[0]].day in front
    requires forall b :: b in w && b != [] ==> b[0] in lookup && lookup[b[0]].day == day
    ensures DistinctStarts(r + w, d)
  {
    forall i, j | 0 <= i < |r| && 0 <= j < |w| ensures r[i][0] != w[j][0] {
      assert r[i] in r && w[j] in w;
    }
    var all := r + w;
    forall k | 0 <= k < |all| ensures |all[k]| == d && d > 0 {
      assert all[k] == if k < |r| then r[k] else w[k - |r|];
    }
    forall i, j | 0 <= i < j < |all| ensures all[i][0] != all[j][0] {
      assert all[i] == (if i < |r| then r[i] else w[i - |r|]) && all[j] == (if j < |r| then r[j] else w[j - |r|]);
    }
  }

  lemma WindowStartsOnDay(ids: seq<int>, d: nat, lookup: SlotLookup, day: string)
    requires LookupOk(lookup) && NoDup(ids) && d > 0
    ensures DistinctStarts(Windows(DaySlots(ids, lookup, day), d), d)
    ensures forall b :: b in Windows(DaySlots(ids, lookup, day), d) && b != [] ==>
      b[0] in lookup && lookup[b[0]].day == day
  {
    var s := DaySlots(ids, lookup, day);
    DaySlotsFacts(ids, lookup, day);
    WindowStarts(s, d, |s|);
    forall b | b in Windows(s, d) && b != [] ensures b[0] in lookup && lookup[b[0]].day == day {
      var i :| 0 <= i < |Windows(s, d)| && Windows(s, d)[i] == b;
      var k :| 0 <= k < |s| && Ids(s)[k] == b[0];
      assert s[k] in s;
    }
  }

  // ---------------------------------------------------------------- the validator's longest run

  /** r is the length of the longest back-to-back run that any day offers, 0 when there is no slot at all. */
  ghost predicate IsLongestRun(ids: seq<int>, lookup: SlotLookup, r: int) {
    r >= 0 && (r > 0 ==> HasRun(ids, r, lookup)) && forall d :: d > r ==> !HasRun(ids, d, lookup)
  }

  lemma ShorterRun(ids: seq<int>, d: int, d': int, lookup: SlotLookup)
    requires HasRun(ids, d, lookup) && 0 < d' <= d
    ensures HasRun(ids, d', lookup)
  {
    var day, w :| day in Days(Resolve(ids, lookup)) && IsRun(DaySlots(ids, lookup, day), w, d);
    assert IsRun(DaySlots(ids, lookup, day), w, d');
  }

  /** The seeder's fallback test and the validator's flag agree: no block exists exactly when the
      longest run is shorter than the session. A non-positive duration never has a block. */
  lemma BlocksExistIffRunFits(ids: seq<int>, d: int, lookup: SlotLookup, longest: int)
    requires IsLongestRun(ids, lookup, longest)
    ensures Blocks(ids, d, lookup) != [] <==> 0 < d <= longest
  {
    BlocksExact(ids, d, lookup);
    if Blocks(ids, d, lookup) != [] {
      var b := Blocks(ids, d, lookup)[0];
      assert b in Blocks(ids, d, lookup);
      var day, w :| IsWindow(b, ids, d, lookup, day, w);
      assert HasRun(ids, d, lookup);
    }
    if 0 < d <= longest {
      ShorterRun(ids, longest, d, lookup);
      var day, w :| day in Days(Resolve(ids, lookup)) && IsRun(DaySlots(ids, lookup, day), w, d);
      var b := Ids(DaySlots(ids, lookup, day)[w..w + d]);
      assert IsWindow(b, ids, d, lookup, day, w);
      assert b in Blocks(ids, d, lookup);
    }
  }

  /** A run that reaches past a chain's first slot c starts no earlier than c. */
  lemma RunStaysInChain(s: seq<TimeSlot>, c: nat, w: int, d: int)
    requires IsRun(s, w, d) && w + d > c
    requires c > 0 ==> c < |s| && s[c - 1].endTime != s[c].startTime
    ensures c <= w
  {
  }

  /** The longest run of one sorted, non-empty day. */
  method LongestRunOfDay(bucket: seq<TimeSlot>) returns (bestForDay: nat)
    requires bucket != []
    ensures bestForDay >= 1
    ensures exists w :: IsRun(bucket, w, bestForDay)
    ensures forall w, d :: IsRun(bucket, w, d) ==> d <= bestForDay
  {
    var run: nat := 1;
    bestForDay := 1;
    assert IsRun(bucket, 0, 1);
    for i := 1 to |bucket|
      invariant 1 <= run <= i && Linked(bucket, i - run, i)
      invariant i - run > 0 ==> bucket[i - run - 1].endTime != bucket[i - run].startTime
      invariant bestForDay >= run
      invariant exists w :: IsRun(bucket, w, bestForDay)
      invariant forall w, d :: IsRun(bucket, w, d) && w + d <= i ==> d <= bestForDay
    {
      ghost var before := bestForDay;
      if bucket[i - 1].endTime == bucket[i].startTime {
        run := run + 1;
        if run > bestForDay {
          bestForDay := run;
          assert IsRun(bucket, i + 1 - run, bestForDay);
        }
      } else {
        run := 1;
      }
      forall w, d | IsRun(bucket, w, d) && w + d == i + 1 ensures d <= run {
        RunStaysInChain(bucket, i + 1 - run, w, d);
      }
    }
  }

  method ComputeLongestContiguousRun(possibleTimeSlotIds: seq<int>, timeSlotById: SlotLookup) returns (maxRun: nat)
    requires LookupOk(timeSlotById)
    ensures IsLongestRun(possibleTimeSlotIds, timeSlotById, maxRun)
  {
    hide DaySlots, OnDay, Days, LookupOk, IsRun, Resolve;
    maxRun := 0;
    if possibleTimeSlotIds == [] {
      NoSlotsNoRun(timeSlotById);
      return;
    }
    var resolved := Resolve(possibleTimeSlotIds, timeSlotById);
    var days, byDay := GroupByDay(resolved);
    for i := 0 to |days|
      invariant maxRun > 0 ==> HasRun(possibleTimeSlotIds, maxRun, timeSlotById)
      invariant forall j, w, d ::
        0 <= j < i && IsRun(DaySlots(possibleTimeSlotIds, timeSlotById, days[j]), w, d) ==> d <= maxRun
    {
      assert days[i] in byDay;
      DayBucket(possibleTimeSlotIds, timeSlotById, days[i], 0);
      DayNotEmpty(resolved, days[i]);
      var bucket := StableSort(byDay[days[i]], StartKey());
      var bestForDay := LongestRunOfDay(bucket);
      if bestForDay > maxRun {
        maxRun := bestForDay;
      }
    }
  }

  lemma NoSlotsNoRun(lookup: SlotLookup)
    ensures forall d :: !HasRun([], d, lookup)
  {
    assert Resolve([], lookup) == [];
  }

  lemma DayNotEmpty(slots: seq<TimeSlot>, day: string)
    requires day in Days(slots)
    ensures OnDay(slots, day) != []
    ensures StableSort(OnDay(slots, day), StartKey()) != []
  {
    DaysMembers(slots);
    OnDayMembers(slots, day);
    assert |multiset(OnDay(slots, day))| == |multiset(StableSort(OnDay(slots, day), StartKey()))|;
  }
}
