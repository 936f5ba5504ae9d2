/** When the block finder finds every back-to-back sequence. */
module Completeness {
  import opened Prelude
  import opened Timetable

  /** y starts on x's day exactly when x ends. */
  ghost predicate Follows(ids: seq<int>, lookup: SlotLookup, x: int, y: int) {
    x in ids && x in lookup && y in ids && y in lookup && x != y &&
    lookup[x].day == lookup[y].day && lookup[x].endTime == lookup[y].startTime
  }

  /** x starts earlier than y, or together with y and is listed first. */
  ghost predicate Before(ids: seq<int>, lookup: SlotLookup, x: int, y: int)
    requires x in lookup && y in lookup
  {
    lookup[x].startTime < lookup[y].startTime || (lookup[x].startTime == lookup[y].startTime && Precedes(ids, x, y))
  }

  /** An allowed slot of x's day comes after x and before y. */
  ghost predicate Between(ids: seq<int>, lookup: SlotLookup, x: int, z: int, y: int)
    requires x in lookup && y in lookup
  {
    z in ids && z in lookup && lookup[z].day == lookup[x].day && Before(ids, lookup, x, z) && Before(ids, lookup, z, y)
  }

  /** Whenever y starts as x ends, x comes before y and nothing comes in between. */
  ghost predicate Clear(ids: seq<int>, lookup: SlotLookup) {
    forall x, y :: Follows(ids, lookup, x, y) ==>
      Before(ids, lookup, x, y) && !exists z :: Between(ids, lookup, x, z, y)
  }

  /** Slots of one day have positive length and do not overlap. */
  ghost predicate NoOverlap(ids: seq<int>, lookup: SlotLookup) {
    && (forall x :: x in ids && x in lookup ==> lookup[x].startTime < lookup[x].endTime)
    && (forall x, y ::
          x in ids && x in lookup && y in ids && y in lookup && x != y && lookup[x].day == lookup[y].day ==>
          lookup[x].endTime <= lookup[y].startTime || lookup[y].endTime <= lookup[x].startTime)
  }

  /** A timetable without overlaps is clear. */
  lemma NoOverlapIsClear(ids: seq<int>, lookup: SlotLookup)
    requires NoDup(ids) && NoOverlap(ids, lookup)
    ensures Clear(ids, lookup)
  {
    forall x, y | Follows(ids, lookup, x, y)
      ensures Before(ids, lookup, x, y) && !exists z :: Between(ids, lookup, x, z, y)
    {
      forall z ensures !Between(ids, lookup, x, z, y) {
        NotBeforeItself(ids, lookup, z);
      }
    }
  }

  lemma NotBeforeItself(ids: seq<int>, lookup: SlotLookup, x: int)
    requires NoDup(ids)
    ensures x in lookup ==> !Before(ids, lookup, x, x)
  {
  }

  lemma BeforeOneWay(ids: seq<int>, lookup: SlotLookup, x: int, y: int)
    requires NoDup(ids) && x in lookup && y in lookup && Before(ids, lookup, x, y)
    ensures !Before(ids, lookup, y, x)
  {
    if Precedes(ids, x, y) { PrecedesOneWay(ids, x, y); }
  }

  /** Position p of the day's chronological list holds slot x. */
  ghost predicate At(s: seq<TimeSlot>, p: int, x: int) {
    0 <= p < |s| && s[p].id == x
  }

  lemma DayKnows(ids: seq<int>, lookup: SlotLookup, x: int) returns (p: int)
    requires LookupOk(lookup) && x in ids && x in lookup
    ensures At(DaySlots(ids, lookup, lookup[x].day), p, x)
    ensures DaySlots(ids, lookup, lookup[x].day)[p] == lookup[x]
  {
    var s := DaySlots(ids, lookup, lookup[x].day);
    DaySlotsFacts(ids, lookup, lookup[x].day);
    assert lookup[x] in s;
    p :| 0 <= p < |s| && s[p] == lookup[x];
  }

  lemma {:induction false} OnDayOrder(slots: seq<TimeSlot>, day: string, a: TimeSlot, b: TimeSlot)
    requires Precedes(OnDay(slots, day), a, b)
    ensures Precedes(slots, a, b)
  {
    if slots != [] {
      var front, last := slots[..|slots| - 1], slots[|slots| - 1];
      var r := OnDay(front, day);
      var i, j :| 0 <= i < j < |OnDay(slots, day)| && OnDay(slots, day)[i] == a && OnDay(slots, day)[j] == b;
      assert slots == front + [last];
      OnDayMembers(front, day);
      PrecedesGrows(front, last, a, b);
      if j < |r| {
        assert r[i] == a && r[j] == b;
        OnDayOrder(front, day, a, b);
      } else {
        assert r[i] == a && a in r;
      }
    }
  }

  lemma {:induction false} ResolveOrder(ids: seq<int>, lookup: SlotLookup, a: TimeSlot, b: TimeSlot)
    requires LookupOk(lookup) && Precedes(Resolve(ids, lookup), a, b)
    ensures Precedes(ids, a.id, b.id)
  {
    if ids != [] {
      var front, last := ids[..|ids| - 1], ids[|ids| - 1];
      var r := Resolve(front, lookup);
      var i, j :| 0 <= i < j < |Resolve(ids, lookup)| && Resolve(ids, lookup)[i] == a && Resolve(ids, lookup)[j] == b;
      assert ids == front + [last];
      ResolveMembers(front, lookup);
      PrecedesGrows(front, last, a.id, b.id);
      if j < |r| {
        assert r[i] == a && r[j] == b;
        ResolveOrder(front, lookup, a, b);
      } else {
        assert r[i] == a && a in r;
      }
    }
  }

  /** The day's list is in order. */
  lemma ListedInOrder(ids: seq<int>, lookup: SlotLookup, day: string, p: nat, q: nat)
    requires LookupOk(lookup) && p < q < |DaySlots(ids, lookup, day)|
    ensures var s := DaySlots(ids, lookup, day);
      s[p].id in lookup && s[q].id in lookup && Before(ids, lookup, s[p].id, s[q].id)
  {
    var s, slots := DaySlots(ids, lookup, day), OnDay(Resolve(ids, lookup), day);
    Listed(ids, lookup, day, p);
    Listed(ids, lookup, day, q);
    StableSortStable(slots, StartKey());
    hide StableSort, OnDay, Resolve, Precedes;
    assert ComesFirst(slots, StartKey(), s[p], s[q]);
    if Precedes(slots, s[p], s[q]) {
      OnDayOrder(Resolve(ids, lookup), day, s[p], s[q]);
      ResolveOrder(ids, lookup, s[p], s[q]);
    }
  }

  /** A slot that starts when another ends is its neighbour in the chronological list. */
  lemma Neighbour(ids: seq<int>, lookup: SlotLookup, day: string, p: nat, q: nat)
    requires LookupOk(lookup) && NoDup(ids) && Clear(ids, lookup)
    requires p < |DaySlots(ids, lookup, day)| && q < |DaySlots(ids, lookup, day)|
    requires p != q && DaySlots(ids, lookup, day)[p].endTime == DaySlots(ids, lookup, day)[q].startTime
    ensures q == p + 1
  {
    var s := DaySlots(ids, lookup, day);
    Listed(ids, lookup, day, p);
    Listed(ids, lookup, day, q);
    hide DaySlots, LookupOk, NoDup, Before;
    assert s[p].id != s[q].id by { DifferentIds(ids, lookup, day, p, q); }
    assert Follows(ids, lookup, s[p].id, s[q].id);
    assert Before(ids, lookup, s[p].id, s[q].id);
    BeforeOneWay(ids, lookup, s[p].id, s[q].id);
    if q < p {
      ListedInOrder(ids, lookup, day, q, p);
    } else if q > p + 1 {
      Listed(ids, lookup, day, p + 1);
      NothingBetween(ids, lookup, s[p].id, s[p + 1].id, s[q].id);
      ListedInOrder(ids, lookup, day, p + 1, q);
      ListedInOrder(ids, lookup, day, p, p + 1);
    }
  }

  lemma NothingBetween(ids: seq<int>, lookup: SlotLookup, x: int, z: int, y: int)
    requires Clear(ids, lookup) && Follows(ids, lookup, x, y)
    ensures !Between(ids, lookup, x, z, y)
  {
  }

  lemma DifferentIds(ids: seq<int>, lookup: SlotLookup, day: string, p: nat, q: nat)
    requires LookupOk(lookup) && NoDup(ids) && p != q
    requires p < |DaySlots(ids, lookup, day)| && q < |DaySlots(ids, lookup, day)|
    ensures DaySlots(ids, lookup, day)[p].id != DaySlots(ids, lookup, day)[q].id
  {
    var s := DaySlots(ids, lookup, day);
    DaySlotsFacts(ids, lookup, day);
    assert Ids(s)[p] != Ids(s)[q];
  }

  lemma Listed(ids: seq<int>, lookup: SlotLookup, day: string, p: nat)
    requires LookupOk(lookup) && p < |DaySlots(ids, lookup, day)|
    ensures var ts := DaySlots(ids, lookup, day)[p];
      ts.id in ids && ts.id in lookup && lookup[ts.id] == ts && ts.day == day
  {
    DaySlotsFacts(ids, lookup, day);
    assert DaySlots(ids, lookup, day)[p] in DaySlots(ids, lookup, day);
  }

  /** The slot after position p that b names next is at position p + 1. */
  lemma NextInList(b: seq<int>, ids: seq<int>, lookup: SlotLookup, day: string, p: nat, k: nat)
    requires LookupOk(lookup) && NoDup(ids) && Clear(ids, lookup) && BackToBack(b, ids, |b|, lookup) && k + 1 < |b|
    requires day == lookup[b[0]].day && At(DaySlots(ids, lookup, day), p, b[k])
    ensures At(DaySlots(ids, lookup, day), p + 1, b[k + 1])
    ensures DaySlots(ids, lookup, day)[p].endTime == DaySlots(ids, lookup, day)[p + 1].startTime
  {
    hide DaySlots, Clear, LookupOk, NoDup;
    Listed(ids, lookup, day, p);
    assert lookup[b[k + 1]].day == day;
    var q := DayKnows(ids, lookup, b[k + 1]);
    assert b[k] != b[k + 1] by { Different(b, k, k + 1); }
    Neighbour(ids, lookup, day, p, q);
  }

  lemma RunExtends(s: seq<TimeSlot>, w: int, n: nat, b: seq<int>)
    requires IsRun(s, w, n) && 0 < n < |b| && Ids(s[w..w + n]) == b[..n]
    requires At(s, w + n, b[n]) && s[w + n - 1].endTime == s[w + n].startTime
    ensures IsRun(s, w, n + 1) && Ids(s[w..w + n + 1]) == b[..n + 1]
  {
    assert s[w..w + n + 1] == s[w..w + n] + [s[w + n]];
    assert b[..n + 1] == b[..n] + [b[n]];
  }

  lemma EndOfRun(s: seq<TimeSlot>, w: int, n: nat, b: seq<int>)
    requires IsRun(s, w, n) && 0 < n <= |b| && Ids(s[w..w + n]) == b[..n]
    ensures At(s, w + n - 1, b[n - 1])
  {
    assert Ids(s[w..w + n])[n - 1] == b[n - 1];
  }

  /** The first n slots of a back-to-back sequence are a run of the chronological list. */
  lemma {:induction false} FollowsList(b: seq<int>, ids: seq<int>, lookup: SlotLookup, w: int, n: nat)
    requires LookupOk(lookup) && NoDup(ids) && Clear(ids, lookup) && BackToBack(b, ids, |b|, lookup) && 0 < n <= |b|
    requires At(DaySlots(ids, lookup, lookup[b[0]].day), w, b[0])
    ensures var s := DaySlots(ids, lookup, lookup[b[0]].day);
      IsRun(s, w, n) && Ids(s[w..w + n]) == b[..n]
  {
    var day := lookup[b[0]].day;
    var s := DaySlots(ids, lookup, day);
    hide DaySlots, Clear, LookupOk, NoDup, BackToBack;
    if n > 1 {
      FollowsList(b, ids, lookup, w, n - 1);
      EndOfRun(s, w, n - 1, b);
      NextInList(b, ids, lookup, day, w + n - 2, n - 2);
      RunExtends(s, w, n - 1, b);
    } else {
      assert Ids(s[w..w + 1]) == b[..1];
    }
  }

  lemma Different(b: seq<int>, i: nat, j: nat)
    requires NoDup(b) && i < j < |b|
    ensures b[i] != b[j]
  {
  }

  /** The finder returns all back-to-back same-day sequences, of every length. */
  ghost predicate FindsAll(ids: seq<int>, lookup: SlotLookup) {
    forall b, d :: d > 0 && BackToBack(b, ids, d, lookup) ==> b in Blocks(ids, d, lookup)
  }

  lemma ClearFinds(b: seq<int>, ids: seq<int>, d: int, lookup: SlotLookup)
    requires LookupOk(lookup) && NoDup(ids) && Clear(ids, lookup) && d > 0
    requires BackToBack(b, ids, d, lookup)
    ensures b in Blocks(ids, d, lookup)
  {
    hide Blocks, Clear, NoDup;
    BlocksExact(ids, d, lookup);
    var w := DayKnows(ids, lookup, b[0]);
    FollowsList(b, ids, lookup, w, d);
    assert b[..d] == b;
    DayListed(ids, lookup, b[0]);
    assert IsWindow(b, ids, d, lookup, lookup[b[0]].day, w);
  }

  /** A returned pair is in order, with nothing in between. */
  lemma FoundPairIsClear(ids: seq<int>, lookup: SlotLookup, x: int, y: int)
    requires LookupOk(lookup) && NoDup(ids) && x in lookup && y in lookup && [x, y] in Blocks(ids, 2, lookup)
    ensures Before(ids, lookup, x, y) && !exists z :: Between(ids, lookup, x, z, y)
  {
    hide Blocks, DaySlots, Days, Resolve, Before;
    BlocksExact(ids, 2, lookup);
    var day, w :| IsWindow([x, y], ids, 2, lookup, day, w);
    var s := DaySlots(ids, lookup, day);
    assert Ids(s[w..w + 2])[0] == s[w].id && Ids(s[w..w + 2])[1] == s[w + 1].id;
    Listed(ids, lookup, day, w);
    ListedInOrder(ids, lookup, day, w, w + 1);
    forall z ensures !Between(ids, lookup, x, z, y) {
      if z in ids && z in lookup && lookup[z].day == day {
        var q := DayKnows(ids, lookup, z);
        NotBetween(ids, lookup, day, w, q);
      }
    }
  }

  /** Nothing on the day's list comes between two neighbours. */
  lemma NotBetween(ids: seq<int>, lookup: SlotLookup, day: string, w: nat, q: nat)
    requires LookupOk(lookup) && NoDup(ids) && w + 1 < |DaySlots(ids, lookup, day)| && q < |DaySlots(ids, lookup, day)|
    ensures var s := DaySlots(ids, lookup, day);
      s[w].id in lookup && s[w + 1].id in lookup && !Between(ids, lookup, s[w].id, s[q].id, s[w + 1].id)
  {
    var s := DaySlots(ids, lookup, day);
    Listed(ids, lookup, day, w);
    Listed(ids, lookup, day, w + 1);
    Listed(ids, lookup, day, q);
    NotBeforeItself(ids, lookup, s[w].id);
    NotBeforeItself(ids, lookup, s[w + 1].id);
    hide DaySlots, LookupOk, NoDup, Before;
    if q < w {
      ListedInOrder(ids, lookup, day, q, w);
      BeforeOneWay(ids, lookup, s[q].id, s[w].id);
    } else if q > w + 1 {
      ListedInOrder(ids, lookup, day, w + 1, q);
      BeforeOneWay(ids, lookup, s[w + 1].id, s[q].id);
    }
  }

  /** The documented promise of the finder holds exactly for clear timetables: a slot that comes between two
      back-to-back slots hides the pair. */
  lemma FindsAllIffClear(ids: seq<int>, lookup: SlotLookup)
    requires LookupOk(lookup) && NoDup(ids)
    ensures FindsAll(ids, lookup) <==> Clear(ids, lookup)
  {
    hide Blocks, Before;
    if Clear(ids, lookup) {
      forall b, d | d > 0 && BackToBack(b, ids, d, lookup) ensures b in Blocks(ids, d, lookup) {
        ClearFinds(b, ids, d, lookup);
      }
    }
    if FindsAll(ids, lookup) {
      forall x, y | Follows(ids, lookup, x, y)
        ensures Before(ids, lookup, x, y) && !exists z :: Between(ids, lookup, x, z, y) {
        assert BackToBack([x, y], ids, 2, lookup);
        FoundPairIsClear(ids, lookup, x, y);
      }
    }
  }

  // ---------------------------------------------------------------- two timetables that hide a pair

  function MondaySlot(id: int, start: int, end: int): TimeSlot { TimeSlot(id, "Monday", start, end) }

  const TIED: SlotLookup := map[0 := MondaySlot(0, 0, 50), 1 := MondaySlot(1, 50, 100), 2 := MondaySlot(2, 50, 150)]

  const OVERLAPPING: SlotLookup :=
    map[0 := MondaySlot(0, 0, 60), 1 := MondaySlot(1, 30, 90), 2 := MondaySlot(2, 60, 120)]

  ghost predicate PairHidden(lookup: SlotLookup) {
    BackToBack([0, 2], [0, 1, 2], 2, lookup) && [0, 2] !in Blocks([0, 1, 2], 2, lookup)
  }

  lemma HiddenBy(lookup: SlotLookup)
    requires LookupOk(lookup) && 0 in lookup && 2 in lookup
    requires BackToBack([0, 2], [0, 1, 2], 2, lookup) && Between([0, 1, 2], lookup, 0, 1, 2)
    ensures PairHidden(lookup)
  {
    hide Blocks, Between, Before;
    if [0, 2] in Blocks([0, 1, 2], 2, lookup) { FoundPairIsClear([0, 1, 2], lookup, 0, 2); }
  }

  /** Slots 1 and 2 start together as slot 0 ends: only the one that is listed first is found after it. */
  lemma TiedStartHides()
    ensures LookupOk(TIED) && PairHidden(TIED)
  {
    assert [0, 1, 2][1] == 1 && [0, 1, 2][2] == 2;
    assert Precedes([0, 1, 2], 1, 2);
    hide Blocks;
    HiddenBy(TIED);
  }

  /** Slot 1 starts during slot 0 and hides that slot 2 follows slot 0. */
  lemma OverlapHides()
    ensures LookupOk(OVERLAPPING) && PairHidden(OVERLAPPING)
  {
    hide Blocks;
    HiddenBy(OVERLAPPING);
  }

  lemma DayListed(ids: seq<int>, lookup: SlotLookup, x: int)
    requires LookupOk(lookup) && x in ids && x in lookup
    ensures lookup[x].day in Days(Resolve(ids, lookup))
  {
    ResolveMembers(ids, lookup);
    DaysMembers(Resolve(ids, lookup));
    assert lookup[x] in Resolve(ids, lookup);
  }
}
