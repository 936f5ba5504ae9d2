/** Regular timetables: days of a fixed number of slots, each slot starting as the one before it ends. */
module Grid {
  import opened Prelude
  import opened Timetable
  import opened Completeness

  function DayName(day: nat): (r: string)
    ensures |r| == day
  {
    seq(day, _ => 'x')
  }

  /** Slot id lies on day id / perDay. */
  function GridSlot(id: nat, perDay: nat): TimeSlot
    requires perDay > 0
  {
    TimeSlot(id, DayName(id / perDay), id % perDay, id % perDay + 1)
  }

  /** The slots of the given number of days. */
  function GridOf(days: nat, perDay: nat): SlotLookup
    requires perDay > 0
  {
    map id | 0 <= id < days * perDay :: GridSlot(id, perDay)
  }

  function Range(a: int, n: nat): (r: seq<int>)
    ensures |r| == n && forall i :: 0 <= i < n ==> r[i] == a + i
  {
    seq(n, i => a + i)
  }

  /** The ids below n that are among the first count slots of their day. */
  function Early(n: nat, perDay: nat, count: nat): seq<int>
    requires perDay > 0
  {
    if n == 0 then [] else Early(n - 1, perDay, count) + if (n - 1) % perDay < count then [n - 1] else []
  }

  lemma {:induction false} EarlyMembers(n: nat, perDay: nat, count: nat)
    requires perDay > 0
    ensures forall x :: x in Early(n, perDay, count) <==> 0 <= x < n && x % perDay < count
    ensures NoDup(Early(n, perDay, count))
  {
    if n > 0 {
      EarlyMembers(n - 1, perDay, count);
      NoDupSnoc(Early(n - 1, perDay, count), n - 1);
      hide NoDup;
    }
  }

  // ---------------------------------------------------------------- division

  lemma SameDayOffset(a: nat, k: nat, perDay: nat)
    requires perDay > 0 && a % perDay + k < perDay
    ensures (a + k) / perDay == a / perDay && (a + k) % perDay == a % perDay + k
  {
    var q, r := a / perDay, a % perDay;
    assert a + k == q * perDay + (r + k);
    UniqueQuotient(a + k, perDay, q, r + k);
  }

  lemma UniqueQuotient(x: int, m: int, q: int, r: int)
    requires m > 0 && 0 <= r < m && x == q * m + r
    ensures x / m == q && x % m == r
  {
    assert x == (x / m) * m + x % m;
    ProductOrder(x / m, q, m);
  }

  lemma ProductOrder(a: int, b: int, m: int)
    requires m > 0
    ensures a < b ==> a * m + m <= b * m
    ensures b < a ==> b * m + m <= a * m
  {
    assert (b - a - 1) * m == b * m - a * m - m;
    assert (a - b - 1) * m == a * m - b * m - m;
    if a < b { ProductNotNegative(b - a - 1, m); }
    if b < a { ProductNotNegative(a - b - 1, m); }
  }

  lemma ProductNotNegative(a: nat, m: nat)
    ensures a * m >= 0
  {
  }

  lemma DayStart(h: nat, perDay: nat)
    requires perDay > 0
    ensures (h * perDay) / perDay == h && (h * perDay) % perDay == 0
  {
    UniqueQuotient(h * perDay, perDay, h, 0);
  }

  lemma DayFits(h: nat, days: nat, perDay: nat)
    requires h < days
    ensures h * perDay + perDay <= days * perDay
  {
    if perDay > 0 { ProductOrder(h, days, perDay); }
  }

  lemma SameSlot(x: nat, y: nat, perDay: nat)
    requires perDay > 0 && x / perDay == y / perDay && x % perDay == y % perDay
    ensures x == y
  {
  }

  // ---------------------------------------------------------------- blocks of a grid

  lemma GridLookup(days: nat, perDay: nat)
    requires perDay > 0
    ensures LookupOk(GridOf(days, perDay))
  {
  }

  lemma GridAt(x: int, days: nat, perDay: nat)
    requires perDay > 0
    ensures x in GridOf(days, perDay) <==> 0 <= x < days * perDay
    ensures x in GridOf(days, perDay) ==> GridOf(days, perDay)[x] == GridSlot(x, perDay)
  {
  }

  lemma GridDays(x: nat, y: nat, days: nat, perDay: nat)
    requires perDay > 0 && 0 <= x < days * perDay && 0 <= y < days * perDay
    ensures x in GridOf(days, perDay) && y in GridOf(days, perDay)
    ensures GridOf(days, perDay)[x].day == GridOf(days, perDay)[y].day <==> x / perDay == y / perDay
  {
    GridAt(x, days, perDay);
    GridAt(y, days, perDay);
    hide GridOf;
    assert |GridSlot(x, perDay).day| == x / perDay && |GridSlot(y, perDay).day| == y / perDay;
  }

  lemma GridHasNoOverlap(ids: seq<int>, days: nat, perDay: nat)
    requires perDay > 0
    ensures NoOverlap(ids, GridOf(days, perDay))
  {
    hide GridOf;
    var g := GridOf(days, perDay);
    forall x | x in ids && x in g ensures g[x].startTime < g[x].endTime { GridAt(x, days, perDay); }
    forall x, y | x in ids && x in g && y in ids && y in g && x != y && g[x].day == g[y].day
      ensures g[x].endTime <= g[y].startTime || g[y].endTime <= g[x].startTime {
      GridAt(x, days, perDay);
      GridAt(y, days, perDay);
      GridDays(x, y, days, perDay);
      if x % perDay == y % perDay { SameSlot(x, y, perDay); }
    }
  }

  /** Consecutive ids of one day are a block wherever all of them are allowed. */
  lemma GridBlock(a: nat, d: nat, ids: seq<int>, days: nat, perDay: nat)
    requires perDay > 0 && d > 0 && NoDup(ids) && a % perDay + d <= perDay
    requires forall k :: 0 <= k < d ==> Range(a, d)[k] in ids && Range(a, d)[k] < days * perDay
    ensures Range(a, d) in Blocks(ids, d, GridOf(days, perDay))
  {
    GridHasNoOverlap(ids, days, perDay);
    GridLookup(days, perDay);
    hide Blocks, NoOverlap, Clear, BackToBack, GridOf;
    RangeIsBackToBack(a, d, ids, days, perDay);
    NoOverlapIsClear(ids, GridOf(days, perDay));
    ClearFinds(Range(a, d), ids, d, GridOf(days, perDay));
  }

  lemma RangeIsBackToBack(a: nat, d: nat, ids: seq<int>, days: nat, perDay: nat)
    requires perDay > 0 && d > 0 && a % perDay + d <= perDay
    requires forall k :: 0 <= k < d ==> Range(a, d)[k] in ids && Range(a, d)[k] < days * perDay
    ensures BackToBack(Range(a, d), ids, d, GridOf(days, perDay))
  {
    hide GridOf;
    var g, b := GridOf(days, perDay), Range(a, d);
    forall k | 0 <= k < d ensures b[k] in ids && b[k] in g && g[b[k]] == GridSlot(b[k], perDay)
      && b[k] / perDay == a / perDay && b[k] % perDay == a % perDay + k {
      SameDayOffset(a, k, perDay);
      GridAt(b[k], days, perDay);
    }
    forall i, j | 0 <= i < |b| && 0 <= j < |b| ensures g[b[i]].day == g[b[j]].day {
      assert b[i] / perDay == b[j] / perDay;
    }
    forall i | 0 <= i < |b| - 1 ensures g[b[i]].endTime == g[b[i + 1]].startTime {
      assert b[i + 1] % perDay == a % perDay + (i + 1);
    }
  }

  /** Every block of a grid is a range of consecutive ids of one day. */
  lemma {:induction false} GridRun(b: seq<int>, ids: seq<int>, d: nat, days: nat, perDay: nat, k: nat)
    requires perDay > 0 && BackToBack(b, ids, d, GridOf(days, perDay)) && k < d
    ensures 0 <= b[0] && b[k] == b[0] + k && b[k] / perDay == b[0] / perDay && b[k] < days * perDay
    ensures b[k] % perDay == b[0] % perDay + k
    decreases k
  {
    var g := GridOf(days, perDay);
    assert b[k] in g && b[0] in g;
    GridAt(b[k], days, perDay);
    GridAt(b[0], days, perDay);
    hide GridOf;
    if k > 0 {
      GridRun(b, ids, d, days, perDay, k - 1);
      assert g[b[k - 1]].endTime == g[b[k - 1 + 1]].startTime;
      GridAt(b[k - 1], days, perDay);
      GridDays(b[k - 1], b[k], days, perDay);
      SameDayOffset(b[k - 1], 1, perDay);
      SameSlot(b[k], b[k - 1] + 1, perDay);
    }
  }

  lemma GridBlockIsRange(b: seq<int>, ids: seq<int>, d: nat, days: nat, perDay: nat)
    requires perDay > 0 && d > 0 && NoDup(ids) && b in Blocks(ids, d, GridOf(days, perDay))
    ensures |b| == d && 0 <= b[0] < days * perDay && b[0] % perDay + d <= perDay
    ensures forall k :: 0 <= k < d ==> b[k] == b[0] + k && b[k] in ids
  {
    GridLookup(days, perDay);
    hide Blocks;
    BlocksExact(ids, d, GridOf(days, perDay));
    BlockIsBackToBack(b, ids, d, GridOf(days, perDay));
    forall k | 0 <= k < d ensures b[k] == b[0] + k && b[k] in ids { GridRun(b, ids, d, days, perDay, k); }
    GridRun(b, ids, d, days, perDay, d - 1);
  }

  // ---------------------------------------------------------------- counting

  /** There are only as many day starts as days. */
  lemma DayStartsBound(starts: seq<int>, days: nat, perDay: nat)
    requires perDay > 0 && NoDup(starts)
    requires forall t :: 0 <= t < |starts| ==> 0 <= starts[t] < days * perDay && starts[t] % perDay == 0
    ensures |starts| <= days
  {
    var s := Elements(starts);
    var m := map x | x in s :: x / perDay;
    var all := Elements(Range(0, days));
    forall x | x in s ensures 0 <= x < days * perDay && x % perDay == 0 && m[x] in all {
      var t :| 0 <= t < |starts| && starts[t] == x;
      QuotientBound(x, days, perDay);
      assert Range(0, days)[x / perDay] == x / perDay;
    }
    forall x, y | x in s && y in s && x != y ensures m[x] != m[y] {
      if m[x] == m[y] { SameSlot(x, y, perDay); }
    }
    InjectionBound(s, m, all);
    NoDupSize(starts);
    NoDupSize(Range(0, days));
  }

  lemma QuotientBound(x: nat, days: nat, perDay: nat)
    requires perDay > 0 && x < days * perDay
    ensures 0 <= x / perDay < days
  {
    assert x == (x / perDay) * perDay + x % perDay;
    ProductOrder(days, x / perDay, perDay);
  }
}
