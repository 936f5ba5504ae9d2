/** The soft penalties and the weighted fitness. */
module Penalties {
  import opened Prelude
  import opened Candidates
  import opened Timetable
  import opened Genes
  import opened Fitness

  // ---------------------------------------------------------------- teaching load

  /** What one session credits to lecturer l: its slot count for each listing among the first n lecturers. */
  function Credits(s: SessionData, l: int, n: nat): nat
    requires n <= |s.lecturerIds|
  {
    if n == 0 then 0 else Credits(s, l, n - 1) + if s.lecturerIds[n - 1] == l then |s.timeSlotIds| else 0
  }

  function AssignedSks(ss: seq<SessionData>, l: int): nat {
    if ss == [] then 0
    else AssignedSks(ss[..|ss| - 1], l) + Credits(ss[|ss| - 1], l, |ss[|ss| - 1].lecturerIds|)
  }

  function SessionSks(s: SessionData): nat { |s.timeSlotIds| * |s.lecturerIds| }

  /** Slots taught, counted once per lecturer in the room. */
  function TotalSks(ss: seq<SessionData>): nat {
    if ss == [] then 0 else TotalSks(ss[..|ss| - 1]) + SessionSks(ss[|ss| - 1])
  }

  /** The keys of an insertion-ordered map after one more set(). */
  function Inserted(order: seq<int>, l: int): seq<int> {
    if l in order then order else order + [l]
  }

  function InsertedAll(order: seq<int>, ls: seq<int>): seq<int> {
    if ls == [] then order else Inserted(InsertedAll(order, ls[..|ls| - 1]), ls[|ls| - 1])
  }

  /** The lecturers of a timetable in order of first appearance. */
  function LecturerOrder(ss: seq<SessionData>): seq<int> {
    if ss == [] then [] else InsertedAll(LecturerOrder(ss[..|ss| - 1]), ss[|ss| - 1].lecturerIds)
  }

  function Overload(total: int, l: int, maxSks: map<int, int>): nat {
    if l in maxSks && total > maxSks[l] then total - maxSks[l] else 0
  }

  function OverloadSum(order: seq<int>, ss: seq<SessionData>, maxSks: map<int, int>): nat {
    if order == [] then 0
    else
      var last := order[|order| - 1];
      OverloadSum(order[..|order| - 1], ss, maxSks) + Overload(AssignedSks(ss, last), last, maxSks)
  }

  /** Sum over lecturers of max(0, assigned - allowed). */
  function LoadPenalty(ss: seq<SessionData>, maxSks: map<int, int>): nat {
    OverloadSum(LecturerOrder(ss), ss, maxSks)
  }

  function AssignedSum(order: seq<int>, ss: seq<SessionData>): nat {
    if order == [] then 0 else AssignedSum(order[..|order| - 1], ss) + AssignedSks(ss, order[|order| - 1])
  }

  lemma {:induction false} InsertedAllFacts(order: seq<int>, ls: seq<int>)
    requires NoDup(order)
    ensures NoDup(InsertedAll(order, ls)) && Elements(InsertedAll(order, ls)) == Elements(order) + Elements(ls)
  {
    if ls != [] {
      var front, last := ls[..|ls| - 1], ls[|ls| - 1];
      assert ls == front + [last];
      InsertedAllFacts(order, front);
      var o := InsertedAll(order, front);
      assert Elements(Inserted(o, last)) == Elements(o) + {last};
      assert Elements(ls) == Elements(front) + {last};
    }
  }

  method AssignSession(s: SessionData, order: seq<int>, credited: map<int, nat>, ghost ss: seq<SessionData>)
    returns (order': seq<int>, credited': map<int, nat>)
    requires credited.Keys == Elements(order)
    requires forall l :: (if l in credited then credited[l] else 0) == AssignedSks(ss, l)
    ensures order' == InsertedAll(order, s.lecturerIds) && credited'.Keys == Elements(order')
    ensures forall l ::
      (if l in credited' then credited'[l] else 0) == AssignedSks(ss, l) + Credits(s, l, |s.lecturerIds|)
  {
    order', credited' := order, credited;
    var sks := |s.timeSlotIds|;
    for j := 0 to |s.lecturerIds|
      invariant order' == InsertedAll(order, s.lecturerIds[..j]) && credited'.Keys == Elements(order')
      invariant forall l :: (if l in credited' then credited'[l] else 0) == AssignedSks(ss, l) + Credits(s, l, j)
    {
      var l := s.lecturerIds[j];
      assert s.lecturerIds[..j + 1][..j] == s.lecturerIds[..j];
      order' := Inserted(order', l);
      credited' := credited'[l := (if l in credited' then credited'[l] else 0) + sks];
    }
    assert s.lecturerIds[..|s.lecturerIds|] == s.lecturerIds;
  }

  method AssignAll(ss: seq<SessionData>) returns (order: seq<int>, credited: map<int, nat>)
    ensures order == LecturerOrder(ss) && credited.Keys == Elements(order)
    ensures forall l :: l in credited ==> credited[l] == AssignedSks(ss, l)
  {
    order, credited := [], map[];
    for i := 0 to |ss|
      invariant order == LecturerOrder(ss[..i]) && credited.Keys == Elements(order)
      invariant forall l :: (if l in credited then credited[l] else 0) == AssignedSks(ss[..i], l)
    {
      assert ss[..i + 1][..i] == ss[..i];
      order, credited := AssignSession(ss[i], order, credited, ss[..i]);
    }
    assert ss[..|ss|] == ss;
  }

  method CalculateLoadPenalty(ch: seq<GeneData>, cs: seq<Candidate>, lecturerMaxSksMap: map<int, int>)
    returns (penalty: nat)
    ensures penalty == LoadPenalty(AllSessions(ch, CandidateMap(cs)), lecturerMaxSksMap)
  {
    var ss := AllSessions(ch, CandidateMap(cs));
    var order, credited := AssignAll(ss);
    penalty := 0;
    for i := 0 to |order|
      invariant penalty == OverloadSum(order[..i], ss, lecturerMaxSksMap)
    {
      assert order[..i + 1][..i] == order[..i];
      assert order[i] in credited;
      var total := credited[order[i]];
      if order[i] in lecturerMaxSksMap && total > lecturerMaxSksMap[order[i]] {
        penalty := penalty + (total - lecturerMaxSksMap[order[i]]);
      }
    }
    assert order[..|order|] == order;
  }

  // what the load penalty means, lecturer by lecturer

  lemma {:induction false} OneMoreLimit(order: seq<int>, ss: seq<SessionData>, maxSks: map<int, int>, l: int,
                                        limit: int)
    requires NoDup(order) && l !in maxSks
    ensures OverloadSum(order, ss, maxSks[l := limit])
         == OverloadSum(order, ss, maxSks) + if l in order then Max(0, AssignedSks(ss, l) - limit) else 0
  {
    hide AssignedSks;
    if order != [] {
      var front, last := order[..|order| - 1], order[|order| - 1];
      assert order == front + [last];
      NoDupSnoc(front, last);
      OneMoreLimit(front, ss, maxSks, l, limit);
    }
  }

  lemma {:induction false} NoLimits(order: seq<int>, ss: seq<SessionData>)
    ensures OverloadSum(order, ss, map[]) == 0
  {
    if order != [] { NoLimits(order[..|order| - 1], ss); }
  }

  /** Without limits there is no penalty, and one lecturer's limit adds what that lecturer teaches above it. */
  lemma LoadOfOneLecturer(ss: seq<SessionData>, maxSks: map<int, int>, l: int, limit: nat)
    requires l !in maxSks
    ensures LoadPenalty(ss, map[]) == 0
    ensures LoadPenalty(ss, maxSks[l := limit]) == LoadPenalty(ss, maxSks) + Max(0, AssignedSks(ss, l) - limit)
  {
    hide AssignedSks, OverloadSum, LecturerOrder;
    SksAddUp(ss);
    NoLimits(LecturerOrder(ss), ss);
    OneMoreLimit(LecturerOrder(ss), ss, maxSks, l, limit);
  }

  lemma {:induction false} OverloadZero(order: seq<int>, ss: seq<SessionData>, maxSks: map<int, int>)
    ensures OverloadSum(order, ss, maxSks) == 0 <==>
      forall l :: l in order && l in maxSks ==> AssignedSks(ss, l) <= maxSks[l]
  {
    hide AssignedSks;
    if order != [] {
      var front, last := order[..|order| - 1], order[|order| - 1];
      assert order == front + [last];
      OverloadZero(front, ss, maxSks);
    }
  }

  /** No penalty means that nobody teaches above the own limit. */
  lemma NobodyOverloaded(ss: seq<SessionData>, maxSks: map<int, int>)
    requires forall l :: l in maxSks ==> maxSks[l] >= 0
    ensures LoadPenalty(ss, maxSks) == 0 <==> forall l :: l in maxSks ==> AssignedSks(ss, l) <= maxSks[l]
  {
    hide AssignedSks, OverloadSum, LecturerOrder;
    SksAddUp(ss);
    OverloadZero(LecturerOrder(ss), ss, maxSks);
  }

  lemma {:induction false} CreditsAre(s: SessionData, l: int, n: nat)
    requires n <= |s.lecturerIds|
    ensures Credits(s, l, n) == multiset(s.lecturerIds[..n])[l] * |s.timeSlotIds|
  {
    if n > 0 {
      CreditsAre(s, l, n - 1);
      var front, last := s.lecturerIds[..n - 1], s.lecturerIds[n - 1];
      assert s.lecturerIds[..n] == front + [last];
      OneMoreListing(front, last, l, |s.timeSlotIds|);
    } else {
      assert s.lecturerIds[..0] == [];
    }
  }

  lemma OneMoreListing(front: seq<int>, last: int, l: int, slots: nat)
    ensures multiset(front + [last])[l] * slots == multiset(front)[l] * slots + if last == l then slots else 0
  {
    var before := multiset(front)[l];
    assert multiset(front + [last])[l] == before + if last == l then 1 else 0;
    assert (before + 1) * slots == before * slots + slots;
  }

  /** A further session credits each of its lecturers with its slots, once per listing. */
  lemma SessionCredits(ss: seq<SessionData>, s: SessionData, l: int)
    ensures AssignedSks([], l) == 0
    ensures AssignedSks(ss + [s], l) == AssignedSks(ss, l) + multiset(s.lecturerIds)[l] * |s.timeSlotIds|
  {
    assert (ss + [s])[..|ss|] == ss;
    CreditsAre(s, l, |s.lecturerIds|);
    assert s.lecturerIds[..|s.lecturerIds|] == s.lecturerIds;
  }

  /** No credit is lost or invented: the per-lecturer totals add up to the slots taught. */
  lemma {:induction false} SksAddUp(ss: seq<SessionData>)
    ensures AssignedSum(LecturerOrder(ss), ss) == TotalSks(ss)
    ensures NoDup(LecturerOrder(ss))
    ensures forall l :: l !in LecturerOrder(ss) ==> AssignedSks(ss, l) == 0
  {
    if ss != [] {
      var front, s := ss[..|ss| - 1], ss[|ss| - 1];
      SksAddUp(front);
      SessionAddsUp(front, s, |s.lecturerIds|);
      assert s.lecturerIds[..|s.lecturerIds|] == s.lecturerIds;
      InsertedAllFacts(LecturerOrder(front), s.lecturerIds);
      SumAgrees(LecturerOrder(ss), ss, front, s, |s.lecturerIds|);
      forall l | l !in LecturerOrder(ss) ensures AssignedSks(ss, l) == 0 {
        assert l !in Elements(LecturerOrder(ss));
        NoCredit(s, l, |s.lecturerIds|);
      }
    }
  }

  lemma {:induction false} NoCredit(s: SessionData, l: int, n: nat)
    requires n <= |s.lecturerIds| && l !in s.lecturerIds
    ensures Credits(s, l, n) == 0
  {
    if n > 0 { NoCredit(s, l, n - 1); }
  }

  /** The sum over order of what front and the first n lecturers of s credit. */
  function PartialSum(order: seq<int>, front: seq<SessionData>, s: SessionData, n: nat): nat
    requires n <= |s.lecturerIds|
  {
    if order == [] then 0
    else
      var l := order[|order| - 1];
      PartialSum(order[..|order| - 1], front, s, n) + AssignedSks(front, l) + Credits(s, l, n)
  }

  lemma {:induction false} SumAgrees(order: seq<int>, ss: seq<SessionData>, front: seq<SessionData>, s: SessionData,
                                     n: nat)
    requires ss == front + [s] && n == |s.lecturerIds|
    ensures AssignedSum(order, ss) == PartialSum(order, front, s, n)
  {
    assert ss[..|ss| - 1] == front;
    if order != [] { SumAgrees(order[..|order| - 1], ss, front, s, n); }
  }

  lemma {:induction false} PartialSumStart(order: seq<int>, front: seq<SessionData>, s: SessionData)
    ensures PartialSum(order, front, s, 0) == AssignedSum(order, front)
  {
    if order != [] { PartialSumStart(order[..|order| - 1], front, s); }
  }

  /** Crediting one more lecturer adds the slot count once, if the lecturer is listed once in order. */
  lemma {:induction false} PartialSumStep(order: seq<int>, front: seq<SessionData>, s: SessionData, n: nat)
    requires n < |s.lecturerIds| && NoDup(order)
    ensures PartialSum(order, front, s, n + 1)
         == PartialSum(order, front, s, n) + if s.lecturerIds[n] in order then |s.timeSlotIds| else 0
  {
    if order != [] {
      var o, l := order[..|order| - 1], order[|order| - 1];
      assert order == o + [l] && l !in o;
      PartialSumStep(o, front, s, n);
    }
  }

  /** The next lecturer is already in the order, or joins it with exactly this session's credit. */
  lemma OneMoreLecturer(o: seq<int>, front: seq<SessionData>, s: SessionData, n: nat)
    requires n < |s.lecturerIds| && NoDup(o)
    requires s.lecturerIds[n] !in o ==>
      AssignedSks(front, s.lecturerIds[n]) == 0 && s.lecturerIds[n] !in s.lecturerIds[..n]
    ensures PartialSum(Inserted(o, s.lecturerIds[n]), front, s, n + 1) == PartialSum(o, front, s, n) + |s.timeSlotIds|
  {
    var l := s.lecturerIds[n];
    PartialSumStep(o, front, s, n);
    if l !in o {
      NotYetCredited(s, l, n);
      assert (o + [l])[..|o|] == o;
    }
  }

  lemma {:induction false} SessionAddsUp(front: seq<SessionData>, s: SessionData, n: nat)
    requires n <= |s.lecturerIds|
    requires NoDup(LecturerOrder(front)) && AssignedSum(LecturerOrder(front), front) == TotalSks(front)
    requires forall l :: l !in LecturerOrder(front) ==> AssignedSks(front, l) == 0
    ensures PartialSum(InsertedAll(LecturerOrder(front), s.lecturerIds[..n]), front, s, n)
         == TotalSks(front) + |s.timeSlotIds| * n
  {
    hide LecturerOrder, PartialSum, AssignedSks, Inserted;
    var start := LecturerOrder(front);
    if n == 0 {
      assert s.lecturerIds[..0] == [];
      PartialSumStart(start, front, s);
    } else {
      SessionAddsUp(front, s, n - 1);
      var prev, l := s.lecturerIds[..n - 1], s.lecturerIds[n - 1];
      assert s.lecturerIds[..n] == prev + [l];
      var o := InsertedAll(start, prev);
      InsertedAllFacts(start, prev);
      assert l !in o ==> l !in Elements(o);
      hide Elements, NoDup, InsertedAll, TotalSks;
      OneMoreLecturer(o, front, s, n - 1);
      OneMoreTime(|s.timeSlotIds|, n);
    }
  }

  lemma OneMoreTime(x: nat, n: nat)
    requires n > 0
    ensures x * n == x * (n - 1) + x
  {
  }

  lemma {:induction false} NotYetCredited(s: SessionData, l: int, n: nat)
    requires n < |s.lecturerIds| && l !in s.lecturerIds[..n] && s.lecturerIds[n] == l
    ensures Credits(s, l, n) == 0 && Credits(s, l, n + 1) == |s.timeSlotIds|
  {
    CreditsZero(s, l, n);
  }

  lemma {:induction false} CreditsZero(s: SessionData, l: int, n: nat)
    requires n <= |s.lecturerIds| && l !in s.lecturerIds[..n]
    ensures Credits(s, l, n) == 0
  {
    if n > 0 {
      assert s.lecturerIds[..n] == s.lecturerIds[..n - 1] + [s.lecturerIds[n - 1]];
      CreditsZero(s, l, n - 1);
    }
  }

  // ---------------------------------------------------------------- seats

  function CapacityOf(roomById: map<int, int>, room: int): int {
    if room in roomById then roomById[room] else 0
  }

  function CombinedCapacity(ss: seq<SessionData>, roomById: map<int, int>): int {
    if ss == [] then 0
    else CombinedCapacity(ss[..|ss| - 1], roomById) + CapacityOf(roomById, ss[|ss| - 1].roomId)
  }

  /** Missing seats of one gene; offerings with a given room are exempt. */
  function Shortfall(g: GeneData, c: Candidate, roomById: map<int, int>): nat {
    if c.roomId.Some? then 0 else Max(0, c.effectiveStudentCount - CombinedCapacity(g.sessions, roomById))
  }

  function TotalShortfall(ch: seq<GeneData>, cm: map<int, Candidate>, roomById: map<int, int>): nat {
    if ch == [] then 0
    else
      var g := ch[|ch| - 1];
      TotalShortfall(ch[..|ch| - 1], cm, roomById) +
      if g.offeringId in cm then Shortfall(g, cm[g.offeringId], roomById) else 0
  }

  /** More seats in one gene never raise the penalty, and lower it where seats were missing. */
  lemma {:induction false} SeatsLowerShortfall(ch: seq<GeneData>, i: nat, ss: seq<SessionData>, cm: map<int, Candidate>,
                                               roomById: map<int, int>)
    requires i < |ch| && CombinedCapacity(ss, roomById) >= CombinedCapacity(ch[i].sessions, roomById)
    ensures var ch' := ch[i := ch[i].(sessions := ss)];
      TotalShortfall(ch', cm, roomById) <= TotalShortfall(ch, cm, roomById)
    ensures var ch' := ch[i := ch[i].(sessions := ss)];
      ch[i].offeringId in cm && Shortfall(ch[i], cm[ch[i].offeringId], roomById) > 0 &&
      CombinedCapacity(ss, roomById) > CombinedCapacity(ch[i].sessions, roomById)
      ==> TotalShortfall(ch', cm, roomById) < TotalShortfall(ch, cm, roomById)
  {
    hide CombinedCapacity;
    var n, ch' := |ch| - 1, ch[i := ch[i].(sessions := ss)];
    if i < n {
      SeatsLowerShortfall(ch[..n], i, ss, cm, roomById);
      assert ch'[..n] == ch[..n][i := ch[i].(sessions := ss)];
    } else {
      assert ch'[..n] == ch[..n];
    }
  }

  method CalculateCapacityShortfallPenalty(ch: seq<GeneData>, cs: seq<Candidate>, roomById: Option<map<int, int>>)
    returns (penalty: nat)
    ensures penalty == if roomById.None? then 0 else TotalShortfall(ch, CandidateMap(cs), roomById.value)
  {
    penalty := 0;
    if roomById.None? { return; }
    var candidateMap := CandidateMap(cs);
    for i := 0 to |ch|
      invariant penalty == TotalShortfall(ch[..i], candidateMap, roomById.value)
    {
      assert ch[..i + 1][..i] == ch[..i];
      if ch[i].offeringId in candidateMap && candidateMap[ch[i].offeringId].roomId.None? {
        var c, sessions := candidateMap[ch[i].offeringId], ch[i].sessions;
        var combinedCapacity := 0;
        for k := 0 to |sessions|
          invariant combinedCapacity == CombinedCapacity(sessions[..k], roomById.value)
        {
          assert sessions[..k + 1][..k] == sessions[..k];
          if sessions[k].roomId in roomById.value {
            combinedCapacity := combinedCapacity + roomById.value[sessions[k].roomId];
          }
        }
        assert sessions[..|sessions|] == sessions;
        var shortfall := c.effectiveStudentCount - combinedCapacity;
        if shortfall > 0 { penalty := penalty + shortfall; }
      }
    }
    assert ch[..|ch|] == ch;
  }

  // ---------------------------------------------------------------- gaps

  const MAX_DAY_GAP := 100

  /** new Map(slots.map((slot, index) => [slot.id, index])) */
  function IndexMap(slots: seq<TimeSlot>): map<int, nat> {
    if slots == [] then map[] else IndexMap(slots[..|slots| - 1])[slots[|slots| - 1].id := |slots| - 1]
  }

  /** Positions within one day of the whole timetable; values lists the lookup in its iteration order. */
  function DayIndex(values: seq<TimeSlot>, day: string): map<int, nat> {
    IndexMap(StableSort(OnDay(values, day), StartKey()))
  }

  /** values lists the slots of the lookup, each once. */
  ghost predicate Enumerates(values: seq<TimeSlot>, lookup: SlotLookup) {
    NoDup(values) && forall ts :: ts in values <==> ts.id in lookup && lookup[ts.id] == ts
  }

  lemma {:induction false} IndexMapAt(slots: seq<TimeSlot>, p: nat)
    requires p < |slots| && forall i, j :: 0 <= i < j < |slots| ==> slots[i].id != slots[j].id
    ensures slots[p].id in IndexMap(slots) && IndexMap(slots)[slots[p].id] == p
  {
    var n := |slots| - 1;
    if p < n {
      IndexMapAt(slots[..n], p);
      assert slots[..n][p] == slots[p];
    }
  }

  /** Position p of the day's list of the whole timetable holds slot x. */
  ghost predicate DayPosition(values: seq<TimeSlot>, day: string, p: nat, x: int) {
    p < |StableSort(OnDay(values, day), StartKey())| && StableSort(OnDay(values, day), StartKey())[p].id == x
  }

  /** Every known slot has its position, so the branch for a missing index is never taken. */
  lemma KnownSlotIsIndexed(lookup: SlotLookup, values: seq<TimeSlot>, x: int) returns (p: nat)
    requires LookupOk(lookup) && Enumerates(values, lookup) && x in lookup
    ensures DayPosition(values, lookup[x].day, p, x)
    ensures x in DayIndex(values, lookup[x].day) && DayIndex(values, lookup[x].day)[x] == p
  {
    var day := lookup[x].day;
    var slots, s := OnDay(values, day), StableSort(OnDay(values, day), StartKey());
    OnDayMembers(values, day);
    SameMultiset(slots, s);
    hide StableSort, OnDay;
    assert lookup[x] in Elements(slots);
    p :| 0 <= p < |s| && s[p] == lookup[x];
    forall i, j | 0 <= i < j < |s| ensures s[i].id != s[j].id {
      assert s[i] in Elements(s) && s[j] in Elements(s);
    }
    IndexMapAt(s, p);
  }

  /** A gap between two known slots of one day costs the positions between them, at least one. */
  lemma GapIsCounted(lookup: SlotLookup, values: seq<TimeSlot>, a: int, b: int) returns (p: nat, q: nat)
    requires LookupOk(lookup) && Enumerates(values, lookup) && a in lookup && b in lookup
    requires lookup[a].day == lookup[b].day && lookup[a].endTime != lookup[b].startTime
    ensures DayPosition(values, lookup[a].day, p, a) && DayPosition(values, lookup[a].day, q, b)
    ensures GapCost(lookup, values, a, b) == Max(1, Abs(q - p) - 1)
  {
    p := KnownSlotIsIndexed(lookup, values, a);
    q := KnownSlotIsIndexed(lookup, values, b);
    hide DayIndex, Enumerates, DayPosition;
  }

  function Abs(x: int): nat { if x < 0 then -x else x }

  /** The charge for one adjacent pair of a session. */
  function GapCost(lookup: SlotLookup, values: seq<TimeSlot>, a: int, b: int): nat {
    if a !in lookup || b !in lookup then 0
    else
      var current, next := lookup[a], lookup[b];
      if current.day != next.day then MAX_DAY_GAP
      else if current.endTime == next.startTime then 0
      else
        var dayIndex := DayIndex(values, current.day);
        if current.id !in dayIndex || next.id !in dayIndex then 1
        else
          var nextIndex: int, currentIndex: int := dayIndex[next.id], dayIndex[current.id];
          Max(1, Abs(nextIndex - currentIndex) - 1)
  }

  /** The charge for the first n adjacent pairs. */
  function SessionGaps(lookup: SlotLookup, values: seq<TimeSlot>, slots: seq<int>, n: nat): nat
    requires n == 0 || n < |slots|
  {
    if n == 0 then 0 else SessionGaps(lookup, values, slots, n - 1) + GapCost(lookup, values, slots[n - 1], slots[n])
  }

  function GapsOf(lookup: SlotLookup, values: seq<TimeSlot>, s: SessionData): nat {
    SessionGaps(lookup, values, s.timeSlotIds, if s.timeSlotIds == [] then 0 else |s.timeSlotIds| - 1)
  }

  function AllGaps(lookup: SlotLookup, values: seq<TimeSlot>, ss: seq<SessionData>): nat {
    if ss == [] then 0 else AllGaps(lookup, values, ss[..|ss| - 1]) + GapsOf(lookup, values, ss[|ss| - 1])
  }

  method CalculateFragmentationPenalty(ch: seq<GeneData>, cs: seq<Candidate>, timeSlotById: Option<SlotLookup>,
                                       values: seq<TimeSlot>)
    returns (penalty: nat)
    requires timeSlotById.Some? ==> Enumerates(values, timeSlotById.value)
    ensures penalty == if timeSlotById.None? then 0
                       else AllGaps(timeSlotById.value, values, AllSessions(ch, CandidateMap(cs)))
  {
    penalty := 0;
    if timeSlotById.None? { return; }
    var lookup := timeSlotById.value;
    var ss := AllSessions(ch, CandidateMap(cs));
    for k := 0 to |ss|
      invariant penalty == AllGaps(lookup, values, ss[..k])
    {
      assert ss[..k + 1][..k] == ss[..k];
      var slots := ss[k].timeSlotIds;
      var i := 0;
      while i < |slots| - 1
        invariant i == 0 || i < |slots|
        invariant penalty == AllGaps(lookup, values, ss[..k]) + SessionGaps(lookup, values, slots, i)
      {
        penalty := penalty + GapCost(lookup, values, slots[i], slots[i + 1]);
        i := i + 1;
      }
    }
    assert ss[..|ss|] == ss;
  }

  /** A back-to-back session is never charged. */
  lemma {:induction false} NoGaps(lookup: SlotLookup, values: seq<TimeSlot>, slots: seq<int>, n: nat)
    requires n == 0 || n < |slots|
    requires forall i :: 0 <= i < |slots| ==> slots[i] in lookup
    requires forall i, j :: 0 <= i < |slots| && 0 <= j < |slots| ==> lookup[slots[i]].day == lookup[slots[j]].day
    requires forall i :: 0 <= i < |slots| - 1 ==> lookup[slots[i]].endTime == lookup[slots[i + 1]].startTime
    ensures SessionGaps(lookup, values, slots, n) == 0
  {
    if n > 0 { NoGaps(lookup, values, slots, n - 1); }
  }

  /** Conversely, a session of known slots that is charged nothing is back to back on one day. */
  lemma {:induction false} NoChargeNoGap(lookup: SlotLookup, values: seq<TimeSlot>, slots: seq<int>, n: nat)
    requires n == 0 || n < |slots|
    requires forall i :: 0 <= i < |slots| ==> slots[i] in lookup
    requires SessionGaps(lookup, values, slots, n) == 0
    ensures forall i :: 0 <= i < n ==> lookup[slots[i]].day == lookup[slots[i + 1]].day
    ensures forall i :: 0 <= i < n ==> lookup[slots[i]].endTime == lookup[slots[i + 1]].startTime
  {
    if n > 0 { NoChargeNoGap(lookup, values, slots, n - 1); }
  }

  /** A pair is free of charge exactly when it is back to back on one day or a slot is unknown; a change of the day
      costs 100. */
  lemma PairCost(lookup: SlotLookup, values: seq<TimeSlot>, a: int, b: int)
    ensures GapCost(lookup, values, a, b) == 0 <==> a in lookup && b in lookup ==>
      lookup[a].day == lookup[b].day && lookup[a].endTime == lookup[b].startTime
    ensures a in lookup && b in lookup ==> (GapCost(lookup, values, a, b) == 0 <==> FollowsOn(lookup, a, b))
    ensures a in lookup && b in lookup && lookup[a].day != lookup[b].day ==> GapCost(lookup, values, a, b) == 100
  {
    hide DayIndex;
  }

  /** The session runs without a gap on one day. */
  ghost predicate GapFree(lookup: SlotLookup, s: SessionData) {
    forall i :: 0 <= i < |s.timeSlotIds| - 1 ==> FollowsOn(lookup, s.timeSlotIds[i], s.timeSlotIds[i + 1])
  }

  ghost predicate FollowsOn(lookup: SlotLookup, a: int, b: int) {
    a in lookup && b in lookup && lookup[a].day == lookup[b].day && lookup[a].endTime == lookup[b].startTime
  }

  lemma {:induction false} FirstGaps(lookup: SlotLookup, values: seq<TimeSlot>, slots: seq<int>, n: nat)
    requires n == 0 || n < |slots|
    ensures SessionGaps(lookup, values, slots, n) == 0 <==>
      forall i :: 0 <= i < n ==> GapCost(lookup, values, slots[i], slots[i + 1]) == 0
  {
    hide GapCost;
    if n > 0 {
      FirstGaps(lookup, values, slots, n - 1);
      if forall i :: 0 <= i < n ==> GapCost(lookup, values, slots[i], slots[i + 1]) == 0 {
        assert GapCost(lookup, values, slots[n - 1], slots[n - 1 + 1]) == 0;
      }
    }
  }

  lemma SessionFree(lookup: SlotLookup, values: seq<TimeSlot>, s: SessionData)
    requires forall x :: x in s.timeSlotIds ==> x in lookup
    ensures GapsOf(lookup, values, s) == 0 <==> GapFree(lookup, s)
  {
    hide GapCost, SessionGaps, FollowsOn;
    var slots, n := s.timeSlotIds, if s.timeSlotIds == [] then 0 else |s.timeSlotIds| - 1;
    FirstGaps(lookup, values, slots, n);
    forall i | 0 <= i < n
      ensures GapCost(lookup, values, slots[i], slots[i + 1]) == 0 <==> FollowsOn(lookup, slots[i], slots[i + 1]) {
      PairCost(lookup, values, slots[i], slots[i + 1]);
    }
  }

  lemma {:induction false} NothingFragmented(lookup: SlotLookup, values: seq<TimeSlot>, ss: seq<SessionData>)
    requires forall s :: s in ss ==> forall x :: x in s.timeSlotIds ==> x in lookup
    ensures AllGaps(lookup, values, ss) == 0 <==> forall s :: s in ss ==> GapFree(lookup, s)
  {
    hide GapsOf, GapFree;
    if ss != [] {
      var front, last := ss[..|ss| - 1], ss[|ss| - 1];
      assert ss == front + [last];
      NothingFragmented(lookup, values, front);
      assert last in ss;
      SessionFree(lookup, values, last);
    }
  }

  /** Every gene of a candidate without a room has seats for all its students. */
  ghost predicate AllSeated(ch: seq<GeneData>, cm: map<int, Candidate>, roomById: map<int, int>) {
    forall i :: 0 <= i < |ch| && ch[i].offeringId in cm && cm[ch[i].offeringId].roomId.None? ==>
      CombinedCapacity(ch[i].sessions, roomById) >= cm[ch[i].offeringId].effectiveStudentCount
  }

  lemma {:induction false} NobodyStands(ch: seq<GeneData>, cm: map<int, Candidate>, roomById: map<int, int>)
    ensures TotalShortfall(ch, cm, roomById) == 0 <==> AllSeated(ch, cm, roomById)
  {
    hide CombinedCapacity;
    if ch != [] { NobodyStands(ch[..|ch| - 1], cm, roomById); }
  }

  // ---------------------------------------------------------------- the weighted formula

  function FitnessOf(hard: nat, soft: nat, wH: real, wS: real): real
    requires wH >= 0.0 && wS >= 0.0
  {
    PenaltyNonNegative(hard, soft, wH, wS);
    var penalty := hard as real * wH + soft as real * wS;
    1.0 / (1.0 + penalty)
  }

  lemma PenaltyNonNegative(hard: nat, soft: nat, wH: real, wS: real)
    requires wH >= 0.0 && wS >= 0.0
    ensures hard as real * wH >= 0.0 && soft as real * wS >= 0.0
  {
  }

  lemma FractionOrder(a: real, b: real)
    requires a >= 0.0 && b >= 0.0
    ensures 1.0 / (1.0 + a) > 1.0 / (1.0 + b) <==> a < b
    ensures 0.0 < 1.0 / (1.0 + a) <= 1.0
  {
    var x, y := 1.0 / (1.0 + a), 1.0 / (1.0 + b);
    assert x * (1.0 + a) == 1.0 && y * (1.0 + b) == 1.0;
  }

  /** When every violation-free timetable beats every violating one: a violation-free timetable with soft penalty
      soft0 scores above all timetables with a violation exactly when its weighted penalty is below one violation's. */
  lemma HardBeatsSoft(soft0: nat, wH: real, wS: real)
    requires wH >= 0.0 && wS >= 0.0
    ensures (forall hard: nat, soft: nat :: hard >= 1 ==> FitnessOf(0, soft0, wH, wS) > FitnessOf(hard, soft, wH, wS))
            <==> soft0 as real * wS < wH
  {
    PenaltyNonNegative(0, soft0, wH, wS);
    PenaltyNonNegative(1, 0, wH, wS);
    assert 0 as real * wH == 0.0 && 1 as real * wH == wH && 0 as real * wS == 0.0;
    FractionOrder(soft0 as real * wS, wH);
    assert FitnessOf(0, soft0, wH, wS) == 1.0 / (1.0 + soft0 as real * wS);
    assert FitnessOf(1, 0, wH, wS) == 1.0 / (1.0 + wH);
    if soft0 as real * wS < wH {
      forall hard: nat, soft: nat | hard >= 1 ensures FitnessOf(0, soft0, wH, wS) > FitnessOf(hard, soft, wH, wS) {
        PenaltyNonNegative(hard, soft, wH, wS);
        PenaltyNonNegative(hard - 1, soft, wH, wS);
        var p := hard as real * wH + soft as real * wS;
        assert hard as real * wH == (hard - 1) as real * wH + wH;
        assert p >= wH > soft0 as real * wS;
        FractionOrder(soft0 as real * wS, p);
        assert FitnessOf(hard, soft, wH, wS) == 1.0 / (1.0 + p);
      }
    }
  }

  /** With the default weights the documented ordering fails: 100 soft points tie with one violation. */
  lemma DefaultWeightsTie()
    ensures FitnessOf(0, 100, 100.0, 1.0) == FitnessOf(1, 0, 100.0, 1.0)
  {
  }
}
