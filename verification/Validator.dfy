/** The validator: which offerings are accepted, and the candidate that each course contributes. */
module Validator {
  import opened Prelude
  import opened Candidates
  import opened Timetable
  import opened Checks
  import opened Cohorts

  /** Why an offering is rejected, if it is. The room gate only exists when rooms are supplied. */
  function Verdict(o: Offering, totalSlots: nat, rooms: Option<seq<Room>>): Option<Code> {
    var failed := FirstFailedCheck(o, totalSlots);
    if failed.Some? then failed
    else if rooms.Some? && RoomGate(o, rooms.value).Refused? then Some(RoomGate(o, rooms.value).code)
    else None
  }

  // ---------------------------------------------------------------- the two gates

  function Passing(os: seq<Offering>, totalSlots: nat): seq<Offering> {
    if os == [] then []
    else
      var last := os[|os| - 1];
      Passing(os[..|os| - 1], totalSlots) + (if FirstFailedCheck(last, totalSlots).None? then [last] else [])
  }

  function Failing(os: seq<Offering>, totalSlots: nat): seq<Rejection> {
    if os == [] then []
    else
      var last := os[|os| - 1];
      var failed := FirstFailedCheck(last, totalSlots);
      Failing(os[..|os| - 1], totalSlots) + (if failed.Some? then [Rejection(last, failed.value)] else [])
  }

  method RunChecks(offerings: seq<Offering>, totalSlots: nat)
    returns (feasible: seq<Offering>, infeasible: seq<Rejection>)
    ensures feasible == Passing(offerings, totalSlots) && infeasible == Failing(offerings, totalSlots)
  {
    hide FirstFailedCheck;
    feasible, infeasible := [], [];
    for i := 0 to |offerings|
      invariant feasible == Passing(offerings[..i], totalSlots) && infeasible == Failing(offerings[..i], totalSlots)
    {
      assert offerings[..i + 1][..i] == offerings[..i];
      var failed := FirstFailedCheck(offerings[i], totalSlots);
      if failed.Some? {
        infeasible := infeasible + [Rejection(offerings[i], failed.value)];
      } else {
        feasible := feasible + [offerings[i]];
      }
    }
    assert offerings[..|offerings|] == offerings;
  }

  function Staying(os: seq<Offering>, rooms: seq<Room>): seq<Offering> {
    if os == [] then []
    else
      var last := os[|os| - 1];
      Staying(os[..|os| - 1], rooms) + (if RoomGate(last, rooms).Refused? then [] else [last])
  }

  function Refusals(os: seq<Offering>, rooms: seq<Room>): seq<Rejection> {
    if os == [] then []
    else
      var last := os[|os| - 1];
      var v := RoomGate(last, rooms);
      Refusals(os[..|os| - 1], rooms) + (if v.Refused? then [Rejection(last, v.code)] else [])
  }

  /** What the two maps hold for the offerings that stay. */
  ghost predicate PoolsOk(os: seq<Offering>, rooms: Option<seq<Room>>, pools: map<int, seq<int>>,
                          counts: map<int, nat>) {
    forall o :: o in os ==>
      && (if o.id in pools then pools[o.id] else []) == PoolOf(o, rooms)
      && (if o.id in counts then counts[o.id] else 1) == SplitOf(o, rooms)
  }

  /** possibleRoomIdsByOffering.get(o.id), absent read as empty. */
  function PoolOf(o: Offering, rooms: Option<seq<Room>>): seq<int> {
    if rooms.Some? && RoomGate(o, rooms.value).Pooled? then RoomGate(o, rooms.value).pool else []
  }

  /** nullRoomParallelByOffering.get(o.id) ?? 1 */
  function SplitOf(o: Offering, rooms: Option<seq<Room>>): nat {
    if rooms.Some? && RoomGate(o, rooms.value).Pooled? && RoomGate(o, rooms.value).sessions.Some?
    then RoomGate(o, rooms.value).sessions.value else 1
  }

  /** The room loop after the offerings os. */
  ghost predicate Filtered(os: seq<Offering>, rooms: seq<Room>, still: seq<Offering>, refused: seq<Rejection>,
                           pools: map<int, seq<int>>, counts: map<int, nat>) {
    && still == Staying(os, rooms) && refused == Refusals(os, rooms)
    && (forall o :: o in still ==> o in os)
    && (forall k :: k in pools || k in counts ==> k in OfferingIds(os))
    && PoolsOk(still, Some(rooms), pools, counts)
  }

  lemma NothingFiltered(rooms: seq<Room>)
    ensures Filtered([], rooms, [], [], map[], map[])
  {
  }

  lemma NewId(os: seq<Offering>, i: nat)
    requires DistinctIds(os) && i < |os|
    ensures os[i].id !in OfferingIds(os[..i])
  {
  }

  lemma FilterStep(os: seq<Offering>, rooms: seq<Room>, still: seq<Offering>, refused: seq<Rejection>,
                   pools: map<int, seq<int>>, counts: map<int, nat>, o: Offering)
    requires Filtered(os, rooms, still, refused, pools, counts) && o.id !in OfferingIds(os)
    ensures var v := RoomGate(o, rooms);
      Filtered(os + [o], rooms, if v.Refused? then still else still + [o],
               if v.Refused? then refused + [Rejection(o, v.code)] else refused,
               if v.Pooled? then pools[o.id := v.pool] else pools,
               if v.Pooled? && v.sessions.Some? then counts[o.id := v.sessions.value] else counts)
  {
    var v := RoomGate(o, rooms);
    assert v == RoomGate(o, rooms) && (v.Pooled? ==> PoolOf(o, Some(rooms)) == v.pool);
    PoolsStep(os, rooms, still, pools, counts, o);
    hide RoomGate, PoolsOk;
    assert (os + [o])[..|os|] == os;
    assert OfferingIds(os + [o]) == OfferingIds(os) + [o.id];
  }

  lemma PoolsStep(os: seq<Offering>, rooms: seq<Room>, still: seq<Offering>, pools: map<int, seq<int>>,
                  counts: map<int, nat>, o: Offering)
    requires PoolsOk(still, Some(rooms), pools, counts) && o.id !in OfferingIds(os)
    requires forall o' :: o' in still ==> o' in os
    requires forall k :: k in pools || k in counts ==> k in OfferingIds(os)
    ensures var v := RoomGate(o, rooms);
      PoolsOk(if v.Refused? then still else still + [o], Some(rooms),
              if v.Pooled? then pools[o.id := v.pool] else pools,
              if v.Pooled? && v.sessions.Some? then counts[o.id := v.sessions.value] else counts)
  {
    hide RoomGate;
    assert o.id !in pools && o.id !in counts;
    forall o' | o' in still ensures o'.id != o.id {
      var j :| 0 <= j < |os| && os[j] == o';
      assert OfferingIds(os)[j] == o'.id;
    }
  }

  lemma FilteredMeans(os: seq<Offering>, rooms: seq<Room>, still: seq<Offering>, refused: seq<Rejection>,
                      pools: map<int, seq<int>>, counts: map<int, nat>)
    requires Filtered(os, rooms, still, refused, pools, counts)
    ensures still == Staying(os, rooms) && refused == Refusals(os, rooms) && PoolsOk(still, Some(rooms), pools, counts)
  {
  }

  method FilterRooms(feasible: seq<Offering>, rooms: seq<Room>)
    returns (still: seq<Offering>, refused: seq<Rejection>, pools: map<int, seq<int>>, counts: map<int, nat>)
    requires DistinctIds(feasible)
    ensures still == Staying(feasible, rooms) && refused == Refusals(feasible, rooms)
    ensures PoolsOk(still, Some(rooms), pools, counts)
  {
    still, refused, pools, counts := [], [], map[], map[];
    NothingFiltered(rooms);
    hide RoomGate, Filtered, DistinctIds, Staying, Refusals, PoolsOk;
    for i := 0 to |feasible|
      invariant Filtered(feasible[..i], rooms, still, refused, pools, counts)
    {
      var o := feasible[i];
      var v := RoomGate(o, rooms);
      NewId(feasible, i);
      FilterStep(feasible[..i], rooms, still, refused, pools, counts, o);
      assert feasible[..i] + [o] == feasible[..i + 1];
      match v {
        case Locked =>
          still := still + [o];
        case Refused(code) =>
          refused := refused + [Rejection(o, code)];
        case Pooled(pool, sessions) =>
          if sessions.Some? {
            counts := counts[o.id := sessions.value];
          }
          pools := pools[o.id := pool];
          still := still + [o];
      }
    }
    assert feasible[..|feasible|] == feasible;
    FilteredMeans(feasible, rooms, still, refused, pools, counts);
  }

  function Accepted(os: seq<Offering>, totalSlots: nat, rooms: Option<seq<Room>>): seq<Offering> {
    if rooms.None? then Passing(os, totalSlots) else Staying(Passing(os, totalSlots), rooms.value)
  }

  function Rejected(os: seq<Offering>, totalSlots: nat, rooms: Option<seq<Room>>): seq<Rejection> {
    Failing(os, totalSlots) + (if rooms.None? then [] else Refusals(Passing(os, totalSlots), rooms.value))
  }

  lemma {:induction false} ChecksSplit(os: seq<Offering>, totalSlots: nat)
    ensures forall o :: o in Passing(os, totalSlots) <==> o in os && FirstFailedCheck(o, totalSlots).None?
    ensures forall r :: r in Failing(os, totalSlots) <==>
      r.offering in os && FirstFailedCheck(r.offering, totalSlots) == Some(r.code)
    ensures |Passing(os, totalSlots)| + |Failing(os, totalSlots)| == |os|
    ensures DistinctIds(os) ==> DistinctIds(Passing(os, totalSlots))
  {
    hide FirstFailedCheck;
    if os != [] {
      var front, last := os[..|os| - 1], os[|os| - 1];
      ChecksSplit(front, totalSlots);
      assert os == front + [last];
      hide DistinctIds;
      if DistinctIds(os) {
        DistinctFront(front, last);
        DistinctAdd(Passing(front, totalSlots), last);
      }
    }
  }

  lemma {:induction false} RoomsSplit(os: seq<Offering>, rooms: seq<Room>)
    ensures forall o :: o in Staying(os, rooms) <==> o in os && !RoomGate(o, rooms).Refused?
    ensures forall r :: r in Refusals(os, rooms) <==> r.offering in os && RoomGate(r.offering, rooms) == Refused(r.code)
    ensures |Staying(os, rooms)| + |Refusals(os, rooms)| == |os|
    ensures DistinctIds(os) ==> DistinctIds(Staying(os, rooms))
  {
    hide RoomGate;
    if os != [] {
      var front, last := os[..|os| - 1], os[|os| - 1];
      RoomsSplit(front, rooms);
      assert os == front + [last];
      hide DistinctIds;
      if DistinctIds(os) {
        DistinctFront(front, last);
        DistinctAdd(Staying(front, rooms), last);
      }
    }
  }

  /** Each offering is accepted or rejected, never both, each once, and rejected with its own first reason. */
  lemma ExactlyOne(os: seq<Offering>, totalSlots: nat, rooms: Option<seq<Room>>)
    requires DistinctIds(os)
    ensures forall o :: o in Accepted(os, totalSlots, rooms) <==> o in os && Verdict(o, totalSlots, rooms).None?
    ensures forall r :: r in Rejected(os, totalSlots, rooms) <==>
      r.offering in os && Verdict(r.offering, totalSlots, rooms) == Some(r.code)
    ensures |Accepted(os, totalSlots, rooms)| + |Rejected(os, totalSlots, rooms)| == |os|
    ensures DistinctIds(Accepted(os, totalSlots, rooms))
  {
    ChecksSplit(os, totalSlots);
    if rooms.Some? { RoomsSplit(Passing(os, totalSlots), rooms.value); }
    hide Passing, Failing, Staying, Refusals, FirstFailedCheck, RoomGate;
  }

  // ---------------------------------------------------------------- one candidate per cohort

  function LecturerIds(o: Offering): (r: seq<int>)
    ensures |r| == |o.lecturers| && forall i :: 0 <= i < |r| ==> r[i] == o.lecturers[i].id
  {
    seq(|o.lecturers|, i requires 0 <= i < |o.lecturers| => o.lecturers[i].id)
  }

  /** siblings.flatMap(s => s.lecturers.map(l => l.id)) without repetitions */
  function UnionIds(siblings: seq<Offering>): seq<int> {
    if siblings == [] then []
    else AddMissing(UnionIds(siblings[..|siblings| - 1]), LecturerIds(siblings[|siblings| - 1]))
  }

  function AddMissing(ids: seq<int>, more: seq<int>): seq<int> {
    if more == [] then ids
    else
      var r := AddMissing(ids, more[..|more| - 1]);
      if more[|more| - 1] in r then r else r + [more[|more| - 1]]
  }

  lemma {:induction false} AddMissingMembers(ids: seq<int>, more: seq<int>)
    requires NoDup(ids)
    ensures NoDup(AddMissing(ids, more))
    ensures forall l :: l in AddMissing(ids, more) <==> l in ids || l in more
  {
    if more != [] {
      AddMissingMembers(ids, more[..|more| - 1]);
      assert more == more[..|more| - 1] + [more[|more| - 1]];
    }
  }

  ghost predicate Teaches(siblings: seq<Offering>, l: int) {
    exists o :: o in siblings && l in LecturerIds(o)
  }

  lemma {:induction false} UnionMembers(siblings: seq<Offering>)
    ensures NoDup(UnionIds(siblings))
    ensures forall l :: l in UnionIds(siblings) <==> Teaches(siblings, l)
  {
    if siblings != [] {
      var front, last := siblings[..|siblings| - 1], siblings[|siblings| - 1];
      UnionMembers(front);
      AddMissingMembers(UnionIds(front), LecturerIds(last));
      assert siblings == front + [last];
      forall l ensures l in UnionIds(siblings) <==> Teaches(siblings, l) {
        if Teaches(front, l) {
          var o :| o in front && l in LecturerIds(o);
          assert o in siblings;
        }
        if l in LecturerIds(last) { assert last in siblings; }
      }
    }
  }

  /** Math.max(...siblings.map(s => s.effectiveStudentCount)) */
  function LargestCount(siblings: seq<Offering>): int
    requires siblings != []
  {
    if |siblings| == 1 then siblings[0].effectiveStudentCount
    else Max(LargestCount(siblings[..|siblings| - 1]), siblings[|siblings| - 1].effectiveStudentCount)
  }

  lemma {:induction false} LargestCountIsMax(siblings: seq<Offering>)
    requires siblings != []
    ensures forall o :: o in siblings ==> o.effectiveStudentCount <= LargestCount(siblings)
    ensures exists o :: o in siblings && o.effectiveStudentCount == LargestCount(siblings)
  {
    var front, last := siblings[..|siblings| - 1], siblings[|siblings| - 1];
    assert siblings == front + [last];
    if |siblings| > 1 {
      LargestCountIsMax(front);
      var o :| o in front && o.effectiveStudentCount == LargestCount(front);
      assert o in siblings && last in siblings;
    } else {
      assert siblings[0] in siblings;
    }
  }

  function AllowedSlots(o: Offering, slots: seq<TimeSlot>): seq<int> {
    if o.isFixed && o.fixedTimeSlotIds.Some? then o.fixedTimeSlotIds.value else Ids(slots)
  }

  /** The session count of a cohort: over time slots in the chosen room, or over the rooms of the pool. */
  function CohortSplit(siblings: seq<Offering>, count: int, rooms: Option<seq<Room>>): int
    requires siblings != [] && (siblings[0].room.Some? ==> siblings[0].room.value.capacity > 0)
  {
    var primary := siblings[0];
    if primary.room.Some? then CeilDiv(count, primary.room.value.capacity)
    else if |siblings| == 1 then SplitOf(primary, rooms)
    else if PoolOf(primary, rooms) == [] then 1
    else
      PoolKnown(primary, rooms);
      var largest := Largest(PoolOf(primary, rooms), CapacityById(rooms.value));
      if largest > 0 then SessionsNeeded(count, largest) else 1
  }

  lemma PoolKnown(o: Offering, rooms: Option<seq<Room>>)
    requires PoolOf(o, rooms) != []
    ensures rooms.Some? && Known(PoolOf(o, rooms), CapacityById(rooms.value))
  {
    QualifyingKnown(o, rooms.value);
  }

  lemma SplitPositive(siblings: seq<Offering>, count: int, rooms: Option<seq<Room>>)
    requires siblings != [] && count > 0 && (siblings[0].room.Some? ==> siblings[0].room.value.capacity > 0)
    ensures CohortSplit(siblings, count, rooms) >= 0
  {
    if siblings[0].room.Some? { CeilDivIsLeast(count, siblings[0].room.value.capacity); }
  }

  ghost predicate GroupOf(g: seq<int>, o: Offering) {
    && |g| == |o.lecturers|
    && (forall l :: l in g <==> l in LecturerIds(o))
    && (NoDup(LecturerIds(o)) ==> Ascending(g))
  }

  /** What the candidate of a cohort says about it, its room aside. */
  ghost predicate Describes(c: Candidate, siblings: seq<Offering>, slots: seq<TimeSlot>, rooms: Option<seq<Room>>) {
    && siblings != [] && (siblings[0].room.Some? ==> siblings[0].room.value.capacity > 0)
    && c.offeringId == siblings[0].id && c.courseId == siblings[0].courseId
    && c.siblingOfferingIds == OfferingIds(siblings)
    && c.lecturerIds == LecturerIds(siblings[0])
    && Ascending(c.lecturerPool) && (forall l :: l in c.lecturerPool <==> Teaches(siblings, l))
    && |c.siblingLecturerGroups| == |siblings|
    && (forall i :: 0 <= i < |siblings| ==> GroupOf(c.siblingLecturerGroups[i], siblings[i]))
    && c.effectiveStudentCount == LargestCount(siblings)
    && c.parallelSessionCount == CohortSplit(siblings, c.effectiveStudentCount, rooms)
    && c.sessionDuration == siblings[0].course.sks
    && c.possibleTimeSlotIds == AllowedSlots(siblings[0], slots)
    && IsLongestRun(c.possibleTimeSlotIds, BuildSlotLookup(slots), c.longestContiguousRun)
    && (c.fragmentationRequired <==> c.longestContiguousRun < c.sessionDuration)
    && c.possibleRoomIds == PoolOf(siblings[0], rooms)
  }

  method LecturerGroups(siblings: seq<Offering>) returns (groups: seq<seq<int>>)
    ensures |groups| == |siblings| && forall i :: 0 <= i < |siblings| ==> GroupOf(groups[i], siblings[i])
  {
    groups := [];
    for i := 0 to |siblings|
      invariant |groups| == i && forall j :: 0 <= j < i ==> GroupOf(groups[j], siblings[j])
    {
      var g := SortAscending(LecturerIds(siblings[i]));
      groups := groups + [g];
    }
  }

  method SplitCohort(siblings: seq<Offering>, count: int, rooms: Option<seq<Room>>, pools: map<int, seq<int>>,
                     counts: map<int, nat>)
    returns (parallelSessionCount: nat)
    requires siblings != [] && count > 0 && (siblings[0].room.Some? ==> siblings[0].room.value.capacity > 0)
    requires PoolsOk([siblings[0]], rooms, pools, counts)
    ensures parallelSessionCount == CohortSplit(siblings, count, rooms)
  {
    hide RoomGate, PoolOf, SplitOf, CapacityById, Largest, CeilDiv, SessionsNeeded;
    SplitPositive(siblings, count, rooms);
    var primary := siblings[0];
    assert primary in [siblings[0]];
    if primary.room.Some? {
      parallelSessionCount := CeilDiv(count, primary.room.value.capacity);
    } else if |siblings| == 1 {
      parallelSessionCount := if primary.id in counts then counts[primary.id] else 1;
    } else {
      var qualifying := if primary.id in pools then pools[primary.id] else [];
      if qualifying != [] {
        PoolKnown(primary, rooms);
        var maxQualifyingCapacity := Largest(qualifying, CapacityById(rooms.value));
        parallelSessionCount := if maxQualifyingCapacity > 0 then SessionsNeeded(count, maxQualifyingCapacity) else 1;
      } else {
        parallelSessionCount := 1;
      }
    }
  }

  method BuildCandidate(siblings: seq<Offering>, slots: seq<TimeSlot>, rooms: Option<seq<Room>>,
                        pools: map<int, seq<int>>, counts: map<int, nat>) returns (c: Candidate)
    requires siblings != [] && PoolsOk(siblings, rooms, pools, counts)
    requires forall o :: o in siblings ==> Sound(o, |slots|)
    ensures Describes(c, siblings, slots, rooms)
    ensures c.roomId == siblings[0].roomId && !c.isFixedRoom
  {
    hide *;
    PrimaryFacts(siblings, |slots|, rooms, pools, counts);
    var primary := siblings[0];
    var cohortStudentCount := LargestCount(siblings);
    var parallelSessionCount := SplitCohort(siblings, cohortStudentCount, rooms, pools, counts);
    UnionMembers(siblings);
    var lecturerPool := SortAscending(UnionIds(siblings));
    var siblingLecturerGroups := LecturerGroups(siblings);
    var possibleTimeSlotIds := AllowedSlots(primary, slots);
    var longestContiguousRun := ComputeLongestContiguousRun(possibleTimeSlotIds, BuildSlotLookup(slots));
    c := Candidate(primary.id, primary.courseId, primary.roomId, LecturerIds(primary), cohortStudentCount,
                   parallelSessionCount, primary.course.sks, possibleTimeSlotIds,
                   if primary.id in pools then pools[primary.id] else [], false, OfferingIds(siblings),
                   lecturerPool, siblingLecturerGroups, longestContiguousRun,
                   longestContiguousRun < primary.course.sks);
    DescribedBy(c, siblings, slots, rooms);
  }

  lemma DescribedBy(c: Candidate, siblings: seq<Offering>, slots: seq<TimeSlot>, rooms: Option<seq<Room>>)
    requires siblings != [] && (siblings[0].room.Some? ==> siblings[0].room.value.capacity > 0)
    requires c.offeringId == siblings[0].id && c.courseId == siblings[0].courseId
    requires c.siblingOfferingIds == OfferingIds(siblings) && c.lecturerIds == LecturerIds(siblings[0])
    requires Ascending(c.lecturerPool) && (forall l :: l in c.lecturerPool <==> Teaches(siblings, l))
    requires |c.siblingLecturerGroups| == |siblings|
    requires forall i :: 0 <= i < |siblings| ==> GroupOf(c.siblingLecturerGroups[i], siblings[i])
    requires c.effectiveStudentCount == LargestCount(siblings)
    requires c.parallelSessionCount == CohortSplit(siblings, c.effectiveStudentCount, rooms)
    requires c.sessionDuration == siblings[0].course.sks && c.possibleTimeSlotIds == AllowedSlots(siblings[0], slots)
    requires IsLongestRun(c.possibleTimeSlotIds, BuildSlotLookup(slots), c.longestContiguousRun)
    requires c.fragmentationRequired <==> c.longestContiguousRun < c.sessionDuration
    requires c.possibleRoomIds == PoolOf(siblings[0], rooms)
    ensures Describes(c, siblings, slots, rooms)
  {
    hide LargestCount, GroupOf, Teaches, CohortSplit, PoolOf, AllowedSlots, IsLongestRun, BuildSlotLookup;
  }

  lemma PrimaryFacts(siblings: seq<Offering>, totalSlots: nat, rooms: Option<seq<Room>>, pools: map<int, seq<int>>,
                     counts: map<int, nat>)
    requires siblings != [] && PoolsOk(siblings, rooms, pools, counts)
    requires forall o :: o in siblings ==> Sound(o, totalSlots)
    ensures var primary := siblings[0];
      PoolsOk([primary], rooms, pools, counts) &&
      (if primary.id in pools then pools[primary.id] else []) == PoolOf(primary, rooms) &&
      LargestCount(siblings) > 0 && (primary.room.Some? ==> primary.room.value.capacity > 0)
  {
    assert siblings[0] in siblings;
    LargestCountIsMax(siblings);
    hide RoomGate, PoolOf, SplitOf, LargestCount;
  }

  // ---------------------------------------------------------------- room locks

  /** offeringId -> roomId of the accepted offerings that are fixed in a chosen room. */
  function FixedRooms(os: seq<Offering>): map<int, int> {
    if os == [] then map[]
    else
      var last := os[|os| - 1];
      var before := FixedRooms(os[..|os| - 1]);
      if last.isFixed && last.roomId.Some? then before[last.id := last.roomId.value] else before
  }

  /** Exactly the fixed offerings that name a room are locked, each in the room it names. */
  lemma {:induction false} FixedRoomsExact(os: seq<Offering>)
    requires DistinctIds(os)
    ensures forall id :: id in FixedRooms(os) <==> exists o :: o in os && o.id == id && o.isFixed && o.roomId.Some?
    ensures forall o :: o in os && o.isFixed && o.roomId.Some? ==> FixedRooms(os)[o.id] == o.roomId.value
  {
    if os != [] {
      var front, last := os[..|os| - 1], os[|os| - 1];
      assert os == front + [last];
      DistinctFront(front, last);
      FixedRoomsExact(front);
      forall o | o in os && o.isFixed && o.roomId.Some?
        ensures o.id in FixedRooms(os) && FixedRooms(os)[o.id] == o.roomId.value {
        if o in front { assert o.id != last.id; }
      }
    }
  }

  function Tag(c: Candidate, lockedRoomMap: map<int, int>): Candidate {
    if c.offeringId in lockedRoomMap
    then c.(roomId := Some(lockedRoomMap[c.offeringId]), isFixedRoom := true)
    else c.(isFixedRoom := false)
  }

  function TagEntities(cs: seq<Candidate>, lockedRoomMap: map<int, int>): (r: seq<Candidate>)
    ensures |r| == |cs| && forall i :: 0 <= i < |r| ==> r[i] == Tag(cs[i], lockedRoomMap)
  {
    seq(|cs|, i requires 0 <= i < |cs| => Tag(cs[i], lockedRoomMap))
  }

  // ---------------------------------------------------------------- the validator

  /** Candidate i speaks for cohort i; its room is the locked one, else the one its primary names. */
  ghost predicate CandidatesFor(cs: seq<Candidate>, cohorts: seq<seq<Offering>>, slots: seq<TimeSlot>,
                                rooms: Option<seq<Room>>, locked: map<int, int>) {
    |cs| == |cohorts| && forall i :: 0 <= i < |cs| ==> CandidateFor(cs[i], cohorts[i], slots, rooms, locked)
  }

  ghost predicate CandidateFor(c: Candidate, siblings: seq<Offering>, slots: seq<TimeSlot>, rooms: Option<seq<Room>>,
                               locked: map<int, int>) {
    && Describes(c, siblings, slots, rooms)
    && (c.isFixedRoom <==> c.offeringId in locked)
    && c.roomId == if c.offeringId in locked then Some(locked[c.offeringId]) else siblings[0].roomId
  }

  lemma TagKeeps(c: Candidate, siblings: seq<Offering>, slots: seq<TimeSlot>, rooms: Option<seq<Room>>,
                 locked: map<int, int>)
    requires Describes(c, siblings, slots, rooms) && c.roomId == siblings[0].roomId
    ensures CandidateFor(Tag(c, locked), siblings, slots, rooms, locked)
  {
    hide LargestCount, GroupOf, Teaches, CohortSplit, PoolOf, AllowedSlots, IsLongestRun, BuildSlotLookup;
  }

  method GateOfferings(offerings: seq<Offering>, totalSlots: nat, allRooms: Option<seq<Room>>)
    returns (feasible: seq<Offering>, infeasible: seq<Rejection>, pools: map<int, seq<int>>, counts: map<int, nat>)
    requires DistinctIds(offerings)
    ensures feasible == Accepted(offerings, totalSlots, allRooms) &&
      infeasible == Rejected(offerings, totalSlots, allRooms)
    ensures PoolsOk(feasible, allRooms, pools, counts)
  {
    ChecksSplit(offerings, totalSlots);
    hide Passing, Failing, Staying, Refusals, RoomGate, FirstFailedCheck, DistinctIds, PoolsOk;
    feasible, infeasible := RunChecks(offerings, totalSlots);
    pools, counts := map[], map[];
    NoPools(feasible);
    if allRooms.Some? {
      var refused;
      feasible, refused, pools, counts := FilterRooms(feasible, allRooms.value);
      infeasible := infeasible + refused;
    }
  }

  lemma NoPools(os: seq<Offering>)
    ensures PoolsOk(os, None, map[], map[])
  {
  }

  method BuildCandidates(cohorts: seq<seq<Offering>>, slots: seq<TimeSlot>, rooms: Option<seq<Room>>,
                         pools: map<int, seq<int>>, counts: map<int, nat>, ghost os: seq<Offering>)
    returns (cs: seq<Candidate>)
    requires CohortsOf(cohorts, os) && PoolsOk(os, rooms, pools, counts)
    requires forall o :: o in os ==> Sound(o, |slots|)
    ensures |cs| == |cohorts|
    ensures forall j :: 0 <= j < |cs| ==> Describes(cs[j], cohorts[j], slots, rooms)
    ensures forall j :: 0 <= j < |cs| ==> cohorts[j] != [] && cs[j].roomId == cohorts[j][0].roomId
  {
    hide *;
    CohortMembers(cohorts, os);
    cs := [];
    for i := 0 to |cohorts|
      invariant |cs| == i
      invariant forall j :: 0 <= j < i ==> Describes(cs[j], cohorts[j], slots, rooms)
      invariant forall j :: 0 <= j < i ==> cohorts[j] != [] && cs[j].roomId == cohorts[j][0].roomId
    {
      ghost var siblings := cohorts[i];
      CohortPools(siblings, os, rooms, pools, counts);
      assert forall o :: o in siblings ==> Sound(o, |slots|);
      var c := BuildCandidate(cohorts[i], slots, rooms, pools, counts);
      cs := cs + [c];
    }
  }

  /** Accepted and rejected offerings, and one candidate for each course of the accepted ones. */
  method RunPreGA(offerings: seq<Offering>, slots: seq<TimeSlot>, allRooms: Option<seq<Room>>,
                  lockedRoomMap: Option<map<int, int>>)
    returns (feasible: seq<Offering>, infeasible: seq<Rejection>, candidates: seq<Candidate>,
      ghost cohorts: seq<seq<Offering>>)
    requires DistinctIds(offerings)
    ensures feasible == Accepted(offerings, |slots|, allRooms) && infeasible == Rejected(offerings, |slots|, allRooms)
    ensures CohortsOf(cohorts, feasible)
    ensures CandidatesFor(candidates, cohorts, slots, allRooms,
                          if lockedRoomMap.Some? then lockedRoomMap.value else FixedRooms(feasible))
  {
    hide *;
    ExactlyOne(offerings, |slots|, allRooms);
    AcceptedSound(offerings, |slots|, allRooms);
    var possibleRoomIds, parallelCounts;
    feasible, infeasible, possibleRoomIds, parallelCounts := GateOfferings(offerings, |slots|, allRooms);
    var groups := GroupCohorts(feasible);
    cohorts := groups;
    var rawCandidates := BuildCandidates(groups, slots, allRooms, possibleRoomIds, parallelCounts, feasible);
    var locked := if lockedRoomMap.Some? then lockedRoomMap.value else FixedRooms(feasible);
    candidates := TagEntities(rawCandidates, locked);
    TaggedFor(rawCandidates, groups, slots, allRooms, locked);
  }

  lemma TaggedFor(raw: seq<Candidate>, cohorts: seq<seq<Offering>>, slots: seq<TimeSlot>, rooms: Option<seq<Room>>,
                  locked: map<int, int>)
    requires |raw| == |cohorts|
    requires forall j :: 0 <= j < |raw| ==> Describes(raw[j], cohorts[j], slots, rooms)
    requires forall j :: 0 <= j < |raw| ==> cohorts[j] != [] && raw[j].roomId == cohorts[j][0].roomId
    ensures CandidatesFor(TagEntities(raw, locked), cohorts, slots, rooms, locked)
  {
    hide Describes, CandidateFor, Tag;
    var cs := TagEntities(raw, locked);
    forall i | 0 <= i < |cs| ensures CandidateFor(cs[i], cohorts[i], slots, rooms, locked) {
      TagKeeps(raw[i], cohorts[i], slots, rooms, locked);
    }
  }

  lemma AcceptedSound(os: seq<Offering>, totalSlots: nat, rooms: Option<seq<Room>>)
    ensures forall o :: o in Accepted(os, totalSlots, rooms) ==> Sound(o, totalSlots)
  {
    PassingSound(os, totalSlots);
    if rooms.Some? { RoomsSplit(Passing(os, totalSlots), rooms.value); }
    hide Passing, Staying, Sound;
  }

  lemma PassingSound(os: seq<Offering>, totalSlots: nat)
    ensures forall o :: o in Passing(os, totalSlots) ==> Sound(o, totalSlots)
  {
    ChecksSplit(os, totalSlots);
    hide Passing, Failing, Sound, FirstFailedCheck;
    forall o | o in Passing(os, totalSlots) ensures Sound(o, totalSlots) { ChecksDecideSound(o, totalSlots); }
  }

  lemma CohortMembers(cohorts: seq<seq<Offering>>, os: seq<Offering>)
    requires CohortsOf(cohorts, os)
    ensures forall i :: 0 <= i < |cohorts| ==> cohorts[i] != []
    ensures forall i, o :: 0 <= i < |cohorts| && o in cohorts[i] ==> o in os
  {
    hide CourseIds;
  }

  lemma CohortPools(siblings: seq<Offering>, os: seq<Offering>, rooms: Option<seq<Room>>, pools: map<int, seq<int>>,
                    counts: map<int, nat>)
    requires PoolsOk(os, rooms, pools, counts) && forall o :: o in siblings ==> o in os
    ensures PoolsOk(siblings, rooms, pools, counts)
  {
    hide PoolOf, SplitOf;
  }
}
