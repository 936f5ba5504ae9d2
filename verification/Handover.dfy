/** What the validator's candidates promise to the layers behind it. */
module Handover {
  import opened Prelude
  import opened Candidates
  import opened Timetable
  import opened WellFormed
  import opened Checks
  import opened Cohorts
  import opened Validator
  import opened Ssa

  // ---------------------------------------------------------------- sibling lists

  ghost predicate Speaks(c: Candidate, siblings: seq<Offering>) {
    siblings != [] && c.siblingOfferingIds == OfferingIds(siblings) && c.offeringId == siblings[0].id &&
      c.courseId == siblings[0].courseId
  }

  lemma AllSpeak(cs: seq<Candidate>, cohorts: seq<seq<Offering>>, slots: seq<TimeSlot>, rooms: Option<seq<Room>>,
                 locked: map<int, int>)
    requires CandidatesFor(cs, cohorts, slots, rooms, locked)
    ensures EachSpeaks(cs, cohorts)
  {
    hide LargestCount, GroupOf, Teaches, CohortSplit, PoolOf, AllowedSlots, IsLongestRun, BuildSlotLookup;
  }

  lemma SameOffering(os: seq<Offering>, o: Offering, o': Offering)
    requires DistinctIds(os) && o in os && o' in os && o.id == o'.id
    ensures o == o'
  {
  }

  lemma SiblingOf(c: Candidate, siblings: seq<Offering>, id: int) returns (o: Offering)
    requires Speaks(c, siblings) && id in c.siblingOfferingIds
    ensures o in siblings && o.id == id
  {
    var i :| 0 <= i < |c.siblingOfferingIds| && c.siblingOfferingIds[i] == id;
    o := siblings[i];
  }

  /** id is listed by the candidate. */
  predicate Lists(c: Candidate, id: int) { id in c.siblingOfferingIds }

  ghost predicate Cover(cs: seq<Candidate>, os: seq<Offering>) {
    forall o :: o in os ==> exists i :: 0 <= i < |cs| && Lists(cs[i], o.id) && cs[i].courseId == o.courseId
  }

  ghost predicate ListOnly(cs: seq<Candidate>, os: seq<Offering>) {
    forall i, id :: 0 <= i < |cs| && Lists(cs[i], id) ==>
      exists o :: o in os && o.id == id && o.courseId == cs[i].courseId
  }

  ghost predicate Disjoint(cs: seq<Candidate>) {
    forall i, j, id :: 0 <= i < j < |cs| && Lists(cs[i], id) ==> !Lists(cs[j], id)
  }

  ghost predicate LedByLeast(cs: seq<Candidate>) {
    forall i :: 0 <= i < |cs| ==>
      Lists(cs[i], cs[i].offeringId) && forall id :: Lists(cs[i], id) ==> cs[i].offeringId <= id
  }

  ghost predicate EachSpeaks(cs: seq<Candidate>, cohorts: seq<seq<Offering>>) {
    |cs| == |cohorts| && forall i :: 0 <= i < |cs| ==> Speaks(cs[i], cohorts[i])
  }

  /** The sibling lists partition the accepted offerings by course; the primary is the smallest id of its list. */
  lemma SiblingListsPartition(feasible: seq<Offering>, cs: seq<Candidate>, cohorts: seq<seq<Offering>>,
                              slots: seq<TimeSlot>, rooms: Option<seq<Room>>, locked: map<int, int>)
    requires DistinctIds(feasible) && CohortsOf(cohorts, feasible) && CandidatesFor(cs, cohorts, slots, rooms, locked)
    ensures Cover(cs, feasible) && ListOnly(cs, feasible) && Disjoint(cs) && LedByLeast(cs)
    ensures DistinctOfferings(cs)
  {
    hide *;
    AllSpeak(cs, cohorts, slots, rooms, locked);
    Covered(cs, cohorts, feasible);
    OnlyOwn(cs, cohorts, feasible);
    NeverShared(cs, cohorts, feasible);
    Led(cs, cohorts, feasible);
    DistinctPrimaries(cs);
  }

  lemma Covered(cs: seq<Candidate>, cohorts: seq<seq<Offering>>, os: seq<Offering>)
    requires CohortsOf(cohorts, os) && EachSpeaks(cs, cohorts)
    ensures Cover(cs, os)
  {
    hide CohortsOf, Speaks, Lists;
    CohortsPartition(cohorts, os);
    forall o | o in os ensures exists i :: 0 <= i < |cs| && Lists(cs[i], o.id) && cs[i].courseId == o.courseId {
      var i :| 0 <= i < |cohorts| && o in cohorts[i];
      ListedByOwn(cs[i], cohorts, os, i, o);
    }
  }

  lemma OnlyOwn(cs: seq<Candidate>, cohorts: seq<seq<Offering>>, os: seq<Offering>)
    requires CohortsOf(cohorts, os) && EachSpeaks(cs, cohorts)
    ensures ListOnly(cs, os)
  {
    hide CohortsOf, Speaks, Lists;
    forall i, id | 0 <= i < |cs| && Lists(cs[i], id)
      ensures exists o :: o in os && o.id == id && o.courseId == cs[i].courseId {
      var o := OwnOffering(cs[i], cohorts, os, i, id);
    }
  }

  lemma NeverShared(cs: seq<Candidate>, cohorts: seq<seq<Offering>>, os: seq<Offering>)
    requires DistinctIds(os) && CohortsOf(cohorts, os) && EachSpeaks(cs, cohorts)
    ensures Disjoint(cs)
  {
    hide CohortsOf, Speaks, Lists, DistinctIds;
    forall i, j, id | 0 <= i < j < |cs| && Lists(cs[i], id) ensures !Lists(cs[j], id) {
      NoSharedSibling(cs[i], cs[j], cohorts, os, i, j, id);
    }
  }

  lemma Led(cs: seq<Candidate>, cohorts: seq<seq<Offering>>, os: seq<Offering>)
    requires CohortsOf(cohorts, os) && EachSpeaks(cs, cohorts)
    ensures LedByLeast(cs)
  {
    hide CohortsOf, Speaks, Lists;
    forall i | 0 <= i < |cs|
      ensures Lists(cs[i], cs[i].offeringId) && forall id :: Lists(cs[i], id) ==> cs[i].offeringId <= id {
      PrimaryIsLeast(cs[i], cohorts, os, i);
    }
  }

  lemma DistinctPrimaries(cs: seq<Candidate>)
    requires Disjoint(cs) && LedByLeast(cs)
    ensures DistinctOfferings(cs)
  {
    hide Lists;
  }

  lemma ListedByOwn(c: Candidate, cohorts: seq<seq<Offering>>, os: seq<Offering>, i: nat, o: Offering)
    requires CohortsOf(cohorts, os) && i < |cohorts| && Speaks(c, cohorts[i]) && o in cohorts[i]
    ensures Lists(c, o.id) && c.courseId == o.courseId
  {
    hide CourseIds;
    assert IsCohort(cohorts[i], os, CourseIds(os)[i]);
    assert cohorts[i][0] in cohorts[i];
    var k :| 0 <= k < |cohorts[i]| && cohorts[i][k] == o;
    assert c.siblingOfferingIds[k] == o.id;
  }

  lemma OwnOffering(c: Candidate, cohorts: seq<seq<Offering>>, os: seq<Offering>, i: nat, id: int) returns (o: Offering)
    requires CohortsOf(cohorts, os) && i < |cohorts| && Speaks(c, cohorts[i]) && Lists(c, id)
    ensures o in cohorts[i] && o in os && o.id == id && o.courseId == c.courseId
  {
    hide CourseIds;
    assert IsCohort(cohorts[i], os, CourseIds(os)[i]);
    assert cohorts[i][0] in cohorts[i];
    o := SiblingOf(c, cohorts[i], id);
  }

  lemma NoSharedSibling(c: Candidate, c': Candidate, cohorts: seq<seq<Offering>>, os: seq<Offering>, i: nat, j: nat,
                        id: int)
    requires DistinctIds(os) && CohortsOf(cohorts, os) && i < j < |cohorts|
    requires Speaks(c, cohorts[i]) && Speaks(c', cohorts[j]) && Lists(c, id)
    ensures !Lists(c', id)
  {
    hide CohortsOf, DistinctIds, Speaks;
    if Lists(c', id) {
      var o := OwnOffering(c, cohorts, os, i, id);
      var o' := OwnOffering(c', cohorts, os, j, id);
      SameOffering(os, o, o');
      CohortsPartition(cohorts, os);
    }
  }

  lemma PrimaryIsLeast(c: Candidate, cohorts: seq<seq<Offering>>, os: seq<Offering>, i: nat)
    requires CohortsOf(cohorts, os) && i < |cohorts| && Speaks(c, cohorts[i])
    ensures Lists(c, c.offeringId) && forall id :: Lists(c, id) ==> c.offeringId <= id
  {
    hide CourseIds;
    assert IsCohort(cohorts[i], os, CourseIds(os)[i]);
    assert c.siblingOfferingIds[0] == c.offeringId;
  }

  // ---------------------------------------------------------------- what fixing an offering fixes

  /** A cohort led by a fixed offering may use exactly the slots that this offering lists; any other cohort may use
      every slot of the week. Without locks from outside it is locked in a room exactly when the leading offering is
      fixed and names one, and then in that room. */
  lemma FixedMeans(c: Candidate, siblings: seq<Offering>, slots: seq<TimeSlot>, rooms: Option<seq<Room>>,
                   os: seq<Offering>)
    requires DistinctIds(os) && CandidateFor(c, siblings, slots, rooms, FixedRooms(os))
    requires siblings[0] in os && Sound(siblings[0], |slots|)
    ensures var primary := siblings[0];
      && (primary.isFixed ==> Some(c.possibleTimeSlotIds) == primary.fixedTimeSlotIds)
      && (!primary.isFixed ==>
            |c.possibleTimeSlotIds| == |slots| &&
              forall i :: 0 <= i < |slots| ==> c.possibleTimeSlotIds[i] == slots[i].id)
      && (c.isFixedRoom <==> primary.isFixed && primary.roomId.Some?)
      && c.roomId == primary.roomId
  {
    hide LargestCount, GroupOf, Teaches, CohortSplit, PoolOf, IsLongestRun, BuildSlotLookup, FixedRooms, DistinctIds;
    var primary := siblings[0];
    FixedRoomsExact(os);
    if primary.id in FixedRooms(os) {
      var o :| o in os && o.id == primary.id && o.isFixed && o.roomId.Some?;
      SameOffering(os, o, primary);
    }
  }

  // ---------------------------------------------------------------- session counts

  /** Siblings of one course that all leave the room open. */
  ghost predicate AllRoomless(siblings: seq<Offering>) {
    && siblings != []
    && forall o :: o in siblings ==>
         o.roomId.None? && o.room.None? && o.course.requiredFacilities == siblings[0].course.requiredFacilities
  }

  ghost predicate NoneRefused(siblings: seq<Offering>, rooms: seq<Room>) {
    forall o :: o in siblings ==> o.effectiveStudentCount > 0 && !RoomGate(o, rooms).Refused?
  }

  /** n is the least number of sessions, in the largest qualifying room each, that seats the whole cohort. */
  ghost predicate SeatsCohort(c: Candidate, rooms: seq<Room>) {
    && (exists r :: r in rooms && r.id in c.possibleRoomIds &&
         Seats(c.parallelSessionCount, r.capacity) >= c.effectiveStudentCount)
    && (forall r, k: nat :: r in rooms && r.id in c.possibleRoomIds && Seats(k, r.capacity) >= c.effectiveStudentCount
          ==> c.parallelSessionCount <= k)
    && 1 <= c.parallelSessionCount <= Min(MAX_PARALLEL_SESSIONS_HARD_CAP, |c.possibleRoomIds|)
  }

  /** The sibling with the most students was accepted on its own with the pool of the primary, so the cohort's
      count respects the cap as well. */
  lemma RoomlessCohortIsSeated(c: Candidate, siblings: seq<Offering>, slots: seq<TimeSlot>, rooms: seq<Room>)
    requires DistinctRooms(rooms) && forall r :: r in rooms ==> r.capacity >= 0
    requires Describes(c, siblings, slots, Some(rooms)) && AllRoomless(siblings) && NoneRefused(siblings, rooms)
    ensures SeatsCohort(c, rooms)
  {
    var primary, count := siblings[0], c.effectiveStudentCount;
    assert c.possibleRoomIds == PoolOf(primary, Some(rooms)) &&
      c.parallelSessionCount == CohortSplit(siblings, count, Some(rooms));
    assert primary in siblings;
    LargestCountIsMax(siblings);
    var top :| top in siblings && top.effectiveStudentCount == count;
    hide Describes, LargestCount, CohortSplit;
    SplitAgrees(siblings, top, rooms);
    hide AllRoomless, NoneRefused, RoomGate, PoolOf, SeatsCohort, FitsIn, Qualifying;
    SplitExact(top, rooms);
    SeatedBy(c, top, rooms);
  }

  /** The cohort's count is the count of its largest sibling alone. */
  lemma SplitAgrees(siblings: seq<Offering>, top: Offering, rooms: seq<Room>)
    requires DistinctRooms(rooms) && forall r :: r in rooms ==> r.capacity >= 0
    requires AllRoomless(siblings) && NoneRefused(siblings, rooms) && top in siblings
    ensures top.roomId.None? && top.effectiveStudentCount > 0 && RoomGate(top, rooms).Pooled?
    ensures PoolOf(siblings[0], Some(rooms)) == RoomGate(top, rooms).pool == Qualifying(top, rooms)
    ensures RoomGate(top, rooms).sessions == Some(CohortSplit(siblings, top.effectiveStudentCount, Some(rooms)))
  {
    var primary := siblings[0];
    assert primary in siblings;
    QualifyingSame(primary, top, rooms);
    if |siblings| == 1 { assert top == primary; }
    hide Qualifying, CapacityById, CeilDiv, Largest, Seats;
  }

  lemma SeatedBy(c: Candidate, top: Offering, rooms: seq<Room>)
    requires DistinctRooms(rooms) && c.possibleRoomIds == Qualifying(top, rooms) &&
      c.effectiveStudentCount == top.effectiveStudentCount
    requires FitsIn(top, rooms, c.parallelSessionCount)
    requires forall n: nat :: FitsIn(top, rooms, n) ==> c.parallelSessionCount <= n
    requires 1 <= c.parallelSessionCount <= Min(MAX_PARALLEL_SESSIONS_HARD_CAP, |c.possibleRoomIds|)
    ensures SeatsCohort(c, rooms)
  {
    QualifyingExact(top, rooms);
    hide Qualifying, Qualifies, Seats;
    forall r, k: nat | r in rooms && r.id in c.possibleRoomIds && Seats(k, r.capacity) >= c.effectiveStudentCount
      ensures c.parallelSessionCount <= k {
      var id := r.id;
      var r' :| r' in rooms && r'.id == id && Qualifies(top, r');
      assert r == r';
      assert FitsIn(top, rooms, k);
    }
  }

  /** A cohort with a chosen room gets the least number of sessions that seats it there. */
  lemma RoomCohortIsSeated(c: Candidate, siblings: seq<Offering>, slots: seq<TimeSlot>, rooms: Option<seq<Room>>)
    requires Describes(c, siblings, slots, rooms) && siblings[0].room.Some?
    ensures LeastSessions(c.parallelSessionCount, c.effectiveStudentCount, siblings[0].room.value.capacity)
  {
    hide LargestCount, GroupOf, Teaches, PoolOf, AllowedSlots, IsLongestRun, BuildSlotLookup;
    CeilDivIsLeast(c.effectiveStudentCount, siblings[0].room.value.capacity);
  }

  // ---------------------------------------------------------------- legal candidates

  /** What the database guarantees: slots, fixed slots and lecturers are listed once. */
  ghost predicate InputOk(offerings: seq<Offering>, slots: seq<TimeSlot>) {
    && DistinctIds(offerings) && NoDup(Ids(slots))
    && forall o :: o in offerings ==>
       NoDup(LecturerIds(o)) && (o.fixedTimeSlotIds.Some? ==> NoDup(o.fixedTimeSlotIds.value))
  }

  lemma AscendingIsNoDup(s: seq<int>)
    requires Ascending(s)
    ensures NoDup(s)
  {
  }

  lemma {:induction false} SameMembers(a: seq<int>, b: seq<int>)
    requires NoDup(a) && NoDup(b) && forall x :: x in a <==> x in b
    ensures multiset(a) == multiset(b)
  {
    forall x ensures multiset(a)[x] == multiset(b)[x] {
      NoDupCountsOne(a, x);
      NoDupCountsOne(b, x);
      assert x in a <==> x in b;
      assert x in multiset(a) <==> x in multiset(b);
    }
  }

  ghost predicate SiblingsOk(siblings: seq<Offering>, slots: seq<TimeSlot>, rooms: seq<Room>) {
    && NoDup(Ids(slots))
    && forall o :: o in siblings ==>
         && Sound(o, |slots|) && !RoomGate(o, rooms).Refused?
         && NoDup(LecturerIds(o)) && (o.fixedTimeSlotIds.Some? ==> NoDup(o.fixedTimeSlotIds.value))
  }

  lemma RoomsLegal(c: Candidate, siblings: seq<Offering>, slots: seq<TimeSlot>, rooms: seq<Room>, locked: map<int, int>)
    requires CandidateFor(c, siblings, slots, Some(rooms), locked) && SiblingsOk(siblings, slots, rooms)
    ensures c.isFixedRoom ==> c.roomId.Some?
    ensures c.roomId.None? ==> c.possibleRoomIds != []
  {
    hide LargestCount, GroupOf, Teaches, CohortSplit, AllowedSlots, IsLongestRun, BuildSlotLookup, Sound, Qualifying,
         CapacityById, Largest;
    assert siblings[0] in siblings;
  }

  lemma SlotsLegal(c: Candidate, siblings: seq<Offering>, slots: seq<TimeSlot>, rooms: seq<Room>, locked: map<int, int>)
    requires CandidateFor(c, siblings, slots, Some(rooms), locked) && SiblingsOk(siblings, slots, rooms)
    ensures NoDup(c.possibleTimeSlotIds)
  {
    hide LargestCount, GroupOf, Teaches, CohortSplit, PoolOf, IsLongestRun, BuildSlotLookup, Sound, RoomGate;
    assert siblings[0] in siblings;
  }

  lemma LecturersLegal(c: Candidate, siblings: seq<Offering>, slots: seq<TimeSlot>, rooms: seq<Room>,
                       locked: map<int, int>)
    requires CandidateFor(c, siblings, slots, Some(rooms), locked) && SiblingsOk(siblings, slots, rooms)
    ensures NoDup(c.lecturerPool) && c.lecturerPool != []
    ensures !c.MultiSibling() ==>
      c.lecturerIds != [] && NoDup(c.lecturerIds) && multiset(c.lecturerPool) == multiset(c.lecturerIds)
    ensures c.siblingLecturerGroups != [] && forall g :: g in c.siblingLecturerGroups ==> GroupOk(c, g)
  {
    hide LargestCount, CohortSplit, PoolOf, AllowedSlots, IsLongestRun, BuildSlotLookup, RoomGate;
    var primary := siblings[0];
    assert primary in siblings;
    assert primary.lecturers[0].id == LecturerIds(primary)[0];
    assert LecturerIds(primary)[0] in LecturerIds(primary);
    assert Teaches(siblings, LecturerIds(primary)[0]);
    AscendingIsNoDup(c.lecturerPool);
    if !c.MultiSibling() {
      OnlySibling(siblings);
      SameMembers(c.lecturerPool, c.lecturerIds);
    }
    forall g | g in c.siblingLecturerGroups ensures GroupOk(c, g) {
      var i :| 0 <= i < |siblings| && c.siblingLecturerGroups[i] == g;
      GroupLegal(c, siblings, g, siblings[i]);
    }
  }

  lemma OnlySibling(siblings: seq<Offering>)
    requires |siblings| == 1
    ensures forall l :: Teaches(siblings, l) <==> l in LecturerIds(siblings[0])
  {
    assert siblings[0] in siblings;
  }

  lemma GroupLegal(c: Candidate, siblings: seq<Offering>, g: seq<int>, o: Offering)
    requires o in siblings && GroupOf(g, o) && o.lecturers != [] && NoDup(LecturerIds(o))
    requires forall l :: l in c.lecturerPool <==> Teaches(siblings, l)
    ensures GroupOk(c, g)
  {
    AscendingIsNoDup(g);
    forall l | l in g ensures l in c.lecturerPool {
      assert l in LecturerIds(o);
      assert Teaches(siblings, l);
    }
  }

  lemma CandidateIsOk(c: Candidate, siblings: seq<Offering>, slots: seq<TimeSlot>, rooms: seq<Room>,
                      locked: map<int, int>)
    requires CandidateFor(c, siblings, slots, Some(rooms), locked) && SiblingsOk(siblings, slots, rooms)
    ensures CandidateOk(c) && c.lecturerPool != []
  {
    RoomsLegal(c, siblings, slots, rooms, locked);
    SlotsLegal(c, siblings, slots, rooms, locked);
    LecturersLegal(c, siblings, slots, rooms, locked);
    hide CandidateFor, SiblingsOk, GroupOk;
  }

  lemma AcceptedSiblings(offerings: seq<Offering>, slots: seq<TimeSlot>, rooms: seq<Room>, cohorts: seq<seq<Offering>>,
                         i: nat)
    requires InputOk(offerings, slots) && CohortsOf(cohorts, Accepted(offerings, |slots|, Some(rooms))) && i < |cohorts|
    ensures SiblingsOk(cohorts[i], slots, rooms)
  {
    hide CohortsOf, Accepted, Rejected, Sound, RoomGate, FirstFailedCheck, LecturerIds, Ids, NoDup, DistinctIds;
    ExactlyOne(offerings, |slots|, Some(rooms));
    AcceptedSound(offerings, |slots|, Some(rooms));
    CohortMembers(cohorts, Accepted(offerings, |slots|, Some(rooms)));
  }

  /** With rooms supplied, the validator's candidates are legal input for the search, whatever rooms are locked;
      in particular no cohort reaches the search without a lecturer. */
  lemma CandidatesAreOk(offerings: seq<Offering>, slots: seq<TimeSlot>, rooms: seq<Room>, locked: map<int, int>,
                        cs: seq<Candidate>, cohorts: seq<seq<Offering>>)
    requires InputOk(offerings, slots)
    requires CohortsOf(cohorts, Accepted(offerings, |slots|, Some(rooms))) &&
      CandidatesFor(cs, cohorts, slots, Some(rooms), locked)
    ensures CandidatesOk(cs) && forall i :: 0 <= i < |cs| ==> cs[i].lecturerPool != []
  {
    hide *;
    InputIsDistinct(offerings, slots);
    ExactlyOne(offerings, |slots|, Some(rooms));
    SiblingListsPartition(Accepted(offerings, |slots|, Some(rooms)), cs, cohorts, slots, Some(rooms), locked);
    CandidateAt(cs, cohorts, slots, Some(rooms), locked);
    forall i | 0 <= i < |cs| ensures CandidateOk(cs[i]) && cs[i].lecturerPool != [] {
      AcceptedSiblings(offerings, slots, rooms, cohorts, i);
      CandidateIsOk(cs[i], cohorts[i], slots, rooms, locked);
    }
    AllOk(cs);
  }

  lemma InputIsDistinct(offerings: seq<Offering>, slots: seq<TimeSlot>)
    requires InputOk(offerings, slots)
    ensures DistinctIds(offerings)
  {
  }

  lemma CandidateAt(cs: seq<Candidate>, cohorts: seq<seq<Offering>>, slots: seq<TimeSlot>, rooms: Option<seq<Room>>,
                    locked: map<int, int>)
    requires CandidatesFor(cs, cohorts, slots, rooms, locked)
    ensures |cs| == |cohorts| && forall i :: 0 <= i < |cs| ==> CandidateFor(cs[i], cohorts[i], slots, rooms, locked)
  {
  }

  lemma AllOk(cs: seq<Candidate>)
    requires DistinctOfferings(cs) && forall i :: 0 <= i < |cs| ==> CandidateOk(cs[i])
    ensures CandidatesOk(cs)
  {
  }

  // ---------------------------------------------------------------- input of the structural analysis

  /** Ids as the database assigns them. */
  ghost predicate IdsOk(offerings: seq<Offering>, slots: seq<TimeSlot>) {
    && (forall i :: 0 <= i < |slots| ==> slots[i].id >= 0)
    && forall o :: o in offerings ==>
         o.id >= 0 && (o.fixedTimeSlotIds.Some? ==> forall s :: s in o.fixedTimeSlotIds.value ==> s >= 0)
  }

  lemma CandidateForSsa(c: Candidate, siblings: seq<Offering>, slots: seq<TimeSlot>, rooms: Option<seq<Room>>,
                        locked: map<int, int>)
    requires CandidateFor(c, siblings, slots, rooms, locked) && IdsOk(siblings, slots)
    requires forall o :: o in siblings ==> NoDup(LecturerIds(o))
    ensures c.offeringId >= 0 && (forall s :: s in c.possibleTimeSlotIds ==> s >= 0) && NoDup(c.lecturerIds) &&
      NoDup(c.lecturerPool)
  {
    hide LargestCount, GroupOf, Teaches, CohortSplit, PoolOf, IsLongestRun, BuildSlotLookup, NoDup;
    assert siblings[0] in siblings;
    AscendingIsNoDup(c.lecturerPool);
  }

  /** The validator's candidates meet the input conditions of the structural analysis exactly when none is split into
      more than 100 sessions. */
  lemma CandidatesAreSsaInput(offerings: seq<Offering>, slots: seq<TimeSlot>, rooms: seq<Room>, locked: map<int, int>,
                              cs: seq<Candidate>, cohorts: seq<seq<Offering>>)
    requires InputOk(offerings, slots) && IdsOk(offerings, slots)
    requires CohortsOf(cohorts, Accepted(offerings, |slots|, Some(rooms))) &&
      CandidatesFor(cs, cohorts, slots, Some(rooms), locked)
    ensures SsaInput(cs) <==> forall c :: c in cs ==> c.parallelSessionCount <= 100
  {
    CandidatesAreOk(offerings, slots, rooms, locked, cs, cohorts);
    ExactlyOne(offerings, |slots|, Some(rooms));
    CohortMembers(cohorts, Accepted(offerings, |slots|, Some(rooms)));
    CandidateAt(cs, cohorts, slots, Some(rooms), locked);
    hide CandidateFor, CandidatesFor, CohortsOf, Accepted, Rejected, Verdict, CandidateOk, NoDup, LecturerIds,
         DistinctIds, Ids;
    forall c | c in cs
      ensures c.offeringId >= 0 && (forall s :: s in c.possibleTimeSlotIds ==> s >= 0) && NoDup(c.lecturerIds) &&
        NoDup(c.lecturerPool) {
      var i :| 0 <= i < |cs| && cs[i] == c;
      CandidateForSsa(c, cohorts[i], slots, Some(rooms), locked);
    }
  }

  // ---------------------------------------------------------------- the fragmentation flag

  /** The validator raises its flag exactly when the seeder finds no contiguous block and falls back. */
  lemma FlagAgrees(c: Candidate, siblings: seq<Offering>, slots: seq<TimeSlot>, rooms: Option<seq<Room>>)
    requires Describes(c, siblings, slots, rooms) && c.sessionDuration > 0
    ensures c.fragmentationRequired <==> Blocks(c.possibleTimeSlotIds, c.sessionDuration, BuildSlotLookup(slots)) == []
  {
    hide LargestCount, GroupOf, Teaches, PoolOf, AllowedSlots, IsLongestRun, BuildSlotLookup, Blocks, CohortSplit;
    BlocksExistIffRunFits(c.possibleTimeSlotIds, c.sessionDuration, BuildSlotLookup(slots), c.longestContiguousRun);
  }

  /** Without a raised flag, every candidate's sessions fit, which is what the conservation of teaching load needs. */
  lemma NoFlagAllFit(cs: seq<Candidate>, cohorts: seq<seq<Offering>>, slots: seq<TimeSlot>, rooms: Option<seq<Room>>,
                     locked: map<int, int>)
    requires CandidatesFor(cs, cohorts, slots, rooms, locked)
    requires forall c :: c in cs ==> c.sessionDuration > 0 && !c.fragmentationRequired
    ensures AllFit(cs, BuildSlotLookup(slots))
  {
    hide LargestCount, GroupOf, Teaches, PoolOf, AllowedSlots, IsLongestRun, BuildSlotLookup, CohortSplit;
    forall i | 0 <= i < |cs|
      ensures 0 < cs[i].sessionDuration <= cs[i].longestContiguousRun
      ensures IsLongestRun(cs[i].possibleTimeSlotIds, BuildSlotLookup(slots), cs[i].longestContiguousRun) {
      assert CandidateFor(cs[i], cohorts[i], slots, rooms, locked);
      assert cs[i] in cs;
    }
  }

  // ---------------------------------------------------------------- whom the sessions of the analysis list

  lemma PoolsAreComplete(cs: seq<Candidate>)
    requires CandidatesOk(cs)
    ensures PoolsComplete(cs)
  {
    forall c | c in cs && |c.siblingOfferingIds| <= 1 ensures forall l :: l in c.lecturerPool <==> l in c.lecturerIds {
      var i :| 0 <= i < |cs| && cs[i] == c;
      assert CandidateOk(cs[i]);
      SameMultiset(c.lecturerPool, c.lecturerIds);
      hide CandidateOk, CandidatesOk;
      forall l ensures l in c.lecturerPool <==> l in c.lecturerIds {
        assert l in Elements(c.lecturerPool) <==> l in Elements(c.lecturerIds);
      }
    }
  }

  lemma TaughtBy(c: Candidate, siblings: seq<Offering>, slots: seq<TimeSlot>, rooms: Option<seq<Room>>,
                 locked: map<int, int>)
    requires CandidateFor(c, siblings, slots, rooms, locked)
    ensures forall l :: l in c.lecturerPool <==> Teaches(siblings, l)
  {
    hide LargestCount, GroupOf, Teaches, CohortSplit, PoolOf, AllowedSlots, IsLongestRun, BuildSlotLookup;
  }

  /** The session nodes of a cohort list exactly the lecturers of its offerings. */
  lemma NodesListTeachers(offerings: seq<Offering>, slots: seq<TimeSlot>, rooms: seq<Room>, locked: map<int, int>,
                          cs: seq<Candidate>, cohorts: seq<seq<Offering>>, i: nat, k: int)
    requires InputOk(offerings, slots)
    requires CohortsOf(cohorts, Accepted(offerings, |slots|, Some(rooms))) &&
      CandidatesFor(cs, cohorts, slots, Some(rooms), locked)
    requires i < |cs|
    ensures PoolsComplete(cs) && i < |cohorts|
    ensures forall l :: l in NodeOf(cs[i], k).lecturerIds <==> Teaches(cohorts[i], l)
  {
    hide *;
    CandidatesAreOk(offerings, slots, rooms, locked, cs, cohorts);
    PoolsAreComplete(cs);
    CandidateAt(cs, cohorts, slots, Some(rooms), locked);
    TaughtBy(cs[i], cohorts[i], slots, Some(rooms), locked);
    NodeLecturers(cs, cs[i], k);
  }
}
