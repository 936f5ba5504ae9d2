/** The offerings as the validator receives them, and the two gates that an offering passes on its own. */
module Checks {
  import opened Prelude

  datatype Room = Room(id: int, capacity: int, facilities: seq<string>)

  datatype Lecturer = Lecturer(id: int, name: string, competencies: seq<string>)

  datatype Course = Course(sks: int, requiredFacilities: seq<string>, requiredCompetencies: seq<string>)

  /** mappingDefect: the row mapper found an orphan lecturer or room reference. */
  datatype Offering = Offering(
    id: int,
    courseId: int,
    course: Course,
    roomId: Option<int>,
    room: Option<Room>,
    lecturers: seq<Lecturer>,
    effectiveStudentCount: int,
    isFixed: bool,
    fixedTimeSlotIds: Option<seq<int>>,
    mappingDefect: bool)

  datatype Code =
    | CROSS_SEMESTER_DEFECT | INTEGRITY_NO_LECTURERS | INTEGRITY_NO_STUDENTS | ROOM_ZERO_CAPACITY
    | TEMPORAL_INSUFFICIENT | FACILITY_MISMATCH | LECTURER_INVALID | COMPETENCY_MISMATCH | POLICY_FIXED_NO_SLOTS
    | NO_FACILITY_MATCH | NO_ROOMS_QUALIFY | NO_CAPACITY_COMBINATION

  datatype Rejection = Rejection(offering: Offering, code: Code)

  // ---------------------------------------------------------------- session arithmetic

  /** Math.ceil(a / b) */
  function CeilDiv(a: int, b: int): int
    requires b > 0
  {
    (a + b - 1) / b
  }

  /** The seats of n sessions in rooms of one capacity. */
  function Seats(n: int, capacity: int): int { n * capacity }

  /** n sessions seat everyone, and no fewer do. */
  ghost predicate LeastSessions(n: int, students: int, capacity: int) {
    Seats(n, capacity) >= students && forall k :: Seats(k, capacity) >= students ==> n <= k
  }

  lemma CeilDivIsLeast(a: int, b: int)
    requires b > 0
    ensures LeastSessions(CeilDiv(a, b), a, b)
    ensures a > 0 ==> CeilDiv(a, b) >= 1
    ensures forall k :: Seats(k, b) >= a <==> CeilDiv(a, b) <= k
  {
    var n := CeilDiv(a, b);
    assert n * b <= a + b - 1 < n * b + b;
    forall k ensures Seats(k, b) >= a <==> n <= k {
      if n <= k {
        assert (k - n) * b >= 0;
        assert k * b == n * b + (k - n) * b;
      } else {
        assert (n - 1 - k) * b >= 0;
        assert n * b == k * b + (n - 1 - k) * b + b;
      }
    }
    assert Seats(n, b) >= a;
  }

  // ---------------------------------------------------------------- the sequential checks

  predicate HasAll(required: seq<string>, available: seq<string>) {
    forall f :: f in required ==> f in available
  }

  /** isLecturerEligibleForCourse */
  predicate Eligible(l: Lecturer, c: Course) {
    c.requiredCompetencies == [] || exists r :: r in c.requiredCompetencies && r in l.competencies
  }

  /** The first check that fails, in the validator's order. */
  function FirstFailedCheck(o: Offering, totalSlots: nat): Option<Code> {
    if o.mappingDefect then Some(CROSS_SEMESTER_DEFECT)
    else if o.lecturers == [] then Some(INTEGRITY_NO_LECTURERS)
    else if o.effectiveStudentCount <= 0 then Some(INTEGRITY_NO_STUDENTS)
    else if o.room.Some? && o.room.value.capacity <= 0 then Some(ROOM_ZERO_CAPACITY)
    else if o.room.None? && totalSlots <= 0 then Some(TEMPORAL_INSUFFICIENT)
    else if o.room.Some? && totalSlots < CeilDiv(o.effectiveStudentCount, o.room.value.capacity) then
      Some(TEMPORAL_INSUFFICIENT)
    else if o.room.Some? && !HasAll(o.course.requiredFacilities, o.room.value.facilities) then Some(FACILITY_MISMATCH)
    else if exists l :: l in o.lecturers && (l.id == 0 || l.name == "") then Some(LECTURER_INVALID)
    else if exists l :: l in o.lecturers && !Eligible(l, o.course) then Some(COMPETENCY_MISMATCH)
    else if o.isFixed && (o.fixedTimeSlotIds.None? || o.fixedTimeSlotIds.value == []) then Some(POLICY_FIXED_NO_SLOTS)
    else None
  }

  /** What an offering that passes every check looks like. */
  ghost predicate Sound(o: Offering, totalSlots: nat) {
    && !o.mappingDefect && o.effectiveStudentCount > 0 && o.lecturers != []
    && (forall l :: l in o.lecturers ==> l.id != 0 && l.name != "" && Eligible(l, o.course))
    && (o.isFixed ==> o.fixedTimeSlotIds.Some? && o.fixedTimeSlotIds.value != [])
    && (if o.room.None? then totalSlots > 0
        else o.room.value.capacity > 0
             && o.effectiveStudentCount <= Seats(totalSlots, o.room.value.capacity)
             && HasAll(o.course.requiredFacilities, o.room.value.facilities))
  }

  /** The codes of the sequential checks, in the validator's order. */
  function CheckOrder(): seq<Code> {
    [CROSS_SEMESTER_DEFECT, INTEGRITY_NO_LECTURERS, INTEGRITY_NO_STUDENTS, ROOM_ZERO_CAPACITY, TEMPORAL_INSUFFICIENT,
     FACILITY_MISMATCH, LECTURER_INVALID, COMPETENCY_MISMATCH, POLICY_FIXED_NO_SLOTS]
  }

  /** What each code says of the offering, whatever the other checks find. */
  ghost predicate Defect(o: Offering, totalSlots: nat, code: Code) {
    match code
    case CROSS_SEMESTER_DEFECT => o.mappingDefect
    case INTEGRITY_NO_LECTURERS => |o.lecturers| == 0
    case INTEGRITY_NO_STUDENTS => o.effectiveStudentCount <= 0
    case ROOM_ZERO_CAPACITY => o.room.Some? && o.room.value.capacity <= 0
    case TEMPORAL_INSUFFICIENT =>
      if o.room.None? then totalSlots == 0
      else o.room.value.capacity > 0 && Seats(totalSlots, o.room.value.capacity) < o.effectiveStudentCount
    case FACILITY_MISMATCH =>
      o.room.Some? && exists f :: f in o.course.requiredFacilities && f !in o.room.value.facilities
    case LECTURER_INVALID => exists l :: l in o.lecturers && !(l.id != 0 && l.name != "")
    case COMPETENCY_MISMATCH =>
      o.course.requiredCompetencies != [] &&
        exists l :: l in o.lecturers && forall r :: r in o.course.requiredCompetencies ==> r !in l.competencies
    case POLICY_FIXED_NO_SLOTS => o.isFixed && !(o.fixedTimeSlotIds.Some? && o.fixedTimeSlotIds.value != [])
    case _ => false
  }

  lemma FirstOfThree(o: Offering, n: nat)
    ensures var f := FirstFailedCheck(o, n);
      if Defect(o, n, CROSS_SEMESTER_DEFECT) then f == Some(CROSS_SEMESTER_DEFECT)
      else if Defect(o, n, INTEGRITY_NO_LECTURERS) then f == Some(INTEGRITY_NO_LECTURERS)
      else if Defect(o, n, INTEGRITY_NO_STUDENTS) then f == Some(INTEGRITY_NO_STUDENTS)
      else f.None? || f.value in CheckOrder()[3..]
  {
    hide CeilDiv, Eligible, HasAll;
  }

  lemma FirstOfSix(o: Offering, n: nat)
    requires !Defect(o, n, CROSS_SEMESTER_DEFECT) && !Defect(o, n, INTEGRITY_NO_LECTURERS) &&
      !Defect(o, n, INTEGRITY_NO_STUDENTS)
    ensures var f := FirstFailedCheck(o, n);
      if Defect(o, n, ROOM_ZERO_CAPACITY) then f == Some(ROOM_ZERO_CAPACITY)
      else if Defect(o, n, TEMPORAL_INSUFFICIENT) then f == Some(TEMPORAL_INSUFFICIENT)
      else if Defect(o, n, FACILITY_MISMATCH) then f == Some(FACILITY_MISMATCH)
      else if Defect(o, n, LECTURER_INVALID) then f == Some(LECTURER_INVALID)
      else if Defect(o, n, COMPETENCY_MISMATCH) then f == Some(COMPETENCY_MISMATCH)
      else if Defect(o, n, POLICY_FIXED_NO_SLOTS) then f == Some(POLICY_FIXED_NO_SLOTS)
      else f.None?
  {
    hide Seats, CeilDiv;
    if o.room.Some? && o.room.value.capacity > 0 {
      CeilDivIsLeast(o.effectiveStudentCount, o.room.value.capacity);
    }
  }

  /** An offering is rejected for the first defect in the list that it has, and only for one of these. */
  lemma RejectedForFirstDefect(o: Offering, totalSlots: nat)
    ensures forall i :: 0 <= i < |CheckOrder()| ==>
      (FirstFailedCheck(o, totalSlots) == Some(CheckOrder()[i]) <==>
        Defect(o, totalSlots, CheckOrder()[i]) && forall j :: 0 <= j < i ==> !Defect(o, totalSlots, CheckOrder()[j]))
    ensures FirstFailedCheck(o, totalSlots).None? <==>
      forall i :: 0 <= i < |CheckOrder()| ==> !Defect(o, totalSlots, CheckOrder()[i])
  {
    hide FirstFailedCheck, Defect;
    FirstOfThree(o, totalSlots);
    var codes := CheckOrder();
    if !Defect(o, totalSlots, codes[0]) && !Defect(o, totalSlots, codes[1]) && !Defect(o, totalSlots, codes[2]) {
      FirstOfSix(o, totalSlots);
    }
  }

  lemma ChecksDecideSound(o: Offering, totalSlots: nat)
    ensures FirstFailedCheck(o, totalSlots).None? <==> Sound(o, totalSlots)
  {
    if o.room.Some? && o.room.value.capacity > 0 {
      CeilDivIsLeast(o.effectiveStudentCount, o.room.value.capacity);
    }
  }

  // ---------------------------------------------------------------- the room gate

  /** new Map(allRooms.map(r => [r.id, r])), read only for capacities. */
  function CapacityById(rooms: seq<Room>): (m: map<int, int>)
    ensures forall r :: r in rooms ==> r.id in m
  {
    if rooms == [] then map[]
    else
      var last := rooms[|rooms| - 1];
      assert rooms == rooms[..|rooms| - 1] + [last];
      CapacityById(rooms[..|rooms| - 1])[last.id := last.capacity]
  }

  ghost predicate DistinctRooms(rooms: seq<Room>) {
    forall i, j :: 0 <= i < j < |rooms| ==> rooms[i].id != rooms[j].id
  }

  lemma {:induction false} CapacityOf(rooms: seq<Room>, r: Room)
    requires DistinctRooms(rooms) && r in rooms
    ensures CapacityById(rooms)[r.id] == r.capacity
  {
    var front, last := rooms[..|rooms| - 1], rooms[|rooms| - 1];
    assert rooms == front + [last];
    if r != last { CapacityOf(front, r); }
  }

  /** A free room choice must hold the offering; a split over several rooms only needs the facilities. */
  predicate Qualifies(o: Offering, r: Room) {
    (o.roomId.None? || r.capacity >= o.effectiveStudentCount) && HasAll(o.course.requiredFacilities, r.facilities)
  }

  /** allRooms.filter(...).map(r => r.id) */
  function Qualifying(o: Offering, rooms: seq<Room>): seq<int> {
    if rooms == [] then []
    else
      var last := rooms[|rooms| - 1];
      Qualifying(o, rooms[..|rooms| - 1]) + (if Qualifies(o, last) then [last.id] else [])
  }

  lemma {:induction false} QualifyingExact(o: Offering, rooms: seq<Room>)
    ensures forall id :: id in Qualifying(o, rooms) <==> exists r :: r in rooms && r.id == id && Qualifies(o, r)
  {
    if rooms != [] {
      var front, last := rooms[..|rooms| - 1], rooms[|rooms| - 1];
      assert rooms == front + [last];
      QualifyingExact(o, front);
      hide Qualifies;
      forall id ensures id in Qualifying(o, rooms) <==> exists r :: r in rooms && r.id == id && Qualifies(o, r) {
        if Qualifies(o, last) && last.id == id { assert last in rooms; }
      }
    }
  }

  lemma EmptyPool(o: Offering, rooms: seq<Room>)
    ensures Qualifying(o, rooms) == [] <==> forall r :: r in rooms ==> !Qualifies(o, r)
  {
    QualifyingExact(o, rooms);
    hide Qualifying, Qualifies;
    if r :| r in rooms && Qualifies(o, r) { assert r.id in Qualifying(o, rooms); }
    if Qualifying(o, rooms) != [] {
      var id := Qualifying(o, rooms)[0];
      assert id in Qualifying(o, rooms);
      var r :| r in rooms && r.id == id && Qualifies(o, r);
    }
  }

  /** Without a chosen room, the pool depends on the required facilities only. */
  lemma {:induction false} QualifyingSame(o: Offering, o': Offering, rooms: seq<Room>)
    requires o.roomId.None? && o'.roomId.None? && o.course.requiredFacilities == o'.course.requiredFacilities
    ensures Qualifying(o, rooms) == Qualifying(o', rooms)
  {
    if rooms != [] { QualifyingSame(o, o', rooms[..|rooms| - 1]); }
  }

  ghost predicate Known(ids: seq<int>, capacity: map<int, int>) {
    forall i :: 0 <= i < |ids| ==> ids[i] in capacity
  }

  /** Math.max over the capacities of the listed rooms. */
  function Largest(ids: seq<int>, capacity: map<int, int>): int
    requires ids != [] && Known(ids, capacity)
  {
    if |ids| == 1 then capacity[ids[0]]
    else Max(Largest(ids[..|ids| - 1], capacity), capacity[ids[|ids| - 1]])
  }

  lemma {:induction false} LargestIsMax(ids: seq<int>, capacity: map<int, int>)
    requires ids != [] && Known(ids, capacity)
    ensures forall id :: id in ids ==> capacity[id] <= Largest(ids, capacity)
    ensures exists id :: id in ids && capacity[id] == Largest(ids, capacity)
  {
    var front, last := ids[..|ids| - 1], ids[|ids| - 1];
    assert ids == front + [last];
    if |ids| > 1 {
      LargestIsMax(front, capacity);
      var id :| id in front && capacity[id] == Largest(front, capacity);
      assert id in ids && last in ids;
    } else {
      assert ids[0] in ids;
    }
  }

  /** Locked: keeps its room, no pool needed. sessions is the split over rooms of an offering without a room. */
  datatype RoomVerdict = Locked | Refused(code: Code) | Pooled(pool: seq<int>, sessions: Option<nat>)

  const MAX_PARALLEL_SESSIONS_HARD_CAP := 5

  lemma QualifyingKnown(o: Offering, rooms: seq<Room>)
    ensures Known(Qualifying(o, rooms), CapacityById(rooms))
  {
    QualifyingExact(o, rooms);
    hide Qualifying, CapacityById, Qualifies;
    var pool := Qualifying(o, rooms);
    forall i | 0 <= i < |pool| ensures pool[i] in CapacityById(rooms) {
      var id := pool[i];
      assert id in pool;
      var r :| r in rooms && r.id == id && Qualifies(o, r);
    }
  }

  function SessionsNeeded(students: int, largest: int): int
    requires largest > 0
  {
    if students > largest then CeilDiv(students, largest) else 1
  }

  /** One pass of the room loop. A largest capacity of 0 makes the program ask for infinitely many sessions. */
  function RoomGate(o: Offering, rooms: seq<Room>): RoomVerdict {
    QualifyingKnown(o, rooms);
    if o.isFixed && o.roomId.Some? then Locked
    else
      var pool := Qualifying(o, rooms);
      if pool == [] then Refused(if o.roomId.None? then NO_FACILITY_MATCH else NO_ROOMS_QUALIFY)
      else if o.roomId.Some? then Pooled(pool, None)
      else
        var largest := Largest(pool, CapacityById(rooms));
        if largest <= 0 then Refused(NO_CAPACITY_COMBINATION)
        else
          CeilDivIsLeast(o.effectiveStudentCount, largest);
          var needed := SessionsNeeded(o.effectiveStudentCount, largest);
          if needed > Min(MAX_PARALLEL_SESSIONS_HARD_CAP, |pool|) then Refused(NO_CAPACITY_COMBINATION)
          else Pooled(pool, Some(needed))
  }

  /** The students fit into n sessions of the largest qualifying room. */
  ghost predicate FitsIn(o: Offering, rooms: seq<Room>, n: int) {
    exists r :: r in rooms && Qualifies(o, r) && Seats(n, r.capacity) >= o.effectiveStudentCount
  }

  lemma SeatsGrow(n: nat, small: int, large: int)
    requires small <= large
    ensures Seats(n, small) <= Seats(n, large)
  {
    assert n * (large - small) >= 0;
    assert n * large == n * small + n * (large - small);
  }

  lemma LargestFits(o: Offering, rooms: seq<Room>, n: nat)
    requires DistinctRooms(rooms) && Qualifying(o, rooms) != []
    requires Known(Qualifying(o, rooms), CapacityById(rooms))
    ensures FitsIn(o, rooms, n) <==>
      Seats(n, Largest(Qualifying(o, rooms), CapacityById(rooms))) >= o.effectiveStudentCount
  {
    var pool, cap := Qualifying(o, rooms), CapacityById(rooms);
    QualifyingExact(o, rooms);
    LargestIsMax(pool, cap);
    hide Qualifying, Qualifies, CapacityById, Largest, Seats, DistinctRooms;
    if r :| r in rooms && Qualifies(o, r) && Seats(n, r.capacity) >= o.effectiveStudentCount {
      assert r.id in pool;
      CapacityOf(rooms, r);
      SeatsGrow(n, r.capacity, Largest(pool, cap));
    }
    if Seats(n, Largest(pool, cap)) >= o.effectiveStudentCount {
      var id :| id in pool && cap[id] == Largest(pool, cap);
      var r :| r in rooms && r.id == id && Qualifies(o, r);
      CapacityOf(rooms, r);
    }
  }

  /** An offering without a room is accepted exactly when some n of at most five sessions, at most one per
      qualifying room, seat it in the largest qualifying room; it then gets the least such n. */
  lemma SplitExact(o: Offering, rooms: seq<Room>)
    requires DistinctRooms(rooms) && o.roomId.None? && o.effectiveStudentCount > 0
    requires forall r :: r in rooms ==> r.capacity >= 0
    ensures RoomGate(o, rooms).Pooled? <==>
      exists n :: 1 <= n <= Min(MAX_PARALLEL_SESSIONS_HARD_CAP, |Qualifying(o, rooms)|) && FitsIn(o, rooms, n)
    ensures RoomGate(o, rooms) == Refused(NO_FACILITY_MATCH) <==> forall r :: r in rooms ==> !Qualifies(o, r)
    ensures var v := RoomGate(o, rooms);
      v.Pooled? ==> v.pool == Qualifying(o, rooms) && v.sessions.Some? && FitsIn(o, rooms, v.sessions.value)
    ensures var v := RoomGate(o, rooms);
      v.Pooled? ==> forall n: nat :: FitsIn(o, rooms, n) ==> v.sessions.value <= n
    ensures var v := RoomGate(o, rooms);
      v.Pooled? ==> 1 <= v.sessions.value <= Min(MAX_PARALLEL_SESSIONS_HARD_CAP, |v.pool|)
  {
    QualifyingKnown(o, rooms);
    QualifyingExact(o, rooms);
    var pool := Qualifying(o, rooms);
    EmptyPool(o, rooms);
    if pool != [] {
      var largest := Largest(pool, CapacityById(rooms));
      forall n: nat
        ensures FitsIn(o, rooms, n) <==> Seats(n, largest) >= o.effectiveStudentCount { LargestFits(o, rooms, n); }
      LargestNotNegative(pool, rooms);
      hide Qualifying, Qualifies, CapacityById, Largest, FitsIn, HasAll;
      SplitOfLargest(o.effectiveStudentCount, largest);
    }
  }

  /** The verdict of the room gate on any offering, each refusal with its own reason. */
  lemma GateExact(o: Offering, rooms: seq<Room>)
    requires DistinctRooms(rooms) && o.effectiveStudentCount > 0 && forall r :: r in rooms ==> r.capacity >= 0
    ensures RoomGate(o, rooms).Locked? <==> o.isFixed && o.roomId.Some?
    ensures RoomGate(o, rooms) == Refused(NO_ROOMS_QUALIFY) <==>
      o.roomId.Some? && !o.isFixed && forall r :: r in rooms ==> !Qualifies(o, r)
    ensures RoomGate(o, rooms) == Refused(NO_FACILITY_MATCH) <==>
      o.roomId.None? && forall r :: r in rooms ==> !Qualifies(o, r)
    ensures RoomGate(o, rooms) == Refused(NO_CAPACITY_COMBINATION) <==>
      && o.roomId.None? && (exists r :: r in rooms && Qualifies(o, r))
      && forall n :: 1 <= n <= Min(MAX_PARALLEL_SESSIONS_HARD_CAP, |Qualifying(o, rooms)|) ==> !FitsIn(o, rooms, n)
    ensures o.roomId.Some? && !o.isFixed && (exists r :: r in rooms && Qualifies(o, r)) ==>
      RoomGate(o, rooms) == Pooled(Qualifying(o, rooms), None)
  {
    EmptyPool(o, rooms);
    if o.roomId.None? { SplitExact(o, rooms); }
    hide Qualifies, FitsIn, Qualifying, CapacityById, SessionsNeeded;
    CodesOfGate(o, rooms);
  }

  lemma CodesOfGate(o: Offering, rooms: seq<Room>)
    ensures var v := RoomGate(o, rooms);
      && (v.Locked? <==> o.isFixed && o.roomId.Some?)
      && (v.Refused? ==> v.code == if Qualifying(o, rooms) != [] then NO_CAPACITY_COMBINATION
                                   else if o.roomId.None? then NO_FACILITY_MATCH else NO_ROOMS_QUALIFY)
      && (!v.Locked? && o.roomId.Some? ==>
            v == if Qualifying(o, rooms) == [] then Refused(NO_ROOMS_QUALIFY) else Pooled(Qualifying(o, rooms), None))
  {
    hide Qualifying, Largest, CapacityById, SessionsNeeded;
  }

  lemma LargestNotNegative(pool: seq<int>, rooms: seq<Room>)
    requires forall r :: r in rooms ==> r.capacity >= 0
    requires pool != [] && Known(pool, CapacityById(rooms))
    ensures Largest(pool, CapacityById(rooms)) >= 0
  {
    LargestIsMax(pool, CapacityById(rooms));
    CapacitiesNotNegative(rooms);
  }

  lemma {:induction false} CapacitiesNotNegative(rooms: seq<Room>)
    requires forall r :: r in rooms ==> r.capacity >= 0
    ensures forall id :: id in CapacityById(rooms) ==> CapacityById(rooms)[id] >= 0
  {
    if rooms != [] { CapacitiesNotNegative(rooms[..|rooms| - 1]); }
  }

  lemma SplitOfLargest(students: int, largest: int)
    requires students > 0 && largest >= 0
    ensures largest > 0 ==>
      LeastSessions(SessionsNeeded(students, largest), students, largest) && SessionsNeeded(students, largest) >= 1
    ensures largest > 0 ==> forall n :: Seats(n, largest) >= students <==> SessionsNeeded(students, largest) <= n
    ensures largest == 0 ==> forall n :: Seats(n, largest) < students
  {
    if largest > 0 {
      CeilDivIsLeast(students, largest);
      if students <= largest {
        assert Seats(1, largest) >= students;
        assert CeilDiv(students, largest) == 1;
      }
    }
  }
}
