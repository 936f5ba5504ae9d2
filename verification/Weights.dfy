/** Two legal timetables of one problem for which a violation does not always lose. */
module Weights {
  import opened Prelude
  import opened Candidates
  import opened Timetable
  import opened Genes
  import opened Fitness
  import opened Penalties
  import opened WellFormed
  import opened Operators
  import opened Repair
  import opened Admissibility
  import opened Grid
  import opened Evolution

  /** A course of 250 students without a room, which may use rooms 1 and 2. */
  function Large(): Candidate {
    Candidate(1, 1, None, [5], 250, 1, 1, [0], [1, 2], false, [1], [5], [[5]], 1, false)
  }

  /** A course locked in room 1. */
  function Small(): Candidate {
    Candidate(2, 2, Some(1), [6], 10, 1, 1, [0], [], true, [2], [6], [[6]], 1, false)
  }

  function Both(): seq<Candidate> { [Large(), Small()] }

  /** Room 1 has 250 seats and room 2 has 100. */
  function Seats(): map<int, int> { map[1 := 250, 2 := 100] }

  /** One slot, no limits on lecturers and no other penalties. */
  function OneSlot(): Problem {
    Problem(Both(), GridOf(1, 1), [GridSlot(0, 1)], Some(Seats()), map[], _ => 0, _ => 0)
  }

  function Defaults(): Config { Config(20, 100, 0.1, 2, 3, Uniform, 100.0, 1.0) }

  /** The large course in the given room, the small one in its own. */
  function LargeIn(room: int): seq<GeneData> {
    [GeneData(FLEXIBLE, 1, [SessionData(room, [0], [5])]), GeneData(FIXED, 2, [SessionData(1, [0], [6])])]
  }

  lemma BothOk()
    ensures CandidateOk(Large()) && CandidateOk(Small()) && CandidatesOk(Both()) && LookupOk(GridOf(1, 1))
    ensures NoDup(Large().possibleTimeSlotIds) && NoDup(Small().possibleTimeSlotIds)
    ensures Large().sessionDuration == Small().sessionDuration == 1
    ensures !Large().isFixedRoom && Small().isFixedRoom && Large().parallelSessionCount == 1
    ensures Small().parallelSessionCount == 1 && Large().offeringId == 1 && Small().offeringId == 2
    ensures Both() == [Large(), Small()] && Large().roomId == None && Small().roomId == Some(1)
    ensures Large().effectiveStudentCount == 250 && !Large().MultiSibling() && !Small().MultiSibling()
    ensures Large().lecturerIds == [5] && Small().lecturerIds == [6]
    ensures 0 in Large().possibleTimeSlotIds && 0 in Small().possibleTimeSlotIds && 0 in GridOf(1, 1)
    ensures 1 in Large().possibleRoomIds && 2 in Large().possibleRoomIds
  {
    GridLookup(1, 1);
    GridAt(0, 1, 1);
    assert Large().possibleRoomIds[0] == 1 && Large().possibleRoomIds[1] == 2;
    assert Large().possibleTimeSlotIds[0] == 0 && Small().possibleTimeSlotIds[0] == 0;
    hide GridOf;
  }

  lemma OnlySlot(c: Candidate)
    requires c == Large() || c == Small()
    ensures SlotsOk(c, GridOf(1, 1), [0])
  {
    hide *;
    BothOk();
    UnitBlock(c, GridOf(1, 1), 0);
    BlockIsLegal(c, GridOf(1, 1), [0]);
  }

  lemma Choices(room: int)
    requires room == 1 || room == 2
    ensures CandidateOk(Large()) && RoomOk(Large(), room) && LecturersOk(Large(), 0, [5])
    ensures CandidateOk(Small()) && RoomOk(Small(), 1) && LecturersOk(Small(), 0, [6])
  {
    BothOk();
    hide Large, Small, Both, GridOf, CandidateOk, CandidatesOk, LookupOk;
  }

  lemma LargeInIsLegal(room: int)
    requires room == 1 || room == 2
    ensures CandidatesOk(Both()) && ChromosomeOk(Both(), GridOf(1, 1), LargeIn(room))
  {
    hide *;
    BothOk();
    Choices(room);
    OnlySlot(Large());
    OnlySlot(Small());
    LociAre(room);
    SessionBy(Large(), GridOf(1, 1), 0, room, [0], [5]);
    SessionBy(Small(), GridOf(1, 1), 0, 1, [0], [6]);
    GeneBy(Large(), GridOf(1, 1), LargeIn(room)[0]);
    GeneBy(Small(), GridOf(1, 1), LargeIn(room)[1]);
    TwoGenesOk(Large(), Small(), GridOf(1, 1), LargeIn(room)[0], LargeIn(room)[1]);
    assert LargeIn(room) == [LargeIn(room)[0], LargeIn(room)[1]];
  }

  lemma LociAre(room: int)
    ensures LargeIn(room) ==
      [GeneData(FLEXIBLE, 1, [SessionData(room, [0], [5])]), GeneData(FIXED, 2, [SessionData(1, [0], [6])])]
  {
  }

  lemma OneSlotOk()
    ensures ProblemOk(OneSlot()) && ConfigOk(Defaults())
  {
    BothOk();
    OnlySlotListed();
    hide CandidatesOk, CandidateOk, Large, Small, LookupOk, GridOf, Enumerates;
  }

  lemma OnlySlotListed()
    ensures Enumerates([GridSlot(0, 1)], GridOf(1, 1))
  {
    GridAt(0, 1, 1);
    assert [GridSlot(0, 1)][0] == GridSlot(0, 1);
  }

  lemma {:induction false} SessionsAre(room: int)
    ensures AllSessions(LargeIn(room), CandidateMap(Both())) == [SessionData(room, [0], [5]), SessionData(1, [0], [6])]
  {
    hide *;
    var v, cm := LargeIn(room), CandidateMap(Both());
    LociAre(room);
    Known();
    OneGene(v[0], cm, 0);
    OneGene(v[1], cm, 0);
    AllSessionsConcat([v[0]], [v[1]], cm);
    assert v == [v[0]] + [v[1]];
  }

  lemma Known()
    ensures 1 in CandidateMap(Both()) && CandidateMap(Both())[1] == Large()
    ensures 2 in CandidateMap(Both()) && CandidateMap(Both())[2] == Small()
  {
    hide *;
    BothOk();
    DistinctBoth();
    CandidateMapAt(Both(), 0);
    CandidateMapAt(Both(), 1);
  }

  lemma DistinctBoth()
    ensures DistinctOfferings(Both())
  {
  }

  lemma Repeated(room: int)
    requires room == 1 || room == 2
    ensures HardCount([SessionData(room, [0], [5]), SessionData(1, [0], [6])]) == if room == 1 then 1 else 0
  {
    var a, b := SessionData(room, [0], [5]), SessionData(1, [0], [6]);
    assert [a, b] == [a] + [b];
    KeysOfConcat([a], [b]);
    KeysOfOne(a);
    KeysOfOne(b);
    assert LecKeysUpTo(a, 1) == LecKeysUpTo(a, 0) + LecturersAt([5], 0);
    assert LecKeysUpTo(b, 1) == LecKeysUpTo(b, 0) + LecturersAt([6], 0);
    assert AllRoomKeys([a, b]) == [(room, 0), (1, 0)] && AllLecKeys([a, b]) == [(5, 0), (6, 0)];
    hide AllRoomKeys, AllLecKeys, RoomKeys, LecKeysUpTo;
    PairElements((room, 0), (1, 0));
    PairElements((5, 0), (6, 0));
  }

  lemma PairElements(x: (int, int), y: (int, int))
    ensures Elements([x, y]) == {x, y}
  {
    assert [x, y][0] == x && [x, y][1] == y;
  }

  lemma {:induction false} NoLimitNoLoad(order: seq<int>, ss: seq<SessionData>)
    ensures OverloadSum(order, ss, map[]) == 0
  {
    if order != [] { NoLimitNoLoad(order[..|order| - 1], ss); }
  }

  lemma OneSlotNoGaps(lookup: SlotLookup, values: seq<TimeSlot>, a: SessionData, b: SessionData)
    requires |a.timeSlotIds| == |b.timeSlotIds| == 1
    ensures AllGaps(lookup, values, [a, b]) == 0
  {
    assert [a, b][..1] == [a] && [a][..0] == [];
    assert AllGaps(lookup, values, [a]) == AllGaps(lookup, values, []) + GapsOf(lookup, values, a);
  }

  lemma MissingSeats(room: int)
    requires room == 1 || room == 2
    ensures TotalShortfall(LargeIn(room), CandidateMap(Both()), Seats()) == if room == 1 then 0 else 150
  {
    Known();
    BothOk();
    LociAre(room);
    var v, cm, g := LargeIn(room), CandidateMap(Both()), SessionData(room, [0], [5]);
    hide CandidateMap, Large, Small, Both, LargeIn, CandidatesOk, CandidateOk, GridOf;
    assert v[..1] == [v[0]] && [v[0]][..0] == [] && [g][..0] == [];
    assert CombinedCapacity([g], Seats()) == CapacityOf(Seats(), room);
    assert TotalShortfall([v[0]], cm, Seats()) == Shortfall(v[0], Large(), Seats());
    assert Shortfall(v[1], Small(), Seats()) == 0;
  }

  /** In room 2 the large course collides with nobody and misses 150 seats; in room 1 it collides and misses none. */
  lemma CountsOf(room: int)
    requires room == 1 || room == 2
    ensures HardOf(OneSlot(), LargeIn(room)) == if room == 1 then 1 else 0
    ensures SoftOf(OneSlot(), LargeIn(room)) == if room == 1 then 0 else 150
  {
    hide *;
    var v, p, a, b := LargeIn(room), OneSlot(), SessionData(room, [0], [5]), SessionData(1, [0], [6]);
    OneSlotFields(v);
    SessionsAre(room);
    Repeated(room);
    MissingSeats(room);
    NoLimitNoLoad(LecturerOrder([a, b]), [a, b]);
    OneSlotNoGaps(p.lookup, p.slotsInOrder, a, b);
    CountsAre(p, v, [a, b], Seats());
  }

  lemma OneSlotFields(v: seq<GeneData>)
    ensures OneSlot().candidates == Both() && OneSlot().roomById == Some(Seats()) && OneSlot().maxSks == map[]
    ensures OneSlot().competencyMismatch(v) == 0 && OneSlot().otherSoftPenalty(v) == 0
  {
    hide Both, Seats, GridOf;
  }

  lemma CountsAre(p: Problem, v: seq<GeneData>, ss: seq<SessionData>, seats: map<int, int>)
    requires AllSessions(v, CandidateMap(p.candidates)) == ss && p.roomById == Some(seats)
    ensures HardOf(p, v) == HardCount(ss) + p.competencyMismatch(v)
    ensures SoftOf(p, v) == p.otherSoftPenalty(v) + OverloadSum(LecturerOrder(ss), ss, p.maxSks) +
      TotalShortfall(v, CandidateMap(p.candidates), seats) + AllGaps(p.lookup, p.slotsInOrder, ss)
  {
    hide AllSessions, CandidateMap, HardCount, TotalShortfall, AllGaps, OverloadSum, LecturerOrder;
  }

  /** With the default weights a legal timetable with a violation beats a legal one without: the seats missing in the
      smaller room weigh more than the collision in the larger one. */
  lemma ViolationMayWin()
    ensures ProblemOk(OneSlot()) && ConfigOk(Defaults())
    ensures Defaults().hardPenaltyWeight == 100.0 && Defaults().softPenaltyWeight == 1.0
    ensures Legal(OneSlot(), [LargeIn(1), LargeIn(2)])
    ensures HardOf(OneSlot(), LargeIn(1)) == 1 && HardOf(OneSlot(), LargeIn(2)) == 0
    ensures FitOf(OneSlot(), Defaults(), LargeIn(1)) > FitOf(OneSlot(), Defaults(), LargeIn(2))
  {
    hide *;
    OneSlotOk();
    CountsOf(1);
    CountsOf(2);
    LargeInIsLegal(1);
    LargeInIsLegal(2);
    BothLegal();
    WeighedAs(LargeIn(1), 1, 0);
    WeighedAs(LargeIn(2), 0, 150);
    HeavierLoses();
  }

  lemma BothLegal()
    requires ProblemOk(OneSlot()) && CandidatesOk(Both())
    requires ChromosomeOk(Both(), GridOf(1, 1), LargeIn(1)) && ChromosomeOk(Both(), GridOf(1, 1), LargeIn(2))
    ensures Legal(OneSlot(), [LargeIn(1), LargeIn(2)])
  {
    hide ChromosomeOk, CandidatesOk, LargeIn, Both, GridOf, LookupOk;
  }

  lemma WeighedAs(v: seq<GeneData>, hard: nat, soft: nat)
    requires HardOf(OneSlot(), v) == hard && SoftOf(OneSlot(), v) == soft
    ensures ConfigOk(Defaults()) && FitOf(OneSlot(), Defaults(), v) == FitnessOf(hard, soft, 100.0, 1.0)
    ensures Defaults().hardPenaltyWeight == 100.0 && Defaults().softPenaltyWeight == 1.0
  {
    hide HardOf, SoftOf, OneSlot, FitnessOf;
  }

  lemma HeavierLoses()
    ensures FitnessOf(1, 0, 100.0, 1.0) > FitnessOf(0, 150, 100.0, 1.0)
  {
  }
}
