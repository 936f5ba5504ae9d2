/** A violation-free timetable that every repair spoils, although the structural verdict on it is FEASIBLE. */
module Spoiled {
  import opened Prelude
  import opened Candidates
  import opened Timetable
  import opened Genes
  import opened Fitness
  import opened WellFormed
  import opened RepairSession
  import opened Repair
  import opened Outcomes
  import opened LastResort
  import opened CleanInput
  import opened Ssa
  import opened Admissibility
  import opened Grid

  /** Three days of one slot. */
  function Week(): SlotLookup { GridOf(3, 1) }

  /** A team-taught course, locked in room 3, at slot 1 or 2. */
  function Team(): Candidate {
    Candidate(1, 1, Some(3), [5, 6], 10, 1, 1, [1, 2], [], true, [1], [5, 6], [[5, 6]], 1, false)
  }

  /** Two parallel sessions in rooms 1 and 2 at slot 0 or 1, taught by the same two lecturers, one each. */
  function Split(): Candidate {
    Candidate(2, 2, None, [5], 10, 2, 1, [0, 1], [1, 2], false, [2, 3], [5, 6], [[5], [6]], 1, false)
  }

  function Courses(): seq<Candidate> { [Team(), Split()] }

  function TeamAt1(): SessionData { SessionData(3, [1], [5, 6]) }

  function First(): SessionData { SessionData(1, [0], [5]) }

  function Second(): SessionData { SessionData(2, [0], [6]) }

  /** The team at slot 1 and both parallel sessions at slot 0, in different rooms with different lecturers. */
  function Input(): seq<GeneData> {
    [GeneData(FIXED, 1, [TeamAt1()]), GeneData(FLEXIBLE, 2, [First(), Second()])]
  }

  // ---------------------------------------------------------------- the input is legal, clean and FEASIBLE

  lemma CoursesOk()
    ensures CandidateOk(Team()) && CandidateOk(Split()) && CandidatesOk(Courses())
  {
    TwoDiffer(5, 6);
    TwoDiffer(1, 2);
    TwoDiffer(0, 1);
    var c := Split();
    assert c.possibleRoomIds[0] == 1;
    forall g | g in c.siblingLecturerGroups ensures GroupOk(c, g) {
      assert c.lecturerPool[0] == 5 && c.lecturerPool[1] == 6;
    }
  }

  lemma TwoDiffer(x: int, y: int)
    requires x != y
    ensures NoDup([x, y])
  {
  }

  lemma DayBlock(c: Candidate, slot: nat)
    requires c == Team() || c == Split()
    requires slot in c.possibleTimeSlotIds && slot < 3
    ensures [slot] in FullBlocks(c, Week()) && SlotsOk(c, Week(), [slot])
  {
    CoursesOk();
    GridLookup(3, 1);
    CandidateLists(c);
    hide Blocks, GridOf, CandidateOk, SlotsOk, NoDup;
    assert Range(slot, 1) == [slot];
    GridBlock(slot, 1, c.possibleTimeSlotIds, 3, 1);
    BlockIsLegal(c, Week(), [slot]);
  }

  lemma SplitBlocks(b: seq<int>)
    requires b in FullBlocks(Split(), Week())
    ensures b == [0] || b == [1]
  {
    CoursesOk();
    hide Blocks, GridOf;
    GridBlockIsRange(b, Split().possibleTimeSlotIds, 1, 3, 1);
    assert b == [b[0]];
  }

  lemma CourseFacts()
    ensures LookupOk(Week()) && CandidatesOk(Courses()) && CandidateOk(Team()) && CandidateOk(Split())
    ensures Courses() == [Team(), Split()] && Team().offeringId == 1 && Split().offeringId == 2
    ensures Team().isFixedRoom && !Split().isFixedRoom && !Team().MultiSibling() && Split().MultiSibling()
    ensures Team().parallelSessionCount == 1 && Split().parallelSessionCount == 2
    ensures Team().sessionDuration == Split().sessionDuration == 1
    ensures Team().roomId == Some(3) && Split().roomId == None
    ensures forall l :: l in Split().lecturerPool <==> l == 5 || l == 6
    ensures forall r :: r in Split().possibleRoomIds <==> r == 1 || r == 2
    ensures forall s :: s in Split().possibleTimeSlotIds <==> s == 0 || s == 1
    ensures forall s :: s in Team().possibleTimeSlotIds <==> s == 1 || s == 2
    ensures Team().lecturerIds == [5, 6]
  {
    CoursesOk();
    GridLookup(3, 1);
    TwoMembers(5, 6);
    TwoMembers(1, 2);
    TwoMembers(0, 1);
    hide GridOf, CandidateOk, CandidatesOk, LookupOk;
  }

  lemma TwoMembers(x: int, y: int)
    ensures forall z :: z in [x, y] <==> z == x || z == y
  {
    assert [x, y][0] == x && [x, y][1] == y;
  }

  /** A one-slot session of a parallel group with one of the two lecturers is legal. */
  lemma SplitSessionOk(k: nat, room: int, slot: nat, l: int)
    requires k < 2 && (room == 1 || room == 2) && (slot == 0 || slot == 1) && (l == 5 || l == 6)
    ensures CandidateOk(Split()) && SessionOk(Split(), Week(), k, SessionData(room, [slot], [l]))
  {
    hide *;
    CourseFacts();
    DayBlock(Split(), slot);
    SplitChoices(k, room, l);
    SessionBy(Split(), Week(), k, room, [slot], [l]);
  }

  lemma SplitChoices(k: nat, room: int, l: int)
    requires k < 2 && (room == 1 || room == 2) && (l == 5 || l == 6)
    ensures CandidateOk(Split()) && RoomOk(Split(), room) && LecturersOk(Split(), k, [l])
  {
    CourseFacts();
    SplitSeeds(k);
    hide Team, Split, Week, Courses, CandidateOk, CandidatesOk, LookupOk, SeededLecturers;
  }

  lemma SplitSeeds(k: nat)
    requires k < 2
    ensures |SeededLecturers(Split(), k)| == 1
  {
  }

  lemma TeamSessionOk()
    ensures CandidateOk(Team()) && SessionOk(Team(), Week(), 0, TeamAt1())
  {
    hide *;
    CourseFacts();
    DayBlock(Team(), 1);
    TeamChoices();
    SessionBy(Team(), Week(), 0, 3, [1], [5, 6]);
    SessionsAre();
  }

  lemma TeamChoices()
    ensures CandidateOk(Team()) && RoomOk(Team(), 3) && LecturersOk(Team(), 0, [5, 6])
  {
    CourseFacts();
    hide Team, Split, Week, Courses, CandidateOk, CandidatesOk, LookupOk;
  }

  lemma SessionsAre()
    ensures TeamAt1() == SessionData(3, [1], [5, 6]) && First() == SessionData(1, [0], [5])
    ensures Second() == SessionData(2, [0], [6])
    ensures Input() == [GeneData(FIXED, 1, [TeamAt1()]), GeneData(FLEXIBLE, 2, [First(), Second()])]
  {
  }

  lemma InputIsLegal()
    ensures LookupOk(Week()) && CandidatesOk(Courses()) && ChromosomeOk(Courses(), Week(), Input())
  {
    hide *;
    CourseFacts();
    SessionsAre();
    TeamSessionOk();
    SplitSessionOk(0, 1, 0, 5);
    SplitSessionOk(1, 2, 0, 6);
    GeneBy(Team(), Week(), Input()[0]);
    GeneBy(Split(), Week(), Input()[1]);
    TwoGenesOk(Team(), Split(), Week(), Input()[0], Input()[1]);
    assert Input() == [Input()[0], Input()[1]];
  }

  lemma {:induction false} SessionsOfTwo(v: seq<GeneData>, w: seq<GeneData>)
    requires |v| == 2 && v[0].offeringId == 1 && v[1].offeringId == 2
    requires |w| == 2 && w[0].offeringId == 1 && w[1].offeringId == 2
    ensures AllSessions(v, CandidateMap(Courses())) == v[0].sessions + v[1].sessions
    ensures AllSessions(v[..0], CandidateMap(Courses())) + AllSessions(w[1..], CandidateMap(Courses())) == w[1].sessions
    ensures AllSessions(v[..1], CandidateMap(Courses())) + AllSessions(w[2..], CandidateMap(Courses())) == v[0].sessions
  {
    hide *;
    var cm := CandidateMap(Courses());
    KnownCourses();
    assert v[..0] == [] && w[2..] == [] && v[..1] == [v[0]] && w[1..] == [w[1]] && v == [v[0]] + [v[1]];
    OneGene(v[0], cm, 0);
    OneGene(v[1], cm, 0);
    OneGene(w[1], cm, 0);
    NothingCounted(cm);
    AllSessionsConcat([v[0]], [v[1]], cm);
  }

  lemma KnownCourses()
    ensures 1 in CandidateMap(Courses()) && 2 in CandidateMap(Courses())
  {
    InCourses();
    CourseFacts();
    hide CandidateMap, Courses, Team, Split, Week, CandidateOk, CandidatesOk, LookupOk;
  }

  lemma InputIsClean()
    ensures HardCount(AllSessions(Input(), CandidateMap(Courses()))) == 0
  {
    hide *;
    InputIsLegal();
    SessionsAre();
    SessionsOfTwo(Input(), Input());
    CleanIffApart(Courses(), Week(), Input());
    InputIsApart();
    assert Input()[0].sessions + Input()[1].sessions == [TeamAt1(), First(), Second()];
  }

  lemma InputIsApart()
    ensures PairwiseApart([TeamAt1(), First(), Second()])
  {
    assert Apart(TeamAt1(), First()) && Apart(TeamAt1(), Second()) && Apart(First(), Second());
  }

  lemma CoursesNodes()
    ensures AllNodes(Courses()) == [NodeOf(Team(), 0), NodeOf(Split(), 0), NodeOf(Split(), 1)]
  {
    assert Courses()[..1] == [Team()] && [Team()][..0] == [];
    assert NodesOf(Team(), 1) == [NodeOf(Team(), 0)];
    assert NodesOf(Split(), 2) == [NodeOf(Split(), 0), NodeOf(Split(), 1)];
    assert AllNodes([Team()]) == NodesOf(Team(), 1);
  }

  lemma NothingExcluded(c: Candidate)
    requires c == Team() || c == Split()
    ensures AfterExclusion(c, LockedCoordinates(Courses())) == c
  {
    var locked := LockedCoordinates(Courses());
    if c == Split() {
      assert forall s :: (c.roomId, s) !in locked;
      NothingLocked(c.possibleTimeSlotIds, c.roomId, locked);
    }
  }

  lemma MayStart(c: Candidate, slot: nat)
    requires (c == Team() || c == Split()) && slot in c.possibleTimeSlotIds && slot < 3
    ensures slot in StartsFor(Courses(), c, Week())
  {
    hide *;
    NothingExcluded(c);
    DayBlock(c, slot);
    BlockMayStart(c, Week(), [slot]);
    StartsIfKept(Courses(), c, Week(), slot);
  }

  lemma StartsIfKept(cs: seq<Candidate>, c: Candidate, lookup: SlotLookup, slot: int)
    requires AfterExclusion(c, LockedCoordinates(cs)) == c && slot in BlockStarts(c, Some(lookup))
    ensures slot in StartsFor(cs, c, lookup)
  {
    hide AfterExclusion, LockedCoordinates, BlockStarts;
  }

  lemma BlockMayStart(c: Candidate, lookup: SlotLookup, b: seq<int>)
    requires b in FullBlocks(c, lookup) && b != []
    ensures b[0] in BlockStarts(c, Some(lookup))
  {
    hide Blocks;
  }

  lemma VerdictIsFeasible()
    ensures Feasible(Courses(), Week())
  {
    hide *;
    CourseFacts();
    CoursesNodes();
    CoursesAreInput();
    MayStart(Team(), 2);
    MayStart(Split(), 0);
    MayStart(Split(), 1);
    InCourses();
    OwnerIs(Courses(), Team(), 0);
    OwnerIs(Courses(), Split(), 0);
    OwnerIs(Courses(), Split(), 1);
    ThreeStarts(Courses(), Week(), [2, 0, 1]);
    FeasibleIffStarts(Courses(), Week());
  }

  lemma InCourses()
    ensures DistinctOfferings(Courses()) && Team() in Courses() && Split() in Courses()
  {
    CourseFacts();
    assert Courses()[0] == Team() && Courses()[1] == Split();
    hide Team, Split, Courses, Week, LookupOk, CandidateOk;
  }

  lemma ThreeStarts(cs: seq<Candidate>, lookup: SlotLookup, starts: seq<int>)
    requires |starts| == |AllNodes(cs)| == 3
    requires starts[0] != starts[1] && starts[0] != starts[2] && starts[1] != starts[2]
    requires Owned(cs, AllNodes(cs)[0]) && Owned(cs, AllNodes(cs)[1]) && Owned(cs, AllNodes(cs)[2])
    requires starts[0] in StartsFor(cs, OwnerOf(cs, AllNodes(cs)[0]), lookup)
    requires starts[1] in StartsFor(cs, OwnerOf(cs, AllNodes(cs)[1]), lookup)
    requires starts[2] in StartsFor(cs, OwnerOf(cs, AllNodes(cs)[2]), lookup)
    ensures StartsOk(cs, lookup, starts)
  {
    hide AllNodes, StartsFor, CandidateMap;
  }

  lemma CoursesAreInput()
    ensures SsaInput(Courses())
  {
    TwoDiffer(5, 6);
    TwoMembers(1, 2);
    TwoMembers(0, 1);
    assert NoDup([5]);
  }

  // ---------------------------------------------------------------- every repair spoils it

  /** The bookings of the two parallel sessions, and of the team. */
  lemma KeysOfInput()
    ensures AllRoomKeys([First(), Second()]) == [(1, 0), (2, 0)] && AllLecKeys([First(), Second()]) == [(5, 0), (6, 0)]
    ensures AllRoomKeys([TeamAt1()]) == [(3, 1)] && AllLecKeys([TeamAt1()]) == [(5, 1), (6, 1)]
  {
    var a, b, t := First(), Second(), TeamAt1();
    assert [a, b] == [a] + [b];
    KeysOfConcat([a], [b]);
    KeysOfOne(a);
    KeysOfOne(b);
    KeysOfOne(t);
    assert LecKeysUpTo(a, 1) == LecKeysUpTo(a, 0) + LecturersAt([5], 0);
    assert LecKeysUpTo(b, 1) == LecKeysUpTo(b, 0) + LecturersAt([6], 0);
    assert LecKeysUpTo(t, 1) == LecKeysUpTo(t, 0) + LecturersAt([5, 6], 1);
  }

  /** Beside the team and the first session, the second one has no block left. */
  lemma SecondIsStuck(index: ConflictIndex, s: SessionData)
    requires IndexOf(index, [TeamAt1()])
    requires s.timeSlotIds == [0] || s.timeSlotIds == [1]
    requires exists l :: l in s.lecturerIds && (l == 5 || l == 6)
    ensures !Clean(s, index, {0})
  {
    KeysOfInput();
    hide AllRoomKeys, AllLecKeys, TeamAt1, First, Second;
    if s.timeSlotIds == [1] {
      var l :| l in s.lecturerIds && (l == 5 || l == 6);
      assert 1 in s.timeSlotIds;
      TeamTeaches(l);
      assert (l, 1) in index.lecturerTimeUsed.Keys;
    } else {
      assert 0 in s.timeSlotIds;
    }
  }

  lemma TeamTeaches(l: int)
    requires l == 5 || l == 6
    ensures (l, 1) in Elements([(5, 1), (6, 1)])
  {
    assert [(5, 1), (6, 1)][0] == (5, 1) && [(5, 1), (6, 1)][1] == (6, 1);
  }

  /** At slot 0 the last resort must swap lecturer 6 for 5. */
  lemma ForcedSwap(index: ConflictIndex, t: SessionData)
    requires IndexOf(index, [TeamAt1()]) && MayResort([0], Second(), Split(), index, t)
    ensures t == SessionData(2, [0], [5])
  {
    CourseFacts();
    KeysOfInput();
    CandidateLists(Split());
    ResortForOne([0], Split(), Second(), index, t);
    hide Team, Split, Courses, Week, CandidateOk, CandidatesOk, AllRoomKeys, AllLecKeys, MayResort, TeamAt1;
    assert !LecturerConflicts([0], [5], index);
    assert t.lecturerIds == [t.lecturerIds[0]];
  }

  /** Whatever the repair makes of the second session collides with the team or with the first session. */
  lemma SharesLecturer(index: ConflictIndex, t: SessionData, lastResort: bool)
    requires IndexOf(index, [TeamAt1()])
    requires MayRepair(Split(), Week(), FLEXIBLE, Second(), index, {0}, t, lastResort)
    ensures SharedLecturer(First(), t) || SharedLecturer(TeamAt1(), t)
  {
    SessionsAre();
    CourseFacts();
    DayBlock(Split(), 0);
    SplitSessionOk(1, 2, 0, 6);
    CandidateLists(Split());
    SplitSeeds(1);
    hide *;
    OutcomeIsOk(Split(), Week(), FLEXIBLE, 1, Second(), index, {0}, t, lastResort);
    HoldsBlock(Split(), Week(), 1, t);
    SplitBlocks(t.timeSlotIds);
    var l := SplitLecturer(t);
    SecondIsStuck(index, t);
    if t.timeSlotIds == [0] {
      var b :| b in FullBlocks(Split(), Week()) && MayResort(b, Second(), Split(), index, t);
      ResortMeans(b, Second(), Split(), index, t);
      ForcedSwap(index, t);
    }
    MeetsSomebody(t, l);
  }

  lemma SplitLecturer(t: SessionData) returns (l: int)
    requires CandidateOk(Split()) && SessionOk(Split(), Week(), 1, t)
    ensures l in t.lecturerIds && (l == 5 || l == 6)
  {
    CourseFacts();
    LecturerCountFixed(Split(), 1, t.lecturerIds);
    hide Team, Split, Courses, Week, CandidateOk, CandidatesOk, LecturersOk;
    l := t.lecturerIds[0];
    assert l in t.lecturerIds;
  }

  lemma MeetsSomebody(t: SessionData, l: int)
    requires l in t.lecturerIds && (l == 5 || l == 6)
    requires t == SessionData(2, [0], [5]) || t.timeSlotIds == [1]
    ensures SharedLecturer(First(), t) || SharedLecturer(TeamAt1(), t)
  {
    TwoMembers(5, 6);
    if t.timeSlotIds == [1] {
      assert 1 in t.timeSlotIds && 1 in TeamAt1().timeSlotIds && l in TeamAt1().lecturerIds;
    } else {
      assert 0 in t.timeSlotIds && 0 in First().timeSlotIds && 5 in First().lecturerIds && 5 in t.lecturerIds;
    }
  }

  // ---------------------------------------------------------------- the whole run

  lemma TeamIsKept(index: ConflictIndex, t: SessionData, lastResort: bool)
    requires IndexOf(index, [First(), Second()])
    requires MayRepair(Team(), Week(), FIXED, TeamAt1(), index, {}, t, lastResort)
    ensures t == TeamAt1()
  {
    CourseFacts();
    var others := [First(), Second()];
    assert Apart(First(), TeamAt1()) && Apart(Second(), TeamAt1());
    ApartIsClean(TeamAt1(), index, others, {});
    hide Team, Split, Courses, Week, IndexOf, Clean, MayRepair;
    CleanIsKept(Team(), Week(), FIXED, TeamAt1(), index, {}, t, lastResort);
  }

  lemma FirstIsKept(index: ConflictIndex, t: SessionData, lastResort: bool)
    requires IndexOf(index, [TeamAt1()])
    requires MayRepair(Split(), Week(), FLEXIBLE, First(), index, {}, t, lastResort)
    ensures t == First()
  {
    CourseFacts();
    assert Apart(TeamAt1(), First());
    ApartIsClean(First(), index, [TeamAt1()], {});
    hide Team, Split, Courses, Week, IndexOf, Clean, MayRepair;
    CleanIsKept(Split(), Week(), FLEXIBLE, First(), index, {}, t, lastResort);
  }

  lemma StepAt(c: Candidate, lookup: SlotLookup, kind: Kind, given: seq<SessionData>, mid: seq<SessionData>,
               flags: seq<bool>, index: ConflictIndex, k: nat)
    requires Stepped(c, lookup, kind, given, mid, flags, index) && k < |given|
    ensures |mid| == |flags| == |given|
    ensures MayRepair(c, lookup, kind, given[k], index, SlotsOf(mid[..k]), mid[k], flags[k])
  {
    hide MayRepair, SlotsOf;
  }

  lemma EarnedSteps(c: Candidate, lookup: SlotLookup, roomById: Option<map<int, int>>, g: GeneData,
                    ss: seq<SessionData>, flags: seq<bool>, others: seq<SessionData>)
    returns (index: ConflictIndex, mid: seq<SessionData>)
    requires GeneEarned(c, lookup, roomById, g, ss, flags, others)
    ensures IndexOf(index, others) && Stepped(c, lookup, g.kind, g.sessions, mid, flags, index)
    ensures |ss| == |mid| == |g.sessions|
    ensures forall k :: 0 <= k < |ss| ==>
      ss[k] == mid[k].(roomId := ss[k].roomId) && (ss[k].roomId == mid[k].roomId || ss[k].roomId in c.possibleRoomIds)
  {
    hide IndexOf, MayRepair, Exhausted, SlotsOf, Seated;
    index, mid :| IndexOf(index, others) && Stepped(c, lookup, g.kind, g.sessions, mid, flags, index) &&
      Earned(c, lookup, g.kind, g.sessions, ss, flags, index) && RoomsMoved(mid, ss, c.possibleRoomIds) &&
      Seated(c, g.kind, mid, ss, index, roomById);
  }

  lemma NothingUsed(ss: seq<SessionData>)
    ensures ss[..0] == [] && SlotsOf([]) == {}
  {
  }

  /** The repaired team is the team. */
  lemma TeamGene(roomById: Option<map<int, int>>, ss: seq<SessionData>, flags: seq<bool>)
    requires GeneEarned(Team(), Week(), roomById, Input()[0], ss, flags, [First(), Second()])
    ensures |ss| == 1 && ss[0] == TeamAt1()
  {
    hide *;
    SessionsAre();
    NoOtherRoom();
    var index, mid := EarnedSteps(Team(), Week(), roomById, Input()[0], ss, flags, [First(), Second()]);
    StepAt(Team(), Week(), FIXED, Input()[0].sessions, mid, flags, index, 0);
    NothingUsed(mid);
    TeamIsKept(index, mid[0], flags[0]);
    assert ss[0].roomId == mid[0].roomId;
  }

  lemma NoOtherRoom()
    ensures Team().possibleRoomIds == []
  {
  }

  /** The two parallel sessions are left such that the second one collides. */
  lemma SplitGene(roomById: Option<map<int, int>>, ss: seq<SessionData>, flags: seq<bool>)
    requires GeneEarned(Split(), Week(), roomById, Input()[1], ss, flags, [TeamAt1()])
    ensures |ss| == 2 && (!Apart(ss[0], ss[1]) || !Apart(TeamAt1(), ss[1]))
  {
    hide *;
    SessionsAre();
    var index, mid := EarnedSteps(Split(), Week(), roomById, Input()[1], ss, flags, [TeamAt1()]);
    StepAt(Split(), Week(), FLEXIBLE, Input()[1].sessions, mid, flags, index, 0);
    StepAt(Split(), Week(), FLEXIBLE, Input()[1].sessions, mid, flags, index, 1);
    NothingUsed(mid);
    FirstIsKept(index, mid[0], flags[0]);
    assert mid[..1] == [First()];
    FirstSlots();
    SharesLecturer(index, mid[1], flags[1]);
    MovedStillMeets(First(), ss[0], mid[1], ss[1]);
    MovedStillMeets(TeamAt1(), TeamAt1(), mid[1], ss[1]);
  }

  /** Two sessions that share a lecturer at a slot collide in any rooms. */
  ghost predicate SharedLecturer(s: SessionData, t: SessionData) {
    exists slot, l :: slot in s.timeSlotIds && slot in t.timeSlotIds && l in s.lecturerIds && l in t.lecturerIds
  }

  lemma MovedStillMeets(s: SessionData, s': SessionData, t: SessionData, t': SessionData)
    requires s' == s.(roomId := s'.roomId) && t' == t.(roomId := t'.roomId)
    ensures SharedLecturer(s, t) ==> !Apart(s', t')
  {
  }

  lemma FirstSlots()
    ensures SlotsOf([First()]) == {0}
  {
    assert [First()][..0] == [] && First().timeSlotIds[0] == 0;
    assert Elements([0]) == {0} by { assert [0][0] == 0; }
  }

  /** The timetable is legal and violation-free and the verdict on its candidates is FEASIBLE; yet whatever the draws
      are, its repair has a violation. */
  lemma RepairSpoils(roomById: Option<map<int, int>>, vals: seq<GeneData>, flags: seq<seq<bool>>)
    requires CandidatesOk(Courses()) && ChromosomeOk(Courses(), Week(), vals)
    requires AllEarned(Courses(), Week(), roomById, Input(), vals, flags) && |flags| == |Courses()|
    ensures LookupOk(Week()) && Feasible(Courses(), Week())
    ensures ChromosomeOk(Courses(), Week(), Input())
    ensures HardCount(AllSessions(Input(), CandidateMap(Courses()))) == 0
    ensures HardCount(AllSessions(vals, CandidateMap(Courses()))) > 0
  {
    hide *;
    VerdictIsFeasible();
    InputIsLegal();
    InputIsClean();
    LociOf(vals);
    LociOf(Input());
    SessionsOfTwo(vals, Input());
    SessionsAre();
    CourseFacts();
    EarnedAt(roomById, vals, flags, 0);
    TeamGene(roomById, vals[0].sessions, flags[0]);
    assert vals[0].sessions == [TeamAt1()];
    EarnedAt(roomById, vals, flags, 1);
    SplitGene(roomById, vals[1].sessions, flags[1]);
    CleanIffApart(Courses(), Week(), vals);
    NotApart(vals[0].sessions, vals[1].sessions);
    CountNotNegative(vals);
  }

  lemma LociOf(vals: seq<GeneData>)
    requires CandidatesOk(Courses()) && ChromosomeOk(Courses(), Week(), vals)
    ensures |vals| == 2 && vals[0].offeringId == 1 && vals[1].offeringId == 2
  {
    CourseFacts();
    hide Team, Split, Week, CandidateOk, CandidatesOk, SessionsOk, LookupOk;
    assert GeneOk(Courses()[0], Week(), vals[0]) && GeneOk(Courses()[1], Week(), vals[1]);
  }

  lemma EarnedAt(roomById: Option<map<int, int>>, vals: seq<GeneData>, flags: seq<seq<bool>>, i: nat)
    requires AllEarned(Courses(), Week(), roomById, Input(), vals, flags) && |flags| == |Courses()| && i < |flags|
    ensures GeneEarned(Courses()[i], Week(), roomById, Input()[i], vals[i].sessions, flags[i],
              AllSessions(vals[..i], CandidateMap(Courses())) + AllSessions(Input()[i + 1..], CandidateMap(Courses())))
  {
    hide GeneEarned, Settled, AllSessions, CandidateMap, Week, Courses, Input;
  }

  lemma NotApart(a: seq<SessionData>, b: seq<SessionData>)
    requires |a| == 1 && |b| == 2 && (!Apart(b[0], b[1]) || !Apart(a[0], b[1]))
    ensures !PairwiseApart(a + b)
  {
    hide Apart;
    var all := a + b;
    assert all[0] == a[0] && all[1] == b[0] && all[2] == b[1];
  }

  lemma CountNotNegative(vals: seq<GeneData>)
    requires CandidatesOk(Courses()) && ChromosomeOk(Courses(), Week(), vals)
    ensures HardCount(AllSessions(vals, CandidateMap(Courses()))) >= 0
  {
    hide *;
    AllSessionsProper(Courses(), Week(), vals, |vals|);
    assert vals[..|vals|] == vals;
    HardCountZero(AllSessions(vals, CandidateMap(Courses())));
  }
}
