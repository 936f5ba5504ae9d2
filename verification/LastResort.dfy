/** What the last resort of a session's repair costs. */
module LastResort {
  import opened Prelude
  import opened Candidates
  import opened Timetable
  import opened Genes
  import opened Fitness
  import opened WellFormed
  import opened RepairSession
  import opened Outcomes
  import opened Repair
  import opened Admissibility
  import opened Grid

  /** How many bookings of s are already made by the others. */
  ghost function Clashes(s: SessionData, others: seq<SessionData>): int {
    |Elements(RoomKeys(s)) * Elements(AllRoomKeys(others))| + |Elements(LecKeys(s)) * Elements(AllLecKeys(others))|
  }

  /** Entries listed once repeat exactly those that are listed elsewhere. */
  lemma RepeatsAround<T>(a: seq<T>, x: seq<T>, b: seq<T>)
    requires NoDup(x)
    ensures Repeats(a + x + b) == Repeats(a + b) + |Elements(x) * Elements(a + b)|
  {
    ElementsConcat(a + x, b);
    ElementsConcat(a, x);
    ElementsConcat(a, b);
    NoDupSize(x);
    hide Elements, NoDup;
    var rest, own := Elements(a + b), Elements(x);
    assert Elements(a + x + b) == rest + (own - rest);
    SplitSize(own, rest);
  }

  /** Putting a session between others adds one violation for each of its bookings that is taken. */
  lemma AddedSession(before: seq<SessionData>, s: SessionData, after: seq<SessionData>)
    requires Proper(s)
    ensures HardCount(before + [s] + after) == HardCount(before + after) + Clashes(s, before + after)
  {
    KeysAround(before, s, after);
    KeysOfConcat(before, after);
    RoomKeysNoDup(s);
    LecKeysMembers(s);
    hide Repeats, AllRoomKeys, AllLecKeys, RoomKeys, LecKeysUpTo, Elements;
    RepeatsAround(AllRoomKeys(before), RoomKeys(s), AllRoomKeys(after));
    RepeatsAround(AllLecKeys(before), LecKeys(s), AllLecKeys(after));
  }

  /** Replacing s by t raises the violation count if and only if more of t's bookings than of s's are taken. */
  lemma ReplacementRises(before: seq<SessionData>, s: SessionData, t: SessionData, after: seq<SessionData>)
    requires Proper(s) && Proper(t)
    ensures HardCount(before + [t] + after) > HardCount(before + [s] + after)
       <==> Clashes(t, before + after) > Clashes(s, before + after)
  {
    AddedSession(before, s, after);
    AddedSession(before, t, after);
    hide HardCount, Clashes;
  }

  // ---------------------------------------------------------------- when no outcome of a repair raises the count

  /** around holds the sessions that the index was built from and the siblings placed before, and nobody else. */
  ghost predicate Surrounds(around: seq<SessionData>, others: seq<SessionData>, siblings: seq<SessionData>) {
    forall x :: x in around <==> x in others || x in siblings
  }

  /** Whatever the shuffles are, the repaired session adds no violation. */
  ghost predicate NeverRaises(c: Candidate, lookup: SlotLookup, kind: Kind, s: SessionData, index: ConflictIndex,
                              used: set<int>, before: seq<SessionData>, after: seq<SessionData>) {
    forall t, lastResort :: MayRepair(c, lookup, kind, s, index, used, t, lastResort) ==>
      HardCount(before + [t] + after) <= HardCount(before + [s] + after)
  }

  /** No full block is costlier in the current room, with any lecturers that the last resort may choose for it. */
  ghost predicate NoCostlierResort(c: Candidate, lookup: SlotLookup, s: SessionData, index: ConflictIndex,
                                   around: seq<SessionData>) {
    forall b, t :: b in FullBlocks(c, lookup) && MayResort(b, s, c, index, t) ==>
      Clashes(t, around) <= Clashes(s, around)
  }

  lemma ClashesNotNegative(s: SessionData, others: seq<SessionData>)
    ensures Clashes(s, others) >= 0
  {
  }

  /** A clean session clashes with nobody around it. */
  lemma CleanCostsNothing(t: SessionData, index: ConflictIndex, others: seq<SessionData>, siblings: seq<SessionData>,
                          around: seq<SessionData>)
    requires IndexOf(index, others) && Clean(t, index, SlotsOf(siblings)) && Surrounds(around, others, siblings)
    ensures Clashes(t, around) == 0
  {
    CleanIsApart(t, index, SlotsOf(siblings), others);
    hide IndexOf, Clean, SlotsOf;
    forall p | 0 <= p < |around| ensures Apart(around[p], t) {
      var x := around[p];
      assert x in around;
      if x in others {
        var q :| 0 <= q < |others| && others[q] == x;
      } else {
        SlotsOfSibling(siblings, x);
      }
    }
    DisjointFromAll(around, t);
    NothingShared(RoomKeys(t), AllRoomKeys(around));
    NothingShared(LecKeys(t), AllLecKeys(around));
  }

  lemma {:induction false} SlotsOfSibling(siblings: seq<SessionData>, x: SessionData)
    requires x in siblings
    ensures forall slot :: slot in x.timeSlotIds ==> slot in SlotsOf(siblings)
  {
    var n := |siblings| - 1;
    assert siblings == siblings[..n] + [siblings[n]];
    if x in siblings[..n] { SlotsOfSibling(siblings[..n], x); }
  }

  lemma NothingShared<T>(x: seq<T>, a: seq<T>)
    requires Disjoint(a, x)
    ensures |Elements(x) * Elements(a)| == 0
  {
    assert Elements(x) * Elements(a) == {};
  }

  /** A legal session of a candidate with a full block holds one of its full blocks. */
  lemma HoldsBlock(c: Candidate, lookup: SlotLookup, k: nat, s: SessionData)
    requires CandidateOk(c) && SessionOk(c, lookup, k, s) && FullBlocks(c, lookup) != []
    ensures s.timeSlotIds in FullBlocks(c, lookup) && |s.timeSlotIds| == c.sessionDuration
    ensures Proper(s) && NoDup(c.lecturerPool) && NoDup(c.possibleTimeSlotIds)
  {
    BlocksExact(c.possibleTimeSlotIds, c.sessionDuration, lookup);
    SessionIsProper(c, lookup, k, s);
    CandidateLists(c);
    hide Blocks, Windows, CandidateOk, LecturersOk, RoomOk;
  }

  /** Every outcome of a repair is a legal session. */
  lemma OutcomeIsOk(c: Candidate, lookup: SlotLookup, kind: Kind, k: nat, s: SessionData, index: ConflictIndex,
                    used: set<int>, t: SessionData, lastResort: bool)
    requires LookupOk(lookup) && CandidateOk(c) && SessionOk(c, lookup, k, s) && FullBlocks(c, lookup) != []
    requires kind == (if c.isFixedRoom then FIXED else FLEXIBLE)
    requires MayRepair(c, lookup, kind, s, index, used, t, lastResort)
    ensures SessionOk(c, lookup, k, t) && Proper(t)
    ensures !lastResort ==> Clean(t, index, used)
    ensures lastResort ==> !KeepsSession(c, s, index, used) && Hopeless(c, lookup, kind, s, index, used)
    ensures lastResort ==> exists b :: b in FullBlocks(c, lookup) && MayResort(b, s, c, index, t)
  {
    hide *;
    HoldsBlock(c, lookup, k, s);
    RepairMeans(c, lookup, kind, s, index, used, t, lastResort);
    BlockSlotsOk(c, lookup, t.timeSlotIds);
    MovedIsOk(c, lookup, kind, s, k, t);
    SessionIsProper(c, lookup, k, t);
  }

  lemma BlockSlotsOk(c: Candidate, lookup: SlotLookup, b: seq<int>)
    requires LookupOk(lookup) && NoDup(c.possibleTimeSlotIds) && b in FullBlocks(c, lookup)
    ensures SlotsOk(c, lookup, b)
  {
    BlockIsPick(b, c.possibleTimeSlotIds, c.sessionDuration, lookup);
    hide Blocks, NoDup;
  }

  /** For any number of lecturers: no outcome of the repair adds a violation if and only if the session is clean, or
      some allowed room takes a full block, or no full block is a costlier last resort. */
  lemma RepairNeverRaisesIff(c: Candidate, lookup: SlotLookup, kind: Kind, k: nat, s: SessionData,
                             index: ConflictIndex, others: seq<SessionData>, siblings: seq<SessionData>,
                             before: seq<SessionData>, after: seq<SessionData>)
    requires LookupOk(lookup) && CandidateOk(c) && SessionOk(c, lookup, k, s) && FullBlocks(c, lookup) != []
    requires kind == (if c.isFixedRoom then FIXED else FLEXIBLE)
    requires IndexOf(index, others) && Surrounds(before + after, others, siblings)
    ensures NeverRaises(c, lookup, kind, s, index, SlotsOf(siblings), before, after) <==>
      Clean(s, index, SlotsOf(siblings)) || !Hopeless(c, lookup, kind, s, index, SlotsOf(siblings)) ||
      NoCostlierResort(c, lookup, s, index, before + after)
  {
    hide *;
    HoldsBlock(c, lookup, k, s);
    var used, around := SlotsOf(siblings), before + after;
    if Clean(s, index, used) || !Hopeless(c, lookup, kind, s, index, used) ||
       NoCostlierResort(c, lookup, s, index, around) {
      forall t, lastResort | MayRepair(c, lookup, kind, s, index, used, t, lastResort)
        ensures HardCount(before + [t] + after) <= HardCount(before + [s] + after) {
        OutcomeCosts(c, lookup, kind, k, s, index, others, siblings, before, after, t, lastResort);
      }
      NeverRaisesBy(c, lookup, kind, s, index, used, before, after);
    } else {
      var b, t := CostlierResort(c, lookup, s, index, around);
      NotKept(c, s, index, used);
      ResortIsOutcome(c, lookup, kind, s, index, used, t, b);
      OutcomeIsOk(c, lookup, kind, k, s, index, used, t, true);
      ReplacementRises(before, s, t, after);
      if NeverRaises(c, lookup, kind, s, index, used, before, after) {
        NeverRaisesMeans(c, lookup, kind, s, index, used, before, after, t, true);
      }
    }
  }

  lemma NeverRaisesBy(c: Candidate, lookup: SlotLookup, kind: Kind, s: SessionData, index: ConflictIndex,
                      used: set<int>, before: seq<SessionData>, after: seq<SessionData>)
    requires forall t, lastResort :: MayRepair(c, lookup, kind, s, index, used, t, lastResort) ==>
      HardCount(before + [t] + after) <= HardCount(before + [s] + after)
    ensures NeverRaises(c, lookup, kind, s, index, used, before, after)
  {
    hide MayRepair, HardCount;
  }

  lemma NeverRaisesMeans(c: Candidate, lookup: SlotLookup, kind: Kind, s: SessionData, index: ConflictIndex,
                         used: set<int>, before: seq<SessionData>, after: seq<SessionData>, t: SessionData,
                         lastResort: bool)
    requires MayRepair(c, lookup, kind, s, index, used, t, lastResort)
    requires NeverRaises(c, lookup, kind, s, index, used, before, after)
    ensures HardCount(before + [t] + after) <= HardCount(before + [s] + after)
  {
    hide MayRepair, HardCount;
  }

  lemma NotKept(c: Candidate, s: SessionData, index: ConflictIndex, used: set<int>)
    ensures KeepsSession(c, s, index, used) <==> Clean(s, index, used) && |s.timeSlotIds| == c.sessionDuration
  {
    hide Clean;
  }

  lemma CostlierResort(c: Candidate, lookup: SlotLookup, s: SessionData, index: ConflictIndex,
                       around: seq<SessionData>)
    returns (b: seq<int>, t: SessionData)
    requires !NoCostlierResort(c, lookup, s, index, around)
    ensures b in FullBlocks(c, lookup) && MayResort(b, s, c, index, t) && Clashes(t, around) > Clashes(s, around)
  {
    hide FullBlocks, MayResort, Clashes;
    b, t :| b in FullBlocks(c, lookup) && MayResort(b, s, c, index, t) && Clashes(t, around) > Clashes(s, around);
  }

  lemma OutcomeCosts(c: Candidate, lookup: SlotLookup, kind: Kind, k: nat, s: SessionData, index: ConflictIndex,
                     others: seq<SessionData>, siblings: seq<SessionData>, before: seq<SessionData>,
                     after: seq<SessionData>, t: SessionData, lastResort: bool)
    requires LookupOk(lookup) && CandidateOk(c) && SessionOk(c, lookup, k, s) && FullBlocks(c, lookup) != []
    requires kind == (if c.isFixedRoom then FIXED else FLEXIBLE)
    requires IndexOf(index, others) && Surrounds(before + after, others, siblings)
    requires MayRepair(c, lookup, kind, s, index, SlotsOf(siblings), t, lastResort)
    requires Clean(s, index, SlotsOf(siblings)) || !Hopeless(c, lookup, kind, s, index, SlotsOf(siblings)) ||
      NoCostlierResort(c, lookup, s, index, before + after)
    ensures HardCount(before + [t] + after) <= HardCount(before + [s] + after)
  {
    hide *;
    var used, around := SlotsOf(siblings), before + after;
    HoldsBlock(c, lookup, k, s);
    OutcomeIsOk(c, lookup, kind, k, s, index, used, t, lastResort);
    NotKept(c, s, index, used);
    ReplacementRises(before, s, t, after);
    if lastResort {
      var b :| b in FullBlocks(c, lookup) && MayResort(b, s, c, index, t);
      ResortCosts(c, lookup, s, index, around, b, t);
    } else {
      CleanCostsNothing(t, index, others, siblings, around);
      ClashesNotNegative(s, around);
    }
  }

  lemma ResortCosts(c: Candidate, lookup: SlotLookup, s: SessionData, index: ConflictIndex, around: seq<SessionData>,
                    b: seq<int>, t: SessionData)
    requires NoCostlierResort(c, lookup, s, index, around)
    requires b in FullBlocks(c, lookup) && MayResort(b, s, c, index, t)
    ensures Clashes(t, around) <= Clashes(s, around)
  {
    hide FullBlocks, MayResort, Clashes;
  }

  // the same for one lecturer, where a placement exists or not whatever the shuffles are

  /** The lecturers that the last resort may choose for a block: any other free one of the pool, else the current. */
  ghost predicate ResortLecturer(b: seq<int>, c: Candidate, current: int, index: ConflictIndex, l: int) {
    if exists x :: x in c.lecturerPool && x != current && !LecturerConflicts(b, [x], index)
    then l in c.lecturerPool && l != current && !LecturerConflicts(b, [l], index)
    else l == current
  }

  ghost predicate NoCostlierBlock(c: Candidate, lookup: SlotLookup, s: SessionData, index: ConflictIndex,
                                  around: seq<SessionData>)
    requires |s.lecturerIds| == 1
  {
    forall b, l :: b in FullBlocks(c, lookup) && ResortLecturer(b, c, s.lecturerIds[0], index, l) ==>
      Clashes(SessionData(s.roomId, b, [l]), around) <= Clashes(s, around)
  }

  lemma ResortForOne(b: seq<int>, c: Candidate, s: SessionData, index: ConflictIndex, t: SessionData)
    requires NoDup(c.lecturerPool) && c.lecturerPool != [] && |s.lecturerIds| == 1
    ensures MayResort(b, s, c, index, t) <==>
      |t.lecturerIds| == 1 && t == SessionData(s.roomId, b, t.lecturerIds) &&
      ResortLecturer(b, c, s.lecturerIds[0], index, t.lecturerIds[0])
  {
    var current := s.lecturerIds[0];
    assert s.lecturerIds == [current];
    NoSwapForOne(b, c, current, index);
    SwapForOne(b, c, current, index, t.lecturerIds);
    ResortBySwap(b, c, s, index, t);
    hide MaySwap, MayResort, LecturerConflicts, NoDup;
    if |t.lecturerIds| == 1 {
      var l := t.lecturerIds[0];
      assert t.lecturerIds == [l];
      ResortLecturerIs(b, c, current, index, l);
    }
  }

  lemma ResortLecturerIs(b: seq<int>, c: Candidate, current: int, index: ConflictIndex, l: int)
    ensures ResortLecturer(b, c, current, index, l) <==>
      (l in c.lecturerPool && l != current && !LecturerConflicts(b, [l], index)) ||
      (l == current && forall x :: x in c.lecturerPool && x != current ==> LecturerConflicts(b, [x], index))
  {
    hide LecturerConflicts;
  }

  lemma ResortBySwap(b: seq<int>, c: Candidate, s: SessionData, index: ConflictIndex, t: SessionData)
    ensures MayResort(b, s, c, index, t) <==>
      t == SessionData(s.roomId, b, t.lecturerIds) &&
      (MaySwap(b, c, s.lecturerIds, index, Some(t.lecturerIds)) ||
       (t.lecturerIds == s.lecturerIds && MaySwap(b, c, s.lecturerIds, index, None)))
  {
    hide MaySwap;
    if MayResort(b, s, c, index, t) {
      var swap :| MaySwap(b, c, s.lecturerIds, index, swap) &&
        t == SessionData(s.roomId, b, if swap.Some? then swap.value else s.lecturerIds);
      assert swap == None || swap == Some(t.lecturerIds);
    }
  }

  lemma CostlierForOne(c: Candidate, lookup: SlotLookup, s: SessionData, index: ConflictIndex,
                       around: seq<SessionData>)
    requires NoDup(c.lecturerPool) && c.lecturerPool != [] && |s.lecturerIds| == 1
    ensures NoCostlierResort(c, lookup, s, index, around) <==> NoCostlierBlock(c, lookup, s, index, around)
  {
    hide FullBlocks, MayResort, Clashes, ResortLecturer, NoDup;
    if NoCostlierResort(c, lookup, s, index, around) {
      forall b, l | b in FullBlocks(c, lookup) && ResortLecturer(b, c, s.lecturerIds[0], index, l)
        ensures Clashes(SessionData(s.roomId, b, [l]), around) <= Clashes(s, around) {
        ResortForOne(b, c, s, index, SessionData(s.roomId, b, [l]));
      }
    }
    if NoCostlierBlock(c, lookup, s, index, around) {
      forall b, t | b in FullBlocks(c, lookup) && MayResort(b, s, c, index, t)
        ensures Clashes(t, around) <= Clashes(s, around) {
        ResortForOne(b, c, s, index, t);
        assert t.lecturerIds == [t.lecturerIds[0]];
      }
    }
  }

  /** For one lecturer, the search gives up exactly when no allowed room, full block and lecturer of the pool fit. */
  lemma HopelessIffNoPlacement(c: Candidate, lookup: SlotLookup, kind: Kind, k: nat, s: SessionData,
                               index: ConflictIndex, used: set<int>)
    requires CandidateOk(c) && SessionOk(c, lookup, k, s) && |s.lecturerIds| == 1
    ensures Hopeless(c, lookup, kind, s, index, used) <==> !PlacementExists(c, lookup, kind, s, index, used)
  {
    if Hopeless(c, lookup, kind, s, index, used) { HopelessForOneLecturer(c, lookup, kind, s, index, used); }
    LecturerCountFixed(c, k, s.lecturerIds);
    CandidateLists(c);
    var l := s.lecturerIds[0];
    assert s.lecturerIds == [l] && l in c.lecturerPool;
    hide Blocks, RoomOrGeneSlotConflicts, LecturerConflicts, MaySwap, CandidateOk, SessionOk, NoDup;
    if !PlacementExists(c, lookup, kind, s, index, used) {
      forall room, b | AllowedRoom(c, kind, s.roomId, room) &&
                       b in Blocks(c.possibleTimeSlotIds, c.sessionDuration, lookup)
        ensures NoWay(b, room, s.lecturerIds, c, index, used) {
        if !RoomOrGeneSlotConflicts(b, room, index, used) {
          forall x | x in c.lecturerPool ensures LecturerConflicts(b, [x], index) {
            assert !Clean(SessionData(room, b, [x]), index, used);
          }
          NoSwapForOne(b, c, l, index);
        }
      }
    }
  }

  /** For one lecturer: no outcome of the repair adds a violation if and only if the session is clean, or a
      conflict-free placement exists, or no full block with a lecturer that the last resort may choose for it has
      more bookings taken than the session. */
  lemma OneLecturerNeverRaisesIff(c: Candidate, lookup: SlotLookup, kind: Kind, k: nat, s: SessionData,
                                  index: ConflictIndex, others: seq<SessionData>, siblings: seq<SessionData>,
                                  before: seq<SessionData>, after: seq<SessionData>)
    requires LookupOk(lookup) && CandidateOk(c) && SessionOk(c, lookup, k, s) && FullBlocks(c, lookup) != []
    requires kind == (if c.isFixedRoom then FIXED else FLEXIBLE) && |s.lecturerIds| == 1
    requires IndexOf(index, others) && Surrounds(before + after, others, siblings)
    ensures NeverRaises(c, lookup, kind, s, index, SlotsOf(siblings), before, after) <==>
      Clean(s, index, SlotsOf(siblings)) || PlacementExists(c, lookup, kind, s, index, SlotsOf(siblings)) ||
      NoCostlierBlock(c, lookup, s, index, before + after)
  {
    hide *;
    HoldsBlock(c, lookup, k, s);
    OneOfPool(c, lookup, k, s);
    RepairNeverRaisesIff(c, lookup, kind, k, s, index, others, siblings, before, after);
    HopelessIffNoPlacement(c, lookup, kind, k, s, index, SlotsOf(siblings));
    CostlierForOne(c, lookup, s, index, before + after);
  }

  lemma OneOfPool(c: Candidate, lookup: SlotLookup, k: nat, s: SessionData)
    requires CandidateOk(c) && SessionOk(c, lookup, k, s) && |s.lecturerIds| == 1
    ensures c.lecturerPool != []
  {
    LecturerCountFixed(c, k, s.lecturerIds);
    hide CandidateOk, LecturersOk;
    assert s.lecturerIds[0] in s.lecturerIds;
  }

  // ---------------------------------------------------------------- an input where it rises

  /** A course locked in room 7 with one lecturer and two one-slot blocks. */
  const LOCKED: Candidate :=
    Candidate(1, 1, Some(7), [9], 10, 1, 1, [0, 1], [], true, [1], [9], [[9]], 1, false)

  /** Another course holds the room at slot 0; at slot 1 the same lecturer does. */
  const HOLDERS: seq<SessionData> := [SessionData(7, [0], [1]), SessionData(7, [1], [9])]

  const STUCK: SessionData := SessionData(7, [0], [9])

  const MOVED: SessionData := SessionData(7, [1], [9])

  /** Everything is exhausted for the stuck session, its repair may move it to slot 1, and that adds a violation. */
  lemma LastResortCanRaiseViolations(index: ConflictIndex)
    requires IndexOf(index, HOLDERS)
    ensures CandidateOk(LOCKED) && LookupOk(GridOf(2, 1))
    ensures SessionOk(LOCKED, GridOf(2, 1), 0, STUCK)
    ensures MOVED.timeSlotIds in Blocks(LOCKED.possibleTimeSlotIds, LOCKED.sessionDuration, GridOf(2, 1))
    ensures Exhausted(LOCKED, GridOf(2, 1), FIXED, STUCK, MOVED.timeSlotIds, index, {})
    ensures MayRepair(LOCKED, GridOf(2, 1), FIXED, STUCK, index, {}, MOVED, true)
    ensures HardCount(HOLDERS + [STUCK]) < HardCount(HOLDERS + [MOVED])
  {
    hide *;
    LockedIsOk();
    StuckIsLegal();
    StuckIsExhausted(index);
    StuckMayMove(index);
    MovedCostsMore(HOLDERS, STUCK, MOVED);
  }

  lemma MovedCostsMore(others: seq<SessionData>, s: SessionData, t: SessionData)
    requires others == HOLDERS && s == STUCK && t == MOVED
    ensures HardCount(others + [s]) < HardCount(others + [t])
  {
    StuckClashes();
    MovedClashes();
    StuckProper();
    hide *;
    ReplacementRises(others, s, t, []);
    NothingBehind(others, s);
    NothingBehind(others, t);
  }

  lemma NothingBehind(others: seq<SessionData>, s: SessionData)
    ensures others + [s] + [] == others + [s] && others + [] == others
  {
  }

  lemma StuckProper()
    ensures Proper(STUCK) && Proper(MOVED)
  {
  }

  lemma LockedIsOk()
    ensures CandidateOk(LOCKED) && LOCKED.sessionDuration == 1 && !LOCKED.MultiSibling() && LOCKED.roomId == Some(7)
    ensures LOCKED.lecturerIds == [9] && 0 in LOCKED.possibleTimeSlotIds
  {
    assert LOCKED.possibleTimeSlotIds[0] == 0;
  }

  lemma StuckIsLegal()
    ensures CandidateOk(LOCKED) && LookupOk(GridOf(2, 1))
    ensures SessionOk(LOCKED, GridOf(2, 1), 0, STUCK)
    ensures MOVED.timeSlotIds in Blocks(LOCKED.possibleTimeSlotIds, LOCKED.sessionDuration, GridOf(2, 1))
  {
    LockedIsOk();
    hide GridOf, Blocks, CandidateOk, SessionOk, LookupOk, LOCKED;
    GridLookup(2, 1);
    GridAt(0, 2, 1);
    LockedBlock(1);
    UnitSession(LOCKED, GridOf(2, 1), 0);
  }

  lemma LockedBlock(slot: nat)
    requires slot < 2
    ensures [slot] in Blocks(LOCKED.possibleTimeSlotIds, LOCKED.sessionDuration, GridOf(2, 1))
  {
    assert LOCKED.possibleTimeSlotIds[slot] == slot;
    hide GridOf, Blocks;
    assert Range(slot, 1) == [slot];
    GridBlock(slot, 1, LOCKED.possibleTimeSlotIds, 2, 1);
  }

  lemma StuckIsExhausted(index: ConflictIndex)
    requires IndexOf(index, HOLDERS)
    ensures Exhausted(LOCKED, GridOf(2, 1), FIXED, STUCK, MOVED.timeSlotIds, index, {})
  {
    HolderKeys();
    hide GridOf, Blocks, AllRoomKeys, AllLecKeys;
    forall slot | slot == 0 || slot == 1 ensures RoomOrGeneSlotConflicts([slot], 7, index, {}) {
      assert (7, slot) in index.roomTimeUsed.Keys && slot in [slot];
    }
    forall b | b in Blocks(LOCKED.possibleTimeSlotIds, LOCKED.sessionDuration, GridOf(2, 1))
      ensures RoomOrGeneSlotConflicts(b, 7, index, {}) {
      GridBlockIsRange(b, LOCKED.possibleTimeSlotIds, 1, 2, 1);
      assert b == [b[0]] && b[0] in LOCKED.possibleTimeSlotIds;
    }
  }

  lemma StuckMayMove(index: ConflictIndex)
    requires IndexOf(index, HOLDERS)
    ensures MayRepair(LOCKED, GridOf(2, 1), FIXED, STUCK, index, {}, MOVED, true)
  {
    hide *;
    LockedIsOk();
    LockedBlock(0);
    LockedBlock(1);
    StuckIsExhausted(index);
    CandidateLists(LOCKED);
    OnlyNine(index);
    StuckFacts(index);
    ResortForOne([1], LOCKED, STUCK, index, MOVED);
    ResortIsOutcome(LOCKED, GridOf(2, 1), FIXED, STUCK, index, {}, MOVED, [1]);
  }

  lemma OnlyNine(index: ConflictIndex)
    ensures LOCKED.lecturerPool != [] && ResortLecturer([1], LOCKED, 9, index, 9)
    ensures |STUCK.lecturerIds| == |MOVED.lecturerIds| == 1 && STUCK.lecturerIds[0] == MOVED.lecturerIds[0] == 9
    ensures MOVED == SessionData(STUCK.roomId, [1], MOVED.lecturerIds) && STUCK.timeSlotIds == [0]
  {
    hide LecturerConflicts;
    assert forall x :: x in LOCKED.lecturerPool ==> x == 9;
  }

  lemma StuckFacts(index: ConflictIndex)
    requires IndexOf(index, HOLDERS)
    requires Exhausted(LOCKED, GridOf(2, 1), FIXED, STUCK, MOVED.timeSlotIds, index, {})
    ensures Hopeless(LOCKED, GridOf(2, 1), FIXED, STUCK, index, {}) && !KeepsSession(LOCKED, STUCK, index, {})
    ensures FullBlocks(LOCKED, GridOf(2, 1))
         == Blocks(LOCKED.possibleTimeSlotIds, LOCKED.sessionDuration, GridOf(2, 1))
  {
    HolderKeys();
    hide GridOf, Blocks, Hopeless, NoWay, AllRoomKeys, AllLecKeys;
    assert (7, 0) in index.roomTimeUsed.Keys && 0 in STUCK.timeSlotIds;
  }

  lemma HolderKeys()
    ensures AllRoomKeys(HOLDERS) == [(7, 0), (7, 1)] && AllLecKeys(HOLDERS) == [(1, 0), (9, 1)]
  {
    var a, b := HOLDERS[0], HOLDERS[1];
    assert HOLDERS == [a] + [b];
    KeysOfConcat([a], [b]);
    KeysOfOne(a);
    KeysOfOne(b);
    assert LecKeysUpTo(a, 1) == LecKeysUpTo(a, 0) + LecturersAt([1], 0);
    assert LecKeysUpTo(b, 1) == LecKeysUpTo(b, 0) + LecturersAt([9], 1);
  }

  lemma StuckClashes()
    ensures Clashes(STUCK, HOLDERS) == 1
  {
    HolderKeys();
    assert LecKeysUpTo(STUCK, 1) == LecKeysUpTo(STUCK, 0) + LecturersAt([9], 0);
    assert RoomKeys(STUCK) == [(7, 0)] && LecKeys(STUCK) == [(9, 0)];
    hide RoomKeys, LecKeysUpTo, AllRoomKeys, AllLecKeys;
    TwoElements((7, 0), (7, 1));
    TwoElements((1, 0), (9, 1));
    assert Elements([(7, 0)]) * Elements([(7, 0), (7, 1)]) == {(7, 0)};
    assert Elements([(9, 0)]) * Elements([(1, 0), (9, 1)]) == {};
  }

  lemma MovedClashes()
    ensures Clashes(MOVED, HOLDERS) == 2
  {
    HolderKeys();
    assert LecKeysUpTo(MOVED, 1) == LecKeysUpTo(MOVED, 0) + LecturersAt([9], 1);
    assert RoomKeys(MOVED) == [(7, 1)] && LecKeys(MOVED) == [(9, 1)];
    hide RoomKeys, LecKeysUpTo, AllRoomKeys, AllLecKeys;
    TwoElements((7, 0), (7, 1));
    TwoElements((1, 0), (9, 1));
    assert Elements([(7, 1)]) * Elements([(7, 0), (7, 1)]) == {(7, 1)};
    assert Elements([(9, 1)]) * Elements([(1, 0), (9, 1)]) == {(9, 1)};
  }

  lemma TwoElements<T>(a: T, b: T)
    ensures Elements([a, b]) == {a, b} && Elements([a]) == {a} && Elements([b]) == {b}
  {
    assert [a, b][0] == a && [a, b][1] == b && [a][0] == a && [b][0] == b;
  }
}
