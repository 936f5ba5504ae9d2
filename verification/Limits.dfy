/** Concrete inputs with an INFEASIBLE verdict and a collision-free timetable, one for each way the proof can fail. */
module Limits {
  import opened Prelude
  import opened Candidates
  import opened Timetable
  import opened Ac3
  import opened Bipartite
  import opened Genes
  import opened Fitness
  import opened WellFormed
  import opened Ssa
  import opened Admissibility
  import opened Grid
  import opened Guarantee
  import opened Exactness

  /** A one-slot course of one offering. */
  function Course(id: int, room: int, lecturer: int, isFixed: bool, slots: seq<int>): Candidate {
    Candidate(id, id, Some(room), [lecturer], 10, 1, 1, slots, [room], isFixed, [id], [lecturer],
      [[lecturer]], 1, false)
  }

  ghost predicate InfeasibleYetSchedulable(cs: seq<Candidate>, lookup: SlotLookup) {
    Timetabled(cs, lookup) && !Feasible(cs, lookup) && Schedulable(cs, lookup)
  }

  lemma CoursesTimetabled(a: Candidate, b: Candidate, days: nat)
    requires a.offeringId >= 0 && b.offeringId >= 0 && a.offeringId != b.offeringId && days > 0
    requires CandidateOk(a) && CandidateOk(b) && NoDup(a.lecturerIds) && NoDup(b.lecturerIds)
    requires a.parallelSessionCount == b.parallelSessionCount == 1
    requires forall c, s :: c in [a, b] && s in c.possibleTimeSlotIds ==> 0 <= s < days
    ensures Timetabled([a, b], GridOf(days, 1))
  {
    GridLookup(days, 1);
    forall c, s | c in [a, b] && s in c.possibleTimeSlotIds ensures s in GridOf(days, 1) { GridAt(s, days, 1); }
    hide CandidateOk, GridOf, LookupOk;
  }

  /** Two one-slot sessions at different slots, or in different rooms with different lecturers, are a timetable. */
  lemma PairSchedulable(a: Candidate, b: Candidate, lookup: SlotLookup, s: SessionData, t: SessionData)
    requires Timetabled([a, b], lookup) && a.offeringId != b.offeringId &&
      a.parallelSessionCount == b.parallelSessionCount == 1
    requires CandidateOk(a) && CandidateOk(b) && SessionOk(a, lookup, 0, s) && SessionOk(b, lookup, 0, t) && Apart(s, t)
    ensures Schedulable([a, b], lookup)
  {
    PairRoster(a, b, lookup, s, t);
    TwoApart(s, t);
    hide SsaInput, LookupOk, Roster, PairwiseApart, Schedulable;
    SchedulableIffRoster([a, b], lookup);
  }

  lemma TwoApart(s: SessionData, t: SessionData)
    requires Apart(s, t)
    ensures PairwiseApart([s, t])
  {
    hide Apart;
  }

  lemma PairRoster(a: Candidate, b: Candidate, lookup: SlotLookup, s: SessionData, t: SessionData)
    requires a.offeringId != b.offeringId && a.parallelSessionCount == b.parallelSessionCount == 1
    requires CandidateOk(a) && CandidateOk(b) && SessionOk(a, lookup, 0, s) && SessionOk(b, lookup, 0, t)
    ensures Roster([a, b], lookup, [s, t])
  {
    PairNodes(a, b);
    PairIndices(a, b);
    hide SessionOk, CandidateOk, AllNodes, CandidateMap;
  }

  lemma PairIndices(a: Candidate, b: Candidate)
    requires a.parallelSessionCount == b.parallelSessionCount == 1
    ensures |AllNodes([a, b])| == 2 && AllNodes([a, b])[0].sessionIndex == AllNodes([a, b])[1].sessionIndex == 0
  {
    assert [a, b][..1] == [a] && [a][..0] == [];
    assert AllNodes([a]) == NodesOf(a, 1);
  }

  /** Sessions that may meet: two courses in different rooms with different lecturers that share their only slot. */
  lemma OneSlotForTwo()
    ensures InfeasibleYetSchedulable([Course(1, 1, 1, true, [0]), Course(2, 2, 2, true, [0])], GridOf(1, 1))
  {
    var a, b, g := Course(1, 1, 1, true, [0]), Course(2, 2, 2, true, [0]), GridOf(1, 1);
    CoursesTimetabled(a, b, 1);
    GridAt(0, 1, 1);
    hide GridOf;
    UnitSession(a, g, 0);
    UnitSession(b, g, 0);
    PairSchedulable(a, b, g, SessionData(1, [0], [1]), SessionData(2, [0], [2]));
    OneStartIsTooFew(a, b, g, 0);
  }

  lemma OneStartIsTooFew(a: Candidate, b: Candidate, lookup: SlotLookup, slot: int)
    requires Timetabled([a, b], lookup) && a.offeringId != b.offeringId &&
      a.parallelSessionCount == b.parallelSessionCount == 1
    requires forall s :: s in a.possibleTimeSlotIds || s in b.possibleTimeSlotIds ==> s == slot
    ensures !Feasible([a, b], lookup)
  {
    var cs := [a, b];
    PairNodes(a, b);
    StartsAllowed(cs, a, lookup);
    StartsAllowed(cs, b, lookup);
    hide AllNodes, CandidateMap, LookupOk, SsaInput, StartsFor, Feasible, CandidatesOk;
    FeasibleIffStarts(cs, lookup);
    forall starts ensures !StartsOk(cs, lookup, starts) {
      if |starts| == 2 && starts[0] in StartsFor(cs, a, lookup) && starts[1] in StartsFor(cs, b, lookup) {
        assert starts[0] in Elements(a.possibleTimeSlotIds) && starts[1] in Elements(b.possibleTimeSlotIds);
        assert starts[0] == slot == starts[1];
      }
    }
  }

  lemma StartsAllowed(cs: seq<Candidate>, c: Candidate, lookup: SlotLookup)
    requires LookupOk(lookup) && c in cs
    ensures StartsFor(cs, c, lookup) <= Elements(c.possibleTimeSlotIds)
  {
    ExclusionExact(cs);
    var after := AfterExclusion(c, LockedCoordinates(cs));
    BlockStartsAllowed(after, Some(lookup));
    hide BlockStarts, AfterExclusion, LockedCoordinates, LockedFor, RunStaticExclusion;
    assert forall s :: s in Elements(after.possibleTimeSlotIds) ==> s in c.possibleTimeSlotIds;
  }

  /** A named fixed room: two courses that never meet, two slots, but exclusion gives both to the locked course. */
  lemma NamedRoomIsLost()
    ensures InfeasibleYetSchedulable([Course(1, 7, 5, true, [0, 1]), Course(2, 7, 5, false, [0, 1])], GridOf(2, 1))
    ensures NoTwoMeet([Course(1, 7, 5, true, [0, 1]), Course(2, 7, 5, false, [0, 1])])
  {
    var a, b := Course(1, 7, 5, true, [0, 1]), Course(2, 7, 5, false, [0, 1]);
    NoDupPair(0, 1);
    CoursesTimetabled(a, b, 2);
    NamedRoomTimetable(a, b);
    ExcludedIsInfeasible(a, b, 2);
    assert 5 in a.lecturerIds && 5 in b.lecturerIds;
    NeverMeet(a, b);
    hide *;
  }

  /** Two locked courses of one room with one slot: AC-3 stops with an achievable matching of 0, the maximum is 1. */
  lemma Ac3ReportsTooLittle()
    ensures var cs, slots := [Course(1, 7, 1, true, [0]), Course(2, 7, 2, true, [0])], Some([GridSlot(0, 1)]);
      var pruned := RunStaticExclusion(cs);
      var d := DomainsOf(pruned, LookupFor(slots));
      SsaInput(cs) && !(exists e :: Supported(AllNodes(pruned), e, d)) && IsMaximumSize(1, d)
  {
    var a, b, g := Course(1, 7, 1, true, [0]), Course(2, 7, 2, true, [0]), GridOf(1, 1);
    CoursesTimetabled(a, b, 1);
    OneSlotLookup();
    BothFixed(a, b);
    OnlyStart(a, g);
    OnlyStart(b, g);
    PairOfNodes(a, b, g);
    hide *;
    SameRoomSameSlot([NodeOf(a, 0), NodeOf(b, 0)], DomainsOf([a, b], Some(g)), 100, 200, 0);
  }

  lemma OneSlotLookup()
    ensures LookupFor(Some([GridSlot(0, 1)])) == Some(GridOf(1, 1))
  {
    var m := BuildSlotLookup([GridSlot(0, 1)]);
    assert [GridSlot(0, 1)][..0] == [];
    assert m == map[0 := GridSlot(0, 1)];
    assert GridOf(1, 1) == map[0 := GridSlot(0, 1)];
  }

  lemma BothFixed(a: Candidate, b: Candidate)
    requires a.isFixedRoom && b.isFixedRoom
    ensures RunStaticExclusion([a, b]) == [a, b]
  {
    var locked := LockedCoordinates([a, b]);
    assert [a, b][..1] == [a] && [a][..0] == [];
    assert Fixed([a]) == [a] && PrunedFlexible([a], locked) == [];
    hide LockedCoordinates;
  }

  lemma OnlyStart(c: Candidate, g: SlotLookup)
    requires LookupOk(g) && c.sessionDuration == 1 && c.possibleTimeSlotIds == [0] && 0 in g
    ensures BlockStarts(c, Some(g)) == {0}
  {
    UnitBlock(c, g, 0);
    BlockStartsAllowed(c, Some(g));
    hide Blocks;
    assert [0][0] == 0;
  }

  lemma PairOfNodes(a: Candidate, b: Candidate, g: SlotLookup)
    requires a.offeringId == 1 && b.offeringId == 2 && a.parallelSessionCount == b.parallelSessionCount == 1
    requires a.roomId == b.roomId == Some(7)
    requires BlockStarts(a, Some(g)) == BlockStarts(b, Some(g)) == {0}
    ensures AllNodes([a, b]) == [NodeOf(a, 0), NodeOf(b, 0)]
    ensures DomainsOf([a, b], Some(g)) == map[100 := {0}, 200 := {0}]
    ensures NodeOf(a, 0).sessionId == 100 && NodeOf(b, 0).sessionId == 200
    ensures Constrained(NodeOf(a, 0), NodeOf(b, 0))
  {
    hide BlockStarts;
    assert [a, b][..1] == [a] && [a][..0] == [];
    assert NodesOf(a, 1) == [NodeOf(a, 0)] && NodesOf(b, 1) == [NodeOf(b, 0)];
    assert AllNodes([a]) == NodesOf(a, 1);
    assert DomainsOf([a], Some(g)) == DomainsOfOne(a, 1, Some(g)) == map[100 := {0}];
    assert DomainsOfOne(b, 1, Some(g)) == map[200 := {0}];
  }

  /** Two constrained sessions with one common start: no consistent restriction, and a maximum matching of one. */
  lemma SameRoomSameSlot(nodes: seq<SessionNode>, d: Domains, x: int, y: int, slot: int)
    requires |nodes| == 2 && nodes[0].sessionId == x && nodes[1].sessionId == y && x != y
    requires Constrained(nodes[0], nodes[1]) && d == map[x := {slot}, y := {slot}]
    ensures !exists e :: Supported(nodes, e, d)
    ensures IsMaximumSize(1, d)
  {
    hide Constrained;
    assert nodes[0] in nodes && nodes[1] in nodes;
    assert Arc(nodes, x, y);
    forall e ensures !Supported(nodes, e, d) {
      if e.Keys == d.Keys && forall s :: s in d ==> e[s] <= d[s] && e[s] != {} { BothKeep(e, x, y, slot); }
    }
    var one := map[x := slot];
    assert IsMatching(one, d) && |one| == 1;
    forall m | IsMatching(m, d) ensures |m| <= 1 { OneSlotOneSession(m, d, slot); }
  }

  lemma BothKeep(e: Domains, x: int, y: int, slot: int)
    requires x in e && y in e && e[x] != {} && e[y] != {} && e[x] <= {slot} && e[y] <= {slot}
    ensures Blocked(e, x, y)
  {
    var v := Member(e[x]);
    var w := Member(e[y]);
    assert v in {slot} && w in {slot};
    assert e[y] == {slot};
  }

  lemma OneSlotOneSession(m: map<int, int>, d: Domains, slot: int)
    requires IsMatching(m, d) && forall s :: s in d ==> d[s] == {slot}
    ensures |m| <= 1
  {
    var slots := {slot};
    forall s | s in m.Keys ensures m[s] in slots { assert s in d && m[s] in d[s] && d[s] == {slot}; }
    forall s, t | s in m.Keys && t in m.Keys && s != t ensures m[s] != m[t] { assert s in m && t in m; }
    InjectionBound(m.Keys, m, slots);
    assert |m.Keys| == |m|;
  }

  lemma NoDupPair(x: int, y: int)
    requires x != y
    ensures NoDup([x, y])
  {
  }

  lemma NamedRoomTimetable(a: Candidate, b: Candidate)
    requires Timetabled([a, b], GridOf(2, 1)) && CandidateOk(a) && CandidateOk(b)
    requires a == Course(1, 7, 5, true, [0, 1]) && b == Course(2, 7, 5, false, [0, 1])
    ensures Schedulable([a, b], GridOf(2, 1))
  {
    GridAt(0, 2, 1);
    GridAt(1, 2, 1);
    assert 0 in a.possibleTimeSlotIds && 1 in b.possibleTimeSlotIds;
    hide GridOf, Timetabled, CandidateOk, Schedulable;
    ApartInTime(a, b, GridOf(2, 1), 0, 1);
  }

  /** Two one-slot courses with different slots to choose are a timetable. */
  lemma ApartInTime(a: Candidate, b: Candidate, lookup: SlotLookup, x: int, y: int)
    requires Timetabled([a, b], lookup) && a.offeringId != b.offeringId &&
      a.parallelSessionCount == b.parallelSessionCount == 1
    requires CandidateOk(a) && a.sessionDuration == 1 && !a.MultiSibling() && a.roomId.Some? &&
      x in a.possibleTimeSlotIds && x in lookup
    requires CandidateOk(b) && b.sessionDuration == 1 && !b.MultiSibling() && b.roomId.Some? &&
      y in b.possibleTimeSlotIds && y in lookup
    requires x != y
    ensures Schedulable([a, b], lookup)
  {
    assert LookupOk(lookup);
    hide Timetabled, CandidateOk, SessionOk, LookupOk, Schedulable;
    UnitSession(a, lookup, x);
    UnitSession(b, lookup, y);
    var s, t := SessionData(a.roomId.value, [x], a.lecturerIds), SessionData(b.roomId.value, [y], b.lecturerIds);
    DifferentSlotsApart(s, t, x, y);
    PairSchedulable(a, b, lookup, s, t);
  }

  lemma ExcludedIsInfeasible(a: Candidate, b: Candidate, days: nat)
    requires days > 0 && Timetabled([a, b], GridOf(days, 1)) && a.offeringId != b.offeringId
    requires a.parallelSessionCount == b.parallelSessionCount == 1 && Trespasses(a, b) &&
      a.possibleTimeSlotIds == b.possibleTimeSlotIds
    ensures !Feasible([a, b], GridOf(days, 1))
  {
    var cs, g := [a, b], GridOf(days, 1);
    PairNodes(a, b);
    TrespasserLosesAll(cs, a, b, days, 1);
    hide AllNodes, CandidateMap, LookupOk, SsaInput, StartsFor, Feasible, CandidatesOk, GridOf;
    FeasibleIffStarts(cs, g);
  }

  /** Single offerings with a common lecturer never meet. */
  lemma NeverMeet(a: Candidate, b: Candidate)
    requires a.offeringId != b.offeringId && a.parallelSessionCount == b.parallelSessionCount == 1
    requires !a.MultiSibling() && !b.MultiSibling() && exists l :: l in a.lecturerIds && l in b.lecturerIds
    ensures NoTwoMeet([a, b])
  {
    PairNodes(a, b);
    hide AllNodes, CandidateMap, CandidateOk, RoomOk;
  }
}
