/** Exactly when a FEASIBLE verdict guarantees a timetable. */
module Guarantee {
  import opened Prelude
  import opened Candidates
  import opened Timetable
  import opened SameDay
  import opened Bipartite
  import opened Genes
  import opened Fitness
  import opened WellFormed
  import opened Ssa
  import opened Admissibility
  import opened Grid

  /** Legal candidates whose allowed slots are all in the timetable. */
  ghost predicate Timetabled(cs: seq<Candidate>, lookup: SlotLookup) {
    LookupOk(lookup) && SsaInput(cs) && CandidatesOk(cs) &&
      forall c, s :: c in cs && s in c.possibleTimeSlotIds ==> s in lookup
  }

  // ---------------------------------------------------------------- FEASIBLE

  /** A one-slot session at an allowed start. */
  lemma UnitFits(cs: seq<Candidate>, lookup: SlotLookup, node: SessionNode, start: int) returns (s: SessionData)
    requires Timetabled(cs, lookup) && Owned(cs, node) && OwnerOf(cs, node) in cs &&
      OwnerOf(cs, node).sessionDuration == 1
    requires start in StartsFor(cs, OwnerOf(cs, node), lookup)
    ensures Fits(cs, lookup, s, node) && s.timeSlotIds == [start]
  {
    var c := OwnerOf(cs, node);
    ExclusionExact(cs);
    BlockStartsAllowed(AfterExclusion(c, LockedCoordinates(cs)), Some(lookup));
    CandidateMember(cs, c);
    hide BlockStarts, AfterExclusion, LockedCoordinates, LockedFor, CandidatesOk, CandidateOk, SsaInput, LookupOk,
         RunStaticExclusion, CandidateMap, SlotsOk, SessionOk;
    assert start in Elements(AfterExclusion(c, LockedCoordinates(cs)).possibleTimeSlotIds);
    UnitBlock(c, lookup, start);
    BlockIsLegal(c, lookup, [start]);
    DefaultSession(c, lookup, node.sessionIndex, [start]);
    s := SessionData(FirstRoom(c), [start], SeededLecturers(c, node.sessionIndex));
  }

  /** For one-slot sessions a FEASIBLE verdict is constructive: the distinct starts are a collision-free timetable. */
  lemma FeasibleUnitsAreSchedulable(cs: seq<Candidate>, lookup: SlotLookup)
    requires Timetabled(cs, lookup) && Feasible(cs, lookup) && forall c :: c in cs ==> c.sessionDuration == 1
    ensures Schedulable(cs, lookup)
  {
    NodesOwned(cs);
    FeasibleIffStarts(cs, lookup);
    hide AllNodes, StartsFor, OwnerOf, Owned, Fits, Apart, Feasible, Schedulable, CandidatesOk, SsaInput, LookupOk;
    var starts :| StartsOk(cs, lookup, starts);
    var ss := UnitRoster(cs, lookup, starts, |starts|);
    assert Roster(cs, lookup, ss);
    assert PairwiseApart(ss) by {
      forall p, q | 0 <= p < q < |ss| ensures Apart(ss[p], ss[q]) {
        DifferentSlotsApart(ss[p], ss[q], starts[p], starts[q]);
      }
    }
    SchedulableIffRoster(cs, lookup);
  }

  lemma StartAt(cs: seq<Candidate>, lookup: SlotLookup, starts: seq<int>, p: nat)
    requires Timetabled(cs, lookup) && StartsOk(cs, lookup, starts) && p < |starts|
    ensures |starts| == |AllNodes(cs)|
    ensures var n := AllNodes(cs)[p];
      Owned(cs, n) && n.offeringId in CandidateMap(cs) && OwnerOf(cs, n) in cs &&
        starts[p] in StartsFor(cs, OwnerOf(cs, n), lookup)
  {
    NodesOwned(cs);
    hide AllNodes, StartsFor, OwnerOf, CandidateMap;
  }

  /** One-slot sessions for the first nodes, each at its start. */
  ghost predicate UnitsPlaced(cs: seq<Candidate>, lookup: SlotLookup, starts: seq<int>, ss: seq<SessionData>) {
    |ss| <= |starts| == |AllNodes(cs)| &&
      forall q :: 0 <= q < |ss| ==> Fits(cs, lookup, ss[q], AllNodes(cs)[q]) && ss[q].timeSlotIds == [starts[q]]
  }

  lemma NothingPlaced(cs: seq<Candidate>, lookup: SlotLookup, starts: seq<int>)
    requires StartsOk(cs, lookup, starts)
    ensures UnitsPlaced(cs, lookup, starts, [])
  {
  }

  lemma UnitPlaced(cs: seq<Candidate>, lookup: SlotLookup, starts: seq<int>, ss: seq<SessionData>, s: SessionData)
    requires UnitsPlaced(cs, lookup, starts, ss) && |ss| < |starts|
    requires Fits(cs, lookup, s, AllNodes(cs)[|ss|]) && s.timeSlotIds == [starts[|ss|]]
    ensures UnitsPlaced(cs, lookup, starts, ss + [s])
  {
    hide Fits, AllNodes;
  }

  lemma {:induction false} UnitRoster(cs: seq<Candidate>, lookup: SlotLookup, starts: seq<int>, n: nat)
    returns (ss: seq<SessionData>)
    requires Timetabled(cs, lookup) && StartsOk(cs, lookup, starts) &&
      (forall c :: c in cs ==> c.sessionDuration == 1) && n <= |starts|
    ensures |ss| == n && UnitsPlaced(cs, lookup, starts, ss)
  {
    hide *;
    if n == 0 {
      ss := [];
      NothingPlaced(cs, lookup, starts);
    } else {
      ss := UnitRoster(cs, lookup, starts, n - 1);
      StartAt(cs, lookup, starts, n - 1);
      var s := UnitFits(cs, lookup, AllNodes(cs)[n - 1], starts[n - 1]);
      UnitPlaced(cs, lookup, starts, ss, s);
      ss := ss + [s];
    }
  }

  lemma DifferentSlotsApart(s: SessionData, t: SessionData, a: int, b: int)
    requires s.timeSlotIds == [a] && t.timeSlotIds == [b] && a != b
    ensures Apart(s, t)
  {
  }

  ghost predicate LastOneOf(cs: seq<Candidate>, durations: set<int>) {
    forall c :: c in cs ==> c.sessionDuration in durations
  }

  /** A FEASIBLE verdict guarantees a timetable, for all inputs with these session durations. */
  ghost predicate FeasibleGuarantees(durations: set<int>) {
    forall cs, lookup :: Timetabled(cs, lookup) && LastOneOf(cs, durations) && Feasible(cs, lookup) ==>
      Schedulable(cs, lookup)
  }

  /** The guarantee holds exactly when no session lasts longer than one slot. */
  lemma FeasibleGuaranteesIffUnit(durations: set<int>)
    requires forall d :: d in durations ==> d >= 1
    ensures FeasibleGuarantees(durations) <==> forall d :: d in durations ==> d == 1
  {
    hide Timetabled, Feasible, Schedulable;
    if forall d :: d in durations ==> d == 1 {
      forall cs, lookup | Timetabled(cs, lookup) && LastOneOf(cs, durations) && Feasible(cs, lookup)
        ensures Schedulable(cs, lookup) {
        FeasibleUnitsAreSchedulable(cs, lookup);
      }
    } else {
      var d :| d in durations && d != 1;
      FeasibleYetColliding(d);
      assert LastOneOf(TightPair(d), durations);
    }
  }

  // ---------------------------------------------------------------- FEASIBLE, yet nothing fits

  /** A course locked in room 7 that needs d of d + 1 consecutive slots. */
  function Tight(id: int, d: nat): Candidate {
    Candidate(id, id, Some(7), [id], 10, 1, d, Range(0, d + 1), [], true, [id], [id], [[id]], d, false)
  }

  function TightPair(d: nat): seq<Candidate> { [Tight(1, d), Tight(2, d)] }

  lemma TightIsTimetabled(d: nat)
    ensures Timetabled(TightPair(d), GridOf(1, d + 1))
  {
    GridLookup(1, d + 1);
    var ids := Range(0, d + 1);
    forall k | 0 <= k < |ids| ensures ids[k] in GridOf(1, d + 1) {
      GridAt(ids[k], 1, d + 1);
    }
    hide GridOf;
    assert CandidateOk(Tight(1, d)) && CandidateOk(Tight(2, d));
  }

  lemma TightBlocks(id: int, d: nat)
    requires d >= 2
    ensures 0 in BlockStarts(Tight(id, d), Some(GridOf(1, d + 1))) &&
      1 in BlockStarts(Tight(id, d), Some(GridOf(1, d + 1)))
    ensures forall b :: b in Blocks(Tight(id, d).possibleTimeSlotIds, d, GridOf(1, d + 1)) ==> 1 in b
    ensures Blocks(Tight(id, d).possibleTimeSlotIds, d, GridOf(1, d + 1)) != []
  {
    hide Blocks, GridOf;
    RangeBlock(0, d);
    RangeBlock(1, d);
    assert Range(0, d)[0] == 0 && Range(1, d)[0] == 1;
    forall b | b in Blocks(Range(0, d + 1), d, GridOf(1, d + 1)) ensures 1 in b { MiddleSlot(b, d); }
  }

  lemma RangeBlock(a: nat, d: nat)
    requires d >= 2 && a <= 1
    ensures Range(a, d) in Blocks(Range(0, d + 1), d, GridOf(1, d + 1))
  {
    hide Blocks, GridOf;
    var ids := Range(0, d + 1);
    forall k | 0 <= k < d ensures Range(a, d)[k] in ids { assert ids[a + k] == a + k; }
    GridBlock(a, d, ids, 1, d + 1);
  }

  /** Slot 1 is in every block of d out of d + 1 slots. */
  lemma MiddleSlot(b: seq<int>, d: nat)
    requires d >= 2 && b in Blocks(Range(0, d + 1), d, GridOf(1, d + 1))
    ensures 1 in b
  {
    hide Blocks, GridOf;
    GridBlockIsRange(b, Range(0, d + 1), d, 1, d + 1);
    assert b[1 - b[0]] == 1;
  }

  lemma TightStarts(d: nat, p: nat)
    requires d >= 2 && p < 2
    ensures p in StartsFor(TightPair(d), TightPair(d)[p], GridOf(1, d + 1))
  {
    TightBlocks(p + 1, d);
    hide BlockStarts, LockedCoordinates;
  }

  lemma TightIsFeasible(d: nat)
    requires d >= 2
    ensures Feasible(TightPair(d), GridOf(1, d + 1))
  {
    var cs, g := TightPair(d), GridOf(1, d + 1);
    TightIsTimetabled(d);
    PairNodes(Tight(1, d), Tight(2, d));
    TightStarts(d, 0);
    TightStarts(d, 1);
    assert SsaInput(cs);
    hide *;
    TwoStarts(cs, g, 0, 1);
    FeasibleIffStarts(cs, g);
  }

  lemma TwoStarts(cs: seq<Candidate>, g: SlotLookup, x: int, y: int)
    requires |cs| == |AllNodes(cs)| == 2 && x != y
    requires forall p :: 0 <= p < 2 ==> Owned(cs, AllNodes(cs)[p]) && OwnerOf(cs, AllNodes(cs)[p]) == cs[p]
    requires x in StartsFor(cs, cs[0], g) && y in StartsFor(cs, cs[1], g)
    ensures StartsOk(cs, g, [x, y])
  {
    hide StartsFor, AllNodes, CandidateMap;
  }

  lemma TightCollides(d: nat)
    requires d >= 2
    ensures !Schedulable(TightPair(d), GridOf(1, d + 1))
  {
    var cs, g := TightPair(d), GridOf(1, d + 1);
    TightIsTimetabled(d);
    PairNodes(Tight(1, d), Tight(2, d));
    hide AllNodes, Owned, OwnerOf, GridOf, SsaInput, CandidatesOk, Schedulable, Fits, Tight;
    SchedulableIffRoster(cs, g);
    forall ss | Roster(cs, g, ss) ensures !PairwiseApart(ss) {
      assert Fits(cs, g, ss[0], AllNodes(cs)[0]) && Fits(cs, g, ss[1], AllNodes(cs)[1]);
      TightSession(1, d, ss[0], AllNodes(cs)[0]);
      TightSession(2, d, ss[1], AllNodes(cs)[1]);
      assert !Apart(ss[0], ss[1]);
    }
  }

  lemma TightSession(id: int, d: nat, s: SessionData, node: SessionNode)
    requires d >= 2 && Owned(TightPair(d), node) && OwnerOf(TightPair(d), node) == Tight(id, d)
    requires Fits(TightPair(d), GridOf(1, d + 1), s, node)
    ensures 1 in s.timeSlotIds && s.roomId == 7
  {
    TightBlocks(id, d);
    hide Blocks, GridOf, OneDay, MostSlots, LecturersOk, CandidateMap;
  }

  /** For every duration above one: distinct starts do not keep blocks from overlapping. */
  lemma FeasibleYetColliding(d: nat)
    requires d >= 2
    ensures Timetabled(TightPair(d), GridOf(1, d + 1)) && Feasible(TightPair(d), GridOf(1, d + 1))
    ensures !Schedulable(TightPair(d), GridOf(1, d + 1))
  {
    hide *;
    TightIsTimetabled(d);
    TightIsFeasible(d);
    TightCollides(d);
  }
}
