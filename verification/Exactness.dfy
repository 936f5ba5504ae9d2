/** Exactly when an INFEASIBLE verdict proves that there is no timetable. */
module Exactness {
  import opened Prelude
  import opened Candidates
  import opened Timetable
  import opened SameDay
  import opened Bipartite
  import opened Genes
  import opened Fitness
  import opened WellFormed
  import opened Completeness
  import opened Ssa
  import opened Admissibility
  import opened Grid

  /** Every session lasts at least one slot and its candidate may use some slot of the timetable. */
  ghost predicate Placeable(c: Candidate, lookup: SlotLookup) {
    c.sessionDuration > 0 && exists x :: x in c.possibleTimeSlotIds && x in lookup
  }

  ghost predicate RoomsMayDiffer(a: Candidate, b: Candidate) {
    exists r, r' :: RoomOk(a, r) && RoomOk(b, r') && r != r'
  }

  ghost predicate LecturersMayDiffer(a: Candidate, j: nat, b: Candidate, k: nat)
    requires CandidateOk(a) && CandidateOk(b)
  {
    exists ls, ls' :: LecturersOk(a, j, ls) && LecturersOk(b, k, ls') && NoneShared(ls, ls')
  }

  predicate NoneShared(ls: seq<int>, ls': seq<int>) {
    forall l :: l in ls ==> l !in ls'
  }

  /** Some legal rooms and lecturers let the two sessions take place at the same time. */
  ghost predicate MayMeet(cs: seq<Candidate>, m: SessionNode, n: SessionNode) {
    && Owned(cs, m) && Owned(cs, n) && CandidateOk(OwnerOf(cs, m)) && CandidateOk(OwnerOf(cs, n))
    && RoomsMayDiffer(OwnerOf(cs, m), OwnerOf(cs, n))
    && LecturersMayDiffer(OwnerOf(cs, m), m.sessionIndex, OwnerOf(cs, n), n.sessionIndex)
  }

  ghost predicate NoTwoMeet(cs: seq<Candidate>) {
    forall p, q :: 0 <= p < q < |AllNodes(cs)| ==> !MayMeet(cs, AllNodes(cs)[p], AllNodes(cs)[q])
  }

  /** Static exclusion takes no slot from a candidate that has sessions. */
  ghost predicate Untouched(cs: seq<Candidate>) {
    forall c, s :: c in cs && c.parallelSessionCount >= 1 && s in c.possibleTimeSlotIds ==> !LockedFor(cs, c, s)
  }

  lemma SomeSlot(c: Candidate, lookup: SlotLookup)
    requires LookupOk(lookup) && Placeable(c, lookup)
    ensures MostSlots(c.possibleTimeSlotIds, lookup) >= 1
  {
    var x :| x in c.possibleTimeSlotIds && x in lookup;
    var ids := c.possibleTimeSlotIds;
    DayListed(ids, lookup, x);
    var p := DayKnows(ids, lookup, x);
    DaySlotsFacts(ids, lookup, lookup[x].day);
    hide Days, Resolve, DaySlots;
  }

  /** A legal session starts in its candidate's domain. */
  lemma StartsInDomain(c: Candidate, k: nat, lookup: SlotLookup, s: SessionData)
    requires LookupOk(lookup) && Placeable(c, lookup) && CandidateOk(c) && SessionOk(c, lookup, k, s)
    ensures s.timeSlotIds != [] && s.timeSlotIds[0] in BlockStarts(c, Some(lookup))
  {
    SomeSlot(c, lookup);
    hide Blocks, MostSlots, RoomOk, LecturersOk, Placeable;
    assert c.sessionDuration > 0;
  }

  lemma UntouchedKeeps(cs: seq<Candidate>, c: Candidate, lookup: SlotLookup)
    requires Untouched(cs) && c in cs && c.parallelSessionCount >= 1
    ensures StartsFor(cs, c, lookup) == BlockStarts(c, Some(lookup))
  {
    var locked := LockedCoordinates(cs);
    hide BlockStarts;
    if !c.isFixedRoom {
      forall i | 0 <= i < |c.possibleTimeSlotIds| ensures (c.roomId, c.possibleTimeSlotIds[i]) !in locked {
        var s := c.possibleTimeSlotIds[i];
        assert s in c.possibleTimeSlotIds && !LockedFor(cs, c, s);
      }
      NothingLocked(c.possibleTimeSlotIds, c.roomId, locked);
    }
  }

  /** The start of one session of a timetable is a start the verdict may use. */
  lemma RosterStart(cs: seq<Candidate>, lookup: SlotLookup, s: SessionData, node: SessionNode)
    requires LookupOk(lookup) && Untouched(cs) && Owned(cs, node) && OwnerOf(cs, node) in cs
    requires Placeable(OwnerOf(cs, node), lookup) && Fits(cs, lookup, s, node)
    ensures s.timeSlotIds != [] && s.timeSlotIds[0] in StartsFor(cs, OwnerOf(cs, node), lookup)
  {
    hide BlockStarts, SessionOk, CandidateOk, Placeable, CandidateMap, Untouched, StartsFor;
    UntouchedKeeps(cs, OwnerOf(cs, node), lookup);
    StartsInDomain(OwnerOf(cs, node), node.sessionIndex, lookup, s);
  }

  /** Two sessions that share a slot without a collision show that their candidates may meet. */
  lemma SharedSlotMeets(cs: seq<Candidate>, lookup: SlotLookup, s: SessionData, m: SessionNode, t: SessionData,
                        n: SessionNode, slot: int)
    requires Fits(cs, lookup, s, m) && Fits(cs, lookup, t, n) && Apart(s, t) && slot in s.timeSlotIds &&
      slot in t.timeSlotIds
    ensures MayMeet(cs, m, n)
  {
    hide CandidateOk, RoomOk, LecturersOk, SlotsOk, CandidateMap;
    assert NoneShared(s.lecturerIds, t.lecturerIds);
  }

  /** If no two sessions may meet and exclusion takes nothing, only a FEASIBLE verdict allows a timetable. */
  lemma SchedulableNeedsStarts(cs: seq<Candidate>, lookup: SlotLookup)
    requires LookupOk(lookup) && SsaInput(cs) && CandidatesOk(cs) && (forall c :: c in cs ==> Placeable(c, lookup))
    requires NoTwoMeet(cs) && Untouched(cs) && Schedulable(cs, lookup)
    ensures Feasible(cs, lookup)
  {
    NodesOwned(cs);
    SchedulableIffRoster(cs, lookup);
    FeasibleIffStarts(cs, lookup);
    hide *;
    var ss :| Roster(cs, lookup, ss) && PairwiseApart(ss);
    RosterStarts(cs, lookup, ss);
  }

  lemma RosterStarts(cs: seq<Candidate>, lookup: SlotLookup, ss: seq<SessionData>)
    requires LookupOk(lookup) && DistinctOfferings(cs) && (forall c :: c in cs ==> Placeable(c, lookup))
    requires NoTwoMeet(cs) && Untouched(cs) && Roster(cs, lookup, ss) && PairwiseApart(ss)
    ensures exists starts :: StartsOk(cs, lookup, starts)
  {
    NodesOwned(cs);
    hide AllNodes, StartsFor, Fits, OwnerOf, Owned, LookupOk, DistinctOfferings, Placeable, Untouched, Apart, MayMeet;
    var nodes := AllNodes(cs);
    forall p | 0 <= p < |ss|
      ensures ss[p].timeSlotIds != [] && ss[p].timeSlotIds[0] in StartsFor(cs, OwnerOf(cs, nodes[p]), lookup) {
      RosterStart(cs, lookup, ss[p], nodes[p]);
    }
    var starts := seq(|ss|, p requires 0 <= p < |ss| => ss[p].timeSlotIds[0]);
    forall p, q | 0 <= p < q < |starts| ensures starts[p] != starts[q] {
      assert Apart(ss[p], ss[q]) && !MayMeet(cs, nodes[p], nodes[q]);
      if starts[p] == starts[q] { SharedSlotMeets(cs, lookup, ss[p], nodes[p], ss[q], nodes[q], starts[p]); }
    }
    assert StartsOk(cs, lookup, starts);
  }

  // ---------------------------------------------------------------- the same candidates with other slots

  ghost predicate RetimedOne(c: Candidate, c': Candidate, lookup: SlotLookup) {
    && c' == c.(possibleTimeSlotIds := c'.possibleTimeSlotIds)
    && NoDup(c'.possibleTimeSlotIds) && (forall s :: s in c'.possibleTimeSlotIds ==> s >= 0)
    && Placeable(c', lookup)
  }

  /** The same rooms, lecturers and sessions, with any allowed slots in any timetable. */
  ghost predicate Retimed(cs: seq<Candidate>, cs': seq<Candidate>, lookup: SlotLookup) {
    LookupOk(lookup) && |cs'| == |cs| && forall i :: 0 <= i < |cs| ==> RetimedOne(cs[i], cs'[i], lookup)
  }

  /** Whatever slots the candidates may use, an INFEASIBLE verdict proves that no collision-free timetable exists. */
  ghost predicate InfeasibleProves(cs: seq<Candidate>) {
    forall cs', lookup :: Retimed(cs, cs', lookup) && !Feasible(cs', lookup) ==> !Schedulable(cs', lookup)
  }

  /** A flexible candidate with sessions names the room of a fixed one. */
  ghost predicate NamesFixedRoom(cs: seq<Candidate>) {
    exists f, g :: f in cs && g in cs && Trespasses(f, g)
  }

  predicate Trespasses(f: Candidate, g: Candidate) {
    f.isFixedRoom && !g.isFixedRoom && f.roomId == g.roomId && g.parallelSessionCount >= 1
  }

  lemma RetimedIsInput(cs: seq<Candidate>, cs': seq<Candidate>, lookup: SlotLookup)
    requires SsaInput(cs) && CandidatesOk(cs) && Retimed(cs, cs', lookup)
    ensures SsaInput(cs') && CandidatesOk(cs') && forall c :: c in cs' ==> Placeable(c, lookup)
  {
    hide Placeable;
    forall c | c in cs' ensures Placeable(c, lookup) && c.offeringId >= 0 && c.parallelSessionCount <= 100
      && (forall s :: s in c.possibleTimeSlotIds ==> s >= 0) && NoDup(c.lecturerIds) && NoDup(c.lecturerPool) {
      var i :| 0 <= i < |cs'| && cs'[i] == c;
      assert RetimedOne(cs[i], cs'[i], lookup) && cs[i] in cs;
    }
    forall i | 0 <= i < |cs'| ensures CandidateOk(cs'[i]) && cs'[i].offeringId == cs[i].offeringId {
      assert RetimedOne(cs[i], cs'[i], lookup) && CandidateOk(cs[i]);
      RetimedCandidateOk(cs[i], cs'[i]);
    }
  }

  lemma RetimedCandidateOk(c: Candidate, c': Candidate)
    requires CandidateOk(c) && c' == c.(possibleTimeSlotIds := c'.possibleTimeSlotIds) && NoDup(c'.possibleTimeSlotIds)
    ensures CandidateOk(c')
  {
    assert c'.MultiSibling() == c.MultiSibling();
    forall g | c.MultiSibling() && g in c'.siblingLecturerGroups ensures GroupOk(c', g) {
      assert GroupOk(c, g);
    }
  }

  ghost predicate SameSessions(cs: seq<Candidate>, cs': seq<Candidate>) {
    |cs'| == |cs| && forall i :: 0 <= i < |cs| ==> cs'[i] == cs[i].(possibleTimeSlotIds := cs'[i].possibleTimeSlotIds)
  }

  lemma {:induction false} SameNodes(cs: seq<Candidate>, cs': seq<Candidate>)
    requires SameSessions(cs, cs')
    ensures AllNodes(cs') == AllNodes(cs)
  {
    if cs != [] {
      var n := |cs| - 1;
      SameNodes(cs[..n], cs'[..n]);
      assert cs'[n] == cs[n].(possibleTimeSlotIds := cs'[n].possibleTimeSlotIds);
      assert forall k: nat :: NodeOf(cs'[n], k) == NodeOf(cs[n], k);
    }
  }

  lemma SameOwner(cs: seq<Candidate>, cs': seq<Candidate>, n: SessionNode)
    requires DistinctOfferings(cs) && SameSessions(cs, cs') && Owned(cs, n)
    ensures Owned(cs', n) && OwnerOf(cs', n) in cs' &&
      OwnerOf(cs', n) == OwnerOf(cs, n).(possibleTimeSlotIds := OwnerOf(cs', n).possibleTimeSlotIds)
    ensures exists i :: 0 <= i < |cs| && cs[i] == OwnerOf(cs, n) && cs'[i] == OwnerOf(cs', n)
  {
    var i :| 0 <= i < |cs| && cs[i] == OwnerOf(cs, n);
    assert DistinctOfferings(cs') by {
      forall j, k | 0 <= j < k < |cs'| ensures cs'[j].offeringId != cs'[k].offeringId {
        assert cs[j].offeringId != cs[k].offeringId;
      }
    }
    CandidateMapAt(cs, i);
    CandidateMapAt(cs', i);
    assert cs'[i] in cs';
  }

  /** Whether two sessions may meet does not depend on the slots. */
  lemma MeetingStays(cs: seq<Candidate>, cs': seq<Candidate>, m: SessionNode, n: SessionNode)
    requires DistinctOfferings(cs) && SameSessions(cs, cs') && Owned(cs, m) && Owned(cs, n) && MayMeet(cs', m, n)
    requires CandidateOk(OwnerOf(cs, m)) && CandidateOk(OwnerOf(cs, n))
    ensures MayMeet(cs, m, n)
  {
    SameOwner(cs, cs', m);
    SameOwner(cs, cs', n);
    MeetingFacts(cs', m, n);
    hide *;
    var a, b, a', b' := OwnerOf(cs, m), OwnerOf(cs, n), OwnerOf(cs', m), OwnerOf(cs', n);
    SameChoices(a, a', m.sessionIndex);
    SameChoices(b, b', n.sessionIndex);
    var r, r' :| RoomOk(a', r) && RoomOk(b', r') && r != r';
    var ls, ls' :| LecturersOk(a', m.sessionIndex, ls) && LecturersOk(b', n.sessionIndex, ls') && NoneShared(ls, ls');
    MeetingBy(cs, m, n, r, r', ls, ls');
  }

  lemma MeetingFacts(cs: seq<Candidate>, m: SessionNode, n: SessionNode)
    requires MayMeet(cs, m, n)
    ensures Owned(cs, m) && Owned(cs, n) && m.sessionIndex >= 0 && n.sessionIndex >= 0
    ensures CandidateOk(OwnerOf(cs, m)) && CandidateOk(OwnerOf(cs, n))
    ensures exists r, r' :: RoomOk(OwnerOf(cs, m), r) && RoomOk(OwnerOf(cs, n), r') && r != r'
    ensures exists ls, ls' :: LecturersOk(OwnerOf(cs, m), m.sessionIndex, ls)
                           && LecturersOk(OwnerOf(cs, n), n.sessionIndex, ls') && NoneShared(ls, ls')
  {
    hide CandidateOk, RoomOk, LecturersOk, CandidateMap, NoneShared;
  }

  lemma MeetingBy(cs: seq<Candidate>, m: SessionNode, n: SessionNode, r: int, r': int, ls: seq<int>, ls': seq<int>)
    requires Owned(cs, m) && Owned(cs, n) && CandidateOk(OwnerOf(cs, m)) && CandidateOk(OwnerOf(cs, n))
    requires RoomOk(OwnerOf(cs, m), r) && RoomOk(OwnerOf(cs, n), r') && r != r' && NoneShared(ls, ls')
    requires LecturersOk(OwnerOf(cs, m), m.sessionIndex, ls) && LecturersOk(OwnerOf(cs, n), n.sessionIndex, ls')
    ensures MayMeet(cs, m, n)
  {
    hide CandidateOk, RoomOk, LecturersOk, CandidateMap, NoneShared;
  }

  lemma SameChoices(c: Candidate, c': Candidate, k: nat)
    requires c' == c.(possibleTimeSlotIds := c'.possibleTimeSlotIds) && CandidateOk(c) && CandidateOk(c')
    ensures forall r :: RoomOk(c, r) <==> RoomOk(c', r)
    ensures forall ls :: LecturersOk(c, k, ls) <==> LecturersOk(c', k, ls)
  {
    assert c'.MultiSibling() == c.MultiSibling();
    assert c.MultiSibling() ==> SeededLecturers(c, k) == SeededLecturers(c', k);
  }

  lemma RetimedSame(cs: seq<Candidate>, cs': seq<Candidate>, lookup: SlotLookup)
    requires Retimed(cs, cs', lookup)
    ensures LookupOk(lookup) && SameSessions(cs, cs')
  {
    hide Placeable;
  }

  lemma RetimedMeet(cs: seq<Candidate>, cs': seq<Candidate>)
    requires CandidatesOk(cs) && SameSessions(cs, cs') && NoTwoMeet(cs)
    ensures NoTwoMeet(cs')
  {
    SameNodes(cs, cs');
    NodesOwned(cs);
    hide AllNodes, Owned, OwnerOf, MayMeet, SameSessions, CandidateOk, CandidateMap;
    forall p, q | 0 <= p < q < |AllNodes(cs')| ensures !MayMeet(cs', AllNodes(cs')[p], AllNodes(cs')[q]) {
      var m, n := AllNodes(cs)[p], AllNodes(cs)[q];
      CandidateMember(cs, OwnerOf(cs, m));
      CandidateMember(cs, OwnerOf(cs, n));
      assert !MayMeet(cs, m, n);
      if MayMeet(cs', m, n) { MeetingStays(cs, cs', m, n); }
    }
  }

  lemma NoTrespassUntouched(cs: seq<Candidate>, cs': seq<Candidate>)
    requires SameSessions(cs, cs') && !NamesFixedRoom(cs)
    ensures Untouched(cs')
  {
    forall f, c | f in cs' && c in cs' ensures !Trespasses(f, c) {
      var i :| 0 <= i < |cs'| && cs'[i] == c;
      var j :| 0 <= j < |cs'| && cs'[j] == f;
      assert cs[j] in cs && cs[i] in cs && !Trespasses(cs[j], cs[i]);
    }
  }

  /** Sessions that can never meet and rooms that are never fixed for others: then the verdict is a proof. */
  lemma ContendedIsProof(cs: seq<Candidate>)
    requires SsaInput(cs) && CandidatesOk(cs) && NoTwoMeet(cs) && !NamesFixedRoom(cs)
    ensures InfeasibleProves(cs)
  {
    hide SsaInput, CandidatesOk, NoTwoMeet, NamesFixedRoom, Feasible, Schedulable, Retimed, Untouched, Placeable;
    forall cs', lookup | Retimed(cs, cs', lookup) && Schedulable(cs', lookup) ensures Feasible(cs', lookup) {
      RetimedIsInput(cs, cs', lookup);
      RetimedSame(cs, cs', lookup);
      RetimedMeet(cs, cs');
      NoTrespassUntouched(cs, cs');
      SchedulableNeedsStarts(cs', lookup);
    }
  }

  // ---------------------------------------------------------------- a day for every session

  /** The candidate on a grid: every slot, or only the first ones of each day, as many as its sessions last. */
  function Spread(c: Candidate, days: nat, perDay: nat, allSlots: bool): Candidate
    requires perDay > 0 && c.sessionDuration >= 0
  {
    c.(possibleTimeSlotIds := Early(days * perDay, perDay, if allSlots then perDay else c.sessionDuration))
  }

  ghost predicate LastUpTo(cs: seq<Candidate>, perDay: nat) {
    forall i :: 0 <= i < |cs| ==> 1 <= cs[i].sessionDuration <= perDay
  }

  function SpreadAll(cs: seq<Candidate>, days: nat, perDay: nat, allSlots: bool): (r: seq<Candidate>)
    requires perDay > 0 && LastUpTo(cs, perDay)
    ensures |r| == |cs| && forall i :: 0 <= i < |r| ==> r[i] == Spread(cs[i], days, perDay, allSlots)
  {
    seq(|cs|, i requires 0 <= i < |cs| => Spread(cs[i], days, perDay, allSlots))
  }

  lemma SpreadRetimes(cs: seq<Candidate>, days: nat, perDay: nat, allSlots: bool)
    requires days > 0 && perDay > 0 && LastUpTo(cs, perDay)
    ensures Retimed(cs, SpreadAll(cs, days, perDay, allSlots), GridOf(days, perDay))
  {
    GridLookup(days, perDay);
    DayFits(0, days, perDay);
    hide GridOf, LookupOk;
    forall i | 0 <= i < |cs| ensures RetimedOne(cs[i], SpreadAll(cs, days, perDay, allSlots)[i], GridOf(days, perDay)) {
      var count: nat := if allSlots then perDay else cs[i].sessionDuration;
      EarlyMembers(days * perDay, perDay, count);
      GridAt(0, days, perDay);
      assert 0 in Early(days * perDay, perDay, count);
    }
  }

  /** On its home day a session has a block. */
  lemma HomeBlock(c: Candidate, home: nat, days: nat, perDay: nat, allSlots: bool)
    requires home < days && 1 <= c.sessionDuration <= perDay
    ensures Range(home * perDay, c.sessionDuration)
         in Blocks(Spread(c, days, perDay, allSlots).possibleTimeSlotIds, c.sessionDuration, GridOf(days, perDay))
    ensures forall s :: s in Range(home * perDay, c.sessionDuration) ==> 0 <= s && s / perDay == home
  {
    var a, d := home * perDay, c.sessionDuration;
    var ids := Spread(c, days, perDay, allSlots).possibleTimeSlotIds;
    EarlyMembers(days * perDay, perDay, if allSlots then perDay else d);
    DayStart(home, perDay);
    DayFits(home, days, perDay);
    hide GridOf, Blocks, Early;
    var b := Range(a, d);
    forall k | 0 <= k < d ensures b[k] in ids && b[k] < days * perDay && b[k] / perDay == home {
      SameDayOffset(a, k, perDay);
    }
    GridBlock(a, d, ids, days, perDay);
  }

  /** A day, a room and lecturers for one session. */
  datatype Placing = Placing(home: nat, room: int, lecturers: seq<int>)

  ghost predicate PlacingOk(cs: seq<Candidate>, days: nat, p: Placing, node: SessionNode) {
    && p.home < days && Owned(cs, node) && CandidateOk(OwnerOf(cs, node))
    && RoomOk(OwnerOf(cs, node), p.room) && LecturersOk(OwnerOf(cs, node), node.sessionIndex, p.lecturers)
  }

  ghost predicate PlacingsOk(cs: seq<Candidate>, days: nat, ps: seq<Placing>) {
    |ps| == |AllNodes(cs)| && forall p :: 0 <= p < |ps| ==> PlacingOk(cs, days, ps[p], AllNodes(cs)[p])
  }

  ghost predicate Compatible(p: Placing, q: Placing) {
    p.home == q.home ==> p.room != q.room && NoneShared(p.lecturers, q.lecturers)
  }

  ghost predicate AllCompatible(ps: seq<Placing>) {
    forall p, q :: 0 <= p < q < |ps| ==> Compatible(ps[p], ps[q])
  }

  function SessionAt(p: Placing, perDay: nat, duration: nat): SessionData {
    SessionData(p.room, Range(p.home * perDay, duration), p.lecturers)
  }

  lemma PlacedFits(cs: seq<Candidate>, days: nat, perDay: nat, allSlots: bool, p: Placing, node: SessionNode)
    requires CandidatesOk(cs) && perDay > 0 && LastUpTo(cs, perDay) && days > 0 && PlacingOk(cs, days, p, node)
    requires CandidatesOk(SpreadAll(cs, days, perDay, allSlots))
    ensures 1 <= OwnerOf(cs, node).sessionDuration <= perDay
    ensures Fits(SpreadAll(cs, days, perDay, allSlots), GridOf(days, perDay),
      SessionAt(p, perDay, OwnerOf(cs, node).sessionDuration), node)
    ensures forall s :: s in SessionAt(p, perDay, OwnerOf(cs, node).sessionDuration).timeSlotIds ==>
      0 <= s && s / perDay == p.home
  {
    var cs' := SpreadAll(cs, days, perDay, allSlots);
    SameOwner(cs, cs', node);
    var i :| 0 <= i < |cs| && cs[i] == OwnerOf(cs, node) && cs'[i] == OwnerOf(cs', node);
    GridLookup(days, perDay);
    HomeBlock(cs[i], p.home, days, perDay, allSlots);
    CandidateMember(cs', cs'[i]);
    hide GridOf, Blocks, CandidateMap, DistinctOfferings, CandidateOk, SlotsOk, RoomOk, LecturersOk, Early, LookupOk;
    SameChoices(cs[i], cs'[i], node.sessionIndex);
    BlockIsLegal(cs'[i], GridOf(days, perDay), Range(p.home * perDay, cs[i].sessionDuration));
  }

  /** Compatible placings, one for each session, are a collision-free timetable on the grid. */
  lemma PlacingsAreTimetable(cs: seq<Candidate>, days: nat, perDay: nat, allSlots: bool, ps: seq<Placing>)
    requires CandidatesOk(cs) && SsaInput(cs) && perDay > 0 && days > 0 && LastUpTo(cs, perDay)
    requires PlacingsOk(cs, days, ps) && AllCompatible(ps)
    ensures Schedulable(SpreadAll(cs, days, perDay, allSlots), GridOf(days, perDay))
  {
    var cs', g := SpreadAll(cs, days, perDay, allSlots), GridOf(days, perDay);
    SpreadRetimes(cs, days, perDay, allSlots);
    RetimedIsInput(cs, cs', g);
    SameNodes(cs, cs');
    hide *;
    var ss := PlacedSessions(cs, days, perDay, allSlots, ps, |ps|);
    PlacedApart(cs, days, perDay, allSlots, ps, ss);
    PlacedRoster(cs, days, perDay, allSlots, ps, ss);
    SchedulableIffRoster(cs', g);
  }

  ghost predicate PlacedAs(cs: seq<Candidate>, days: nat, perDay: nat, allSlots: bool, p: Placing, node: SessionNode,
                           s: SessionData)
    requires perDay > 0 && LastUpTo(cs, perDay)
  {
    && s.roomId == p.room && s.lecturerIds == p.lecturers
    && (forall slot :: slot in s.timeSlotIds ==> 0 <= slot && slot / perDay == p.home)
    && Fits(SpreadAll(cs, days, perDay, allSlots), GridOf(days, perDay), s, node)
  }

  ghost predicate FirstPlaced(cs: seq<Candidate>, days: nat, perDay: nat, allSlots: bool, ps: seq<Placing>,
                              ss: seq<SessionData>)
    requires perDay > 0 && LastUpTo(cs, perDay)
  {
    |ss| <= |ps| == |AllNodes(cs)| &&
      forall q :: 0 <= q < |ss| ==> PlacedAs(cs, days, perDay, allSlots, ps[q], AllNodes(cs)[q], ss[q])
  }

  lemma {:induction false} PlacedSessions(cs: seq<Candidate>, days: nat, perDay: nat, allSlots: bool, ps: seq<Placing>,
                                          n: nat)
    returns (ss: seq<SessionData>)
    requires CandidatesOk(cs) && perDay > 0 && LastUpTo(cs, perDay) && days > 0 && PlacingsOk(cs, days, ps) && n <= |ps|
    requires CandidatesOk(SpreadAll(cs, days, perDay, allSlots))
    ensures |ss| == n && FirstPlaced(cs, days, perDay, allSlots, ps, ss)
    decreases n
  {
    hide CandidatesOk, LastUpTo, PlacingOk, AllNodes, SpreadAll, PlacedAs;
    if n == 0 {
      ss := [];
    } else {
      ss := PlacedSessions(cs, days, perDay, allSlots, ps, n - 1);
      var s := PlaceOne(cs, days, perDay, allSlots, ps[n - 1], AllNodes(cs)[n - 1]);
      ss := ss + [s];
    }
  }

  lemma PlaceOne(cs: seq<Candidate>, days: nat, perDay: nat, allSlots: bool, p: Placing, node: SessionNode)
    returns (s: SessionData)
    requires CandidatesOk(cs) && perDay > 0 && LastUpTo(cs, perDay) && days > 0 && PlacingOk(cs, days, p, node)
    requires CandidatesOk(SpreadAll(cs, days, perDay, allSlots))
    ensures PlacedAs(cs, days, perDay, allSlots, p, node, s)
  {
    PlacedFits(cs, days, perDay, allSlots, p, node);
    hide CandidatesOk, LastUpTo, PlacingOk, SpreadAll, Fits, OwnerOf;
    s := SessionAt(p, perDay, OwnerOf(cs, node).sessionDuration);
  }

  lemma PlacedApart(cs: seq<Candidate>, days: nat, perDay: nat, allSlots: bool, ps: seq<Placing>, ss: seq<SessionData>)
    requires perDay > 0 && LastUpTo(cs, perDay) && FirstPlaced(cs, days, perDay, allSlots, ps, ss) && |ss| == |ps| &&
      AllCompatible(ps)
    ensures PairwiseApart(ss)
  {
    hide LastUpTo, AllNodes, SpreadAll, Fits;
    forall p, q | 0 <= p < q < |ss| ensures Apart(ss[p], ss[q]) {
      assert Compatible(ps[p], ps[q]);
      assert PlacedAs(cs, days, perDay, allSlots, ps[p], AllNodes(cs)[p], ss[p]);
      assert PlacedAs(cs, days, perDay, allSlots, ps[q], AllNodes(cs)[q], ss[q]);
    }
  }

  lemma PlacedRoster(cs: seq<Candidate>, days: nat, perDay: nat, allSlots: bool, ps: seq<Placing>, ss: seq<SessionData>)
    requires perDay > 0 && LastUpTo(cs, perDay) && FirstPlaced(cs, days, perDay, allSlots, ps, ss) && |ss| == |ps|
    requires AllNodes(SpreadAll(cs, days, perDay, allSlots)) == AllNodes(cs)
    ensures Roster(SpreadAll(cs, days, perDay, allSlots), GridOf(days, perDay), ss)
  {
    hide LastUpTo, AllNodes, SpreadAll, Fits, GridOf;
  }

  // ---------------------------------------------------------------- when the verdict is no proof

  lemma DefaultPlacing(cs: seq<Candidate>, node: SessionNode, home: nat, days: nat) returns (p: Placing)
    requires Owned(cs, node) && CandidateOk(OwnerOf(cs, node)) && home < days
    ensures PlacingOk(cs, days, p, node) && p.home == home
  {
    var c := OwnerOf(cs, node);
    GroupsPresent(c);
    SeededLecturersOk(c, node.sessionIndex);
    hide LecturersOk, CandidateMap;
    p := Placing(home, FirstRoom(c), SeededLecturers(c, node.sessionIndex));
  }

  /** Default placings for the nodes before n on the given days. */
  lemma {:induction false} DefaultPlacings(cs: seq<Candidate>, homes: seq<nat>, days: nat, n: nat)
    returns (ps: seq<Placing>)
    requires CandidatesOk(cs) && n <= |homes| == |AllNodes(cs)| && forall i :: 0 <= i < |homes| ==> homes[i] < days
    ensures |ps| == n &&
      forall i :: 0 <= i < n ==> PlacingOk(cs, days, ps[i], AllNodes(cs)[i]) && ps[i].home == homes[i]
    decreases n
  {
    hide *;
    if n == 0 {
      ps := [];
    } else {
      ps := DefaultPlacings(cs, homes, days, n - 1);
      NodeOwned(cs, n - 1);
      var p := DefaultPlacing(cs, AllNodes(cs)[n - 1], homes[n - 1], days);
      ps := ps + [p];
    }
  }

  lemma NodeOwned(cs: seq<Candidate>, i: nat)
    requires CandidatesOk(cs) && i < |AllNodes(cs)|
    ensures Owned(cs, AllNodes(cs)[i]) && CandidateOk(OwnerOf(cs, AllNodes(cs)[i]))
  {
    NodesOwned(cs);
    hide AllNodes, CandidateMap, CandidateOk;
    CandidateMember(cs, OwnerOf(cs, AllNodes(cs)[i]));
  }

  // one day each: a flexible candidate loses every slot to the room it names

  lemma EverybodyAtHome(cs: seq<Candidate>, perDay: nat)
    requires CandidatesOk(cs) && SsaInput(cs) && perDay > 0 && LastUpTo(cs, perDay) && AllNodes(cs) != []
    ensures Schedulable(SpreadAll(cs, |AllNodes(cs)|, perDay, true), GridOf(|AllNodes(cs)|, perDay))
  {
    hide *;
    var n: nat := |AllNodes(cs)|;
    var homes: seq<nat> := seq(n, i requires 0 <= i < n => i);
    var ps := DefaultPlacings(cs, homes, n, n);
    OwnDays(cs, n, ps);
    PlacingsAreTimetable(cs, n, perDay, true, ps);
  }

  lemma OwnDays(cs: seq<Candidate>, days: nat, ps: seq<Placing>)
    requires |ps| == |AllNodes(cs)| &&
      forall i :: 0 <= i < |ps| ==> PlacingOk(cs, days, ps[i], AllNodes(cs)[i]) && ps[i].home == i
    ensures PlacingsOk(cs, days, ps) && AllCompatible(ps)
  {
    hide PlacingOk, AllNodes;
  }

  lemma HasMember(ids: seq<int>)
    ensures ids == [] || ids[0] in ids
  {
  }

  lemma TrespasserLosesAll(cs: seq<Candidate>, f: Candidate, g: Candidate, days: nat, perDay: nat)
    requires perDay > 0 && f in cs && g in cs && Trespasses(f, g) && f.possibleTimeSlotIds == g.possibleTimeSlotIds
    ensures StartsFor(cs, g, GridOf(days, perDay)) == {}
  {
    hide GridOf, Blocks;
    ExclusionExact(cs);
    var after := AfterExclusion(g, LockedCoordinates(cs));
    HasMember(after.possibleTimeSlotIds);
    forall s ensures s !in after.possibleTimeSlotIds {
      if s in g.possibleTimeSlotIds { assert LockedFor(cs, g, s); }
    }
    GridLookup(days, perDay);
    BlockStartsAllowed(after, Some(GridOf(days, perDay)));
    hide BlockStarts;
  }

  lemma TrespassIsInfeasible(cs: seq<Candidate>, days: nat, perDay: nat)
    requires CandidatesOk(cs) && SsaInput(cs) && perDay > 0 && days > 0 && LastUpTo(cs, perDay) && NamesFixedRoom(cs)
    ensures AllNodes(cs) != [] && !Feasible(SpreadAll(cs, days, perDay, true), GridOf(days, perDay))
  {
    var cs', lookup := SpreadAll(cs, days, perDay, true), GridOf(days, perDay);
    SpreadRetimes(cs, days, perDay, true);
    RetimedSame(cs, cs', lookup);
    RetimedIsInput(cs, cs', lookup);
    SameNodes(cs, cs');
    hide *;
    var i, j := TrespassAt(cs);
    var p := FirstNodeOf(cs', j);
    SpreadTrespass(cs, i, j, days, perDay);
    FeasibleIffStarts(cs', lookup);
    forall starts ensures !StartsOk(cs', lookup, starts) {
      if StartsOk(cs', lookup, starts) { StartAtNode(cs', lookup, starts, p); }
    }
  }

  lemma TrespassAt(cs: seq<Candidate>) returns (i: nat, j: nat)
    requires NamesFixedRoom(cs)
    ensures i < |cs| && j < |cs| && Trespasses(cs[i], cs[j]) && cs[j].parallelSessionCount >= 1
  {
    var f, g :| f in cs && g in cs && Trespasses(f, g);
    i :| 0 <= i < |cs| && cs[i] == f;
    j :| 0 <= j < |cs| && cs[j] == g;
  }

  lemma SpreadTrespass(cs: seq<Candidate>, i: nat, j: nat, days: nat, perDay: nat)
    requires perDay > 0 && LastUpTo(cs, perDay) && i < |cs| && j < |cs| && Trespasses(cs[i], cs[j])
    ensures var cs' := SpreadAll(cs, days, perDay, true); StartsFor(cs', cs'[j], GridOf(days, perDay)) == {}
  {
    hide GridOf, Early, StartsFor;
    var cs' := SpreadAll(cs, days, perDay, true);
    assert cs'[i] in cs' && cs'[j] in cs' && Trespasses(cs'[i], cs'[j]);
    TrespasserLosesAll(cs', cs'[i], cs'[j], days, perDay);
  }

  lemma StartAtNode(cs: seq<Candidate>, lookup: SlotLookup, starts: seq<int>, p: nat)
    requires StartsOk(cs, lookup, starts) && p < |AllNodes(cs)|
    ensures Owned(cs, AllNodes(cs)[p]) && starts[p] in StartsFor(cs, OwnerOf(cs, AllNodes(cs)[p]), lookup)
  {
  }

  lemma FirstNodeOf(cs: seq<Candidate>, j: nat) returns (p: nat)
    requires DistinctOfferings(cs) && j < |cs| && cs[j].parallelSessionCount >= 1
    ensures p < |AllNodes(cs)| && Owned(cs, AllNodes(cs)[p]) && OwnerOf(cs, AllNodes(cs)[p]) == cs[j]
  {
    NodesListed(cs);
    CandidateMapAt(cs, j);
    hide AllNodes, CandidateMap;
    assert NodeOf(cs[j], 0) in AllNodes(cs);
    p :| 0 <= p < |AllNodes(cs)| && AllNodes(cs)[p] == NodeOf(cs[j], 0);
  }

  // a day short: two sessions share one

  lemma ShortGridStarts(c: Candidate, days: nat, perDay: nat, s: int)
    requires perDay > 0 && days > 0 && 1 <= c.sessionDuration <= perDay
    requires s in BlockStarts(Spread(c, days, perDay, false), Some(GridOf(days, perDay)))
    ensures 0 <= s < days * perDay && s % perDay == 0
  {
    var c', g, d := Spread(c, days, perDay, false), GridOf(days, perDay), c.sessionDuration;
    EarlyMembers(days * perDay, perDay, d);
    HomeBlock(c, 0, days, perDay, false);
    StartOfBlock(c', g, s);
    SpreadFields(c, days, perDay);
    hide *;
    var b :| b in Blocks(c'.possibleTimeSlotIds, d, g) && b != [] && b[0] == s;
    ShortBlock(b, c'.possibleTimeSlotIds, d, days, perDay);
  }

  lemma SpreadFields(c: Candidate, days: nat, perDay: nat)
    requires perDay > 0 && c.sessionDuration >= 0
    ensures Spread(c, days, perDay, false).possibleTimeSlotIds == Early(days * perDay, perDay, c.sessionDuration)
    ensures Spread(c, days, perDay, false).sessionDuration == c.sessionDuration
  {
    hide Early;
  }

  /** When a candidate has blocks, its starts are their first slots. */
  lemma StartOfBlock(c: Candidate, g: SlotLookup, s: int)
    requires c.sessionDuration > 0 && Blocks(c.possibleTimeSlotIds, c.sessionDuration, g) != [] &&
      s in BlockStarts(c, Some(g))
    ensures exists b :: b in Blocks(c.possibleTimeSlotIds, c.sessionDuration, g) && b != [] && b[0] == s
  {
    hide Blocks;
  }

  /** A block as long as the early part of a day is that part. */
  lemma ShortBlock(b: seq<int>, ids: seq<int>, d: nat, days: nat, perDay: nat)
    requires perDay > 0 && 1 <= d <= perDay && NoDup(ids) && b in Blocks(ids, d, GridOf(days, perDay))
    requires forall x :: x in ids ==> 0 <= x < days * perDay && x % perDay < d
    ensures |b| == d && 0 <= b[0] < days * perDay && b[0] % perDay == 0
  {
    hide GridOf, Blocks;
    GridBlockIsRange(b, ids, d, days, perDay);
    SameDayOffset(b[0], d - 1, perDay);
    assert b[d - 1] in ids;
  }

  lemma ShortGridIsInfeasible(cs: seq<Candidate>, days: nat, perDay: nat)
    requires CandidatesOk(cs) && SsaInput(cs) && perDay > 0 && 0 < days < |AllNodes(cs)| && LastUpTo(cs, perDay) &&
      !NamesFixedRoom(cs)
    ensures !Feasible(SpreadAll(cs, days, perDay, false), GridOf(days, perDay))
  {
    var cs', lookup := SpreadAll(cs, days, perDay, false), GridOf(days, perDay);
    SpreadRetimes(cs, days, perDay, false);
    RetimedIsInput(cs, cs', lookup);
    SameNodes(cs, cs');
    NodesOwned(cs);
    NoTrespassUntouched(cs, cs');
    hide *;
    FeasibleIffStarts(cs', lookup);
    forall starts ensures !StartsOk(cs', lookup, starts) {
      if StartsOk(cs', lookup, starts) {
        TooManyStarts(cs, days, perDay, starts);
      }
    }
  }

  lemma TooManyStarts(cs: seq<Candidate>, days: nat, perDay: nat, starts: seq<int>)
    requires DistinctOfferings(cs) && perDay > 0 && days > 0 && LastUpTo(cs, perDay)
    requires Untouched(SpreadAll(cs, days, perDay, false)) &&
      AllNodes(SpreadAll(cs, days, perDay, false)) == AllNodes(cs)
    requires forall p :: 0 <= p < |AllNodes(cs)| ==> Owned(cs, AllNodes(cs)[p])
    requires StartsOk(SpreadAll(cs, days, perDay, false), GridOf(days, perDay), starts)
    ensures |AllNodes(cs)| <= days
  {
    var cs', lookup := SpreadAll(cs, days, perDay, false), GridOf(days, perDay);
    hide AllNodes, GridOf, Untouched, StartsFor, NoDup, DistinctOfferings, Owned, CandidateMap;
    forall t | 0 <= t < |starts| ensures 0 <= starts[t] < days * perDay && starts[t] % perDay == 0 {
      var node := AllNodes(cs)[t];
      StartOnGrid(cs, days, perDay, node, starts[t]);
    }
    DayStartsBound(starts, days, perDay);
  }

  lemma StartOnGrid(cs: seq<Candidate>, days: nat, perDay: nat, node: SessionNode, s: int)
    requires DistinctOfferings(cs) && perDay > 0 && days > 0 && LastUpTo(cs, perDay) && Owned(cs, node)
    requires var cs' := SpreadAll(cs, days, perDay, false);
      Untouched(cs') && Owned(cs', node) && s in StartsFor(cs', OwnerOf(cs', node), GridOf(days, perDay))
    ensures 0 <= s < days * perDay && s % perDay == 0
  {
    var cs' := SpreadAll(cs, days, perDay, false);
    hide *;
    SpreadIsSame(cs, days, perDay);
    var i := OwnerIndex(cs, cs', node);
    UntouchedKeeps(cs', cs'[i], GridOf(days, perDay));
    LastsUpTo(cs, perDay, i);
    ShortGridStarts(cs[i], days, perDay, s);
  }

  lemma SpreadIsSame(cs: seq<Candidate>, days: nat, perDay: nat)
    requires perDay > 0 && LastUpTo(cs, perDay)
    ensures SameSessions(cs, SpreadAll(cs, days, perDay, false))
  {
    hide Early;
  }

  lemma OwnerIndex(cs: seq<Candidate>, cs': seq<Candidate>, node: SessionNode) returns (i: nat)
    requires DistinctOfferings(cs) && SameSessions(cs, cs') && Owned(cs, node) && Owned(cs', node)
    ensures i < |cs| == |cs'| && cs[i] == OwnerOf(cs, node) && cs'[i] == OwnerOf(cs', node)
    ensures cs'[i] in cs' && cs'[i].parallelSessionCount >= 1
  {
    SameOwner(cs, cs', node);
    hide CandidateMap, DistinctOfferings;
    i :| 0 <= i < |cs| && cs[i] == OwnerOf(cs, node) && cs'[i] == OwnerOf(cs', node);
  }

  lemma LastsUpTo(cs: seq<Candidate>, perDay: nat, i: nat)
    requires LastUpTo(cs, perDay) && i < |cs|
    ensures 1 <= cs[i].sessionDuration <= perDay
  {
  }

  /** The day of node i when node q is put on the day of node p < q and everybody else has a day. */
  function SharedHome(p: nat, q: nat, i: nat): nat
    requires p < q
  {
    if i < q then i else if i == q then p else i - 1
  }

  lemma ReplaceTwo(cs: seq<Candidate>, days: nat, ps: seq<Placing>, p: nat, x: Placing, q: nat, y: Placing)
    returns (ps': seq<Placing>)
    requires |ps| == |AllNodes(cs)| && p < q < |ps| && Compatible(x, y) && x.home == y.home == p
    requires forall i :: 0 <= i < |ps| ==>
      PlacingOk(cs, days, ps[i], AllNodes(cs)[i]) && ps[i].home == SharedHome(p, q, i)
    requires PlacingOk(cs, days, x, AllNodes(cs)[p]) && PlacingOk(cs, days, y, AllNodes(cs)[q])
    ensures PlacingsOk(cs, days, ps') && AllCompatible(ps')
  {
    hide PlacingOk, AllNodes, Compatible;
    ps' := ps[p := x][q := y];
    SharingIsCompatible(ps', p, q);
  }

  lemma OneShortTimetable(cs: seq<Candidate>, perDay: nat, p: nat, q: nat)
    requires CandidatesOk(cs) && SsaInput(cs) && perDay > 0 && LastUpTo(cs, perDay) && p < q < |AllNodes(cs)|
    requires MayMeet(cs, AllNodes(cs)[p], AllNodes(cs)[q])
    ensures Schedulable(SpreadAll(cs, |AllNodes(cs)| - 1, perDay, false), GridOf(|AllNodes(cs)| - 1, perDay))
  {
    hide *;
    var days: nat := |AllNodes(cs)| - 1;
    var ps := SharedPlacings(cs, p, q, days);
    PlacingsAreTimetable(cs, days, perDay, false, ps);
  }

  lemma SharedPlacings(cs: seq<Candidate>, p: nat, q: nat, days: nat) returns (ps': seq<Placing>)
    requires CandidatesOk(cs) && p < q < |AllNodes(cs)| == days + 1 && MayMeet(cs, AllNodes(cs)[p], AllNodes(cs)[q])
    ensures PlacingsOk(cs, days, ps') && AllCompatible(ps')
  {
    hide *;
    var ps := HomePlacings(cs, p, q, days);
    var x, y := MeetingPlacings(cs, AllNodes(cs)[p], AllNodes(cs)[q], p, days);
    ps' := ReplaceTwo(cs, days, ps, p, x, q, y);
  }

  lemma HomePlacings(cs: seq<Candidate>, p: nat, q: nat, days: nat) returns (ps: seq<Placing>)
    requires CandidatesOk(cs) && p < q < |AllNodes(cs)| == days + 1
    ensures |ps| == |AllNodes(cs)|
    ensures forall i :: 0 <= i < |ps| ==>
      PlacingOk(cs, days, ps[i], AllNodes(cs)[i]) && ps[i].home == SharedHome(p, q, i)
  {
    hide *;
    var homes := SharedHomes(p, q, days + 1);
    ps := DefaultPlacings(cs, homes, days, |homes|);
  }

  function SharedHomes(p: nat, q: nat, n: nat): (r: seq<nat>)
    requires p < q < n
    ensures |r| == n && forall i :: 0 <= i < n ==> r[i] == SharedHome(p, q, i) && r[i] < n - 1
  {
    seq(n, i requires 0 <= i => SharedHome(p, q, i))
  }

  lemma SharingIsCompatible(ps: seq<Placing>, p: nat, q: nat)
    requires p < q < |ps| && Compatible(ps[p], ps[q]) && forall i :: 0 <= i < |ps| ==> ps[i].home == SharedHome(p, q, i)
    ensures AllCompatible(ps)
  {
    hide NoneShared;
  }

  lemma MeetingPlacings(cs: seq<Candidate>, m: SessionNode, n: SessionNode, home: nat, days: nat)
    returns (x: Placing, y: Placing)
    requires MayMeet(cs, m, n) && home < days
    ensures PlacingOk(cs, days, x, m) && PlacingOk(cs, days, y, n)
    ensures x.home == y.home == home && Compatible(x, y)
  {
    var a, b := OwnerOf(cs, m), OwnerOf(cs, n);
    hide RoomOk, LecturersOk, CandidateOk, CandidateMap;
    var r, r' :| RoomOk(a, r) && RoomOk(b, r') && r != r';
    var ls, ls' :| LecturersOk(a, m.sessionIndex, ls) && LecturersOk(b, n.sessionIndex, ls') && NoneShared(ls, ls');
    x, y := Placing(home, r, ls), Placing(home, r', ls');
  }

  function LongestSession(cs: seq<Candidate>): (r: nat)
    ensures r >= 1 && forall i :: 0 <= i < |cs| ==> cs[i].sessionDuration <= r
  {
    if cs == [] then 1 else Max(LongestSession(cs[..|cs| - 1]), cs[|cs| - 1].sessionDuration)
  }

  lemma Refutes(cs: seq<Candidate>, cs': seq<Candidate>, lookup: SlotLookup)
    requires Retimed(cs, cs', lookup) && !Feasible(cs', lookup) && Schedulable(cs', lookup)
    ensures !InfeasibleProves(cs)
  {
  }

  lemma TrespassIsNoProof(cs: seq<Candidate>, perDay: nat)
    requires CandidatesOk(cs) && SsaInput(cs) && perDay > 0 && LastUpTo(cs, perDay) && NamesFixedRoom(cs)
    ensures !InfeasibleProves(cs)
  {
    hide *;
    TrespassIsInfeasible(cs, 1, perDay);
    var days: nat := |AllNodes(cs)|;
    TrespassIsInfeasible(cs, days, perDay);
    EverybodyAtHome(cs, perDay);
    SpreadRetimes(cs, days, perDay, true);
    Refutes(cs, SpreadAll(cs, days, perDay, true), GridOf(days, perDay));
  }

  lemma MeetingPair(cs: seq<Candidate>) returns (p: nat, q: nat)
    requires !NoTwoMeet(cs)
    ensures p < q < |AllNodes(cs)| && MayMeet(cs, AllNodes(cs)[p], AllNodes(cs)[q])
  {
    hide AllNodes, MayMeet;
    p, q :| 0 <= p < q < |AllNodes(cs)| && MayMeet(cs, AllNodes(cs)[p], AllNodes(cs)[q]);
  }

  lemma MeetingIsNoProof(cs: seq<Candidate>, perDay: nat)
    requires CandidatesOk(cs) && SsaInput(cs) && perDay > 0 && LastUpTo(cs, perDay) && !NamesFixedRoom(cs) &&
      !NoTwoMeet(cs)
    ensures !InfeasibleProves(cs)
  {
    hide *;
    var p, q := MeetingPair(cs);
    var days: nat := |AllNodes(cs)| - 1;
    ShortGridIsInfeasible(cs, days, perDay);
    OneShortTimetable(cs, perDay, p, q);
    SpreadRetimes(cs, days, perDay, false);
    Refutes(cs, SpreadAll(cs, days, perDay, false), GridOf(days, perDay));
  }

  lemma LongestIsEnough(cs: seq<Candidate>)
    requires forall c :: c in cs ==> c.sessionDuration >= 1
    ensures LastUpTo(cs, LongestSession(cs))
  {
    forall i | 0 <= i < |cs| ensures 1 <= cs[i].sessionDuration <= LongestSession(cs) { assert cs[i] in cs; }
  }

  /** An INFEASIBLE verdict proves, whatever the slots are, that there is no collision-free timetable: exactly when
      no legal rooms and lecturers let two sessions meet and no flexible candidate names the room of a fixed one. */
  lemma InfeasibleProvesIff(cs: seq<Candidate>)
    requires SsaInput(cs) && CandidatesOk(cs) && forall c :: c in cs ==> c.sessionDuration >= 1
    ensures InfeasibleProves(cs) <==> NoTwoMeet(cs) && !NamesFixedRoom(cs)
  {
    hide *;
    LongestIsEnough(cs);
    if NoTwoMeet(cs) && !NamesFixedRoom(cs) {
      ContendedIsProof(cs);
    } else if NamesFixedRoom(cs) {
      TrespassIsNoProof(cs, LongestSession(cs));
    } else {
      MeetingIsNoProof(cs, LongestSession(cs));
    }
  }
}
