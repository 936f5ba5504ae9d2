/** Masked mutation: slots always, rooms of flexible genes only, lecturers of multi-sibling cohorts only. */
module Mutation {
  import opened Prelude
  import opened Candidates
  import opened Timetable
  import opened Genes
  import opened Fitness
  import opened WellFormed
  import opened Operators
  import opened RepairSession

  /** The prior session's lecturers, or the seeded ones for an index that had no session. */
  function CarryLecturersForSession(c: Candidate, prior: seq<SessionData>, k: nat): seq<int>
    requires c.MultiSibling() ==> c.siblingLecturerGroups != []
  {
    if k < |prior| then prior[k].lecturerIds else SeededLecturers(c, k)
  }

  /** The two lists differ at most at idx. */
  ghost predicate OnlyAt(r: seq<SessionData>, sessions: seq<SessionData>, idx: int) {
    |r| == |sessions| && forall k :: 0 <= k < |r| && k != idx ==> r[k] == sessions[k]
  }

  /** A same-size draw out of the pool for one random session; a single offering is left alone. */
  method MutateLecturer(sessions: seq<SessionData>, c: Candidate, ghost lookup: SlotLookup)
    returns (r: seq<SessionData>)
    requires CandidateOk(c) && SessionsOk(c, lookup, sessions)
    ensures SessionsOk(c, lookup, r)
    ensures !c.MultiSibling() ==> r == sessions
    ensures |r| == |sessions| && exists idx :: OnlyAt(r, sessions, idx)
    ensures SlotLists(r) == SlotLists(sessions)
    ensures forall k :: 0 <= k < |r| ==>
      r[k].roomId == sessions[k].roomId && r[k].timeSlotIds == sessions[k].timeSlotIds
  {
    hide *;
    r := sessions;
    NothingDrawn(sessions);
    if !c.MultiSibling() || |sessions| == 0 || |c.lecturerPool| == 0 { return; }
    var idx := RandomIndex(|sessions|);
    var target := sessions[idx];
    var newLecturerIds := DrawLecturers(c, target.lecturerIds);
    r := sessions[idx := SessionData(target.roomId, target.timeSlotIds, newLecturerIds)];
    DrawnAt(c, lookup, sessions, idx, newLecturerIds);
  }

  lemma NothingDrawn(sessions: seq<SessionData>)
    ensures OnlyAt(sessions, sessions, 0)
  {
  }

  lemma DrawnAt(c: Candidate, lookup: SlotLookup, sessions: seq<SessionData>, idx: nat, ls: seq<int>)
    requires CandidateOk(c) && c.MultiSibling() && SessionsOk(c, lookup, sessions) && idx < |sessions|
    requires PoolChoice(c, ls, SwapSize(c, sessions[idx].lecturerIds))
    ensures var r := sessions[idx := sessions[idx].(lecturerIds := ls)];
      SessionsOk(c, lookup, r) && OnlyAt(r, sessions, idx) && SlotLists(r) == SlotLists(sessions)
  {
    hide CandidateOk, SlotsOk, RoomOk, LecturersOk, PoolChoice;
    assert SessionOk(c, lookup, idx, sessions[idx]);
    DrawKeepsLecturersOk(c, idx, sessions[idx].lecturerIds, ls);
  }

  method DrawLecturers(c: Candidate, current: seq<int>) returns (ls: seq<int>)
    requires CandidateOk(c) && |c.lecturerPool| > 0
    ensures PoolChoice(c, ls, SwapSize(c, current))
  {
    var pool, size := c.lecturerPool, SwapSize(c, current);
    if size == 1 {
      var i := RandomIndex(|pool|);
      return [pool[i]];
    }
    var shuffled := FisherYatesShuffle(pool);
    SameMultiset(pool, shuffled);
    var first := shuffled[..size];
    ls := StableSort(first, Ascending());
    SameMultiset(first, ls);
    hide StableSort;
    forall l | l in ls ensures l in pool {
      assert l in Elements(first) && l in shuffled && l in Elements(pool);
    }
  }

  lemma DrawKeepsLecturersOk(c: Candidate, k: nat, current: seq<int>, ls: seq<int>)
    requires CandidateOk(c) && c.MultiSibling() && LecturersOk(c, k, current) && PoolChoice(c, ls, SwapSize(c, current))
    ensures LecturersOk(c, k, ls)
  {
    LecturerCountFixed(c, k, current);
  }

  /** New slots under the mask: a fixed gene keeps every session's room. */
  method RebuildFixed(g: GeneData, c: Candidate, lookup: SlotLookup) returns (r: seq<SessionData>)
    requires LookupOk(lookup) && CandidateOk(c) && GeneOk(c, lookup, g)
    ensures SessionsOk(c, lookup, r) && |r| == |g.sessions|
    ensures forall k :: 0 <= k < |r| ==>
      r[k].roomId == g.sessions[k].roomId && r[k].lecturerIds == g.sessions[k].lecturerIds
    ensures Spread(c, lookup, SlotLists(r))
  {
    hide CandidateOk, SlotsOk, RoomOk, LecturersOk, LookupOk, Spread, SlotLists;
    var slots := PickSlots(c, lookup, |g.sessions|);
    r := [];
    for k := 0 to |g.sessions|
      invariant |r| == k && forall j :: 0 <= j < k ==> SessionOk(c, lookup, j, r[j])
      invariant forall j :: 0 <= j < k ==>
        r[j].roomId == g.sessions[j].roomId && r[j].lecturerIds == g.sessions[j].lecturerIds
      invariant forall j :: 0 <= j < k ==> r[j].timeSlotIds == slots[j]
    {
      assert SessionOk(c, lookup, k, g.sessions[k]);
      r := r + [g.sessions[k].(timeSlotIds := slots[k])];
    }
    SlotListsAre(r, slots);
  }

  /** A new room comes out of the pool, even if the candidate names a room; without a pool it stays. */
  ghost predicate NewRoomOk(c: Candidate, g: GeneData, room: int) {
    if c.possibleRoomIds != [] then room in c.possibleRoomIds
    else g.sessions != [] ==> room == g.sessions[0].roomId
  }

  /** A seed room out of the pool, or the gene's own first room when the pool is empty. */
  method MutatedSeedRoom(g: GeneData, c: Candidate, ghost lookup: SlotLookup) returns (room: int)
    requires CandidateOk(c) && !c.isFixedRoom && GeneOk(c, lookup, g)
    ensures RoomOk(c, room) && NewRoomOk(c, g, room)
  {
    if |c.possibleRoomIds| > 0 {
      var i := RandomIndex(|c.possibleRoomIds|);
      return c.possibleRoomIds[i];
    }
    if |g.sessions| > 0 {
      assert SessionOk(c, lookup, 0, g.sessions[0]);
      return g.sessions[0].roomId;
    }
    return c.roomId.value;
  }

  /** New slots and rooms; lecturers are carried over, and one room is shared unless the candidate is split. */
  method RebuildFlexible(g: GeneData, c: Candidate, lookup: SlotLookup) returns (r: seq<SessionData>)
    requires LookupOk(lookup) && CandidateOk(c) && !c.isFixedRoom && GeneOk(c, lookup, g)
    ensures SessionsOk(c, lookup, r) && |r| == |g.sessions|
    ensures forall k :: 0 <= k < |r| ==> r[k].lecturerIds == g.sessions[k].lecturerIds
    ensures forall k :: 0 <= k < |r| ==> NewRoomOk(c, g, r[k].roomId)
    ensures !SplitOverRooms(c) ==> OneRoom(r)
    ensures Spread(c, lookup, SlotLists(r))
  {
    hide *;
    FlexibleFacts(g, c, lookup);
    var seedRoomId := MutatedSeedRoom(g, c, lookup);
    var slots := PickSlots(c, lookup, c.parallelSessionCount);
    r := [];
    for k := 0 to c.parallelSessionCount
      invariant |r| == k && forall j :: 0 <= j < k ==> SessionOk(c, lookup, j, r[j])
      invariant forall j :: 0 <= j < k ==> r[j].lecturerIds == g.sessions[j].lecturerIds
      invariant forall j :: 0 <= j < k ==> SplitOverRooms(c) || r[j].roomId == seedRoomId
      invariant forall j :: 0 <= j < k ==> NewRoomOk(c, g, r[j].roomId) && r[j].timeSlotIds == slots[j]
    {
      var s := RebuiltSession(g, c, lookup, k, seedRoomId, slots[k]);
      r := r + [s];
    }
    SlotListsAre(r, slots);
    SessionsAreOk(c, lookup, r, seedRoomId);
  }

  lemma FlexibleFacts(g: GeneData, c: Candidate, lookup: SlotLookup)
    requires CandidateOk(c) && GeneOk(c, lookup, g)
    ensures |g.sessions| == c.parallelSessionCount >= 0
  {
    hide CandidateOk, SessionOk;
  }

  lemma SessionsAreOk(c: Candidate, lookup: SlotLookup, r: seq<SessionData>, room: int)
    requires CandidateOk(c) && |r| == c.parallelSessionCount
    requires forall j :: 0 <= j < |r| ==> SessionOk(c, lookup, j, r[j])
    ensures SessionsOk(c, lookup, r)
    ensures (forall j :: 0 <= j < |r| ==> r[j].roomId == room) ==> OneRoom(r)
  {
    hide CandidateOk, SessionOk;
  }

  /** { roomId: pickRoomForSession(...), timeSlotIds: slots[k], lecturerIds: carryLecturersForSession(...) } */
  method RebuiltSession(g: GeneData, c: Candidate, ghost lookup: SlotLookup, k: nat, seedRoomId: int, slots: seq<int>)
    returns (s: SessionData)
    requires CandidateOk(c) && GeneOk(c, lookup, g) && k < c.parallelSessionCount
    requires RoomOk(c, seedRoomId) && NewRoomOk(c, g, seedRoomId) && SlotsOk(c, lookup, slots)
    ensures k < |g.sessions| && SessionOk(c, lookup, k, s) && s.lecturerIds == g.sessions[k].lecturerIds
    ensures SplitOverRooms(c) || s.roomId == seedRoomId
    ensures NewRoomOk(c, g, s.roomId) && s.timeSlotIds == slots
  {
    GroupsPresent(c);
    hide CandidateOk, SlotsOk, RoomOk, LecturersOk;
    assert SessionOk(c, lookup, k, g.sessions[k]);
    var room := PickRoomForSession(c, seedRoomId);
    s := SessionData(room, slots, CarryLecturersForSession(c, g.sessions, k));
  }

  /** What mutation makes of a gene's value: a legal gene of newly spread slots; a fixed gene keeps its rooms and any
      other draws them anew, one for all sessions unless it is split; the lecturers of at most one session change, and
      those of a single offering do not. */
  ghost predicate MutatedFrom(c: Candidate, lookup: SlotLookup, g: GeneData, g': GeneData)
    requires CandidateOk(c)
  {
    && GeneOk(c, lookup, g')
    && g'.kind == g.kind && g'.offeringId == g.offeringId && |g'.sessions| == |g.sessions|
    && Spread(c, lookup, SlotLists(g'.sessions))
    && RoomsMutated(c, g, g'.sessions)
    && LecturersMutated(c, g.sessions, g'.sessions)
  }

  ghost predicate RoomsMutated(c: Candidate, g: GeneData, r: seq<SessionData>) {
    |r| == |g.sessions| &&
    if g.kind == FIXED then forall k :: 0 <= k < |r| ==> r[k].roomId == g.sessions[k].roomId
    else (forall k :: 0 <= k < |r| ==> NewRoomOk(c, g, r[k].roomId)) && (!SplitOverRooms(c) ==> OneRoom(r))
  }

  ghost predicate LecturersMutated(c: Candidate, sessions: seq<SessionData>, r: seq<SessionData>) {
    |r| == |sessions| && exists idx {:trigger LecturersKeptBut(sessions, r, idx)} ::
      LecturersKeptBut(sessions, r, idx) && (c.MultiSibling() || idx == |r|)
  }

  ghost predicate LecturersKeptBut(sessions: seq<SessionData>, r: seq<SessionData>, idx: int) {
    |r| == |sessions| && forall k :: 0 <= k < |r| && k != idx ==> r[k].lecturerIds == sessions[k].lecturerIds
  }

  lemma LecturersAfter(c: Candidate, sessions: seq<SessionData>, mid: seq<SessionData>, r: seq<SessionData>)
    requires |sessions| == |mid| == |r| &&
      (forall k :: 0 <= k < |mid| ==> mid[k].lecturerIds == sessions[k].lecturerIds)
    requires (!c.MultiSibling() ==> r == mid) && exists idx :: OnlyAt(r, mid, idx)
    ensures LecturersMutated(c, sessions, r)
  {
    var idx :| OnlyAt(r, mid, idx);
    assert LecturersKeptBut(sessions, r, if c.MultiSibling() then idx else |r|);
  }

  lemma RoomsAfter(c: Candidate, g: GeneData, mid: seq<SessionData>, r: seq<SessionData>)
    requires |mid| == |r| && RoomsMutated(c, g, mid) && forall k :: 0 <= k < |r| ==> r[k].roomId == mid[k].roomId
    ensures RoomsMutated(c, g, r)
  {
    hide NewRoomOk, SplitOverRooms;
  }

  method MutatedSessions(g: GeneData, c: Candidate, lookup: SlotLookup) returns (r: seq<SessionData>)
    requires LookupOk(lookup) && CandidateOk(c) && GeneOk(c, lookup, g)
    ensures MutatedFrom(c, lookup, g, g.(sessions := r))
  {
    hide CandidateOk, SessionOk, LookupOk, Spread, SlotLists, NewRoomOk, SplitOverRooms, OneRoom, OnlyAt,
         LecturersMutated;
    var mid;
    if g.kind == FIXED {
      mid := RebuildFixed(g, c, lookup);
    } else {
      mid := RebuildFlexible(g, c, lookup);
    }
    r := MutateLecturer(mid, c, lookup);
    RoomsAfter(c, g, mid, r);
    LecturersAfter(c, g.sessions, mid, r);
  }

  /** The gene itself, or a new gene with new, mutated sessions. */
  method MutateGene(gene: Gene, c: Candidate, mutationRate: real, lookup: SlotLookup) returns (r: Gene)
    requires LookupOk(lookup) && CandidateOk(c) && GeneOk(c, lookup, gene.Data())
    ensures GeneOk(c, lookup, r.Data())
    ensures (mutationRate < 1.0 && r == gene && r.Data() == old(gene.Data())) ||
      (mutationRate > 0.0 && fresh(r) && fresh(r.sessions) && MutatedFrom(c, lookup, old(gene.Data()), r.Data()))
  {
    hide CandidateOk, SessionsOk, LookupOk, RoomsMutated, LecturersMutated, Spread;
    ghost var g := gene.Data();
    var u := Random();
    if u >= mutationRate { return gene; }
    var newSessions := MutatedSessions(gene.Data(), c, lookup);
    var sessions := NewSessions(newSessions);
    r := new Gene(gene.kind, gene.offeringId, sessions);
    assert r.Data() == g.(sessions := newSessions);
  }

  /** Every locus is the same or mutated; a rate of 1 leaves none the same and a rate of 0 mutates none. */
  ghost predicate MutatedLoci(cs: seq<Candidate>, lookup: SlotLookup, rate: real, v: seq<GeneData>, v': seq<GeneData>)
    requires CandidatesOk(cs)
  {
    |v| == |v'| == |cs| && forall i :: 0 <= i < |cs| ==> MayMutate(cs[i], lookup, rate, v[i], v'[i])
  }

  ghost predicate MayMutate(c: Candidate, lookup: SlotLookup, rate: real, g: GeneData, g': GeneData)
    requires CandidateOk(c)
  {
    (rate < 1.0 && g' == g) || (rate > 0.0 && MutatedFrom(c, lookup, g, g'))
  }

  lemma LociMutated(cs: seq<Candidate>, lookup: SlotLookup, rate: real, v: seq<GeneData>, v': seq<GeneData>)
    requires CandidatesOk(cs) && |v| == |v'| == |cs|
    requires forall i :: 0 <= i < |cs| ==> CandidateOk(cs[i]) && MayMutate(cs[i], lookup, rate, v[i], v'[i])
    ensures MutatedLoci(cs, lookup, rate, v, v')
  {
    hide CandidateOk, MayMutate;
  }

  /** Loci that are not mutated are shared with the input chromosome. */
  method MutateChromosome(chromosome: Chromosome, cs: seq<Candidate>, mutationRate: real, lookup: SlotLookup)
    returns (r: Chromosome)
    requires LookupOk(lookup) && CandidatesOk(cs) && ChromosomeOk(cs, lookup, Value(chromosome))
    ensures ChromosomeOk(cs, lookup, Value(r))
    ensures MutatedLoci(cs, lookup, mutationRate, old(Value(chromosome)), Value(r))
    ensures forall i :: 0 <= i < |r| ==> r[i] == chromosome[i] || (fresh(r[i]) && fresh(r[i].sessions))
  {
    hide *;
    ghost var v, v': seq<GeneData> := Value(chromosome), [];
    var candidateMap := MapCandidates(cs);
    r := [];
    NoLoci(cs, lookup);
    OneLocusEach(cs, lookup, v);
    for i := 0 to |chromosome|
      invariant |r| == |v'| == i && FirstLociOk(cs, lookup, v')
      invariant forall j :: 0 <= j < |v| ==> chromosome[j].Data() == v[j]
      invariant forall j :: 0 <= j < i ==> r[j].Data() == v'[j]
      invariant forall j :: 0 <= j < i ==> CandidateOk(cs[j]) && MayMutate(cs[j], lookup, mutationRate, v[j], v'[j])
      invariant forall j :: 0 <= j < i ==> r[j] == chromosome[j] || (fresh(r[j]) && fresh(r[j].sessions))
    {
      var c := CandidateOfLocus(candidateMap, chromosome[i].offeringId, cs, lookup, v, i);
      var g := MutateGene(chromosome[i], c, mutationRate, lookup);
      LociOkSnoc(cs, lookup, v', g.Data());
      MutatedBy(c, lookup, mutationRate, v[i], g.Data());
      r, v' := r + [g], v' + [g.Data()];
    }
    ValueIs(r, v');
    AllLociOk(cs, lookup, v');
    LociMutated(cs, lookup, mutationRate, v, v');
  }

  lemma MutatedBy(c: Candidate, lookup: SlotLookup, rate: real, g: GeneData, g': GeneData)
    requires CandidateOk(c) && ((rate < 1.0 && g' == g) || (rate > 0.0 && MutatedFrom(c, lookup, g, g')))
    ensures MayMutate(c, lookup, rate, g, g')
  {
  }

  ghost predicate MapsTo(m: map<int, Candidate>, cs: seq<Candidate>) { m == CandidateMap(cs) }

  method MapCandidates(cs: seq<Candidate>) returns (m: map<int, Candidate>)
    ensures MapsTo(m, cs)
  {
    m := CandidateMap(cs);
  }

  method CandidateOfLocus(candidateMap: map<int, Candidate>, offeringId: int,
                          ghost cs: seq<Candidate>, ghost lookup: SlotLookup, ghost v: seq<GeneData>, ghost i: nat)
    returns (c: Candidate)
    requires CandidatesOk(cs) && ChromosomeOk(cs, lookup, v) && MapsTo(candidateMap, cs)
    requires i < |v| && v[i].offeringId == offeringId
    ensures |cs| == |v| && c == cs[i] && CandidateOk(c) && GeneOk(c, lookup, v[i])
  {
    hide GeneOk, CandidateOk, CandidateMap;
    AlignedSessions(cs, lookup, v, i);
    c := candidateMap[offeringId];
  }
}
