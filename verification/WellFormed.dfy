/** What every timetable of every generation satisfies, candidate by candidate. */
module WellFormed {
  import opened Prelude
  import opened Candidates
  import opened Timetable
  import opened SameDay
  import opened Genes
  import opened Fitness
  import opened Penalties

  /** What the validator guarantees about a candidate: a locked room is concrete, a free room has a pool,
      slots and lecturers are listed once, and every sibling brings a non-empty group out of the pool. */
  ghost predicate CandidateOk(c: Candidate) {
    && (c.isFixedRoom ==> c.roomId.Some?)
    && (c.roomId.None? ==> c.possibleRoomIds != [])
    && NoDup(c.possibleTimeSlotIds)
    && NoDup(c.lecturerPool)
    && (!c.MultiSibling() ==>
         c.lecturerIds != [] && NoDup(c.lecturerIds) && multiset(c.lecturerPool) == multiset(c.lecturerIds))
    && (c.MultiSibling() ==>
         c.siblingLecturerGroups != [] && forall g :: g in c.siblingLecturerGroups ==> GroupOk(c, g))
  }

  ghost predicate GroupOk(c: Candidate, g: seq<int>) {
    g != [] && NoDup(g) && forall l :: l in g ==> l in c.lecturerPool
  }

  ghost predicate CandidatesOk(cs: seq<Candidate>) {
    DistinctOfferings(cs) && forall i :: 0 <= i < |cs| ==> CandidateOk(cs[i])
  }

  /** The lecturers that the seeder gives to session k. */
  function SeededLecturers(c: Candidate, k: nat): seq<int>
    requires c.MultiSibling() ==> c.siblingLecturerGroups != []
  {
    if !c.MultiSibling() then c.lecturerIds else c.siblingLecturerGroups[k % |c.siblingLecturerGroups|]
  }

  ghost predicate RoomOk(c: Candidate, room: int) {
    c.roomId == Some(room) || (!c.isFixedRoom && room in c.possibleRoomIds)
  }

  /** Unchanged for a single offering; for a cohort a subset of the pool of the seeded size, each lecturer once. */
  ghost predicate LecturersOk(c: Candidate, k: nat, ls: seq<int>)
    requires CandidateOk(c)
  {
    if !c.MultiSibling() then ls == c.lecturerIds
    else NoDup(ls) && |ls| == |SeededLecturers(c, k)| && forall l :: l in ls ==> l in c.lecturerPool
  }

  ghost predicate SlotsOk(c: Candidate, lookup: SlotLookup, slots: seq<int>) {
    SameDayPick(slots, c.possibleTimeSlotIds, c.sessionDuration, lookup)
  }

  ghost predicate SessionOk(c: Candidate, lookup: SlotLookup, k: nat, s: SessionData)
    requires CandidateOk(c)
  {
    RoomOk(c, s.roomId) && SlotsOk(c, lookup, s.timeSlotIds) && LecturersOk(c, k, s.lecturerIds)
  }

  ghost predicate SessionsOk(c: Candidate, lookup: SlotLookup, ss: seq<SessionData>)
    requires CandidateOk(c)
  {
    |ss| == c.parallelSessionCount && forall k :: 0 <= k < |ss| ==> SessionOk(c, lookup, k, ss[k])
  }

  ghost predicate GeneOk(c: Candidate, lookup: SlotLookup, g: GeneData)
    requires CandidateOk(c)
  {
    && g.offeringId == c.offeringId
    && g.kind == (if c.isFixedRoom then FIXED else FLEXIBLE)
    && SessionsOk(c, lookup, g.sessions)
  }

  /** Locus i belongs to candidate i. */
  ghost predicate ChromosomeOk(cs: seq<Candidate>, lookup: SlotLookup, ch: seq<GeneData>)
    requires CandidatesOk(cs)
  {
    |ch| == |cs| && forall i :: 0 <= i < |cs| ==> GeneOk(cs[i], lookup, ch[i])
  }

  /** The first loci, one for each of the first candidates. */
  ghost predicate FirstLociOk(cs: seq<Candidate>, lookup: SlotLookup, v: seq<GeneData>)
    requires CandidatesOk(cs)
  {
    |v| <= |cs| && forall i :: 0 <= i < |v| ==> GeneOk(cs[i], lookup, v[i])
  }

  lemma NoLoci(cs: seq<Candidate>, lookup: SlotLookup)
    requires CandidatesOk(cs)
    ensures FirstLociOk(cs, lookup, [])
  {
  }

  lemma OneLocusEach(cs: seq<Candidate>, lookup: SlotLookup, v: seq<GeneData>)
    requires CandidatesOk(cs) && ChromosomeOk(cs, lookup, v)
    ensures |v| == |cs|
  {
  }

  lemma LociOkSnoc(cs: seq<Candidate>, lookup: SlotLookup, v: seq<GeneData>, g: GeneData)
    requires CandidatesOk(cs) && FirstLociOk(cs, lookup, v) && |v| < |cs| && CandidateOk(cs[|v|]) &&
      GeneOk(cs[|v|], lookup, g)
    ensures FirstLociOk(cs, lookup, v + [g])
  {
    hide GeneOk;
  }

  lemma AllLociOk(cs: seq<Candidate>, lookup: SlotLookup, v: seq<GeneData>)
    requires CandidatesOk(cs) && FirstLociOk(cs, lookup, v) && |v| == |cs|
    ensures ChromosomeOk(cs, lookup, v)
  {
    hide GeneOk, CandidateOk;
  }

  lemma SessionBy(c: Candidate, lookup: SlotLookup, k: nat, room: int, slots: seq<int>, ls: seq<int>)
    requires CandidateOk(c) && RoomOk(c, room) && SlotsOk(c, lookup, slots) && LecturersOk(c, k, ls)
    ensures SessionOk(c, lookup, k, SessionData(room, slots, ls))
  {
    hide CandidateOk, RoomOk, SlotsOk, LecturersOk;
  }

  lemma GeneBy(c: Candidate, lookup: SlotLookup, g: GeneData)
    requires CandidateOk(c) && g.offeringId == c.offeringId && g.kind == (if c.isFixedRoom then FIXED else FLEXIBLE)
    requires |g.sessions| == c.parallelSessionCount
    requires forall k :: 0 <= k < |g.sessions| ==> SessionOk(c, lookup, k, g.sessions[k])
    ensures GeneOk(c, lookup, g)
  {
    hide CandidateOk, SessionOk;
  }

  lemma TwoGenesOk(a: Candidate, b: Candidate, lookup: SlotLookup, g: GeneData, h: GeneData)
    requires CandidatesOk([a, b]) && CandidateOk(a) && CandidateOk(b) && GeneOk(a, lookup, g) && GeneOk(b, lookup, h)
    ensures ChromosomeOk([a, b], lookup, [g, h])
  {
    hide CandidateOk, GeneOk, CandidatesOk;
  }

  // ---------------------------------------------------------------- slots

  lemma RunFitsFullestDay(ids: seq<int>, d: int, lookup: SlotLookup, day: string, w: int)
    requires LookupOk(lookup) && day in Days(Resolve(ids, lookup)) && IsRun(DaySlots(ids, lookup, day), w, d)
    ensures d <= MostSlots(ids, lookup)
  {
    hide Days, Resolve, DaySlots, LargestDay;
    DaySlotsFacts(ids, lookup, day);
  }

  /** A contiguous block is as good a pick as the same-day selector can make. */
  lemma BlockIsPick(b: seq<int>, ids: seq<int>, d: int, lookup: SlotLookup)
    requires LookupOk(lookup) && NoDup(ids) && b in Blocks(ids, d, lookup)
    ensures SameDayPick(b, ids, d, lookup)
  {
    hide Days, Resolve, DaySlots, Blocks, IsRun, MostSlots;
    BlocksExact(ids, d, lookup);
    BlockIsBackToBack(b, ids, d, lookup);
    var day, w :| IsWindow(b, ids, d, lookup, day, w);
    RunFitsFullestDay(ids, d, lookup, day, w);
  }

  lemma SessionIsProper(c: Candidate, lookup: SlotLookup, k: nat, s: SessionData)
    requires CandidateOk(c) && SessionOk(c, lookup, k, s)
    ensures Proper(s)
  {
  }

  /** A candidate whose longest run fits its sessions is never fragmented. */
  lemma FittingCandidateHasNoGaps(c: Candidate, lookup: SlotLookup, values: seq<TimeSlot>, k: nat, s: SessionData)
    requires LookupOk(lookup) && CandidateOk(c) && SessionOk(c, lookup, k, s)
    requires IsLongestRun(c.possibleTimeSlotIds, lookup, c.longestContiguousRun)
    requires 0 < c.sessionDuration <= c.longestContiguousRun
    ensures BackToBack(s.timeSlotIds, c.possibleTimeSlotIds, c.sessionDuration, lookup)
    ensures GapsOf(lookup, values, s) == 0
  {
    hide Blocks, Days, Resolve, DaySlots, IsLongestRun, IsBlock, OneDay, MostSlots, LecturersOk, RoomOk;
    var ids, d := c.possibleTimeSlotIds, c.sessionDuration;
    BlocksExistIffRunFits(ids, d, lookup, c.longestContiguousRun);
    BlocksExact(ids, d, lookup);
    BlockIsBackToBack(s.timeSlotIds, ids, d, lookup);
    NoGaps(lookup, values, s.timeSlotIds, if s.timeSlotIds == [] then 0 else |s.timeSlotIds| - 1);
  }

  /** Every session, fitting or not, stays on one day with distinct allowed slots. */
  lemma AnySessionIsOneDay(c: Candidate, lookup: SlotLookup, k: nat, s: SessionData)
    requires CandidateOk(c) && SessionOk(c, lookup, k, s)
    ensures OneDay(s.timeSlotIds, c.possibleTimeSlotIds, lookup)
    ensures |s.timeSlotIds| == Min(Max(c.sessionDuration, 0), MostSlots(c.possibleTimeSlotIds, lookup))
  {
  }

  // ---------------------------------------------------------------- lecturers

  lemma SeededLecturersOk(c: Candidate, k: nat)
    requires CandidateOk(c)
    ensures LecturersOk(c, k, SeededLecturers(c, k))
    ensures SeededLecturers(c, k) != []
  {
    if c.MultiSibling() {
      assert SeededLecturers(c, k) in c.siblingLecturerGroups;
    }
  }

  lemma LecturerCountFixed(c: Candidate, k: nat, ls: seq<int>)
    requires CandidateOk(c) && LecturersOk(c, k, ls)
    ensures |ls| == |SeededLecturers(c, k)| >= 1
    ensures |ls| <= |c.lecturerPool| && NoDup(ls) && forall l :: l in ls ==> l in c.lecturerPool
  {
    SeededLecturersOk(c, k);
    if c.MultiSibling() {
      NoDupSize(ls);
      NoDupSize(c.lecturerPool);
      assert forall l :: l in Elements(ls) ==> l in Elements(c.lecturerPool);
      SubsetBound(Elements(ls), Elements(c.lecturerPool));
    } else {
      SameMultiset(c.lecturerPool, c.lecturerIds);
      assert forall l :: l in c.lecturerIds ==> l in Elements(c.lecturerPool);
    }
  }

  // ---------------------------------------------------------------- chromosomes

  lemma AlignedSessions(cs: seq<Candidate>, lookup: SlotLookup, ch: seq<GeneData>, i: nat)
    requires CandidatesOk(cs) && ChromosomeOk(cs, lookup, ch) && i < |ch|
    ensures ch[i].offeringId in CandidateMap(cs) && CandidateMap(cs)[ch[i].offeringId] == cs[i]
  {
    CandidateMapAt(cs, i);
  }

  /** The slots that the sessions of one gene teach, counted per lecturer: fixed by its candidate. */
  function PlannedSks(c: Candidate, n: nat): nat
    requires c.MultiSibling() ==> c.siblingLecturerGroups != []
    requires c.sessionDuration >= 0
  {
    if n == 0 then 0 else PlannedSks(c, n - 1) + c.sessionDuration * |SeededLecturers(c, n - 1)|
  }

  ghost predicate AllFit(cs: seq<Candidate>, lookup: SlotLookup) {
    forall i :: 0 <= i < |cs| ==>
      0 < cs[i].sessionDuration <= cs[i].longestContiguousRun &&
      IsLongestRun(cs[i].possibleTimeSlotIds, lookup, cs[i].longestContiguousRun)
  }

  function TotalPlannedSks(cs: seq<Candidate>): nat
    requires PlansDefined(cs)
  {
    if cs == [] then 0
    else TotalPlannedSks(cs[..|cs| - 1]) + PlannedSks(cs[|cs| - 1], cs[|cs| - 1].parallelSessionCount)
  }

  lemma {:induction false} TotalSksOfConcat(a: seq<SessionData>, b: seq<SessionData>)
    ensures TotalSks(a + b) == TotalSks(a) + TotalSks(b)
  {
    if b == [] { assert a + b == a; }
    else {
      assert (a + b)[..|a + b| - 1] == a + b[..|b| - 1];
      TotalSksOfConcat(a, b[..|b| - 1]);
    }
  }

  lemma GroupsPresent(c: Candidate)
    requires CandidateOk(c)
    ensures c.MultiSibling() ==> c.siblingLecturerGroups != []
  {
  }

  lemma {:induction false} GeneSks(c: Candidate, lookup: SlotLookup, ss: seq<SessionData>)
    requires LookupOk(lookup) && CandidateOk(c)
    requires forall k :: 0 <= k < |ss| ==> SessionOk(c, lookup, k, ss[k])
    requires IsLongestRun(c.possibleTimeSlotIds, lookup, c.longestContiguousRun)
    requires 0 < c.sessionDuration <= c.longestContiguousRun
    ensures c.MultiSibling() ==> c.siblingLecturerGroups != []
    ensures TotalSks(ss) == PlannedSks(c, |ss|)
  {
    hide *;
    GroupsPresent(c);
    NothingPlanned(c);
    if ss != [] {
      var k := |ss| - 1;
      SksStep(c, ss);
      SessionSksFixed(c, lookup, k, ss[k]);
      GeneSks(c, lookup, ss[..k]);
    }
  }

  lemma NothingPlanned(c: Candidate)
    requires c.sessionDuration >= 0 && (c.MultiSibling() ==> c.siblingLecturerGroups != [])
    ensures TotalSks([]) == PlannedSks(c, 0) == 0
  {
  }

  lemma SksStep(c: Candidate, ss: seq<SessionData>)
    requires ss != [] && c.sessionDuration >= 0 && (c.MultiSibling() ==> c.siblingLecturerGroups != [])
    ensures TotalSks(ss) == TotalSks(ss[..|ss| - 1]) + SessionSks(ss[|ss| - 1])
    ensures PlannedSks(c, |ss|) == PlannedSks(c, |ss| - 1) + c.sessionDuration * |SeededLecturers(c, |ss| - 1)|
  {
  }

  lemma SessionSksFixed(c: Candidate, lookup: SlotLookup, k: nat, s: SessionData)
    requires LookupOk(lookup) && CandidateOk(c) && SessionOk(c, lookup, k, s)
    requires IsLongestRun(c.possibleTimeSlotIds, lookup, c.longestContiguousRun)
    requires 0 < c.sessionDuration <= c.longestContiguousRun
    ensures c.MultiSibling() ==> c.siblingLecturerGroups != []
    ensures SessionSks(s) == c.sessionDuration * |SeededLecturers(c, k)|
  {
    FittingCandidateHasNoGaps(c, lookup, [], k, s);
    LecturerCountFixed(c, k, s.lecturerIds);
  }

  lemma SessionsOkFacts(c: Candidate, lookup: SlotLookup, ss: seq<SessionData>)
    requires CandidateOk(c) && SessionsOk(c, lookup, ss)
    ensures |ss| == c.parallelSessionCount
    ensures forall k :: 0 <= k < |ss| ==> SessionOk(c, lookup, k, ss[k])
  {
  }

  lemma SksOfLocus(cs: seq<Candidate>, lookup: SlotLookup, ch: seq<GeneData>, i: nat)
    requires LookupOk(lookup) && CandidatesOk(cs) && ChromosomeOk(cs, lookup, ch) && AllFit(cs, lookup) && i < |cs|
    ensures cs[i].sessionDuration >= 0 && (cs[i].MultiSibling() ==> cs[i].siblingLecturerGroups != [])
    ensures TotalSks(ch[i].sessions) == PlannedSks(cs[i], cs[i].parallelSessionCount)
    ensures ch[i].offeringId in CandidateMap(cs)
  {
    AlignedSessions(cs, lookup, ch, i);
    assert GeneOk(cs[i], lookup, ch[i]);
    SessionsOkFacts(cs[i], lookup, ch[i].sessions);
    hide SessionsOk, LookupOk, IsLongestRun, DistinctOfferings, TotalSks;
    GeneSks(cs[i], lookup, ch[i].sessions);
  }

  ghost predicate PlansDefined(cs: seq<Candidate>) {
    forall c :: c in cs ==> c.sessionDuration >= 0 && (c.MultiSibling() ==> c.siblingLecturerGroups != [])
  }

  /** The first n loci of a well-formed chromosome. */
  lemma {:induction false} SksOfPrefix(cs: seq<Candidate>, lookup: SlotLookup, ch: seq<GeneData>, n: nat)
    requires LookupOk(lookup) && CandidatesOk(cs) && ChromosomeOk(cs, lookup, ch) && AllFit(cs, lookup) && n <= |cs|
    requires PlansDefined(cs)
    ensures TotalSks(AllSessions(ch[..n], CandidateMap(cs))) == TotalPlannedSks(cs[..n])
  {
    hide GeneOk, CandidateOk, LookupOk, IsLongestRun, AllSessions, DistinctOfferings, TotalSks, CandidateMap,
         AllFit, PlannedSks;
    if n > 0 {
      SksOfPrefix(cs, lookup, ch, n - 1);
      SksOfLocus(cs, lookup, ch, n - 1);
      AllSessionsStep(ch, n - 1, CandidateMap(cs));
      TotalSksOfConcat(AllSessions(ch[..n - 1], CandidateMap(cs)), ch[n - 1].sessions);
      assert cs[..n][..n - 1] == cs[..n - 1];
    } else {
      NothingTaught(CandidateMap(cs));
      assert ch[..0] == [] && cs[..0] == [];
    }
  }

  lemma NothingTaught(cm: map<int, Candidate>)
    ensures TotalSks(AllSessions([], cm)) == 0
  {
  }

  /** Conservation: when every candidate has a fitting block, all well-formed timetables teach the same total,
      and the per-lecturer assignments always add up to it. */
  lemma SksConserved(cs: seq<Candidate>, lookup: SlotLookup, ch: seq<GeneData>)
    requires LookupOk(lookup) && CandidatesOk(cs) && ChromosomeOk(cs, lookup, ch) && AllFit(cs, lookup)
    ensures var ss := AllSessions(ch, CandidateMap(cs));
      PlansDefined(cs) &&
      AssignedSum(LecturerOrder(ss), ss) == TotalPlannedSks(cs)
  {
    PlansAreDefined(cs, lookup);
    hide *;
    LociCount(cs, lookup, ch);
    SksOfPrefix(cs, lookup, ch, |cs|);
    assert ch[..|cs|] == ch && cs[..|cs|] == cs;
    SksAddUp(AllSessions(ch, CandidateMap(cs)));
  }

  lemma PlansAreDefined(cs: seq<Candidate>, lookup: SlotLookup)
    requires CandidatesOk(cs) && AllFit(cs, lookup)
    ensures PlansDefined(cs)
  {
    hide IsLongestRun;
    forall c | c in cs ensures c.sessionDuration >= 0 && (c.MultiSibling() ==> c.siblingLecturerGroups != []) {
      var i :| 0 <= i < |cs| && cs[i] == c;
    }
  }

  lemma LociCount(cs: seq<Candidate>, lookup: SlotLookup, ch: seq<GeneData>)
    requires CandidatesOk(cs) && ChromosomeOk(cs, lookup, ch)
    ensures |ch| == |cs|
  {
  }
}
