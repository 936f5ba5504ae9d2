/** What the generation loop's perfect timetable is, requirement by requirement. */
module Perfect {
  import opened Prelude
  import opened Candidates
  import opened Timetable
  import opened SameDay
  import opened Genes
  import opened Fitness
  import opened Penalties
  import opened WellFormed
  import opened Repair
  import opened Evolution

  /** No two sessions collide, no lecturer is above the limit, every roomless offering has seats for all its students,
      and no session has a gap. */
  ghost predicate MeetsAll(p: Problem, v: seq<GeneData>) {
    var ss := AllSessions(v, CandidateMap(p.candidates));
    && PairwiseApart(ss)
    && (forall l :: l in p.maxSks ==> AssignedSks(ss, l) <= p.maxSks[l])
    && (p.roomById.Some? ==> AllSeated(v, CandidateMap(p.candidates), p.roomById.value))
    && (forall s :: s in ss ==> GapFree(p.lookup, s))
  }

  /** A legal timetable costs nothing exactly when it meets every requirement; the competency violations and the
      structural and preference penalties are the ones of the problem. */
  lemma PerfectIff(p: Problem, v: seq<GeneData>)
    requires ProblemOk(p) && ChromosomeOk(p.candidates, p.lookup, v)
    requires forall l :: l in p.maxSks ==> p.maxSks[l] >= 0
    ensures HardOf(p, v) == 0 && SoftOf(p, v) == 0 <==>
      MeetsAll(p, v) && p.competencyMismatch(v) == 0 && p.otherSoftPenalty(v) == 0
  {
    CollisionFree(p, v);
    SoftFree(p, v);
    hide AllSessions, CandidateMap, Collisions, SoftOf, PairwiseApart, AssignedSks, AllSeated, GapFree, ChromosomeOk,
         ProblemOk;
  }

  lemma CollisionFree(p: Problem, v: seq<GeneData>)
    requires ProblemOk(p) && ChromosomeOk(p.candidates, p.lookup, v)
    ensures Collisions(p, v) == 0 <==> PairwiseApart(AllSessions(v, CandidateMap(p.candidates)))
  {
    ProblemParts(p);
    hide AllSessions, CandidateMap, HardCount, ChromosomeOk, CandidatesOk, LookupOk, Enumerates,
         PairwiseApart, AllProper;
    AllSessionsProper(p.candidates, p.lookup, v, |v|);
    assert v[..|v|] == v;
    HardCountZero(AllSessions(v, CandidateMap(p.candidates)));
  }

  lemma SoftFree(p: Problem, v: seq<GeneData>)
    requires ProblemOk(p) && ChromosomeOk(p.candidates, p.lookup, v)
    requires forall l :: l in p.maxSks ==> p.maxSks[l] >= 0
    ensures var ss := AllSessions(v, CandidateMap(p.candidates));
      SoftOf(p, v) == 0 <==>
        && p.otherSoftPenalty(v) == 0
        && (forall l :: l in p.maxSks ==> AssignedSks(ss, l) <= p.maxSks[l])
        && (p.roomById.Some? ==> AllSeated(v, CandidateMap(p.candidates), p.roomById.value))
        && (forall s :: s in ss ==> GapFree(p.lookup, s))
  {
    var cm := CandidateMap(p.candidates);
    var ss := AllSessions(v, cm);
    hide CandidateMap, AllSessions, LoadPenalty, TotalShortfall, AllGaps, ChromosomeOk, AssignedSks, GapFree, AllSeated,
         ProblemOk;
    NobodyOverloaded(ss, p.maxSks);
    if p.roomById.Some? { NobodyStands(v, cm, p.roomById.value); }
    SessionsKnown(p, v, |v|);
    assert v[..|v|] == v;
    NothingFragmented(p.lookup, p.slotsInOrder, ss);
  }

  lemma {:induction false} SessionsKnown(p: Problem, v: seq<GeneData>, n: nat)
    requires ProblemOk(p) && ChromosomeOk(p.candidates, p.lookup, v) && n <= |v|
    ensures forall s :: s in AllSessions(v[..n], CandidateMap(p.candidates)) ==>
      forall x :: x in s.timeSlotIds ==> x in p.lookup
  {
    hide CandidateOk, SessionOk, AllSessions, CandidateMap;
    ProblemParts(p);
    if n > 0 {
      SessionsKnown(p, v, n - 1);
      AllSessionsStep(v, n - 1, CandidateMap(p.candidates));
      assert GeneOk(p.candidates[n - 1], p.lookup, v[n - 1]);
      var ss := v[n - 1].sessions;
      forall k | 0 <= k < |ss| ensures forall x :: x in ss[k].timeSlotIds ==> x in p.lookup {
        SlotsKnown(p.candidates[n - 1], p.lookup, k, ss[k]);
      }
    } else {
      assert v[..0] == [];
      NothingCounted(CandidateMap(p.candidates));
    }
  }

  lemma SlotsKnown(c: Candidate, lookup: SlotLookup, k: nat, s: SessionData)
    requires CandidateOk(c) && SessionOk(c, lookup, k, s)
    ensures forall x :: x in s.timeSlotIds ==> x in lookup
  {
  }
}
