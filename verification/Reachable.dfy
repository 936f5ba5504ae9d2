/** What holds of every timetable of every generation of a run. */
module Reachable {
  import opened Prelude
  import opened Candidates
  import opened Timetable
  import opened SameDay
  import opened Genes
  import opened Fitness
  import opened Penalties
  import opened WellFormed
  import opened Operators
  import opened Mutation
  import opened Repair
  import opened Evolution

  /** The value of locus i in individual x of generation g. */
  ghost predicate Occurs(trace: seq<seq<seq<GeneData>>>, g: nat, x: nat, i: nat, gene: GeneData) {
    g < |trace| && x < |trace[g]| && i < |trace[g][x]| && trace[g][x][i] == gene
  }

  lemma IndividualIsLegal(p: Problem, cfg: Config, trace: seq<seq<seq<GeneData>>>, history: seq<real>,
                          avgHistory: seq<real>, g: nat, x: nat)
    requires ProblemOk(p) && ConfigOk(cfg) && Traced(p, cfg, trace, history, avgHistory)
    requires g < |trace| && x < |trace[g]|
    ensures ChromosomeOk(p.candidates, p.lookup, trace[g][x])
  {
    hide ChromosomeOk, IsBestOf, EliteLeads;
    assert Generation(p, cfg, trace[g], history[g], avgHistory[g]);
    LegalAt(p, trace[g], x);
  }

  /** Locus i belongs to candidate i for the whole run: same offering, same kind, same number of sessions. */
  lemma LociStayAligned(p: Problem, cfg: Config, trace: seq<seq<seq<GeneData>>>, history: seq<real>,
                        avgHistory: seq<real>, g: nat, x: nat, i: nat, gene: GeneData)
    requires ProblemOk(p) && ConfigOk(cfg) && Traced(p, cfg, trace, history, avgHistory) && Occurs(trace, g, x, i, gene)
    ensures i < |p.candidates| && gene.offeringId == p.candidates[i].offeringId
    ensures gene.kind == FIXED <==> p.candidates[i].isFixedRoom
    ensures |gene.sessions| == p.candidates[i].parallelSessionCount
    ensures CandidateOk(p.candidates[i]) &&
      forall k :: 0 <= k < |gene.sessions| ==> SessionOk(p.candidates[i], p.lookup, k, gene.sessions[k])
  {
    hide Traced, CandidateOk, SessionOk;
    IndividualIsLegal(p, cfg, trace, history, avgHistory, g, x);
    assert GeneOk(p.candidates[i], p.lookup, trace[g][x][i]);
  }

  /** A locked room is kept, a free one comes out of the candidate's own rooms; a session stays on one day, as one
      contiguous block without a gap whenever the candidate's longest run allows it; its lecturers are its seeded
      ones for a single offering, and as many distinct lecturers of the pool for a cohort. */
  lemma SessionsStayLegal(p: Problem, cfg: Config, trace: seq<seq<seq<GeneData>>>, history: seq<real>,
                          avgHistory: seq<real>, g: nat, x: nat, i: nat, gene: GeneData, k: nat)
    requires ProblemOk(p) && ConfigOk(cfg) && Traced(p, cfg, trace, history, avgHistory) && Occurs(trace, g, x, i, gene)
    requires k < |gene.sessions|
    ensures i < |p.candidates|
    ensures var c, s := p.candidates[i], gene.sessions[k];
      && (c.isFixedRoom ==> c.roomId == Some(s.roomId))
      && (c.roomId == Some(s.roomId) || s.roomId in c.possibleRoomIds)
      && OneDay(s.timeSlotIds, c.possibleTimeSlotIds, p.lookup)
      && |s.timeSlotIds| == Min(Max(c.sessionDuration, 0), MostSlots(c.possibleTimeSlotIds, p.lookup))
    ensures var c, s := p.candidates[i], gene.sessions[k];
      IsLongestRun(c.possibleTimeSlotIds, p.lookup, c.longestContiguousRun) &&
        0 < c.sessionDuration <= c.longestContiguousRun ==>
      BackToBack(s.timeSlotIds, c.possibleTimeSlotIds, c.sessionDuration, p.lookup) &&
        GapsOf(p.lookup, p.slotsInOrder, s) == 0
    ensures var c, s := p.candidates[i], gene.sessions[k];
      && NoDup(s.lecturerIds) && s.lecturerIds != [] && (forall l :: l in s.lecturerIds ==> l in c.lecturerPool)
      && (if c.MultiSibling()
          then c.siblingLecturerGroups != [] && |s.lecturerIds| == |SeededLecturers(c, k)|
          else s.lecturerIds == c.lecturerIds)
  {
    LociStayAligned(p, cfg, trace, history, avgHistory, g, x, i, gene);
    var c, s := p.candidates[i], gene.sessions[k];
    hide Traced, IsLongestRun, BackToBack, Blocks, MostSlots, OneDay, GapsOf, Occurs;
    RoomOfSession(c, p.lookup, k, s);
    hide CandidateOk, SessionOk;
    AnySessionIsOneDay(c, p.lookup, k, s);
    LecturersOfSession(c, p.lookup, k, s);
    if IsLongestRun(c.possibleTimeSlotIds, p.lookup, c.longestContiguousRun) &&
      0 < c.sessionDuration <= c.longestContiguousRun {
      FittingCandidateHasNoGaps(c, p.lookup, p.slotsInOrder, k, s);
    }
  }

  lemma RoomOfSession(c: Candidate, lookup: SlotLookup, k: nat, s: SessionData)
    requires CandidateOk(c) && SessionOk(c, lookup, k, s)
    ensures c.isFixedRoom ==> c.roomId == Some(s.roomId)
    ensures c.roomId == Some(s.roomId) || s.roomId in c.possibleRoomIds
  {
    hide SlotsOk, LecturersOk;
  }

  lemma LecturersOfSession(c: Candidate, lookup: SlotLookup, k: nat, s: SessionData)
    requires CandidateOk(c) && SessionOk(c, lookup, k, s)
    ensures NoDup(s.lecturerIds) && s.lecturerIds != [] && forall l :: l in s.lecturerIds ==> l in c.lecturerPool
    ensures if c.MultiSibling()
            then c.siblingLecturerGroups != [] && |s.lecturerIds| == |SeededLecturers(c, k)|
            else s.lecturerIds == c.lecturerIds
  {
    hide SlotsOk, RoomOk;
    LecturerCountFixed(c, k, s.lecturerIds);
  }

  /** When every candidate's sessions fit, all timetables of the run assign the same total teaching load. */
  lemma LoadIsConserved(p: Problem, cfg: Config, trace: seq<seq<seq<GeneData>>>, history: seq<real>,
                        avgHistory: seq<real>, g: nat, x: nat, g': nat, x': nat)
    requires ProblemOk(p) && ConfigOk(cfg) && Traced(p, cfg, trace, history, avgHistory) &&
      AllFit(p.candidates, p.lookup)
    requires g < |trace| && x < |trace[g]| && g' < |trace| && x' < |trace[g']|
    ensures var cm := CandidateMap(p.candidates);
      var ss, ss' := AllSessions(trace[g][x], cm), AllSessions(trace[g'][x'], cm);
      AssignedSum(LecturerOrder(ss), ss) == AssignedSum(LecturerOrder(ss'), ss')
  {
    hide Traced, ChromosomeOk, AllFit, AssignedSum, LecturerOrder, AllSessions, CandidateMap, CandidatesOk;
    IndividualIsLegal(p, cfg, trace, history, avgHistory, g, x);
    IndividualIsLegal(p, cfg, trace, history, avgHistory, g', x');
    SksConserved(p.candidates, p.lookup, trace[g][x]);
    SksConserved(p.candidates, p.lookup, trace[g'][x']);
  }

  // ---------------------------------------------------------------- every timetable is a repaired one

  /** Whatever was given, the first n loci are settled among themselves. */
  lemma {:induction false} EarnedPrefix(cs: seq<Candidate>, lookup: SlotLookup, roomById: Option<map<int, int>>,
                                        input: seq<GeneData>, vals: seq<GeneData>, flags: seq<seq<bool>>, n: nat)
    requires CandidatesOk(cs) && ChromosomeOk(cs, lookup, vals) && n <= |flags| == |vals|
    requires AllEarned(cs, lookup, roomById, input, vals, flags)
    ensures RepairedPrefix(vals, n, cs, Flat(flags[..n]))
  {
    hide CandidatesOk, ChromosomeOk, AllSessions, CandidateMap, Flat, LocusEarned, RepairedPrefix;
    if n == 0 {
      NothingYet(cs, vals, flags);
    } else {
      EarnedPrefix(cs, lookup, roomById, input, vals, flags, n - 1);
      assert LocusEarned(cs[n - 1], lookup, roomById, input[n - 1], vals[n - 1].sessions, flags[n - 1],
        AllSessions(vals[..n - 1], CandidateMap(cs)) + AllSessions(input[n..], CandidateMap(cs)));
      PrefixStep(cs, lookup, roomById, input, vals, n - 1, Flat(flags[..n - 1]), flags[n - 1]);
      FlatSnoc(flags[..n - 1], flags[n - 1]);
      assert flags[..n] == flags[..n - 1] + [flags[n - 1]];
    }
  }

  lemma NothingYet(cs: seq<Candidate>, vals: seq<GeneData>, flags: seq<seq<bool>>)
    ensures RepairedPrefix(vals, 0, cs, Flat(flags[..0]))
  {
    assert vals[..0] == [] && flags[..0] == [];
    NothingCounted(CandidateMap(cs));
  }

  lemma PrefixStep(cs: seq<Candidate>, lookup: SlotLookup, roomById: Option<map<int, int>>, input: seq<GeneData>,
                   vals: seq<GeneData>, i: nat, flags: seq<bool>, more: seq<bool>)
    requires CandidatesOk(cs) && ChromosomeOk(cs, lookup, vals) && i < |vals| == |input|
    requires RepairedPrefix(vals, i, cs, flags)
    requires LocusEarned(cs[i], lookup, roomById, input[i], vals[i].sessions, more,
      AllSessions(vals[..i], CandidateMap(cs)) + AllSessions(input[i + 1..], CandidateMap(cs)))
    ensures RepairedPrefix(vals, i + 1, cs, flags + more)
  {
    hide CandidatesOk, ChromosomeOk, AllSessions, CandidateMap, UnflaggedApart, Settled, GeneEarned;
    var before, after := AllSessions(vals[..i], CandidateMap(cs)), AllSessions(input[i + 1..], CandidateMap(cs));
    OthersOfLocus(cs, lookup, vals, i);
    SettledExtends(before, after, flags, vals[i].sessions, more);
    SettledSize(before + after, vals[i].sessions, more);
  }

  /** A repaired timetable: sessions that were not left to the last resort collide with none of their kind, and every
      violation is a booking of a last resort. */
  lemma RepairedViolations(p: Problem, input: seq<GeneData>, v: seq<GeneData>, flags: seq<seq<bool>>)
    requires ProblemOk(p) && ChromosomeOk(p.candidates, p.lookup, v) && |flags| == |p.candidates|
    requires AllEarned(p.candidates, p.lookup, p.roomById, input, v, flags)
    ensures var ss, fl := AllSessions(v, CandidateMap(p.candidates)), Flat(flags);
      |fl| == |ss| && UnflaggedApart(ss, fl) && Collisions(p, v) <= FlaggedBookings(ss, fl)
      && ((forall k :: 0 <= k < |fl| ==> !fl[k]) ==> Collisions(p, v) == 0)
  {
    ProblemParts(p);
    CollisionsAre(p, v);
    hide *;
    OneLocusEach(p.candidates, p.lookup, v);
    EarnedPrefix(p.candidates, p.lookup, p.roomById, input, v, flags, |v|);
    assert flags[..|v|] == flags;
    RepairSummary(p.candidates, p.lookup, v, Flat(flags));
  }

  lemma CollisionsAre(p: Problem, v: seq<GeneData>)
    ensures Collisions(p, v) == HardCount(AllSessions(v, CandidateMap(p.candidates)))
  {
  }

  lemma TracedAt(p: Problem, cfg: Config, trace: seq<seq<seq<GeneData>>>, history: seq<real>, avgHistory: seq<real>,
                 g: nat, x: nat)
    requires ProblemOk(p) && ConfigOk(cfg) && Traced(p, cfg, trace, history, avgHistory)
    requires g < |trace| && x < |trace[g]|
    ensures if g == 0 then Born(p, trace[g][x]) else EliteLeads(p, cfg, trace[g - 1], trace[g])
  {
    hide Generation, Born, EliteLeads;
    assert g > 0 ==> EliteLeads(p, cfg, trace[g - 1], trace[g - 1 + 1]);
  }

  /** Every timetable of every generation is the result of a repair. */
  lemma {:induction false} EveryoneIsRepaired(p: Problem, cfg: Config, trace: seq<seq<seq<GeneData>>>,
                                              history: seq<real>, avgHistory: seq<real>, g: nat, x: nat)
    returns (input: seq<GeneData>, flags: seq<seq<bool>>)
    requires ProblemOk(p) && ConfigOk(cfg) && Traced(p, cfg, trace, history, avgHistory)
    requires g < |trace| && x < |trace[g]|
    ensures |flags| == |p.candidates| &&
      AllEarned(p.candidates, p.lookup, p.roomById, input, trace[g][x], flags)
    decreases g
  {
    hide *;
    TracedAt(p, cfg, trace, history, avgHistory, g, x);
    if g == 0 {
      input, flags := BornRepaired(p, trace[g][x]);
    } else {
      var kept, y;
      kept, y, input, flags := KeptOrBred(p, cfg, trace[g - 1], trace[g], x);
      if kept { input, flags := EveryoneIsRepaired(p, cfg, trace, history, avgHistory, g - 1, y); }
    }
  }

  /** So in every timetable of every generation each violation is a booking of a session that the repair left to the
      last resort, and sessions that it did not leave to it collide with none of their kind. */
  lemma ViolationsAreLastResorts(p: Problem, cfg: Config, trace: seq<seq<seq<GeneData>>>, history: seq<real>,
                                 avgHistory: seq<real>, g: nat, x: nat)
    returns (input: seq<GeneData>, flags: seq<seq<bool>>)
    requires ProblemOk(p) && ConfigOk(cfg) && Traced(p, cfg, trace, history, avgHistory)
    requires g < |trace| && x < |trace[g]|
    ensures |flags| == |p.candidates| &&
      AllEarned(p.candidates, p.lookup, p.roomById, input, trace[g][x], flags)
    ensures var ss, fl := AllSessions(trace[g][x], CandidateMap(p.candidates)), Flat(flags);
      |fl| == |ss| && UnflaggedApart(ss, fl) && Collisions(p, trace[g][x]) <= FlaggedBookings(ss, fl)
      && ((forall k :: 0 <= k < |fl| ==> !fl[k]) ==> Collisions(p, trace[g][x]) == 0)
  {
    IndividualIsLegal(p, cfg, trace, history, avgHistory, g, x);
    hide *;
    input, flags := EveryoneIsRepaired(p, cfg, trace, history, avgHistory, g, x);
    RepairedViolations(p, input, trace[g][x], flags);
  }

  lemma BornRepaired(p: Problem, v: seq<GeneData>) returns (input: seq<GeneData>, flags: seq<seq<bool>>)
    requires ProblemOk(p) && Born(p, v)
    ensures |flags| == |p.candidates| && AllEarned(p.candidates, p.lookup, p.roomById, input, v, flags)
  {
    hide AllEarned, SeededFrom;
    input :| SeededFrom(p.candidates, p.lookup, input) && RepairOf(p, input, v);
    flags :| |flags| == |p.candidates| && AllEarned(p.candidates, p.lookup, p.roomById, input, v, flags);
  }

  lemma GrownRepaired(p: Problem, cfg: Config, a: seq<GeneData>, v: seq<GeneData>)
    returns (input: seq<GeneData>, flags: seq<seq<bool>>)
    requires ProblemOk(p) && Grown(p, cfg, a, v)
    ensures |flags| == |p.candidates| && AllEarned(p.candidates, p.lookup, p.roomById, input, v, flags)
  {
    hide AllEarned, MutatedLoci;
    input :| MutatedLoci(p.candidates, p.lookup, cfg.mutationRate, a, input) && RepairOf(p, input, v);
    flags :| |flags| == |p.candidates| && AllEarned(p.candidates, p.lookup, p.roomById, input, v, flags);
  }

  /** A member of the next population is an elite of the one before it, or a repaired child. */
  lemma KeptOrBred(p: Problem, cfg: Config, before: seq<seq<GeneData>>, after: seq<seq<GeneData>>, x: nat)
    returns (kept: bool, y: nat, input: seq<GeneData>, flags: seq<seq<bool>>)
    requires ProblemOk(p) && ConfigOk(cfg) && EliteLeads(p, cfg, before, after) && x < |after|
    ensures if kept then y < |before| && before[y] == after[x]
            else |flags| == |p.candidates| &&
                 AllEarned(p.candidates, p.lookup, p.roomById, input, after[x], flags)
  {
    hide AllEarned, Ranking, FitOf, BredFrom;
    kept, y, input, flags := false, 0, [], [];
    var ranked :| Ranking(p, cfg, ranked, before) && LeadsWith(cfg, ranked, after) &&
      Offspring(p, cfg, ranked, after, Min(cfg.elitismCount, |ranked|));
    var e := Min(cfg.elitismCount, |ranked|);
    if x < e {
      kept := true;
      y := RankedMember(p, cfg, ranked, before, x);
    } else {
      var i := x - (x - e) % 2;
      assert PairAt(p, cfg, ranked, after, i);
      var v2 :| BredFrom(p, cfg, ranked, after[i], v2) && (i + 1 < |after| ==> after[i + 1] == v2);
      input, flags := BredRepaired(p, cfg, ranked, after[i], v2, x == i);
    }
  }

  lemma RankedMember(p: Problem, cfg: Config, ranked: seq<seq<GeneData>>, before: seq<seq<GeneData>>, x: nat)
    returns (y: nat)
    requires ConfigOk(cfg) && Ranking(p, cfg, ranked, before) && x < |ranked|
    ensures y < |before| && before[y] == ranked[x]
  {
    SameMultiset(ranked, before);
    assert ranked[x] in Elements(ranked);
    assert ranked[x] in before;
    y :| 0 <= y < |before| && before[y] == ranked[x];
  }

  lemma BredRepaired(p: Problem, cfg: Config, evals: seq<seq<GeneData>>, v1: seq<GeneData>, v2: seq<GeneData>,
                     first: bool)
    returns (input: seq<GeneData>, flags: seq<seq<bool>>)
    requires ProblemOk(p) && BredFrom(p, cfg, evals, v1, v2)
    ensures |flags| == |p.candidates| &&
      AllEarned(p.candidates, p.lookup, p.roomById, input, if first then v1 else v2, flags)
  {
    hide AllEarned, Grown, Crossed;
    var i, j :| 0 <= i < |evals| && 0 <= j < |evals| && Children(p, cfg, evals[i], evals[j], v1, v2);
    var a, b :| Crossed(cfg.crossoverType, evals[i], evals[j], a, b) && Grown(p, cfg, a, v1) && Grown(p, cfg, b, v2);
    input, flags := GrownRepaired(p, cfg, if first then a else b, if first then v1 else v2);
  }
}
