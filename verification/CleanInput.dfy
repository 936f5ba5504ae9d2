/** What repair does to a timetable that has no violation. */
module CleanInput {
  import opened Prelude
  import opened Candidates
  import opened Timetable
  import opened Genes
  import opened Fitness
  import opened WellFormed
  import opened RepairSession
  import opened Repair

  // ---------------------------------------------------------------- siblings at different slots

  /** Every session has its full length, and the siblings of a gene share no slot. */
  ghost predicate SiblingsSpread(c: Candidate, ss: seq<SessionData>) {
    && (forall k :: 0 <= k < |ss| ==> |ss[k].timeSlotIds| == c.sessionDuration)
    && (forall j, k :: 0 <= j < k < |ss| ==> NoSharedSlot(ss[j], ss[k]))
  }

  ghost predicate NoFlag(flags: seq<bool>) {
    forall k :: 0 <= k < |flags| ==> !flags[k]
  }

  ghost predicate ApartFromAll(others: seq<SessionData>, ss: seq<SessionData>) {
    forall p, k :: 0 <= p < |others| && 0 <= k < |ss| ==> Apart(others[p], ss[k])
  }

  /** Apart from all sessions of the index and off the used slots means clean. */
  lemma ApartIsClean(s: SessionData, index: ConflictIndex, others: seq<SessionData>, used: set<int>)
    requires IndexOf(index, others) && forall p :: 0 <= p < |others| ==> Apart(others[p], s)
    requires forall slot :: slot in s.timeSlotIds ==> slot !in used
    ensures Clean(s, index, used)
  {
    DisjointFromAll(others, s);
    RoomKeysMembers(s);
    LecKeysMembers(s);
    hide RoomKeys, AllRoomKeys, AllLecKeys, Apart;
    forall slot | slot in s.timeSlotIds ensures (s.roomId, slot) !in index.roomTimeUsed {
      assert (s.roomId, slot) in RoomKeys(s);
      assert (s.roomId, slot) in Elements(AllRoomKeys(others)) <==> (s.roomId, slot) in AllRoomKeys(others);
    }
    forall slot, l | slot in s.timeSlotIds && l in s.lecturerIds ensures (l, slot) !in index.lecturerTimeUsed {
      assert (l, slot) in LecKeys(s);
      assert (l, slot) in Elements(AllLecKeys(others)) <==> (l, slot) in AllLecKeys(others);
    }
  }

  lemma {:induction false} OffTheSlots(ss: seq<SessionData>, t: SessionData)
    requires forall j :: 0 <= j < |ss| ==> NoSharedSlot(ss[j], t)
    ensures forall slot :: slot in t.timeSlotIds ==> slot !in SlotsOf(ss)
  {
    if ss != [] {
      OffTheSlots(ss[..|ss| - 1], t);
      assert NoSharedSlot(ss[|ss| - 1], t);
    }
  }

  /** Clean, spread sessions are all kept. */
  lemma {:induction false} AllKept(c: Candidate, lookup: SlotLookup, kind: Kind, given: seq<SessionData>,
                                   mid: seq<SessionData>, flags: seq<bool>, index: ConflictIndex,
                                   others: seq<SessionData>, n: nat)
    requires Stepped(c, lookup, kind, given, mid, flags, index) && IndexOf(index, others)
    requires ApartFromAll(others, given) && SiblingsSpread(c, given) && n <= |given|
    ensures |mid| == |flags| == |given| && mid[..n] == given[..n] && NoFlag(flags[..n])
  {
    hide MayRepair, Apart, SlotsOf, IndexOf, Clean;
    if n > 0 {
      var k := n - 1;
      AllKept(c, lookup, kind, given, mid, flags, index, others, k);
      var used := SlotsOf(given[..k]);
      OffTheSlots(given[..k], given[k]);
      ApartIsClean(given[k], index, others, used);
      assert MayRepair(c, lookup, kind, given[k], index, SlotsOf(mid[..k]), mid[k], flags[k]);
      CleanIsKept(c, lookup, kind, given[k], index, used, mid[k], flags[k]);
      assert mid[..n] == mid[..k] + [mid[k]] && given[..n] == given[..k] + [given[k]];
    }
  }

  lemma CleanIsKept(c: Candidate, lookup: SlotLookup, kind: Kind, s: SessionData, index: ConflictIndex, used: set<int>,
                    t: SessionData, lastResort: bool)
    requires Clean(s, index, used) && |s.timeSlotIds| == c.sessionDuration
    requires MayRepair(c, lookup, kind, s, index, used, t, lastResort)
    ensures t == s && !lastResort
  {
    hide Clean, MayMove, MaySwap, OnlyLecturersClash;
  }

  lemma GeneKept(c: Candidate, lookup: SlotLookup, roomById: Option<map<int, int>>, g: GeneData, ss: seq<SessionData>,
                 flags: seq<bool>, others: seq<SessionData>)
    requires LocusEarned(c, lookup, roomById, g, ss, flags, others)
    requires ApartFromAll(others, g.sessions) && SiblingsSpread(c, g.sessions)
    ensures RoomsMoved(g.sessions, ss, c.possibleRoomIds) && ApartFromAll(others, ss) && PairwiseApart(ss)
  {
    hide Stepped, IndexOf, Apart, RoomsMoved, Earned, Seated;
    var index, mid :| IndexOf(index, others) && Stepped(c, lookup, g.kind, g.sessions, mid, flags, index) &&
      Earned(c, lookup, g.kind, g.sessions, ss, flags, index) && RoomsMoved(mid, ss, c.possibleRoomIds) &&
      Seated(c, g.kind, mid, ss, index, roomById);
    AllKept(c, lookup, g.kind, g.sessions, mid, flags, index, others, |g.sessions|);
    assert mid[..|mid|] == mid && g.sessions[..|g.sessions|] == g.sessions && flags[..|flags|] == flags;
  }

  // lists with a middle part

  lemma ApartEitherWay(s: SessionData, t: SessionData)
    ensures Apart(s, t) <==> Apart(t, s)
  {
  }

  /** A list is pairwise apart exactly when its parts are, each in itself and from each other. */
  lemma MiddleApart(a: seq<SessionData>, x: seq<SessionData>, b: seq<SessionData>)
    ensures PairwiseApart(a + x + b) <==> PairwiseApart(a + b) && PairwiseApart(x) && ApartFromAll(a + b, x)
  {
    hide *;
    var all, rest := a + x + b, a + b;
    if PairwiseApart(all) { MiddleOfApart(a, x, b, all, rest); }
    if PairwiseApart(rest) && PairwiseApart(x) && ApartFromAll(rest, x) { AroundMiddle(a, x, b, all, rest); }
  }

  lemma MiddleOfApart(a: seq<SessionData>, x: seq<SessionData>, b: seq<SessionData>, all: seq<SessionData>,
                      rest: seq<SessionData>)
    requires all == a + x + b && rest == a + b && PairwiseApart(all)
    ensures PairwiseApart(rest) && PairwiseApart(x) && ApartFromAll(rest, x)
  {
    var n, m := |a|, |x|;
    hide Apart;
    forall p, q | 0 <= p < q < |rest| ensures Apart(rest[p], rest[q]) {
      var p', q' := if p < n then p else p + m, if q < n then q else q + m;
      assert all[p'] == rest[p] && all[q'] == rest[q];
    }
    forall p, q | 0 <= p < q < m ensures Apart(x[p], x[q]) {
      assert all[n + p] == x[p] && all[n + q] == x[q];
    }
    forall p, k | 0 <= p < |rest| && 0 <= k < m ensures Apart(rest[p], x[k]) {
      var p' := if p < n then p else p + m;
      assert all[p'] == rest[p] && all[n + k] == x[k];
      ApartEitherWay(rest[p], x[k]);
    }
  }

  lemma AroundMiddle(a: seq<SessionData>, x: seq<SessionData>, b: seq<SessionData>, all: seq<SessionData>,
                     rest: seq<SessionData>)
    requires all == a + x + b && rest == a + b && PairwiseApart(rest) && PairwiseApart(x) && ApartFromAll(rest, x)
    ensures PairwiseApart(all)
  {
    var n, m := |a|, |x|;
    hide Apart;
    forall p, q | 0 <= p < q < |all| ensures Apart(all[p], all[q]) {
      var inP, inQ := n <= p < n + m, n <= q < n + m;
      var p', q' := if p < n then p else p - m, if q < n then q else q - m;
      if inP && inQ {
        assert all[p] == x[p - n] && all[q] == x[q - n];
      } else if inP {
        assert all[p] == x[p - n] && all[q] == rest[q'];
        ApartEitherWay(rest[q'], x[p - n]);
      } else if inQ {
        assert all[p] == rest[p'] && all[q] == x[q - n];
      } else {
        assert all[p] == rest[p'] && all[q] == rest[q'];
      }
    }
  }

  /** Every session has its full length and no gene's siblings share a slot. */
  ghost predicate AllSpread(cs: seq<Candidate>, input: seq<GeneData>) {
    |input| == |cs| && forall i :: 0 <= i < |cs| ==> SiblingsSpread(cs[i], input[i].sessions)
  }

  /** The first n repaired genes with the input genes behind them. */
  ghost predicate KeptUpTo(cs: seq<Candidate>, input: seq<GeneData>, vals: seq<GeneData>, n: nat)
    requires n <= |vals| == |input| == |cs|
  {
    && PairwiseApart(AllSessions(vals[..n], CandidateMap(cs)) + AllSessions(input[n..], CandidateMap(cs)))
    && forall i :: 0 <= i < n ==> RoomsMoved(input[i].sessions, vals[i].sessions, cs[i].possibleRoomIds)
  }

  lemma KeptStep(cs: seq<Candidate>, lookup: SlotLookup, roomById: Option<map<int, int>>, input: seq<GeneData>,
                 vals: seq<GeneData>, flags: seq<seq<bool>>, n: nat)
    requires CandidatesOk(cs) && ChromosomeOk(cs, lookup, input) && ChromosomeOk(cs, lookup, vals)
    requires AllEarned(cs, lookup, roomById, input, vals, flags) && |flags| == |cs| == |vals| == |input| && n < |cs|
    requires AllSpread(cs, input) && KeptUpTo(cs, input, vals, n)
    ensures KeptUpTo(cs, input, vals, n + 1)
  {
    hide CandidatesOk, ChromosomeOk, AllSessions, CandidateMap, PairwiseApart, ApartFromAll, LocusEarned, RoomsMoved,
         SiblingsSpread;
    var cm := CandidateMap(cs);
    var a, b := AllSessions(vals[..n], cm), AllSessions(input[n + 1..], cm);
    SplitBehind(cs, lookup, input, n);
    OthersOfLocus(cs, lookup, vals, n);
    assert a + (input[n].sessions + b) == a + input[n].sessions + b;
    MiddleApart(a, input[n].sessions, b);
    GeneKept(cs[n], lookup, roomById, input[n], vals[n].sessions, flags[n], a + b);
    MiddleApart(a, vals[n].sessions, b);
    assert (a + vals[n].sessions) + b == a + vals[n].sessions + b;
  }

  lemma SplitBehind(cs: seq<Candidate>, lookup: SlotLookup, input: seq<GeneData>, n: nat)
    requires CandidatesOk(cs) && ChromosomeOk(cs, lookup, input) && n < |input|
    ensures AllSessions(input[n..], CandidateMap(cs))
         == input[n].sessions + AllSessions(input[n + 1..], CandidateMap(cs))
  {
    hide *;
    var cm := CandidateMap(cs);
    OffersDistinct(cs, lookup, input, n);
    assert input[n..] == [input[n]] + input[n + 1..];
    AllSessionsConcat([input[n]], input[n + 1..], cm);
    OneGene(input[n], cm, 0);
  }

  lemma {:induction false} KeptThrough(cs: seq<Candidate>, lookup: SlotLookup, roomById: Option<map<int, int>>,
                                       input: seq<GeneData>, vals: seq<GeneData>, flags: seq<seq<bool>>, n: nat)
    requires CandidatesOk(cs) && ChromosomeOk(cs, lookup, input) && ChromosomeOk(cs, lookup, vals)
    requires AllEarned(cs, lookup, roomById, input, vals, flags) && |flags| == |cs| == |vals| == |input| && n <= |cs|
    requires AllSpread(cs, input) && KeptUpTo(cs, input, vals, 0)
    ensures KeptUpTo(cs, input, vals, n)
  {
    hide *;
    if n > 0 {
      KeptThrough(cs, lookup, roomById, input, vals, flags, n - 1);
      KeptStep(cs, lookup, roomById, input, vals, flags, n - 1);
    }
  }

  /** A violation-free timetable of full-length sessions whose siblings share no slot comes back from every repair with
      the same sessions, rooms moved by the capacity pass aside, and without a violation. */
  lemma SpreadTimetableIsKept(cs: seq<Candidate>, lookup: SlotLookup, roomById: Option<map<int, int>>,
                              input: seq<GeneData>, vals: seq<GeneData>, flags: seq<seq<bool>>)
    requires CandidatesOk(cs) && ChromosomeOk(cs, lookup, input) && ChromosomeOk(cs, lookup, vals)
    requires AllEarned(cs, lookup, roomById, input, vals, flags) && |flags| == |cs|
    requires HardCount(AllSessions(input, CandidateMap(cs))) == 0 && AllSpread(cs, input)
    ensures |vals| == |input| == |cs|
    ensures forall i :: 0 <= i < |cs| ==> RoomsMoved(input[i].sessions, vals[i].sessions, cs[i].possibleRoomIds)
    ensures HardCount(AllSessions(vals, CandidateMap(cs))) == 0
  {
    hide *;
    OneLocusEach(cs, lookup, vals);
    OneLocusEach(cs, lookup, input);
    CleanIffApart(cs, lookup, input);
    CleanIffApart(cs, lookup, vals);
    KeptAtStart(cs, input, vals);
    KeptThrough(cs, lookup, roomById, input, vals, flags, |cs|);
    KeptAtEnd(cs, input, vals);
  }

  lemma CleanIffApart(cs: seq<Candidate>, lookup: SlotLookup, vals: seq<GeneData>)
    requires CandidatesOk(cs) && ChromosomeOk(cs, lookup, vals)
    ensures HardCount(AllSessions(vals, CandidateMap(cs))) == 0 <==>
      PairwiseApart(AllSessions(vals, CandidateMap(cs)))
  {
    hide *;
    AllSessionsProper(cs, lookup, vals, |vals|);
    assert vals[..|vals|] == vals;
    HardCountZero(AllSessions(vals, CandidateMap(cs)));
  }

  lemma KeptAtStart(cs: seq<Candidate>, input: seq<GeneData>, vals: seq<GeneData>)
    requires |vals| == |input| == |cs| && PairwiseApart(AllSessions(input, CandidateMap(cs)))
    ensures KeptUpTo(cs, input, vals, 0)
  {
    NothingCounted(CandidateMap(cs));
    hide AllSessions, CandidateMap, PairwiseApart;
    assert input[0..] == input && vals[..0] == [];
    assert [] + AllSessions(input, CandidateMap(cs)) == AllSessions(input, CandidateMap(cs));
  }

  lemma KeptAtEnd(cs: seq<Candidate>, input: seq<GeneData>, vals: seq<GeneData>)
    requires |vals| == |input| == |cs| && KeptUpTo(cs, input, vals, |cs|)
    ensures forall i :: 0 <= i < |cs| ==> RoomsMoved(input[i].sessions, vals[i].sessions, cs[i].possibleRoomIds)
    ensures PairwiseApart(AllSessions(vals, CandidateMap(cs)))
  {
    NothingCounted(CandidateMap(cs));
    hide AllSessions, CandidateMap, PairwiseApart, RoomsMoved;
    assert input[|input|..] == [] && vals[..|vals|] == vals;
    assert AllSessions(vals, CandidateMap(cs)) + [] == AllSessions(vals, CandidateMap(cs));
  }
}
