/** The structural verdict and the existence of timetables, both read session by session along the graph's nodes. */
module Admissibility {
  import opened Prelude
  import opened Candidates
  import opened Timetable
  import opened Bipartite
  import opened Genes
  import opened Fitness
  import opened WellFormed
  import opened Completeness
  import opened Ssa

  /** A legal timetable without a room or lecturer collision. */
  ghost predicate CollisionFree(cs: seq<Candidate>, lookup: SlotLookup, ch: seq<GeneData>) {
    CandidatesOk(cs) && ChromosomeOk(cs, lookup, ch) && HardCount(AllSessions(ch, CandidateMap(cs))) == 0
  }

  ghost predicate Schedulable(cs: seq<Candidate>, lookup: SlotLookup) {
    exists ch :: CollisionFree(cs, lookup, ch)
  }

  /** What the analysis answers: see RunSSA. */
  ghost predicate Feasible(cs: seq<Candidate>, lookup: SlotLookup) {
    DistinctStartsExist(DomainsOf(RunStaticExclusion(cs), Some(lookup)))
  }

  // ---------------------------------------------------------------- the candidate behind a node

  ghost predicate Owned(cs: seq<Candidate>, node: SessionNode) {
    && node.offeringId in CandidateMap(cs)
    && 0 <= node.sessionIndex < CandidateMap(cs)[node.offeringId].parallelSessionCount
    && node.sessionId == SessionId(node.offeringId, node.sessionIndex)
  }

  function OwnerOf(cs: seq<Candidate>, node: SessionNode): Candidate
    requires node.offeringId in CandidateMap(cs)
  {
    CandidateMap(cs)[node.offeringId]
  }

  lemma NodesOwned(cs: seq<Candidate>)
    requires DistinctOfferings(cs)
    ensures forall p :: 0 <= p < |AllNodes(cs)| ==> Owned(cs, AllNodes(cs)[p]) && OwnerOf(cs, AllNodes(cs)[p]) in cs
  {
    NodesListed(cs);
    hide AllNodes, CandidateMap, NodeOf, OwnerOf, DistinctOfferings;
    forall p | 0 <= p < |AllNodes(cs)| ensures Owned(cs, AllNodes(cs)[p]) && OwnerOf(cs, AllNodes(cs)[p]) in cs {
      var n := AllNodes(cs)[p];
      assert n in AllNodes(cs);
      var c, i :| c in cs && 0 <= i < c.parallelSessionCount && n == NodeOf(c, i);
      OwnerIs(cs, c, i);
    }
  }

  lemma OwnerIs(cs: seq<Candidate>, c: Candidate, i: nat)
    requires DistinctOfferings(cs) && c in cs && i < c.parallelSessionCount
    ensures Owned(cs, NodeOf(c, i)) && NodeOf(c, i).offeringId in CandidateMap(cs) && OwnerOf(cs, NodeOf(c, i)) == c
  {
    var k :| 0 <= k < |cs| && cs[k] == c;
    CandidateMapAt(cs, k);
    hide CandidateMap;
  }

  // ---------------------------------------------------------------- the verdict, node by node

  /** Where the sessions of c may start once the locked slots are gone. */
  ghost function StartsFor(cs: seq<Candidate>, c: Candidate, lookup: SlotLookup): set<int> {
    BlockStarts(AfterExclusion(c, LockedCoordinates(cs)), Some(lookup))
  }

  ghost predicate StartsOk(cs: seq<Candidate>, lookup: SlotLookup, starts: seq<int>) {
    && |starts| == |AllNodes(cs)| && NoDup(starts)
    && forall p :: 0 <= p < |starts| ==>
         Owned(cs, AllNodes(cs)[p]) && starts[p] in StartsFor(cs, OwnerOf(cs, AllNodes(cs)[p]), lookup)
  }

  lemma NodeDomain(cs: seq<Candidate>, lookup: SlotLookup, p: nat)
    requires SsaInput(cs) && p < |AllNodes(cs)|
    ensures var n := AllNodes(cs)[p];
      Owned(cs, n) && n.sessionId in DomainsOf(RunStaticExclusion(cs), Some(lookup)) &&
      DomainsOf(RunStaticExclusion(cs), Some(lookup))[n.sessionId] == StartsFor(cs, OwnerOf(cs, n), lookup)
  {
    NodesOwned(cs);
    ExclusionExact(cs);
    ExclusionKeepsInput(cs);
    hide AllNodes, DomainsOf, RunStaticExclusion, BlockStarts, CandidateMap, LockedFor, LockedCoordinates, SsaInput;
    var n, pruned := AllNodes(cs)[p], RunStaticExclusion(cs);
    var c := OwnerOf(cs, n);
    var after := AfterExclusion(c, LockedCoordinates(cs));
    assert c in cs && after in pruned;
    var i :| 0 <= i < |pruned| && pruned[i] == after;
    DomainOfSession(pruned, Some(lookup), i, n.sessionIndex);
    OwnerNamed(cs, n);
  }

  lemma OwnerNamed(cs: seq<Candidate>, n: SessionNode)
    requires Owned(cs, n)
    ensures OwnerOf(cs, n).offeringId == n.offeringId
  {
  }

  /** Exclusion changes no session: the pruned graph has the same ids. */
  lemma SameIds(cs: seq<Candidate>, lookup: SlotLookup)
    requires SsaInput(cs)
    ensures DomainsOf(RunStaticExclusion(cs), Some(lookup)).Keys == Elements(IdsOf(AllNodes(cs)))
  {
    var pruned := RunStaticExclusion(cs);
    ExclusionExact(cs);
    KeysAreIds(cs, Some(lookup));
    DomainsListed(cs, Some(lookup));
    DomainsListed(pruned, Some(lookup));
    hide AllNodes, DomainsOf, RunStaticExclusion, BlockStarts, LockedFor, LockedCoordinates, SsaInput, AfterExclusion;
    var locked := LockedCoordinates(cs);
    forall s ensures s in DomainsOf(pruned, Some(lookup)) <==> s in DomainsOf(cs, Some(lookup)) {
      if s in DomainsOf(pruned, Some(lookup)) {
        var p, i :| p in pruned && 0 <= i < p.parallelSessionCount && s == SessionId(p.offeringId, i);
        var c :| c in cs && p == AfterExclusion(c, locked);
        assert SameButSlots(p, c);
      }
      if s in DomainsOf(cs, Some(lookup)) {
        var c, i :| c in cs && 0 <= i < c.parallelSessionCount && s == SessionId(c.offeringId, i);
        var p := AfterExclusion(c, locked);
        assert SameButSlots(p, c) && p in pruned;
      }
    }
  }

  /** FEASIBLE means: the nodes can be given pairwise different starts of their own. */
  lemma FeasibleIffStarts(cs: seq<Candidate>, lookup: SlotLookup)
    requires SsaInput(cs)
    ensures Feasible(cs, lookup) <==> exists starts :: StartsOk(cs, lookup, starts)
  {
    hide AllNodes, DomainsOf, RunStaticExclusion, StartsFor, SsaInput, OwnerOf, NoDup, CandidateMap;
    var d, nodes := DomainsOf(RunStaticExclusion(cs), Some(lookup)), AllNodes(cs);
    NodeIdsDistinct(cs);
    SameIds(cs, lookup);
    forall p | 0 <= p < |nodes|
      ensures Owned(cs, nodes[p]) && nodes[p].sessionId in d &&
        d[nodes[p].sessionId] == StartsFor(cs, OwnerOf(cs, nodes[p]), lookup) {
      NodeDomain(cs, lookup, p);
    }
    if choice :| IsFullChoice(choice, d) {
      var starts := StartsFrom(nodes, choice, d);
      assert StartsOk(cs, lookup, starts);
    }
    if starts :| StartsOk(cs, lookup, starts) {
      StartsAreChoice(nodes, starts, d);
    }
  }

  lemma StartsFrom(nodes: seq<SessionNode>, choice: map<int, int>, d: Domains) returns (starts: seq<int>)
    requires NoDup(IdsOf(nodes)) && d.Keys == Elements(IdsOf(nodes)) && IsFullChoice(choice, d)
    requires forall p :: 0 <= p < |nodes| ==> nodes[p].sessionId in d
    ensures |starts| == |nodes| && NoDup(starts)
    ensures forall p :: 0 <= p < |starts| ==> starts[p] in d[nodes[p].sessionId]
  {
    var ids := IdsOf(nodes);
    starts := seq(|nodes|, p requires 0 <= p < |nodes| => choice[nodes[p].sessionId]);
    forall p, q | 0 <= p < q < |starts| ensures starts[p] != starts[q] {
      assert ids[p] != ids[q];
    }
  }

  /** The start of the node with the given id. */
  ghost function StartOf(nodes: seq<SessionNode>, starts: seq<int>, id: int): int
    requires |starts| == |nodes| && id in IdsOf(nodes)
  {
    var p :| 0 <= p < |nodes| && IdsOf(nodes)[p] == id;
    starts[p]
  }

  lemma StartsAreChoice(nodes: seq<SessionNode>, starts: seq<int>, d: Domains)
    requires |starts| == |nodes| && NoDup(starts) && d.Keys == Elements(IdsOf(nodes))
    requires forall p :: 0 <= p < |starts| ==> nodes[p].sessionId in d && starts[p] in d[nodes[p].sessionId]
    ensures DistinctStartsExist(d)
  {
    var choice := map s | s in d.Keys :: StartOf(nodes, starts, s);
    forall s | s in d ensures exists p :: 0 <= p < |nodes| && nodes[p].sessionId == s && choice[s] == starts[p] {
      var p :| 0 <= p < |nodes| && IdsOf(nodes)[p] == s && StartOf(nodes, starts, s) == starts[p];
    }
    assert IsFullChoice(choice, d);
  }

  // ---------------------------------------------------------------- timetables, node by node

  /** s is a legal session of the candidate behind the node. */
  ghost predicate Fits(cs: seq<Candidate>, lookup: SlotLookup, s: SessionData, node: SessionNode) {
    Owned(cs, node) && CandidateOk(OwnerOf(cs, node)) && SessionOk(OwnerOf(cs, node), lookup, node.sessionIndex, s)
  }

  /** One legal session for each node of the graph. */
  ghost predicate Roster(cs: seq<Candidate>, lookup: SlotLookup, ss: seq<SessionData>) {
    |ss| == |AllNodes(cs)| && forall p :: 0 <= p < |ss| ==> Fits(cs, lookup, ss[p], AllNodes(cs)[p])
  }

  /** The sessions of a legal timetable are a roster. */
  lemma {:induction false} SessionsAreRoster(cs: seq<Candidate>, lookup: SlotLookup, ch: seq<GeneData>, n: nat)
    requires CandidatesOk(cs) && ChromosomeOk(cs, lookup, ch) && n <= |cs|
    ensures var ss, nodes := AllSessions(ch[..n], CandidateMap(cs)), AllNodes(cs[..n]);
      |ss| == |nodes| && forall p :: 0 <= p < |ss| ==> Fits(cs, lookup, ss[p], nodes[p])
  {
    hide CandidateOk, AllSessions, CandidateMap, Fits, GeneOk;
    if n == 0 {
      assert ch[..0] == [] && cs[..0] == [];
      NothingCounted(CandidateMap(cs));
    } else {
      SessionsAreRoster(cs, lookup, ch, n - 1);
      AllSessionsStep(ch, n - 1, CandidateMap(cs));
      AlignedSessions(cs, lookup, ch, n - 1);
      assert cs[..n][..n - 1] == cs[..n - 1];
      GeneFits(cs, lookup, ch[n - 1], n - 1);
    }
  }

  lemma GeneFits(cs: seq<Candidate>, lookup: SlotLookup, g: GeneData, i: nat)
    requires DistinctOfferings(cs) && i < |cs| && CandidateOk(cs[i]) && GeneOk(cs[i], lookup, g)
    ensures |g.sessions| == cs[i].parallelSessionCount
    ensures forall k :: 0 <= k < |g.sessions| ==>
      Fits(cs, lookup, g.sessions[k], NodesOf(cs[i], cs[i].parallelSessionCount)[k])
  {
    CandidateMapAt(cs, i);
    hide CandidateOk, SessionOk, CandidateMap, DistinctOfferings;
  }

  /** The timetable whose sessions, in node order, are ss. */
  ghost function TimetableOf(cs: seq<Candidate>, ss: seq<SessionData>): seq<GeneData>
    requires |ss| == |AllNodes(cs)|
  {
    if cs == [] then []
    else
      var c, m := cs[|cs| - 1], |AllNodes(cs[..|cs| - 1])|;
      TimetableOf(cs[..|cs| - 1], ss[..m]) + [GeneAt(c, ss[m..])]
  }

  function GeneAt(c: Candidate, ss: seq<SessionData>): GeneData {
    GeneData(if c.isFixedRoom then FIXED else FLEXIBLE, c.offeringId, ss)
  }

  /** The nodes and the gene that the n-th candidate adds. */
  lemma NextCandidate(cs: seq<Candidate>, ss: seq<SessionData>, n: nat)
    requires 0 < n <= |cs| && |ss| == |AllNodes(cs[..n])|
    ensures var front, c := cs[..n - 1], cs[n - 1];
      && AllNodes(cs[..n]) == AllNodes(front) + NodesOf(c, c.parallelSessionCount)
      && |AllNodes(front)| <= |ss|
      && TimetableOf(cs[..n], ss) == TimetableOf(front, ss[..|AllNodes(front)|]) + [GeneAt(c, ss[|AllNodes(front)|..])]
  {
    assert cs[..n][..n - 1] == cs[..n - 1];
  }

  lemma NoCandidate(cs: seq<Candidate>, ss: seq<SessionData>)
    requires |ss| == |AllNodes(cs[..0])|
    ensures ss == [] && TimetableOf(cs[..0], ss) == []
  {
  }

  /** For the first n candidates: the genes are legal and their sessions are the given ones. */
  lemma {:induction false} RosterIsTimetable(cs: seq<Candidate>, lookup: SlotLookup, ss: seq<SessionData>, n: nat)
    requires CandidatesOk(cs) && n <= |cs| && |ss| == |AllNodes(cs[..n])|
    requires forall p :: 0 <= p < |ss| ==> Fits(cs, lookup, ss[p], AllNodes(cs[..n])[p])
    ensures var ch := TimetableOf(cs[..n], ss);
      |ch| == n && (forall i :: 0 <= i < n ==> GeneOk(cs[i], lookup, ch[i])) && AllSessions(ch, CandidateMap(cs)) == ss
    decreases n
  {
    hide CandidateOk, AllSessions, CandidateMap, Fits, GeneOk, TimetableOf, AllNodes, NodesOf;
    if n == 0 {
      NoCandidate(cs, ss);
      NothingCounted(CandidateMap(cs));
    } else {
      NextCandidate(cs, ss, n);
      var front, c := cs[..n - 1], cs[n - 1];
      var own, m := NodesOf(c, c.parallelSessionCount), |AllNodes(front)|;
      var before, after := ss[..m], ss[m..];
      forall p | 0 <= p < m ensures Fits(cs, lookup, before[p], AllNodes(front)[p]) {
        assert AllNodes(cs[..n])[p] == AllNodes(front)[p];
      }
      RosterIsTimetable(cs, lookup, before, n - 1);
      forall k | 0 <= k < |after| ensures Fits(cs, lookup, after[k], own[k]) {
        assert after[k] == ss[m + k] && AllNodes(cs[..n])[m + k] == own[k];
      }
      NodeCount(c);
      FitsGene(cs, lookup, GeneAt(c, after), n - 1);
      GeneAdded(TimetableOf(front, before), GeneAt(c, after), CandidateMap(cs));
      assert ss == before + after;
    }
  }

  lemma NodeCount(c: Candidate)
    ensures |NodesOf(c, c.parallelSessionCount)| == c.parallelSessionCount
  {
  }

  lemma GeneAdded(ch: seq<GeneData>, g: GeneData, cm: map<int, Candidate>)
    requires g.offeringId in cm
    ensures AllSessions(ch + [g], cm) == AllSessions(ch, cm) + g.sessions
  {
    AllSessionsStep(ch + [g], |ch|, cm);
    assert (ch + [g])[..|ch|] == ch && (ch + [g])[..|ch| + 1] == ch + [g];
  }

  lemma FitsGene(cs: seq<Candidate>, lookup: SlotLookup, g: GeneData, i: nat)
    requires DistinctOfferings(cs) && i < |cs| && CandidateOk(cs[i])
    requires g.kind == (if cs[i].isFixedRoom then FIXED else FLEXIBLE) && g.offeringId == cs[i].offeringId
    requires |g.sessions| == cs[i].parallelSessionCount
    requires forall k :: 0 <= k < |g.sessions| ==>
      Fits(cs, lookup, g.sessions[k], NodesOf(cs[i], cs[i].parallelSessionCount)[k])
    ensures GeneOk(cs[i], lookup, g) && g.offeringId in CandidateMap(cs)
  {
    CandidateMapAt(cs, i);
    hide CandidateOk, SessionOk, CandidateMap, DistinctOfferings, Fits, NodesOf;
    var nodes := NodesOf(cs[i], cs[i].parallelSessionCount);
    forall k | 0 <= k < |g.sessions| ensures SessionOk(cs[i], lookup, k, g.sessions[k]) {
      assert Fits(cs, lookup, g.sessions[k], nodes[k]);
      NodeAt(cs[i], cs[i].parallelSessionCount, k);
      FitsNode(cs, lookup, g.sessions[k], cs[i], k);
    }
  }

  lemma NodeAt(c: Candidate, n: nat, k: nat)
    requires k < n
    ensures NodesOf(c, n)[k] == NodeOf(c, k)
  {
  }

  lemma FitsNode(cs: seq<Candidate>, lookup: SlotLookup, s: SessionData, c: Candidate, k: nat)
    requires Fits(cs, lookup, s, NodeOf(c, k)) && OwnerOf(cs, NodeOf(c, k)) == c
    ensures CandidateOk(c) && SessionOk(c, lookup, k, s)
  {
  }

  lemma RosterProper(cs: seq<Candidate>, lookup: SlotLookup, ss: seq<SessionData>)
    requires Roster(cs, lookup, ss)
    ensures AllProper(ss)
  {
    hide CandidateOk, SessionOk, AllNodes, CandidateMap, Proper;
    forall p | 0 <= p < |ss| ensures Proper(ss[p]) {
      var n := AllNodes(cs)[p];
      assert Fits(cs, lookup, ss[p], n);
      SessionIsProper(OwnerOf(cs, n), lookup, n.sessionIndex, ss[p]);
    }
  }

  /** A collision-free timetable exists if and only if the nodes have a roster of pairwise collision-free sessions. */
  lemma SchedulableIffRoster(cs: seq<Candidate>, lookup: SlotLookup)
    requires CandidatesOk(cs)
    ensures Schedulable(cs, lookup) <==> exists ss :: Roster(cs, lookup, ss) && PairwiseApart(ss)
  {
    hide AllNodes, AllSessions, CandidateMap, HardCount, PairwiseApart, Fits, GeneOk, AllProper, CandidateOk,
         TimetableOf;
    assert cs[..|cs|] == cs;
    if ch :| CollisionFree(cs, lookup, ch) {
      assert ch[..|cs|] == ch;
      SessionsAreRoster(cs, lookup, ch, |cs|);
      var ss := AllSessions(ch, CandidateMap(cs));
      assert Roster(cs, lookup, ss);
      RosterProper(cs, lookup, ss);
      HardCountZero(ss);
    }
    if ss :| Roster(cs, lookup, ss) && PairwiseApart(ss) {
      RosterIsTimetable(cs, lookup, ss, |cs|);
      RosterProper(cs, lookup, ss);
      HardCountZero(ss);
      assert CollisionFree(cs, lookup, TimetableOf(cs, ss));
    }
  }

  // ---------------------------------------------------------------- default rooms and lecturers

  function FirstRoom(c: Candidate): int
    requires c.roomId.None? ==> c.possibleRoomIds != []
  {
    if c.roomId.Some? then c.roomId.value else c.possibleRoomIds[0]
  }

  /** Legal slots with the first room and the seeded lecturers are a legal session. */
  lemma DefaultSession(c: Candidate, lookup: SlotLookup, k: nat, slots: seq<int>)
    requires CandidateOk(c) && SlotsOk(c, lookup, slots)
    ensures c.MultiSibling() ==> c.siblingLecturerGroups != []
    ensures SessionOk(c, lookup, k, SessionData(FirstRoom(c), slots, SeededLecturers(c, k)))
  {
    hide SlotsOk, LecturersOk;
    GroupsPresent(c);
    SeededLecturersOk(c, k);
  }

  /** Back-to-back slots that the finder returns are legal slots of a session. */
  lemma BlockIsLegal(c: Candidate, lookup: SlotLookup, b: seq<int>)
    requires LookupOk(lookup) && CandidateOk(c) && b in Blocks(c.possibleTimeSlotIds, c.sessionDuration, lookup)
    ensures SlotsOk(c, lookup, b)
  {
    BlockIsPick(b, c.possibleTimeSlotIds, c.sessionDuration, lookup);
  }

  /** A known allowed slot is a block of length one. */
  lemma UnitBlock(c: Candidate, lookup: SlotLookup, t: int)
    requires LookupOk(lookup) && c.sessionDuration == 1 && t in c.possibleTimeSlotIds && t in lookup
    ensures [t] in Blocks(c.possibleTimeSlotIds, c.sessionDuration, lookup)
  {
    var ids := c.possibleTimeSlotIds;
    BlocksExact(ids, 1, lookup);
    var w := DayKnows(ids, lookup, t);
    DayListed(ids, lookup, t);
    var s := DaySlots(ids, lookup, lookup[t].day);
    hide Blocks, DaySlots;
    assert Ids(s[w..w + 1]) == [t];
    assert IsWindow([t], ids, 1, lookup, lookup[t].day, w);
  }

  lemma CandidateMember(cs: seq<Candidate>, c: Candidate)
    requires CandidatesOk(cs) && c in cs
    ensures CandidateOk(c)
  {
    var i :| 0 <= i < |cs| && cs[i] == c;
  }

  /** The nodes of two candidates with one session each. */
  lemma PairNodes(a: Candidate, b: Candidate)
    requires a.offeringId != b.offeringId && a.parallelSessionCount == b.parallelSessionCount == 1
    ensures var cs, nodes := [a, b], AllNodes([a, b]);
      |nodes| == 2 && forall p :: 0 <= p < 2 ==> Owned(cs, nodes[p]) && OwnerOf(cs, nodes[p]) == cs[p]
  {
    var cs := [a, b];
    assert cs[..1] == [a] && [a][..0] == [];
    assert AllNodes([a]) == NodesOf(a, 1);
    assert AllNodes(cs) == NodesOf(a, 1) + NodesOf(b, 1);
    CandidateMapAt(cs, 0);
    CandidateMapAt(cs, 1);
    hide AllNodes, CandidateMap;
  }

  /** A known allowed slot with the given room and lecturers is a legal one-slot session. */
  lemma UnitSession(c: Candidate, lookup: SlotLookup, slot: int)
    requires LookupOk(lookup) && CandidateOk(c) && c.sessionDuration == 1 && !c.MultiSibling() && c.roomId.Some?
    requires slot in c.possibleTimeSlotIds && slot in lookup
    ensures SessionOk(c, lookup, 0, SessionData(c.roomId.value, [slot], c.lecturerIds))
  {
    UnitBlock(c, lookup, slot);
    BlockIsLegal(c, lookup, [slot]);
    hide SlotsOk, CandidateOk;
    DefaultSession(c, lookup, 0, [slot]);
  }
}
