/** Static structural analysis: exclusion of locked coordinates, graph construction, AC-3, matching. */
module Ssa {
  import opened Prelude
  import opened Candidates
  import opened Timetable
  import opened Bipartite
  import opened Ac3
  import opened HopcroftKarp

  // ---------------------------------------------------------------- phase 0: static exclusion

  function Fixed(cs: seq<Candidate>): seq<Candidate> {
    if cs == [] then [] else Fixed(cs[..|cs| - 1]) + if cs[|cs| - 1].isFixedRoom then [cs[|cs| - 1]] else []
  }

  function LockedCoordinates(cs: seq<Candidate>): set<(Option<int>, int)> {
    set c, s | c in cs && c.isFixedRoom && s in c.possibleTimeSlotIds :: (c.roomId, s)
  }

  function Unlocked(ids: seq<int>, room: Option<int>, locked: set<(Option<int>, int)>): (r: seq<int>)
    ensures forall s :: s in r <==> s in ids && (room, s) !in locked
  {
    if ids == [] then []
    else Unlocked(ids[..|ids| - 1], room, locked) + if (room, ids[|ids| - 1]) in locked then [] else [ids[|ids| - 1]]
  }

  /** A candidate as exclusion passes it on: a flexible one loses the locked slots of the room it names. */
  function AfterExclusion(c: Candidate, locked: set<(Option<int>, int)>): Candidate {
    if c.isFixedRoom then c else c.(possibleTimeSlotIds := Unlocked(c.possibleTimeSlotIds, c.roomId, locked))
  }

  function PrunedFlexible(cs: seq<Candidate>, locked: set<(Option<int>, int)>): seq<Candidate> {
    if cs == [] then []
    else
      var c := cs[|cs| - 1];
      PrunedFlexible(cs[..|cs| - 1], locked) +
      if c.isFixedRoom then [] else [AfterExclusion(c, locked)]
  }

  /** prunedCandidates: the fixed ones first, then the flexible ones without the locked slots of their room. */
  function RunStaticExclusion(cs: seq<Candidate>): seq<Candidate> {
    Fixed(cs) + PrunedFlexible(cs, LockedCoordinates(cs))
  }

  // ---------------------------------------------------------------- phase 1: the graph

  function SessionId(offeringId: int, sessionIndex: int): int { offeringId * 100 + sessionIndex }

  /** Math.floor(sessionId / 100) */
  function OfferingOf(sessionId: int): int { sessionId / 100 }

  function LecturersForSSA(c: Candidate): seq<int> {
    if c.MultiSibling() then c.lecturerPool else c.lecturerIds
  }

  function NodeOf(c: Candidate, i: int): SessionNode {
    SessionNode(SessionId(c.offeringId, i), c.offeringId, i, c.roomId, LecturersForSSA(c))
  }

  function NodesOf(c: Candidate, n: nat): seq<SessionNode> {
    seq(n, i => NodeOf(c, i))
  }

  function AllNodes(cs: seq<Candidate>): seq<SessionNode> {
    if cs == [] then []
    else AllNodes(cs[..|cs| - 1]) + NodesOf(cs[|cs| - 1], cs[|cs| - 1].parallelSessionCount)
  }

  /** The first slot of every contiguous block, or every allowed slot when there is no block or no lookup. */
  ghost function BlockStarts(c: Candidate, lookup: Option<SlotLookup>): set<int> {
    if lookup.None? || Blocks(c.possibleTimeSlotIds, c.sessionDuration, lookup.value) == []
    then Elements(c.possibleTimeSlotIds)
    else set b | b in Blocks(c.possibleTimeSlotIds, c.sessionDuration, lookup.value) && b != [] :: b[0]
  }

  ghost predicate Degraded(c: Candidate, lookup: Option<SlotLookup>) {
    lookup.Some? && Blocks(c.possibleTimeSlotIds, c.sessionDuration, lookup.value) == [] && c.possibleTimeSlotIds != []
  }

  ghost function DomainsOfOne(c: Candidate, n: nat, lookup: Option<SlotLookup>): Domains {
    map i | 0 <= i < n :: SessionId(c.offeringId, i) := BlockStarts(c, lookup)
  }

  /** Every session of a candidate may start where the candidate's blocks start. */
  ghost function DomainsOf(cs: seq<Candidate>, lookup: Option<SlotLookup>): Domains {
    if cs == [] then map[]
    else DomainsOf(cs[..|cs| - 1], lookup) + DomainsOfOne(cs[|cs| - 1], cs[|cs| - 1].parallelSessionCount, lookup)
  }

  /** What the id scheme and the sentinels need of the candidates. */
  ghost predicate SsaInput(cs: seq<Candidate>) {
    && DistinctOfferings(cs)
    && (forall c :: c in cs ==>
          && c.offeringId >= 0 && c.parallelSessionCount <= 100
          && (forall s :: s in c.possibleTimeSlotIds ==> s >= 0)
          && NoDup(c.lecturerIds) && NoDup(c.lecturerPool))
  }

  method ComputeBlockStarts(c: Candidate, lookup: Option<SlotLookup>) returns (blockStarts: seq<int>, degraded: bool)
    requires lookup.Some? ==> LookupOk(lookup.value)
    ensures Elements(blockStarts) == BlockStarts(c, lookup)
    ensures degraded <==> Degraded(c, lookup)
  {
    hide *;
    NoBlockStarts(c, lookup);
    if lookup.None? { return c.possibleTimeSlotIds, false; }
    var blocks := FindContiguousSlots(c.possibleTimeSlotIds, c.sessionDuration, lookup.value);
    if |blocks| == 0 {
      return c.possibleTimeSlotIds, |c.possibleTimeSlotIds| > 0;
    }
    blockStarts, degraded := [], false;
    BlocksHaveLength(c.possibleTimeSlotIds, c.sessionDuration, lookup.value);
    BlockStartsAre(c, lookup);
    for i := 0 to |blocks|
      invariant forall b :: b in blocks ==> b != []
      invariant |blockStarts| == i && forall k :: 0 <= k < i ==> blockStarts[k] == blocks[k][0]
    {
      assert blocks[i] in blocks;
      blockStarts := blockStarts + [blocks[i][0]];
    }
    assert forall k :: 0 <= k < |blocks| ==> blocks[k] in blocks;
    FirstSlots(blocks, blockStarts, BlockStarts(c, lookup));
  }

  lemma NoBlockStarts(c: Candidate, lookup: Option<SlotLookup>)
    ensures lookup.None? ==> BlockStarts(c, lookup) == Elements(c.possibleTimeSlotIds) && !Degraded(c, lookup)
    ensures lookup.Some? && Blocks(c.possibleTimeSlotIds, c.sessionDuration, lookup.value) == [] ==>
      BlockStarts(c, lookup) == Elements(c.possibleTimeSlotIds) &&
        (Degraded(c, lookup) <==> |c.possibleTimeSlotIds| > 0)
  {
    hide Blocks;
  }

  lemma BlockStartsAre(c: Candidate, lookup: Option<SlotLookup>)
    requires lookup.Some? && Blocks(c.possibleTimeSlotIds, c.sessionDuration, lookup.value) != []
    ensures !Degraded(c, lookup)
    ensures forall b :: b in Blocks(c.possibleTimeSlotIds, c.sessionDuration, lookup.value) ==> b != []
    ensures forall s :: s in BlockStarts(c, lookup) <==>
      exists b :: b in Blocks(c.possibleTimeSlotIds, c.sessionDuration, lookup.value) && b != [] && b[0] == s
  {
    BlocksHaveLength(c.possibleTimeSlotIds, c.sessionDuration, lookup.value);
    hide Blocks;
  }

  lemma FirstSlots(blocks: seq<seq<int>>, firsts: seq<int>, starts: set<int>)
    requires |firsts| == |blocks| && (forall b :: b in blocks ==> b != []) &&
      forall k :: 0 <= k < |blocks| ==> blocks[k] != []
    requires forall k :: 0 <= k < |firsts| ==> firsts[k] == blocks[k][0]
    requires forall s :: s in starts <==> exists b :: b in blocks && b != [] && b[0] == s
    ensures Elements(firsts) == starts
  {
    forall s | s in starts ensures s in firsts {
      var b :| b in blocks && b != [] && b[0] == s;
      var k :| 0 <= k < |blocks| && blocks[k] == b;
      assert firsts[k] == s;
    }
    forall s | s in firsts ensures s in starts {
      var k :| 0 <= k < |firsts| && firsts[k] == s;
      assert blocks[k] in blocks;
    }
  }

  lemma BlocksHaveLength(ids: seq<int>, d: int, lookup: SlotLookup)
    ensures forall i :: 0 <= i < |Blocks(ids, d, lookup)| ==> |Blocks(ids, d, lookup)[i]| == d > 0
  {
    BlocksExact(ids, d, lookup);
    forall i | 0 <= i < |Blocks(ids, d, lookup)| ensures |Blocks(ids, d, lookup)[i]| == d > 0 {
      var b := Blocks(ids, d, lookup)[i];
      assert b in Blocks(ids, d, lookup);
      var day, w :| IsWindow(b, ids, d, lookup, day, w);
    }
  }

  lemma DomainsStart(c: Candidate, lookup: Option<SlotLookup>, domains: Domains)
    ensures domains + DomainsOfOne(c, 0, lookup) == domains
  {
    assert DomainsOfOne(c, 0, lookup) == map[];
  }

  lemma DomainsStep(c: Candidate, i: nat, lookup: Option<SlotLookup>, domains: Domains)
    ensures domains + DomainsOfOne(c, i + 1, lookup)
         == (domains + DomainsOfOne(c, i, lookup))[SessionId(c.offeringId, i) := BlockStarts(c, lookup)]
  {
    hide BlockStarts;
    assert DomainsOfOne(c, i + 1, lookup) ==
      DomainsOfOne(c, i, lookup)[SessionId(c.offeringId, i) := BlockStarts(c, lookup)];
  }

  /** The inner loop: one node and one domain for each parallel session of a candidate. */
  method AddSessions(c: Candidate, blockStarts: seq<int>, nodes: seq<SessionNode>, domains: Domains, slots: set<int>,
                     ghost lookup: Option<SlotLookup>)
    returns (sessions: seq<SessionNode>, adjacency: Domains, slotIdSet: set<int>)
    requires Elements(blockStarts) == BlockStarts(c, lookup)
    ensures sessions == nodes + NodesOf(c, c.parallelSessionCount)
    ensures adjacency == domains + DomainsOfOne(c, c.parallelSessionCount, lookup)
    ensures slotIdSet == slots + if c.parallelSessionCount > 0 then BlockStarts(c, lookup) else {}
  {
    hide BlockStarts, NodeOf, DomainsOfOne;
    sessions, adjacency, slotIdSet := nodes, domains, slots;
    assert domains + DomainsOfOne(c, 0, lookup) == domains by { DomainsStart(c, lookup, domains); }
    for i := 0 to c.parallelSessionCount
      invariant sessions == nodes + NodesOf(c, i)
      invariant adjacency == domains + DomainsOfOne(c, i, lookup)
      invariant slotIdSet == slots + if i > 0 then BlockStarts(c, lookup) else {}
    {
      var sessionId := SessionId(c.offeringId, i);
      assert NodesOf(c, i + 1) == NodesOf(c, i) + [NodeOf(c, i)];
      sessions := sessions + [NodeOf(c, i)];
      adjacency := adjacency[sessionId := set s | s in blockStarts];
      slotIdSet := slotIdSet + set s | s in blockStarts;
      DomainsStep(c, i, lookup, domains);
    }
  }

  ghost predicate DegradedAmong(cs: seq<Candidate>, lookup: Option<SlotLookup>, offeringId: int) {
    exists c :: c in cs && c.offeringId == offeringId && Degraded(c, lookup)
  }

  /** Some session may start at the slot. */
  ghost predicate StartAmong(cs: seq<Candidate>, lookup: Option<SlotLookup>, slot: int) {
    exists c :: c in cs && c.parallelSessionCount > 0 && slot in BlockStarts(c, lookup)
  }

  method BuildBipartiteGraph(cs: seq<Candidate>, allTimeSlots: Option<seq<TimeSlot>>) returns (g: BipartiteGraph)
    ensures fresh(g)
    ensures g.sessions == AllNodes(cs)
    ensures PoolsComplete(cs) ==> ListsSessions(g.sessions, cs)
    ensures g.adjacency == DomainsOf(cs, LookupFor(allTimeSlots))
    ensures forall o :: o in g.degradedOfferings <==> DegradedAmong(cs, LookupFor(allTimeSlots), o)
    ensures forall t :: t in g.slots <==> StartAmong(cs, LookupFor(allTimeSlots), t)
  {
    hide BlockStarts, NodesOf, DomainsOfOne, Degraded, Elements, PoolsComplete, ListsSessions;
    var lookup := LookupFor(allTimeSlots);
    var sessions: seq<SessionNode>, adjacency: Domains := [], map[];
    var degradedOfferings: set<int>, slotIdSet: set<int> := {}, {};
    for k := 0 to |cs|
      invariant sessions == AllNodes(cs[..k])
      invariant adjacency == DomainsOf(cs[..k], lookup)
      invariant forall o :: o in degradedOfferings <==> DegradedAmong(cs[..k], lookup, o)
      invariant forall t :: t in slotIdSet <==> StartAmong(cs[..k], lookup, t)
    {
      assert cs[..k + 1][..k] == cs[..k] && cs[..k + 1] == cs[..k] + [cs[k]];
      var blockStarts, degraded := ComputeBlockStarts(cs[k], lookup);
      if degraded { degradedOfferings := degradedOfferings + {cs[k].offeringId}; }
      sessions, adjacency, slotIdSet := AddSessions(cs[k], blockStarts, sessions, adjacency, slotIdSet, lookup);
    }
    assert cs[..|cs|] == cs;
    if PoolsComplete(cs) { NodesList(cs); }
    g := new BipartiteGraph(sessions, slotIdSet, adjacency, degradedOfferings);
  }

  function LookupFor(allTimeSlots: Option<seq<TimeSlot>>): (r: Option<SlotLookup>)
    ensures r.Some? ==> LookupOk(r.value)
  {
    if allTimeSlots.None? then None else Some(BuildSlotLookup(allTimeSlots.value))
  }

  // ---------------------------------------------------------------- the id scheme

  lemma OfferingOfSessionId(o: int, i: int)
    requires 0 <= i < 100
    ensures OfferingOf(SessionId(o, i)) == o
    ensures SessionId(o, i) - OfferingOf(SessionId(o, i)) * 100 == i
  {
  }

  /** With 101 sessions the scheme already collides with the next offering. */
  lemma SessionIdCollision(o: int)
    ensures SessionId(o, 100) == SessionId(o + 1, 0)
    ensures OfferingOf(SessionId(o, 100)) != o
  {
  }

  // ---------------------------------------------------------------- facts about exclusion

  ghost predicate SameButSlots(p: Candidate, c: Candidate) {
    p == c.(possibleTimeSlotIds := p.possibleTimeSlotIds) &&
    forall s :: s in p.possibleTimeSlotIds ==> s in c.possibleTimeSlotIds
  }

  /** part is made of pruned copies of the members of cs whose room is fixed (or is not), each at most once. */
  ghost predicate PrunedFrom(part: seq<Candidate>, cs: seq<Candidate>, fixed: bool) {
    && DistinctOfferings(part)
    && forall p :: p in part ==> exists c :: c in cs && c.isFixedRoom == fixed && SameButSlots(p, c)
  }

  lemma {:induction false} ExclusionParts(cs: seq<Candidate>, locked: set<(Option<int>, int)>)
    requires DistinctOfferings(cs)
    ensures PrunedFrom(Fixed(cs), cs, true) && PrunedFrom(PrunedFlexible(cs, locked), cs, false)
    ensures TotalSessions(Fixed(cs)) + TotalSessions(PrunedFlexible(cs, locked)) == TotalSessions(cs)
  {
    if cs != [] {
      var front, c := cs[..|cs| - 1], cs[|cs| - 1];
      assert cs == front + [c];
      ExclusionParts(front, locked);
      var p := AfterExclusion(c, locked);
      assert SameButSlots(p, c);
      PartGrows(Fixed(front), front, c, p, true);
      PartGrows(PrunedFlexible(front, locked), front, c, p, false);
      assert Fixed(cs) == if c.isFixedRoom then Fixed(front) + [c] else Fixed(front);
      assert PrunedFlexible(cs, locked)
          == if c.isFixedRoom then PrunedFlexible(front, locked) else PrunedFlexible(front, locked) + [p];
      TotalOfConcat(Fixed(front), [c]);
      TotalOfConcat(PrunedFlexible(front, locked), [p]);
      TotalOfOne(c);
      TotalOfOne(p);
    }
  }

  lemma PartGrows(part: seq<Candidate>, front: seq<Candidate>, c: Candidate, p: Candidate, fixed: bool)
    requires PrunedFrom(part, front, fixed) && DistinctOfferings(front + [c]) && SameButSlots(p, c)
    ensures PrunedFrom(part, front + [c], fixed)
    ensures c.isFixedRoom == fixed ==> PrunedFrom(part + [p], front + [c], fixed)
  {
    var cs := front + [c];
    assert forall x :: x in front ==> x in cs;
    assert c in cs;
    forall i | 0 <= i < |part| ensures part[i].offeringId != p.offeringId {
      assert part[i] in part;
      var x :| x in front && x.isFixedRoom == fixed && SameButSlots(part[i], x);
      var k :| 0 <= k < |front| && front[k] == x;
      assert cs[k] == x && cs[|front|] == c;
    }
  }

  lemma TotalOfOne(c: Candidate)
    ensures TotalSessions([c]) == c.parallelSessionCount
  {
    assert [c][..0] == [];
  }

  lemma {:induction false} TotalOfConcat(a: seq<Candidate>, b: seq<Candidate>)
    ensures TotalSessions(a + b) == TotalSessions(a) + TotalSessions(b)
  {
    if b == [] { assert a + b == a; }
    else {
      assert (a + b)[..|a + b| - 1] == a + b[..|b| - 1];
      TotalOfConcat(a, b[..|b| - 1]);
    }
  }

  /** Exclusion drops no session, merges no offering and only removes slots. */
  lemma ExclusionKeepsInput(cs: seq<Candidate>)
    requires SsaInput(cs)
    ensures SsaInput(RunStaticExclusion(cs))
    ensures TotalSessions(RunStaticExclusion(cs)) == TotalSessions(cs)
  {
    var locked := LockedCoordinates(cs);
    var a, b := Fixed(cs), PrunedFlexible(cs, locked);
    ExclusionParts(cs, locked);
    TotalOfConcat(a, b);
    forall i, j | 0 <= i < |a| && 0 <= j < |b| ensures a[i].offeringId != b[j].offeringId {
      assert a[i] in a && b[j] in b;
      var x :| x in cs && x.isFixedRoom && SameButSlots(a[i], x);
      var y :| y in cs && !y.isFixedRoom && SameButSlots(b[j], y);
    }
  }

  lemma {:induction false} ExclusionMembers(cs: seq<Candidate>, locked: set<(Option<int>, int)>)
    ensures forall p :: p in Fixed(cs) <==> p in cs && p.isFixedRoom
    ensures forall p :: p in PrunedFlexible(cs, locked) <==>
      exists c :: c in cs && !c.isFixedRoom && p == AfterExclusion(c, locked)
  {
    if cs != [] {
      ExclusionMembers(cs[..|cs| - 1], locked);
      assert cs == cs[..|cs| - 1] + [cs[|cs| - 1]];
      hide AfterExclusion;
    }
  }

  /** Slot s of the flexible candidate c is locked by a fixed candidate of the room that c names. */
  ghost predicate LockedFor(cs: seq<Candidate>, c: Candidate, s: int) {
    !c.isFixedRoom && exists f :: f in cs && f.isFixedRoom && f.roomId == c.roomId && s in f.possibleTimeSlotIds
  }

  lemma {:induction false} NothingLocked(ids: seq<int>, room: Option<int>, locked: set<(Option<int>, int)>)
    requires forall i :: 0 <= i < |ids| ==> (room, ids[i]) !in locked
    ensures Unlocked(ids, room, locked) == ids
  {
    if ids != [] {
      assert ids == ids[..|ids| - 1] + [ids[|ids| - 1]];
      NothingLocked(ids[..|ids| - 1], room, locked);
    }
  }

  /** Exclusion passes on every candidate, and takes from each exactly the slots locked for it. */
  lemma ExclusionExact(cs: seq<Candidate>)
    ensures forall p :: p in RunStaticExclusion(cs) <==>
      exists c :: c in cs && p == AfterExclusion(c, LockedCoordinates(cs))
    ensures forall c, s :: c in cs ==>
      (s in AfterExclusion(c, LockedCoordinates(cs)).possibleTimeSlotIds <==>
        s in c.possibleTimeSlotIds && !LockedFor(cs, c, s))
    ensures forall c :: c in cs ==> SameButSlots(AfterExclusion(c, LockedCoordinates(cs)), c)
  {
    var locked := LockedCoordinates(cs);
    ExclusionMembers(cs, locked);
    forall c, s | c in cs
      ensures s in AfterExclusion(c, locked).possibleTimeSlotIds <==>
        s in c.possibleTimeSlotIds && !LockedFor(cs, c, s) {
      assert (c.roomId, s) in locked <==>
        exists f :: f in cs && f.isFixedRoom && f.roomId == c.roomId && s in f.possibleTimeSlotIds;
    }
    hide Fixed, PrunedFlexible;
    forall p ensures p in RunStaticExclusion(cs) <==> exists c :: c in cs && p == AfterExclusion(c, locked) {
      if p in Fixed(cs) { assert p == AfterExclusion(p, locked); }
      if c :| c in cs && p == AfterExclusion(c, locked) && c.isFixedRoom { assert p == c; }
    }
  }

  // ---------------------------------------------------------------- facts about the graph

  lemma {:induction false} NodesListed(cs: seq<Candidate>)
    ensures forall n :: n in AllNodes(cs) <==>
      exists c, i :: c in cs && 0 <= i < c.parallelSessionCount && n == NodeOf(c, i)
    ensures |AllNodes(cs)| == TotalSessions(cs)
  {
    if cs != [] {
      var front, c := cs[..|cs| - 1], cs[|cs| - 1];
      NodesListed(front);
      assert cs == front + [c];
      var ns := NodesOf(c, c.parallelSessionCount);
      forall n | n in ns ensures exists i :: 0 <= i < c.parallelSessionCount && n == NodeOf(c, i) {
        var i :| 0 <= i < |ns| && ns[i] == n;
      }
      forall i | 0 <= i < c.parallelSessionCount ensures NodeOf(c, i) in ns {
        assert ns[i] == NodeOf(c, i);
      }
    }
  }

  lemma BlockStartsAllowed(c: Candidate, lookup: Option<SlotLookup>)
    requires lookup.Some? ==> LookupOk(lookup.value)
    ensures BlockStarts(c, lookup) <= Elements(c.possibleTimeSlotIds)
  {
    if lookup.Some? {
      var ids, d, l := c.possibleTimeSlotIds, c.sessionDuration, lookup.value;
      BlocksExact(ids, d, l);
      forall b | b in Blocks(ids, d, l) && b != [] ensures b[0] in ids {
        var day, w :| IsWindow(b, ids, d, l, day, w);
        DaySlotsFacts(ids, l, day);
        assert DaySlots(ids, l, day)[w] in DaySlots(ids, l, day);
      }
    }
  }

  lemma {:induction false} DomainsListed(cs: seq<Candidate>, lookup: Option<SlotLookup>)
    ensures forall s :: s in DomainsOf(cs, lookup) <==>
      exists c, i :: c in cs && 0 <= i < c.parallelSessionCount && s == SessionId(c.offeringId, i)
    ensures forall s :: s in DomainsOf(cs, lookup) ==>
      exists c, i :: c in cs && 0 <= i < c.parallelSessionCount && s == SessionId(c.offeringId, i) &&
                     DomainsOf(cs, lookup)[s] == BlockStarts(c, lookup)
  {
    hide BlockStarts;
    if cs != [] {
      var front, c := cs[..|cs| - 1], cs[|cs| - 1];
      DomainsListed(front, lookup);
      assert cs == front + [c];
    }
  }

  /** Where the domain of a session comes from. */
  lemma DomainOfSession(cs: seq<Candidate>, lookup: Option<SlotLookup>, i: nat, k: nat)
    requires SsaInput(cs) && i < |cs| && k < cs[i].parallelSessionCount
    ensures var s := SessionId(cs[i].offeringId, k);
      s in DomainsOf(cs, lookup) && DomainsOf(cs, lookup)[s] == BlockStarts(cs[i], lookup)
  {
    hide BlockStarts;
    DomainsListed(cs, lookup);
    var s := SessionId(cs[i].offeringId, k);
    assert cs[i] in cs;
    assert s in DomainsOf(cs, lookup);
    var c, k' :| c in cs && 0 <= k' < c.parallelSessionCount && s == SessionId(c.offeringId, k') &&
                 DomainsOf(cs, lookup)[s] == BlockStarts(c, lookup);
    OfferingOfSessionId(c.offeringId, k');
    OfferingOfSessionId(cs[i].offeringId, k);
    var j :| 0 <= j < |cs| && cs[j] == c;
  }

  lemma {:induction false} NodeIdsDistinct(cs: seq<Candidate>)
    requires SsaInput(cs)
    ensures NoDup(IdsOf(AllNodes(cs)))
  {
    if cs != [] {
      var front, c := cs[..|cs| - 1], cs[|cs| - 1];
      assert cs == front + [c];
      NodeIdsDistinct(front);
      NodesListed(front);
      var a, b := AllNodes(front), NodesOf(c, c.parallelSessionCount);
      forall i, j | 0 <= i < |a| && 0 <= j < |b| ensures a[i].sessionId != b[j].sessionId {
        assert a[i] in a;
        var c', i' :| c' in front && 0 <= i' < c'.parallelSessionCount && a[i] == NodeOf(c', i');
        OfferingOfSessionId(c'.offeringId, i');
        OfferingOfSessionId(c.offeringId, j);
      }
      forall i, j | 0 <= i < j < |a + b| ensures (a + b)[i].sessionId != (a + b)[j].sessionId {
        if j < |a| { assert IdsOf(a)[i] != IdsOf(a)[j]; }
      }
    }
  }

  lemma GraphIsOk(cs: seq<Candidate>, lookup: Option<SlotLookup>)
    requires SsaInput(cs) && (lookup.Some? ==> LookupOk(lookup.value))
    ensures GraphOk(AllNodes(cs), DomainsOf(cs, lookup))
    ensures |DomainsOf(cs, lookup)| == TotalSessions(cs)
  {
    var nodes, d := AllNodes(cs), DomainsOf(cs, lookup);
    NodesListed(cs);
    DomainsListed(cs, lookup);
    NodeIdsDistinct(cs);
    KeysAreIds(cs, lookup);
    NodesPlain(cs);
    StartsNotNegative(cs, lookup);
    NoDupSize(IdsOf(nodes));
    hide AllNodes, DomainsOf, SsaInput, LookupOk, NoDup, SessionId;
    assert |d.Keys| == |d|;
  }

  lemma NodesPlain(cs: seq<Candidate>)
    requires SsaInput(cs)
    ensures forall i :: 0 <= i < |AllNodes(cs)| ==> AllNodes(cs)[i].sessionId >= 0 && NoDup(AllNodes(cs)[i].lecturerIds)
  {
    NodesListed(cs);
    hide AllNodes, NoDup;
    var nodes := AllNodes(cs);
    forall i | 0 <= i < |nodes| ensures nodes[i].sessionId >= 0 && NoDup(nodes[i].lecturerIds) {
      assert nodes[i] in nodes;
    }
  }

  lemma StartsNotNegative(cs: seq<Candidate>, lookup: Option<SlotLookup>)
    requires SsaInput(cs) && (lookup.Some? ==> LookupOk(lookup.value))
    ensures forall s, t :: s in DomainsOf(cs, lookup) && t in DomainsOf(cs, lookup)[s] ==> t >= 0
  {
    var d := DomainsOf(cs, lookup);
    DomainsListed(cs, lookup);
    hide DomainsOf, BlockStarts, NoDup, SessionId;
    forall s, t | s in d && t in d[s] ensures t >= 0 {
      var c, i :| c in cs && 0 <= i < c.parallelSessionCount && s == SessionId(c.offeringId, i) &&
        d[s] == BlockStarts(c, lookup);
      BlockStartsAllowed(c, lookup);
    }
  }

  lemma KeysAreIds(cs: seq<Candidate>, lookup: Option<SlotLookup>)
    ensures DomainsOf(cs, lookup).Keys == Elements(IdsOf(AllNodes(cs)))
  {
    var nodes := AllNodes(cs);
    NodesListed(cs);
    DomainsListed(cs, lookup);
    forall s | s in DomainsOf(cs, lookup) ensures s in IdsOf(nodes) {
      var c, i :| c in cs && 0 <= i < c.parallelSessionCount && s == SessionId(c.offeringId, i);
      NodeIdListed(nodes, NodeOf(c, i));
    }
    forall k | 0 <= k < |nodes| ensures IdsOf(nodes)[k] in DomainsOf(cs, lookup) {
      assert nodes[k] in nodes;
    }
  }

  // ---------------------------------------------------------------- the verdict

  datatype DeadlockCode = AC3_DOMAIN_EMPTY | BIPARTITE_MATCHING_INSUFFICIENT

  datatype DeadlockReport = DeadlockReport(code: DeadlockCode, affectedOfferingIds: set<int>)

  /** deadlockReport is None exactly in a FEASIBLE result. */
  datatype SSAResult = SSAResult(
    totalSessionsRequired: nat,
    maximumAchievableMatching: nat,
    degradedOfferings: set<int>,
    deadlockReport: Option<DeadlockReport>)
  {
    predicate Feasible() { deadlockReport.None? }

    predicate StoppedByAc3() { deadlockReport.Some? && deadlockReport.value.code.AC3_DOMAIN_EMPTY? }
  }

  /** The question the analysis decides: can every session get its own block start? */
  ghost predicate DistinctStartsExist(d: Domains) {
    exists choice :: IsFullChoice(choice, d)
  }

  ghost predicate IsMaximumSize(n: nat, d: Domains) {
    && (exists m :: IsMatching(m, d) && |m| == n)
    && (forall m :: IsMatching(m, d) ==> |m| <= n)
  }

  /** offerings are those of the sessions that a matching of size n leaves without a slot. */
  ghost predicate LeftOverBy(offerings: set<int>, n: nat, d: Domains) {
    exists m :: IsMatching(m, d) && |m| == n && offerings == OfferingsOf(d.Keys - m.Keys)
  }

  function OfferingsOf(sessions: set<int>): set<int> {
    set s | s in sessions :: OfferingOf(s)
  }

  /** The one offering named has a session with a start to lose; id 0 is left out of the report. */
  ghost predicate NamesEmptied(offerings: set<int>, d: Domains) {
    exists s :: s in d && d[s] != {} && offerings == if OfferingOf(s) != 0 then {OfferingOf(s)} else {}
  }

  lemma NodeOffering(cs: seq<Candidate>, n: SessionNode)
    requires SsaInput(cs) && n in AllNodes(cs)
    ensures OfferingOf(n.sessionId) == n.offeringId
  {
    NodesListed(cs);
    hide AllNodes;
    var c, i :| c in cs && 0 <= i < c.parallelSessionCount && n == NodeOf(c, i);
    OfferingOfSessionId(c.offeringId, i);
  }

  lemma Emptied(cs: seq<Candidate>, d: Domains, s: int, o: int)
    requires SsaInput(cs) && s in d && d[s] != {}
    requires exists n :: n in AllNodes(cs) && n.sessionId == s && n.offeringId == o
    ensures NamesEmptied(if o != 0 then {o} else {}, d)
  {
    var n :| n in AllNodes(cs) && n.sessionId == s && n.offeringId == o;
    NodeOffering(cs, n);
    hide OfferingOf;
  }

  lemma NoSupportNoChoice(nodes: seq<SessionNode>, d: Domains)
    requires !exists e :: Supported(nodes, e, d)
    ensures !DistinctStartsExist(d)
    ensures !exists a :: Respects(nodes, a, d)
  {
    forall a | Respects(nodes, a, d) ensures false {
      RespectingIsSupported(nodes, a, d);
    }
    forall c | IsFullChoice(c, d) ensures false {
      FullChoiceRespects(nodes, c, d);
    }
  }

  lemma InsideMatching(m: map<int, int>, d: Domains, d0: Domains)
    requires IsMatching(m, d) && Inside(d, d0)
    ensures IsMatching(m, d0)
  {
  }

  /** A matching of the pruned graph that is maximum there is maximum in the unpruned graph. */
  lemma PruningKeepsMaximum(d0: Domains, d: Domains, best: map<int, int>)
    requires Inside(d, d0)
    requires forall m :: IsMatching(m, d0) ==> SameSizeMatching(m, d)
    requires IsMatching(best, d) && forall m :: IsMatching(m, d) ==> |m| <= |best|
    ensures IsMatching(best, d0) && IsMaximumSize(|best|, d0)
    ensures |best| >= |d0| <==> DistinctStartsExist(d0)
  {
    InsideMatching(best, d, d0);
    forall m | IsMatching(m, d0) ensures |m| <= |best| {
      var m' :| IsMatching(m', d) && |m'| == |m|;
    }
    MatchingSize(best, d0);
    assert |best| >= |d0| ==> IsFullChoice(best, d0);
    if c :| IsFullChoice(c, d0) { MatchingSize(c, d0); }
  }

  // ---------------------------------------------------------------- the constraints, read off the candidates

  /** For a single offering the pool lists the offering's own lecturers. */
  ghost predicate PoolsComplete(cs: seq<Candidate>) {
    forall c :: c in cs && |c.siblingOfferingIds| <= 1 ==> forall l :: l in c.lecturerPool <==> l in c.lecturerIds
  }

  /** Session i of candidate a and session j of candidate b must start apart: their candidates name one room, or they
      are of different offerings and some lecturer is in both pools. */
  ghost predicate CompeteFor(a: Candidate, b: Candidate) {
    (a.roomId.Some? && a.roomId == b.roomId) ||
    (a.offeringId != b.offeringId && exists l :: l in a.lecturerPool && l in b.lecturerPool)
  }

  /** x is the id of session i of c. */
  predicate IsSession(c: Candidate, i: int, x: int) {
    0 <= i < c.parallelSessionCount && x == c.offeringId * 100 + i
  }

  /** n stands for session i of c, in the candidate's room and with its whole pool. */
  ghost predicate StandsFor(n: SessionNode, c: Candidate, i: int) {
    && IsSession(c, i, n.sessionId) && n.offeringId == c.offeringId && n.sessionIndex == i && n.roomId == c.roomId
    && forall l :: l in n.lecturerIds <==> l in c.lecturerPool
  }

  /** One node for each session of each candidate. */
  ghost predicate ListsSessions(nodes: seq<SessionNode>, cs: seq<Candidate>) {
    && (forall n :: n in nodes ==> exists c, i :: c in cs && StandsFor(n, c, i))
    && (forall c, i, x :: c in cs && IsSession(c, i, x) ==> exists n :: n in nodes && StandsFor(n, c, i))
    && |nodes| == TotalSessions(cs)
  }

  /** x and y are the ids of two different sessions that must start apart. */
  ghost predicate MustDiffer(cs: seq<Candidate>, x: int, y: int) {
    x != y && exists a, i, b, j ::
      a in cs && IsSession(a, i, x) && b in cs && IsSession(b, j, y) && CompeteFor(a, b)
  }

  /** Some choice from the domains d leaves every session that had a start one, such that no session's only start is
      offered to a session that must start apart from it. */
  ghost predicate SomeConsistentChoice(cs: seq<Candidate>, d: Domains) {
    exists e: Domains :: ConsistentChoice(cs, e, d)
  }

  ghost predicate ConsistentChoice(cs: seq<Candidate>, e: Domains, d: Domains) {
    && e.Keys == d.Keys
    && (forall s :: s in d ==> e[s] <= d[s] && (d[s] != {} ==> e[s] != {}))
    && (forall x, y :: MustDiffer(cs, x, y) && x in e && y in e ==> forall v :: e[y] == {v} ==> v !in e[x])
  }

  /** Whom a node lists: the pool of its candidate. */
  lemma NodeLecturers(cs: seq<Candidate>, c: Candidate, i: int)
    requires PoolsComplete(cs) && c in cs
    ensures forall l :: l in NodeOf(c, i).lecturerIds <==> l in c.lecturerPool
  {
  }

  lemma NodesList(cs: seq<Candidate>)
    requires PoolsComplete(cs)
    ensures ListsSessions(AllNodes(cs), cs)
  {
    NodesListed(cs);
    hide AllNodes, PoolsComplete, LecturersForSSA;
    forall c, i | c in cs && 0 <= i < c.parallelSessionCount
      ensures NodeOf(c, i) in AllNodes(cs) && StandsFor(NodeOf(c, i), c, i) {
      NodeLecturers(cs, c, i);
    }
    forall c, i, x | c in cs && IsSession(c, i, x) ensures exists n :: n in AllNodes(cs) && StandsFor(n, c, i) {
      assert NodeOf(c, i) in AllNodes(cs);
    }
    forall n | n in AllNodes(cs) ensures exists c, i :: c in cs && StandsFor(n, c, i) {
      var c, i :| c in cs && 0 <= i < c.parallelSessionCount && n == NodeOf(c, i);
      assert StandsFor(n, c, i);
    }
  }

  lemma NodeConstraint(cs: seq<Candidate>, a: Candidate, i: int, b: Candidate, j: int)
    requires PoolsComplete(cs) && a in cs && b in cs && (a.offeringId != b.offeringId || i != j)
    ensures Constrained(NodeOf(a, i), NodeOf(b, j)) <==> CompeteFor(a, b)
  {
    NodeLecturers(cs, a, i);
    NodeLecturers(cs, b, j);
    var m, n := NodeOf(a, i), NodeOf(b, j);
    assert m.roomId == a.roomId && n.roomId == b.roomId && m.offeringId == a.offeringId && n.offeringId == b.offeringId;
    assert m.sessionIndex == i && n.sessionIndex == j;
    SharedLecturers(m.lecturerIds, n.lecturerIds, a.lecturerPool, b.lecturerPool);
    hide NodeOf, PoolsComplete;
    assert ShareLecturer(m, n) <==> exists l :: l in m.lecturerIds && l in n.lecturerIds;
    assert ShareRoom(m, n) <==> a.roomId.Some? && a.roomId == b.roomId;
    assert IsSiblingSessionPair(m, n) <==> a.offeringId == b.offeringId;
    assert CompeteFor(a, b) <==> ShareRoom(m, n) || (!IsSiblingSessionPair(m, n) && ShareLecturer(m, n));
  }

  lemma SharedLecturers(x: seq<int>, y: seq<int>, p: seq<int>, q: seq<int>)
    requires forall l :: l in x <==> l in p
    requires forall l :: l in y <==> l in q
    ensures (exists l :: l in x && l in y) <==> (exists l :: l in p && l in q)
  {
    if l :| l in x && l in y { assert l in p && l in q; }
    if l :| l in p && l in q { assert l in x && l in y; }
  }

  // ---------------------------------------------------------------- where sessions may start, read off the timetable

  /** A run of the session's length starts at x on some day; without any such run x is just an allowed slot. */
  ghost predicate MayStart(c: Candidate, lookup: SlotLookup, x: int) {
    if c.sessionDuration > 0 && HasRun(c.possibleTimeSlotIds, c.sessionDuration, lookup)
    then RunStartsAt(c.possibleTimeSlotIds, c.sessionDuration, lookup, x)
    else x in c.possibleTimeSlotIds
  }

  ghost predicate RunStartsAt(ids: seq<int>, d: int, lookup: SlotLookup, x: int) {
    exists day, w :: day in Days(Resolve(ids, lookup)) && StartsRun(DaySlots(ids, lookup, day), w, d, x)
  }

  ghost predicate StartsRun(s: seq<TimeSlot>, w: int, d: int, x: int) {
    d > 0 && IsRun(s, w, d) && s[w].id == x
  }

  lemma StartsMean(c: Candidate, lookup: SlotLookup, x: int)
    ensures x in BlockStarts(c, Some(lookup)) <==> MayStart(c, lookup, x)
  {
    var ids, d := c.possibleTimeSlotIds, c.sessionDuration;
    BlocksExact(ids, d, lookup);
    hide Blocks, IsBlock, IsRun, DaySlots, Days, Resolve;
    if d > 0 {
      BlocksAndRuns(ids, d, lookup);
      if b :| b in Blocks(ids, d, lookup) && b != [] && b[0] == x { BlockStartsRun(ids, d, lookup, b); }
      if RunStartsAt(ids, d, lookup, x) { var b := RunStartIsBlock(ids, d, lookup, x); }
    } else {
      assert Blocks(ids, d, lookup) == [] by { NoBlocksAtAll(ids, d, lookup); }
    }
  }

  lemma NoBlocksAtAll(ids: seq<int>, d: int, lookup: SlotLookup)
    requires d <= 0
    ensures Blocks(ids, d, lookup) == []
  {
  }

  lemma BlocksAndRuns(ids: seq<int>, d: int, lookup: SlotLookup)
    requires d > 0
    ensures Blocks(ids, d, lookup) != [] <==> HasRun(ids, d, lookup)
  {
    BlocksExact(ids, d, lookup);
    hide Blocks, IsRun, DaySlots, Days, Resolve;
    if Blocks(ids, d, lookup) != [] { assert Blocks(ids, d, lookup)[0] in Blocks(ids, d, lookup); }
    if HasRun(ids, d, lookup) {
      var day, w :| day in Days(Resolve(ids, lookup)) && IsRun(DaySlots(ids, lookup, day), w, d);
      var b := RunIsBlock(ids, d, lookup, day, w);
    }
  }

  lemma RunIsBlock(ids: seq<int>, d: int, lookup: SlotLookup, day: string, w: int) returns (b: seq<int>)
    requires d > 0 && day in Days(Resolve(ids, lookup)) && IsRun(DaySlots(ids, lookup, day), w, d)
    ensures b in Blocks(ids, d, lookup) && b != [] && b[0] == DaySlots(ids, lookup, day)[w].id
  {
    BlocksExact(ids, d, lookup);
    hide Blocks, DaySlots, Days, Resolve;
    b := Ids(DaySlots(ids, lookup, day)[w..w + d]);
    assert IsWindow(b, ids, d, lookup, day, w);
  }

  lemma RunStartIsBlock(ids: seq<int>, d: int, lookup: SlotLookup, x: int) returns (b: seq<int>)
    requires RunStartsAt(ids, d, lookup, x)
    ensures b in Blocks(ids, d, lookup) && b != [] && b[0] == x
  {
    hide Blocks, DaySlots, Days, Resolve, IsRun;
    var day, w :| day in Days(Resolve(ids, lookup)) && StartsRun(DaySlots(ids, lookup, day), w, d, x);
    b := RunIsBlock(ids, d, lookup, day, w);
  }

  lemma BlockStartsRun(ids: seq<int>, d: int, lookup: SlotLookup, b: seq<int>)
    requires d > 0 && b in Blocks(ids, d, lookup) && b != []
    ensures RunStartsAt(ids, d, lookup, b[0])
  {
    BlocksExact(ids, d, lookup);
    hide Blocks, DaySlots, Days, Resolve;
    var day, w :| IsWindow(b, ids, d, lookup, day, w);
    assert StartsRun(DaySlots(ids, lookup, day), w, d, b[0]);
  }

  /** The domains of the graph: one for each session, holding exactly the slots where its candidate may start. */
  lemma SessionDomains(cs: seq<Candidate>, lookup: SlotLookup)
    requires SsaInput(cs)
    ensures forall x :: x in DomainsOf(cs, Some(lookup)) <==> exists c, i :: c in cs && IsSession(c, i, x)
    ensures forall c, i, x, t :: c in cs && IsSession(c, i, x) ==>
      (t in DomainsOf(cs, Some(lookup))[x] <==> MayStart(c, lookup, t))
  {
    DomainsListed(cs, Some(lookup));
    hide DomainsOf, BlockStarts, MayStart, SsaInput;
    forall x ensures x in DomainsOf(cs, Some(lookup)) <==> exists c, i :: c in cs && IsSession(c, i, x) {
      if c, i :| c in cs && IsSession(c, i, x) { assert x == SessionId(c.offeringId, i); }
      if x in DomainsOf(cs, Some(lookup)) {
        var c, i :| c in cs && 0 <= i < c.parallelSessionCount && x == SessionId(c.offeringId, i);
        assert IsSession(c, i, x);
      }
    }
    forall c, i, x, t | c in cs && IsSession(c, i, x)
      ensures t in DomainsOf(cs, Some(lookup))[x] <==> MayStart(c, lookup, t) {
      var k :| 0 <= k < |cs| && cs[k] == c;
      DomainOfSession(cs, Some(lookup), k, i);
      StartsMean(c, lookup, t);
    }
  }

  /** The arcs of the constraint network are exactly the pairs of sessions that must start apart. */
  lemma ArcIff(cs: seq<Candidate>, x: int, y: int)
    requires SsaInput(cs) && PoolsComplete(cs)
    ensures Arc(AllNodes(cs), x, y) <==> MustDiffer(cs, x, y)
  {
    hide *;
    if Arc(AllNodes(cs), x, y) { ArcMeans(cs, x, y); }
    if MustDiffer(cs, x, y) { ArcBy(cs, x, y); }
  }

  lemma ArcMeans(cs: seq<Candidate>, x: int, y: int)
    requires PoolsComplete(cs) && Arc(AllNodes(cs), x, y)
    ensures MustDiffer(cs, x, y)
  {
    NodesListed(cs);
    hide AllNodes, PoolsComplete, Constrained, CompeteFor;
    var m, n :| m in AllNodes(cs) && n in AllNodes(cs) && m.sessionId == x && n.sessionId == y && Constrained(m, n);
    var a, i :| a in cs && 0 <= i < a.parallelSessionCount && m == NodeOf(a, i);
    var b, j :| b in cs && 0 <= j < b.parallelSessionCount && n == NodeOf(b, j);
    NodeConstraint(cs, a, i, b, j);
    assert IsSession(a, i, x) && IsSession(b, j, y);
  }

  lemma ArcBy(cs: seq<Candidate>, x: int, y: int)
    requires PoolsComplete(cs) && MustDiffer(cs, x, y)
    ensures Arc(AllNodes(cs), x, y)
  {
    NodesListed(cs);
    hide AllNodes, PoolsComplete, Constrained, CompeteFor;
    var a, i, b, j :|
      a in cs && IsSession(a, i, x) && b in cs && IsSession(b, j, y) && CompeteFor(a, b);
    var m, n := NodeOf(a, i), NodeOf(b, j);
    assert a.offeringId != b.offeringId || i != j;
    NodeConstraint(cs, a, i, b, j);
    assert m in AllNodes(cs) && n in AllNodes(cs) && m.sessionId == x && n.sessionId == y;
  }

  /** An arc-consistent restriction is a consistent choice in the candidates' terms. */
  lemma SupportedIff(cs: seq<Candidate>, e: Domains, d: Domains)
    requires SsaInput(cs) && PoolsComplete(cs)
    ensures Supported(AllNodes(cs), e, d) <==> ConsistentChoice(cs, e, d)
  {
    forall x, y ensures Arc(AllNodes(cs), x, y) <==> MustDiffer(cs, x, y) { ArcIff(cs, x, y); }
    hide AllNodes, Arc, MustDiffer, SsaInput, PoolsComplete;
  }

  /** Exclusion changes only slots, so the same sessions must start apart before and after it. */
  lemma ExclusionKeepsConstraints(cs: seq<Candidate>, x: int, y: int)
    ensures MustDiffer(RunStaticExclusion(cs), x, y) <==> MustDiffer(cs, x, y)
  {
    ExclusionExact(cs);
    var pruned, locked := RunStaticExclusion(cs), LockedCoordinates(cs);
    hide RunStaticExclusion, AfterExclusion, LockedCoordinates, LockedFor, CompeteFor;
    forall a, b | a in cs && b in cs
      ensures CompeteFor(AfterExclusion(a, locked), AfterExclusion(b, locked)) <==> CompeteFor(a, b) {
      SameCompetition(a, b, AfterExclusion(a, locked), AfterExclusion(b, locked));
    }
    if MustDiffer(pruned, x, y) {
      var p, i, q, j :|
        p in pruned && IsSession(p, i, x) && q in pruned && IsSession(q, j, y) && CompeteFor(p, q);
      var a :| a in cs && p == AfterExclusion(a, locked);
      var b :| b in cs && q == AfterExclusion(b, locked);
      assert IsSession(a, i, x) && IsSession(b, j, y) && CompeteFor(a, b);
    }
    if MustDiffer(cs, x, y) {
      var a, i, b, j :|
        a in cs && IsSession(a, i, x) && b in cs && IsSession(b, j, y) && CompeteFor(a, b);
      var p, q := AfterExclusion(a, locked), AfterExclusion(b, locked);
      assert p in pruned && q in pruned && IsSession(p, i, x) && IsSession(q, j, y);
    }
  }

  lemma SameCompetition(a: Candidate, b: Candidate, p: Candidate, q: Candidate)
    requires SameButSlots(p, a) && SameButSlots(q, b)
    ensures CompeteFor(p, q) <==> CompeteFor(a, b)
  {
  }

  lemma PoolsStayComplete(cs: seq<Candidate>)
    requires PoolsComplete(cs)
    ensures PoolsComplete(RunStaticExclusion(cs))
  {
    ExclusionExact(cs);
    hide RunStaticExclusion, AfterExclusion, LockedCoordinates, LockedFor;
  }

  /** Whether AC-3 stops, in terms of the given candidates' rooms and pools. */
  lemma SupportIffChoice(cs: seq<Candidate>, d: Domains)
    requires SsaInput(cs) && PoolsComplete(cs)
    ensures (exists e :: Supported(AllNodes(RunStaticExclusion(cs)), e, d)) <==> SomeConsistentChoice(cs, d)
  {
    var pruned := RunStaticExclusion(cs);
    ExclusionKeepsInput(cs);
    PoolsStayComplete(cs);
    hide RunStaticExclusion, SsaInput, PoolsComplete, AllNodes, Supported, ConsistentChoice;
    if e :| Supported(AllNodes(pruned), e, d) {
      SupportedIff(pruned, e, d);
      SameChoice(cs, e, d);
    }
    if e :| ConsistentChoice(cs, e, d) {
      SupportedIff(pruned, e, d);
      SameChoice(cs, e, d);
    }
  }

  lemma SameChoice(cs: seq<Candidate>, e: Domains, d: Domains)
    ensures ConsistentChoice(RunStaticExclusion(cs), e, d) <==> ConsistentChoice(cs, e, d)
  {
    hide RunStaticExclusion, MustDiffer;
    forall x, y ensures MustDiffer(RunStaticExclusion(cs), x, y) <==> MustDiffer(cs, x, y) {
      ExclusionKeepsConstraints(cs, x, y);
    }
    SameConstraints(RunStaticExclusion(cs), cs, e, d);
  }

  lemma SameConstraints(cs: seq<Candidate>, cs': seq<Candidate>, e: Domains, d: Domains)
    requires forall x, y :: MustDiffer(cs, x, y) <==> MustDiffer(cs', x, y)
    ensures ConsistentChoice(cs, e, d) <==> ConsistentChoice(cs', e, d)
  {
    hide MustDiffer;
    if ConsistentChoice(cs, e, d) { ChoiceToo(cs, cs', e, d); }
    if ConsistentChoice(cs', e, d) { ChoiceToo(cs', cs, e, d); }
  }

  lemma ChoiceToo(cs: seq<Candidate>, cs': seq<Candidate>, e: Domains, d: Domains)
    requires (forall x, y :: MustDiffer(cs', x, y) ==> MustDiffer(cs, x, y)) && ConsistentChoice(cs, e, d)
    ensures ConsistentChoice(cs', e, d)
  {
    hide MustDiffer;
    forall x, y | MustDiffer(cs', x, y) && x in e && y in e ensures forall v :: e[y] == {v} ==> v !in e[x] {
      assert MustDiffer(cs, x, y);
    }
  }

  /** With a start there is a matching of one session. */
  lemma StartIsMatching(d: Domains, s: int)
    requires s in d && d[s] != {}
    ensures !IsMaximumSize(0, d)
  {
    var t := Member(d[s]);
    var m := map[s := t];
    assert IsMatching(m, d) && |m| == 1;
  }

  /** The whole analysis. FEASIBLE exactly when the unpruned graph has a distinct block start for every session;
      the reported matching size is the unpruned maximum unless AC-3 stopped first; a matching report names the
      offerings that some maximum matching leaves out; and an AC-3 report means that not even the room and lecturer
      constraints alone can be met, and names an offering that lost its starts. AC-3 stops the analysis exactly when
      no arc-consistent restriction exists, and the size reported then is never the maximum. */
  method RunSSA(candidates: seq<Candidate>, allTimeSlots: Option<seq<TimeSlot>>) returns (r: SSAResult)
    requires SsaInput(candidates)
    ensures var pruned := RunStaticExclusion(candidates);
      var d0 := DomainsOf(pruned, LookupFor(allTimeSlots));
      && (r.Feasible() <==> DistinctStartsExist(d0))
      && r.totalSessionsRequired == TotalSessions(candidates) == |d0|
      && (forall o :: o in r.degradedOfferings <==> DegradedAmong(pruned, LookupFor(allTimeSlots), o))
      && (r.StoppedByAc3() ==> !exists a :: Respects(AllNodes(pruned), a, d0))
      && (r.StoppedByAc3() ==> NamesEmptied(r.deadlockReport.value.affectedOfferingIds, d0))
      && (r.StoppedByAc3() <==> !exists e :: Supported(AllNodes(pruned), e, d0))
      && (PoolsComplete(candidates) ==> (r.StoppedByAc3() <==> !SomeConsistentChoice(candidates, d0)))
      && (IsMaximumSize(r.maximumAchievableMatching, d0) <==> !r.StoppedByAc3())
      && (!r.Feasible() && !r.StoppedByAc3() ==>
            LeftOverBy(r.deadlockReport.value.affectedOfferingIds, r.maximumAchievableMatching, d0))
  {
    hide DomainsOf, AllNodes, RunStaticExclusion, SsaInput, Supported, IsMatching, Respects, GraphOk, IsMaximumSize,
         DegradedAmong, NamesEmptied, OfferingOf, StartAmong, PoolsComplete, SomeConsistentChoice;
    var totalSessionsRequired := TotalSessions(candidates);
    var prunedCandidates := RunStaticExclusion(candidates);
    ExclusionKeepsInput(candidates);
    var graph := BuildBipartiteGraph(prunedCandidates, allTimeSlots);
    ghost var nodes, d0 := graph.sessions, graph.adjacency;
    if PoolsComplete(candidates) { SupportIffChoice(candidates, d0); }
    GraphIsOk(prunedCandidates, LookupFor(allTimeSlots));
    var ac3Result := RunAC3(graph);
    if ac3Result.Inconsistent? {
      NoSupportNoChoice(nodes, d0);
      StartIsMatching(d0, ac3Result.emptyDomainSessionId);
      var o := ac3Result.emptyDomainOfferingId;
      Emptied(prunedCandidates, d0, ac3Result.emptyDomainSessionId, o);
      return SSAResult(totalSessionsRequired, 0, graph.degradedOfferings,
                       Some(DeadlockReport(AC3_DOMAIN_EMPTY, if o != 0 then {o} else {})));
    }
    PrunedGraphOk(nodes, d0, graph.adjacency);
    var matchingResult := RunHopcroftKarp(graph);
    PruningKeepsMaximum(d0, graph.adjacency, MatchedPart(matchingResult.sessionToSlot));
    if matchingResult.maximumMatching < totalSessionsRequired {
      var unmatchedOfferingIds := set s | s in matchingResult.unmatchedSessions :: OfferingOf(s);
      LeftOver(matchingResult.unmatchedSessions, MatchedPart(matchingResult.sessionToSlot), unmatchedOfferingIds,
        graph.adjacency, d0);
      return SSAResult(totalSessionsRequired, matchingResult.maximumMatching, graph.degradedOfferings,
                       Some(DeadlockReport(BIPARTITE_MATCHING_INSUFFICIENT, unmatchedOfferingIds)));
    }
    return SSAResult(totalSessionsRequired, matchingResult.maximumMatching, graph.degradedOfferings, None);
  }

  lemma LeftOver(unmatched: seq<int>, m: map<int, int>, offerings: set<int>, d: Domains, d0: Domains)
    requires d.Keys == d0.Keys && IsMatching(m, d0) && Elements(unmatched) == d.Keys - m.Keys
    requires offerings == set s | s in unmatched :: OfferingOf(s)
    ensures LeftOverBy(offerings, |m|, d0)
  {
    hide IsMatching, OfferingOf;
    assert forall s :: s in unmatched <==> s in Elements(unmatched);
    assert offerings == OfferingsOf(d0.Keys - m.Keys);
  }

  lemma PrunedGraphOk(nodes: seq<SessionNode>, d0: Domains, d: Domains)
    requires GraphOk(nodes, d0) && Supported(nodes, d, d0)
    ensures GraphOk(nodes, d) && Inside(d, d0) && d.Keys == d0.Keys
  {
  }
}
