/** Seeding, crossover and mutation. None of them may write to a chromosome it was given. */
module Operators {
  import opened Prelude
  import opened Candidates
  import opened Timetable
  import opened SameDay
  import opened Genes
  import opened Fitness
  import opened WellFormed

  /** Math.random() */
  method Random() returns (u: real)
    ensures 0.0 <= u < 1.0
  {
    u :| 0.0 <= u < 1.0;
  }

  // ---------------------------------------------------------------- seeding

  /** count blocks in shuffled order, reused cyclically only when there are too few. */
  method PickDistinctBlocks(blocks: seq<seq<int>>, count: nat) returns (r: seq<seq<int>>)
    ensures |r| == (if blocks == [] then 0 else count) && forall i :: 0 <= i < |r| ==> r[i] in blocks
    ensures NoDup(blocks) && blocks != [] ==> SpreadOver(blocks, r)
  {
    if |blocks| == 0 { return []; }
    var shuffled := FisherYatesShuffle(blocks);
    SameMultiset(blocks, shuffled);
    r := [];
    for i := 0 to count
      invariant r == Cyclic(shuffled, i)
    {
      r := r + [shuffled[i % |shuffled|]];
    }
    CyclicIn(shuffled, count);
    assert forall b :: b in shuffled ==> b in Elements(blocks);
    if NoDup(blocks) { CyclicSpreads(blocks, shuffled, count); }
  }

  /** The blocks are used in turn: two sessions share one only if there are too few for a different one each. */
  ghost predicate SpreadOver(blocks: seq<seq<int>>, r: seq<seq<int>>)
    requires blocks != []
  {
    && (forall k :: 0 <= k < |r| ==> r[k] in blocks)
    && (forall i, j :: 0 <= i < |r| && 0 <= j < |r| ==> (r[i] == r[j] <==> i % |blocks| == j % |blocks|))
  }

  lemma CyclicSpreads(blocks: seq<seq<int>>, xs: seq<seq<int>>, n: nat)
    requires blocks != [] && |xs| == |blocks| && Elements(xs) == Elements(blocks) && NoDup(xs)
    ensures SpreadOver(blocks, Cyclic(xs, n))
  {
    var r := Cyclic(xs, n);
    forall k | 0 <= k < n ensures r[k] in blocks {
      assert r[k] in Elements(xs);
      assert r[k] in Elements(blocks);
    }
  }

  function Cyclic<T>(xs: seq<T>, n: nat): seq<T>
    requires xs != []
  {
    seq(n, i requires 0 <= i => xs[i % |xs|])
  }

  lemma CyclicIn<T>(xs: seq<T>, n: nat)
    requires xs != []
    ensures forall i :: 0 <= i < n ==> Cyclic(xs, n)[i] in xs
  {
  }

  /** An open room and several sessions: the sessions may use different rooms. */
  predicate SplitOverRooms(c: Candidate) {
    c.roomId.None? && c.parallelSessionCount > 1
  }

  ghost predicate OneRoom(ss: seq<SessionData>) {
    forall j, k :: 0 <= j < |ss| && 0 <= k < |ss| ==> ss[j].roomId == ss[k].roomId
  }

  /** An independent draw per session for a free-room candidate that is split; the shared seed room otherwise. */
  method PickRoomForSession(c: Candidate, seedRoomId: int) returns (room: int)
    requires CandidateOk(c) && RoomOk(c, seedRoomId)
    ensures RoomOk(c, room)
    ensures if SplitOverRooms(c) then room in c.possibleRoomIds else room == seedRoomId
  {
    if SplitOverRooms(c) {
      var i := RandomIndex(|c.possibleRoomIds|);
      return c.possibleRoomIds[i];
    }
    return seedRoomId;
  }

  /** The slot sequences of count sessions: distinct blocks while they last, or same-day picks. */
  method PickSlots(c: Candidate, lookup: SlotLookup, count: nat) returns (slots: seq<seq<int>>)
    requires LookupOk(lookup) && CandidateOk(c)
    ensures |slots| == count && forall k :: 0 <= k < count ==> SlotsOk(c, lookup, slots[k])
    ensures Spread(c, lookup, slots)
  {
    hide CandidateOk, LookupOk, Blocks, SameDayPick, NoDup, SpreadOver;
    assert NoDup(c.possibleTimeSlotIds) by { SlotsListedOnce(c); }
    var blocks := FindContiguousSlots(c.possibleTimeSlotIds, c.sessionDuration, lookup);
    if |blocks| > 0 {
      BlocksListedOnce(c, lookup);
      slots := PickDistinctBlocks(blocks, count);
      forall k | 0 <= k < count ensures SlotsOk(c, lookup, slots[k]) {
        BlockIsPick(slots[k], c.possibleTimeSlotIds, c.sessionDuration, lookup);
      }
    } else {
      slots := [];
      for k := 0 to count
        invariant |slots| == k && forall j :: 0 <= j < k ==> SlotsOk(c, lookup, slots[j])
      {
        var pick := PickSameDaySessionSlots(c.possibleTimeSlotIds, c.sessionDuration, lookup);
        slots := slots + [pick];
      }
    }
  }

  /** Sessions that have a block to choose from use the candidate's blocks in turn. */
  ghost predicate Spread(c: Candidate, lookup: SlotLookup, slots: seq<seq<int>>) {
    var blocks := Blocks(c.possibleTimeSlotIds, c.sessionDuration, lookup);
    blocks != [] ==> SpreadOver(blocks, slots)
  }

  lemma BlocksListedOnce(c: Candidate, lookup: SlotLookup)
    requires CandidateOk(c) && LookupOk(lookup)
    ensures NoDup(Blocks(c.possibleTimeSlotIds, c.sessionDuration, lookup))
  {
    SlotsListedOnce(c);
    BlockStartsDistinct(c.possibleTimeSlotIds, c.sessionDuration, lookup);
    hide Blocks;
  }

  lemma SlotsListedOnce(c: Candidate)
    requires CandidateOk(c)
    ensures NoDup(c.possibleTimeSlotIds)
  {
  }

  /** The room that the candidate names, or one of the pool. */
  ghost predicate SeedRoomOk(c: Candidate, room: int) {
    if c.roomId.Some? then room == c.roomId.value else room in c.possibleRoomIds
  }

  /** The siblings' lecturer groups are handed out in turn. */
  lemma GroupsInTurn(c: Candidate, k: nat)
    requires c.MultiSibling() && c.siblingLecturerGroups != []
    ensures k < |c.siblingLecturerGroups| ==> SeededLecturers(c, k) == c.siblingLecturerGroups[k]
    ensures SeededLecturers(c, k + |c.siblingLecturerGroups|) == SeededLecturers(c, k)
  {
    ModTurns(k, |c.siblingLecturerGroups|);
  }

  lemma ModTurns(k: nat, n: nat)
    requires n > 0
    ensures (k + n) % n == k % n && (k < n ==> k % n == k)
  {
    DivModIs(k, n, k / n, k % n);
    DivModIs(k + n, n, k / n + 1, k % n);
    if k < n { DivModIs(k, n, 0, k); }
  }

  lemma DivModIs(k: nat, n: nat, q: int, r: int)
    requires n > 0 && k == n * q + r && 0 <= r < n
    ensures k % n == r
  {
    RemainderUnique(n, q, r, k / n, k % n);
  }

  lemma RemainderUnique(n: nat, q: int, r: int, q': int, r': int)
    requires n * q + r == n * q' + r' && 0 <= r < n && 0 <= r' < n
    ensures r == r'
  {
    assert n * (q - q') == r' - r;
    SmallMultiple(n, q - q');
  }

  lemma SmallMultiple(n: nat, x: int)
    requires 0 - n < n * x < n
    ensures x == 0
  {
  }

  /** With enough blocks the sessions of a seeded gene start at different slots. */
  lemma SeededApart(c: Candidate, lookup: SlotLookup, g: GeneData)
    requires CandidateOk(c) && LookupOk(lookup) && SeededAs(c, lookup, g)
    requires |g.sessions| <= |Blocks(c.possibleTimeSlotIds, c.sessionDuration, lookup)|
    ensures forall j, k :: 0 <= j < k < |g.sessions| ==>
      g.sessions[j].timeSlotIds != [] && g.sessions[k].timeSlotIds != [] &&
      g.sessions[j].timeSlotIds[0] != g.sessions[k].timeSlotIds[0]
  {
    var blocks, slots := Blocks(c.possibleTimeSlotIds, c.sessionDuration, lookup), SlotLists(g.sessions);
    SlotsListedOnce(c);
    BlockStartsDistinct(c.possibleTimeSlotIds, c.sessionDuration, lookup);
    hide Blocks, CandidateOk, LookupOk, GeneOk, DistinctStarts, SpreadOver, SeededLecturers, SeedRoomOk, OneRoom;
    if blocks != [] { SpreadStarts(blocks, slots, Max(c.sessionDuration, 0)); }
    forall j | 0 <= j < |g.sessions| ensures g.sessions[j].timeSlotIds == slots[j] {
    }
  }

  lemma SpreadStarts(blocks: seq<seq<int>>, slots: seq<seq<int>>, d: nat)
    requires blocks != [] && DistinctStarts(blocks, d) && SpreadOver(blocks, slots) && |slots| <= |blocks|
    ensures forall j, k :: 0 <= j < k < |slots| ==> slots[j] != [] && slots[k] != [] && slots[j][0] != slots[k][0]
  {
    forall j, k | 0 <= j < k < |slots| ensures slots[j] != [] && slots[k] != [] && slots[j][0] != slots[k][0] {
      ModTurns(j, |blocks|);
      ModTurns(k, |blocks|);
      assert slots[j] in blocks && slots[k] in blocks && slots[j] != slots[k];
      DifferentStarts(blocks, d, slots[j], slots[k]);
    }
  }

  lemma DifferentStarts(blocks: seq<seq<int>>, d: nat, a: seq<int>, b: seq<int>)
    requires DistinctStarts(blocks, d) && a in blocks && b in blocks && a != b
    ensures a != [] && b != [] && a[0] != b[0]
  {
    var x :| 0 <= x < |blocks| && blocks[x] == a;
    var y :| 0 <= y < |blocks| && blocks[y] == b;
    assert x < y || y < x;
  }

  method SeedRoom(c: Candidate) returns (room: int)
    requires CandidateOk(c)
    ensures RoomOk(c, room) && SeedRoomOk(c, room)
  {
    if c.roomId.Some? { return c.roomId.value; }
    var i := RandomIndex(|c.possibleRoomIds|);
    return c.possibleRoomIds[i];
  }

  ghost function SlotLists(ss: seq<SessionData>): seq<seq<int>> {
    seq(|ss|, k requires 0 <= k < |ss| => ss[k].timeSlotIds)
  }

  /** What a seeded gene looks like: a legal gene whose sessions take the siblings' lecturer groups in turn and the
      blocks in turn, in the candidate's own room or rooms of its pool, and in one room unless it is split. */
  ghost predicate SeededAs(c: Candidate, lookup: SlotLookup, g: GeneData)
    requires CandidateOk(c)
  {
    && GeneOk(c, lookup, g)
    && (forall k :: 0 <= k < |g.sessions| ==> g.sessions[k].lecturerIds == SeededLecturers(c, k))
    && Spread(c, lookup, SlotLists(g.sessions))
    && (forall k :: 0 <= k < |g.sessions| ==> SeedRoomOk(c, g.sessions[k].roomId))
    && (!SplitOverRooms(c) ==> OneRoom(g.sessions))
  }

  method CreateGeneFromCandidate(c: Candidate, lookup: SlotLookup) returns (g: Gene)
    requires LookupOk(lookup) && CandidateOk(c)
    ensures fresh(g) && fresh(g.sessions) && NoDup(g.sessions) && SeededAs(c, lookup, g.Data())
  {
    hide *;
    GroupsPresent(c);
    var values, seedRoomId := SeededSessions(c, lookup);
    var sessions := NewSessions(values);
    g := new Gene(if c.isFixedRoom then FIXED else FLEXIBLE, c.offeringId, sessions);
    SeededGeneOk(c, lookup, g.Data(), seedRoomId);
  }

  method SeededSessions(c: Candidate, lookup: SlotLookup) returns (values: seq<SessionData>, ghost seedRoom: int)
    requires LookupOk(lookup) && CandidateOk(c)
    ensures |values| == c.parallelSessionCount
    ensures forall k :: 0 <= k < |values| ==> SessionOk(c, lookup, k, values[k])
    ensures forall k :: 0 <= k < |values| ==> values[k].lecturerIds == SeededLecturers(c, k)
    ensures forall k :: 0 <= k < |values| ==> SplitOverRooms(c) || values[k].roomId == seedRoom
    ensures forall k :: 0 <= k < |values| ==> SeedRoomOk(c, values[k].roomId)
    ensures Spread(c, lookup, SlotLists(values))
  {
    hide *;
    GroupsPresent(c);
    NotNegative(c);
    var seedRoomId := SeedRoom(c);
    var slots := PickSlots(c, lookup, c.parallelSessionCount);
    values, seedRoom := [], seedRoomId;
    for k := 0 to c.parallelSessionCount
      invariant |values| == k
      invariant forall j :: 0 <= j < k ==> SessionOk(c, lookup, j, values[j])
      invariant forall j :: 0 <= j < k ==> values[j].lecturerIds == SeededLecturers(c, j)
      invariant forall j :: 0 <= j < k ==> SplitOverRooms(c) || values[j].roomId == seedRoomId
      invariant forall j :: 0 <= j < k ==> SeedRoomOk(c, values[j].roomId) && values[j].timeSlotIds == slots[j]
    {
      var s := SeededSession(c, lookup, k, seedRoomId, slots[k]);
      values := values + [s];
    }
    SlotListsAre(values, slots);
  }

  lemma SlotListsAre(ss: seq<SessionData>, slots: seq<seq<int>>)
    requires |ss| == |slots| && forall k :: 0 <= k < |ss| ==> ss[k].timeSlotIds == slots[k]
    ensures SlotLists(ss) == slots
  {
  }

  lemma NotNegative(c: Candidate)
    requires CandidateOk(c)
    ensures c.parallelSessionCount >= 0
  {
  }

  method SeededSession(c: Candidate, ghost lookup: SlotLookup, k: nat, seedRoomId: int, slots: seq<int>)
    returns (s: SessionData)
    requires CandidateOk(c) && RoomOk(c, seedRoomId) && SeedRoomOk(c, seedRoomId) && SlotsOk(c, lookup, slots)
    requires c.MultiSibling() ==> c.siblingLecturerGroups != []
    ensures SessionOk(c, lookup, k, s) && s.lecturerIds == SeededLecturers(c, k) && s.timeSlotIds == slots
    ensures SplitOverRooms(c) || s.roomId == seedRoomId
    ensures SeedRoomOk(c, s.roomId)
  {
    hide CandidateOk, RoomOk, SlotsOk, LecturersOk, SeededLecturers;
    var room := PickRoomForSession(c, seedRoomId);
    SeededLecturersOk(c, k);
    s := SessionData(room, slots, SeededLecturers(c, k));
  }

  lemma SeededGeneOk(c: Candidate, lookup: SlotLookup, g: GeneData, room: int)
    requires CandidateOk(c) && g.kind == (if c.isFixedRoom then FIXED else FLEXIBLE) && g.offeringId == c.offeringId
    requires |g.sessions| == c.parallelSessionCount
    requires c.MultiSibling() ==> c.siblingLecturerGroups != []
    requires forall j :: 0 <= j < |g.sessions| ==> SessionOk(c, lookup, j, g.sessions[j])
    requires forall j :: 0 <= j < |g.sessions| ==> g.sessions[j].lecturerIds == SeededLecturers(c, j)
    requires forall j :: 0 <= j < |g.sessions| ==> SplitOverRooms(c) || g.sessions[j].roomId == room
    requires forall j :: 0 <= j < |g.sessions| ==> SeedRoomOk(c, g.sessions[j].roomId)
    requires Spread(c, lookup, SlotLists(g.sessions))
    ensures SeededAs(c, lookup, g)
  {
    hide CandidateOk, SessionOk, SplitOverRooms, SeededLecturers, SeedRoomOk, Spread, SlotLists;
  }

  /** Every locus is seeded from its candidate. */
  ghost predicate SeededFrom(cs: seq<Candidate>, lookup: SlotLookup, v: seq<GeneData>)
    requires CandidatesOk(cs)
  {
    |v| == |cs| && forall i :: 0 <= i < |cs| ==> SeededAs(cs[i], lookup, v[i])
  }

  lemma SeededAt(c: Candidate, lookup: SlotLookup, g: GeneData)
    requires CandidateOk(c) && SeededAs(c, lookup, g)
    ensures GeneOk(c, lookup, g)
  {
    hide CandidateOk, GeneOk;
  }

  lemma AllSeeded(cs: seq<Candidate>, lookup: SlotLookup, v: seq<GeneData>)
    requires CandidatesOk(cs) && |v| == |cs|
    requires forall i :: 0 <= i < |cs| ==> CandidateOk(cs[i]) && SeededAs(cs[i], lookup, v[i])
    ensures SeededFrom(cs, lookup, v)
  {
    hide CandidateOk, SeededAs;
  }

  method CreateRandomChromosome(cs: seq<Candidate>, lookup: SlotLookup) returns (ch: Chromosome)
    requires LookupOk(lookup) && CandidatesOk(cs)
    ensures fresh(ch) && fresh(Objects(ch)) && ChromosomeOk(cs, lookup, Value(ch)) && SeededFrom(cs, lookup, Value(ch))
  {
    hide *;
    ch := [];
    ghost var v: seq<GeneData> := [];
    NoLoci(cs, lookup);
    NoObjects();
    for i := 0 to |cs|
      invariant |ch| == |v| == i && fresh(ch) && fresh(Objects(ch)) && FirstLociOk(cs, lookup, v)
      invariant forall j :: 0 <= j < i ==> ch[j].Data() == v[j]
      invariant forall j :: 0 <= j < i ==> CandidateOk(cs[j]) && SeededAs(cs[j], lookup, v[j])
    {
      CandidateAt(cs, i);
      var g := CreateGeneFromCandidate(cs[i], lookup);
      SeededAt(cs[i], lookup, g.Data());
      ObjectsSnoc(ch, g);
      LociOkSnoc(cs, lookup, v, g.Data());
      ch, v := ch + [g], v + [g.Data()];
    }
    ValueIs(ch, v);
    AllLociOk(cs, lookup, v);
    AllSeeded(cs, lookup, v);
  }

  lemma CandidateAt(cs: seq<Candidate>, i: nat)
    requires CandidatesOk(cs) && i < |cs|
    ensures CandidateOk(cs[i])
  {
  }

  // ---------------------------------------------------------------- crossover

  /** Locus by locus the children hold the parents' two genes, straight or swapped. */
  ghost predicate Recombined(p1: seq<GeneData>, p2: seq<GeneData>, c1: seq<GeneData>, c2: seq<GeneData>) {
    |c1| == |c2| == |p1| == |p2| && forall i :: 0 <= i < |p1| ==>
      (c1[i] == p1[i] && c2[i] == p2[i]) || (c1[i] == p2[i] && c2[i] == p1[i])
  }

  lemma RecombinedOk(cs: seq<Candidate>, lookup: SlotLookup, p1: seq<GeneData>, p2: seq<GeneData>, c1: seq<GeneData>,
                     c2: seq<GeneData>)
    requires CandidatesOk(cs) && ChromosomeOk(cs, lookup, p1) && ChromosomeOk(cs, lookup, p2) &&
      Recombined(p1, p2, c1, c2)
    ensures ChromosomeOk(cs, lookup, c1) && ChromosomeOk(cs, lookup, c2)
  {
    hide GeneOk;
  }

  method SinglePointCrossover(parent1: Chromosome, parent2: Chromosome)
    returns (child1: Chromosome, child2: Chromosome, ghost point: nat)
    requires |parent1| == |parent2| > 0
    ensures fresh(child1) && fresh(child2) && fresh(Objects(child1)) && fresh(Objects(child2)) && point < |parent1|
    ensures Recombined(old(Value(parent1)), old(Value(parent2)), Value(child1), Value(child2))
    ensures Value(child1) == old(Value(parent1)[..point] + Value(parent2)[point..])
    ensures Value(child2) == old(Value(parent2)[..point] + Value(parent1)[point..])
  {
    hide Value, Recombined;
    ghost var p1, p2 := Value(parent1), Value(parent2);
    var cut := RandomIndex(|parent1|);
    point := cut;
    SplicedRecombined(p1, p2, cut);
    ValueIs(parent1, p1);
    ValueIs(parent2, p2);
    child1 := Splice(parent1, parent2, cut);
    ghost var c1 := Value(child1);
    ValueIs(parent1, p1);
    ValueIs(parent2, p2);
    child2 := Splice(parent2, parent1, cut);
    ValueIs(child1, c1);
  }

  /** [...a.slice(0, cut).map(cloneGene), ...b.slice(cut).map(cloneGene)] */
  method Splice(a: Chromosome, b: Chromosome, cut: nat) returns (r: Chromosome)
    requires |a| == |b| && cut <= |a|
    ensures fresh(r) && fresh(Objects(r)) && Value(r) == old(Value(a)[..cut] + Value(b)[cut..])
  {
    hide Value;
    SplicedValue(a, b, cut);
    r := CloneChromosome(a[..cut] + b[cut..]);
  }

  lemma SplicedValue(a: Chromosome, b: Chromosome, cut: nat)
    requires |a| == |b| && cut <= |a|
    ensures Value(a[..cut] + b[cut..]) == Value(a)[..cut] + Value(b)[cut..]
  {
  }

  lemma SplicedRecombined(p1: seq<GeneData>, p2: seq<GeneData>, cut: nat)
    requires |p1| == |p2| && cut <= |p1|
    ensures Recombined(p1, p2, p1[..cut] + p2[cut..], p2[..cut] + p1[cut..])
  {
    var c1, c2 := p1[..cut] + p2[cut..], p2[..cut] + p1[cut..];
    forall i | 0 <= i < |p1| ensures (c1[i] == p1[i] && c2[i] == p2[i]) || (c1[i] == p2[i] && c2[i] == p1[i]) {
      if i >= cut { assert c1[i] == p2[cut..][i - cut] && c2[i] == p1[cut..][i - cut]; }
    }
  }

  /** The genes are drawn locus by locus, each from either parent, and the two lists cloned. */
  method UniformCrossover(parent1: Chromosome, parent2: Chromosome) returns (child1: Chromosome, child2: Chromosome)
    requires |parent1| == |parent2|
    ensures fresh(child1) && fresh(child2) && fresh(Objects(child1)) && fresh(Objects(child2))
    ensures Recombined(old(Value(parent1)), old(Value(parent2)), Value(child1), Value(child2))
  {
    hide *;
    ghost var p1, p2 := Value(parent1), Value(parent2);
    var from1: Chromosome, from2: Chromosome := [], [];
    for i := 0 to |parent1|
      invariant |from1| == |from2| == i
      invariant forall j :: 0 <= j < i ==>
        (from1[j] == parent1[j] && from2[j] == parent2[j]) || (from1[j] == parent2[j] && from2[j] == parent1[j])
    {
      var u := Random();
      from1 := from1 + [if u < 0.5 then parent1[i] else parent2[i]];
      from2 := from2 + [if u < 0.5 then parent2[i] else parent1[i]];
    }
    ValueIs(parent1, p1);
    ValueIs(parent2, p2);
    ghost var c1, c2 := Value(from1), Value(from2);
    RecombinedGenes(parent1, parent2, from1, from2);
    child1 := CloneChromosome(from1);
    ValueIs(from2, c2);
    child2 := CloneChromosome(from2);
    ValueIs(child1, c1);
  }

  lemma RecombinedGenes(p1: Chromosome, p2: Chromosome, c1: Chromosome, c2: Chromosome)
    requires |c1| == |c2| == |p1| == |p2| &&
      forall j :: 0 <= j < |p1| ==> (c1[j] == p1[j] && c2[j] == p2[j]) || (c1[j] == p2[j] && c2[j] == p1[j])
    ensures Recombined(Value(p1), Value(p2), Value(c1), Value(c2))
  {
    hide Value;
  }

  lemma NoObjects()
    ensures Objects([]) == {}
  {
  }

  /** The values after the sessions of [start, i) were exchanged between the two clones. */
  ghost predicate Exchanged(p1: seq<GeneData>, p2: seq<GeneData>, c1: seq<GeneData>, start: nat, i: nat) {
    |c1| == |p1| == |p2| && forall j :: 0 <= j < |p1| ==>
      c1[j] == GeneData(p1[j].kind, p1[j].offeringId, if start <= j < i then p2[j].sessions else p1[j].sessions)
  }

  method PmxCrossover(parent1: Chromosome, parent2: Chromosome)
    returns (child1: Chromosome, child2: Chromosome, ghost start: nat, ghost end: nat)
    requires |parent1| == |parent2| > 0
    ensures fresh(child1) && fresh(child2) && fresh(Objects(child1)) && fresh(Objects(child2))
    ensures start <= end < |parent1|
    ensures Exchanged(old(Value(parent1)), old(Value(parent2)), Value(child1), start, end + 1)
    ensures Exchanged(old(Value(parent2)), old(Value(parent1)), Value(child2), start, end + 1)
  {
    hide Value, Exchanged, Objects;
    ghost var p1, p2 := Value(parent1), Value(parent2);
    var from := RandomIndex(|parent1|);
    var to_ := RandomIndex(|parent1|);
    if from > to_ { from, to_ := to_, from; }
    start, end := from, to_;
    ValueIs(parent1, p1);
    child1 := CloneChromosome(parent1);
    ValueIs(parent2, p2);
    child2 := CloneChromosome(parent2);
    ValueIs(child1, p1);
    ExchangeSegment(child1, child2, from, to_);
  }

  /** The exchange in place: sessions objects move between the two chromosomes, none is written. */
  method ExchangeSegment(child1: Chromosome, child2: Chromosome, from: nat, to_: nat)
    requires from <= to_ < |child1| == |child2| && NoDup(child1) && NoDup(child2) &&
      Elements(child1) !! Elements(child2)
    modifies child1, child2
    ensures Exchanged(old(Value(child1)), old(Value(child2)), Value(child1), from, to_ + 1)
    ensures Exchanged(old(Value(child2)), old(Value(child1)), Value(child2), from, to_ + 1)
    ensures Objects(child1) + Objects(child2) <= old(Objects(child1) + Objects(child2))
  {
    hide Value, Exchanged, NoDup, Objects;
    ghost var p1, p2 := Value(child1), Value(child2);
    NothingExchanged(p1, p2, from);
    NothingExchanged(p2, p1, from);
    for i := from to to_ + 1
      invariant Exchanged(p1, p2, Value(child1), from, i) && Exchanged(p2, p1, Value(child2), from, i)
      invariant Objects(child1) + Objects(child2) <= old(Objects(child1) + Objects(child2))
    {
      ghost var v1, v2 := Value(child1), Value(child2);
      ExchangeStep(p1, p2, v1, v2, from, i);
      ExchangeStep(p2, p1, v2, v1, from, i);
      SwapSessions(child1, child2, i);
    }
  }

  /** tmp = child1[i].sessions; child1[i].sessions = child2[i].sessions; child2[i].sessions = tmp */
  method SwapSessions(child1: Chromosome, child2: Chromosome, i: nat)
    requires i < |child1| == |child2| && NoDup(child1) && NoDup(child2) && Elements(child1) !! Elements(child2)
    modifies child1[i], child2[i]
    ensures Value(child1) == old(Value(child1))[i := old(Value(child1))[i].(sessions := old(Value(child2))[i].sessions)]
    ensures Value(child2) == old(Value(child2))[i := old(Value(child2))[i].(sessions := old(Value(child1))[i].sessions)]
    ensures Objects(child1) + Objects(child2) <= old(Objects(child1) + Objects(child2))
  {
    hide Value, Objects, Parts, ObjectsIn;
    assert child1[i] in Elements(child1) && child2[i] in Elements(child2);
    ghost var v1, v2, q1, q2 := Value(child1), Value(child2), Parts(child1), Parts(child2);
    ObjectsAre(child1, q1);
    ObjectsAre(child2, q2);
    var tmpSessions := child1[i].sessions;
    child1[i].sessions := child2[i].sessions;
    child2[i].sessions := tmpSessions;
    forall j | 0 <= j < |child1| && j != i ensures child1[j].Data() == v1[j] {
      assert child1[j] in Elements(child1);
    }
    forall j | 0 <= j < |child2| && j != i ensures child2[j].Data() == v2[j] {
      assert child2[j] in Elements(child2);
    }
    ValueIs(child1, v1[i := v1[i].(sessions := v2[i].sessions)]);
    ValueIs(child2, v2[i := v2[i].(sessions := v1[i].sessions)]);
    ObjectsAre(child1, q1[i := q2[i]]);
    ObjectsAre(child2, q2[i := q1[i]]);
    SwapKeepsObjects(q1, q2, i);
  }

  lemma SwapKeepsObjects(q1: seq<seq<Session>>, q2: seq<seq<Session>>, i: nat)
    requires i < |q1| == |q2|
    ensures ObjectsIn(q1[i := q2[i]]) + ObjectsIn(q2[i := q1[i]]) <= ObjectsIn(q1) + ObjectsIn(q2)
  {
    forall s | s in ObjectsIn(q1[i := q2[i]]) + ObjectsIn(q2[i := q1[i]]) ensures s in ObjectsIn(q1) + ObjectsIn(q2) {
      var j :| 0 <= j < |q1| && (s in q1[i := q2[i]][j] || s in q2[i := q1[i]][j]);
      assert s in q1[j] || s in q2[j];
    }
  }

  lemma NothingExchanged(p1: seq<GeneData>, p2: seq<GeneData>, start: nat)
    requires |p1| == |p2|
    ensures Exchanged(p1, p2, p1, start, start)
  {
  }

  lemma ExchangeStep(p1: seq<GeneData>, p2: seq<GeneData>, c1: seq<GeneData>, c2: seq<GeneData>, start: nat, i: nat)
    requires Exchanged(p1, p2, c1, start, i) && Exchanged(p2, p1, c2, start, i) && start <= i < |p1|
    ensures |c1| == |c2| == |p1|
    ensures Exchanged(p1, p2, c1[i := c1[i].(sessions := c2[i].sessions)], start, i + 1)
  {
  }

  lemma ExchangedOk(cs: seq<Candidate>, lookup: SlotLookup, p1: seq<GeneData>, p2: seq<GeneData>, c1: seq<GeneData>,
                    start: nat, i: nat)
    requires CandidatesOk(cs) && ChromosomeOk(cs, lookup, p1) && ChromosomeOk(cs, lookup, p2) &&
      Exchanged(p1, p2, c1, start, i)
    ensures ChromosomeOk(cs, lookup, c1)
  {
    hide SessionsOk;
    forall j | 0 <= j < |cs| ensures GeneOk(cs[j], lookup, c1[j]) {
      assert GeneOk(cs[j], lookup, p1[j]) && GeneOk(cs[j], lookup, p2[j]);
    }
  }

  /** The runtime check of one locus passes: a fixed gene keeps its kind and rooms, lecturers stay in the pool. */
  ghost predicate MaskHolds(parent: GeneData, child: GeneData, c: Candidate) {
    && (parent.kind == FIXED ==>
          && child.kind == FIXED
          && forall i :: 0 <= i < |parent.sessions| ==>
             i < |child.sessions| && child.sessions[i].roomId == parent.sessions[i].roomId)
    && (forall i, l :: 0 <= i < |child.sessions| && l in child.sessions[i].lecturerIds ==> l in c.lecturerPool)
  }

  /** Between any two legal chromosomes, parent and child or not, the masking check never fires. */
  lemma MaskNeverFires(cs: seq<Candidate>, lookup: SlotLookup, parent: seq<GeneData>, child: seq<GeneData>, i: nat)
    requires CandidatesOk(cs) && ChromosomeOk(cs, lookup, parent) && ChromosomeOk(cs, lookup, child)
    ensures |parent| == |child|
    ensures i < |parent| ==> parent[i].offeringId == child[i].offeringId && child[i].offeringId in CandidateMap(cs)
    ensures i < |parent| ==> MaskHolds(parent[i], child[i], CandidateMap(cs)[child[i].offeringId])
  {
    OneLocusEach(cs, lookup, parent);
    OneLocusEach(cs, lookup, child);
    hide *;
    if i < |parent| {
      AlignedSessions(cs, lookup, child, i);
      AlignedSessions(cs, lookup, parent, i);
      LocusOk(cs, lookup, parent, i);
      LocusOk(cs, lookup, child, i);
      MaskHoldsBetween(cs[i], lookup, parent[i], child[i]);
    }
  }

  lemma LocusOk(cs: seq<Candidate>, lookup: SlotLookup, ch: seq<GeneData>, i: nat)
    requires CandidatesOk(cs) && ChromosomeOk(cs, lookup, ch) && i < |ch|
    ensures i < |cs| && CandidateOk(cs[i]) && GeneOk(cs[i], lookup, ch[i]) && ch[i].offeringId == cs[i].offeringId
  {
    hide CandidateOk, SessionsOk;
  }

  lemma MaskHoldsBetween(c: Candidate, lookup: SlotLookup, parent: GeneData, child: GeneData)
    requires CandidateOk(c) && GeneOk(c, lookup, parent) && GeneOk(c, lookup, child)
    ensures MaskHolds(parent, child, c)
  {
    hide CandidateOk, SlotsOk, LecturersOk;
    forall k | 0 <= k < |child.sessions|
      ensures forall l :: l in child.sessions[k].lecturerIds ==> l in c.lecturerPool
      ensures c.isFixedRoom ==> child.sessions[k].roomId == parent.sessions[k].roomId
    {
      assert SessionOk(c, lookup, k, child.sessions[k]) && SessionOk(c, lookup, k, parent.sessions[k]);
      LecturerCountFixed(c, k, child.sessions[k].lecturerIds);
    }
  }

  datatype CrossoverType = SinglePoint | Uniform | Pmx

  /** What each strategy makes of two parents: one cut, a choice per locus, or the sessions of one segment. */
  ghost predicate Crossed(t: CrossoverType, p1: seq<GeneData>, p2: seq<GeneData>, c1: seq<GeneData>,
                          c2: seq<GeneData>) {
    |p1| == |p2| &&
    match t
    case SinglePoint => exists point :: 0 <= point < |p1| && SplitAt(p1, p2, c1, point) && SplitAt(p2, p1, c2, point)
    case Uniform => Recombined(p1, p2, c1, c2)
    case Pmx =>
      exists start, end :: 0 <= start <= end < |p1| && SegmentOf(p1, p2, c1, start, end) &&
        SegmentOf(p2, p1, c2, start, end)
  }

  ghost predicate SegmentOf(p1: seq<GeneData>, p2: seq<GeneData>, c: seq<GeneData>, start: int, end: int) {
    0 <= start <= end && Exchanged(p1, p2, c, start, end + 1)
  }

  ghost predicate SplitAt(p1: seq<GeneData>, p2: seq<GeneData>, c: seq<GeneData>, point: int) {
    |p1| == |p2| && 0 <= point <= |p1| && c == p1[..point] + p2[point..]
  }

  lemma CrossedAt(p1: seq<GeneData>, p2: seq<GeneData>, c1: seq<GeneData>, c2: seq<GeneData>, point: nat)
    requires |p1| == |p2| && point < |p1| && SplitAt(p1, p2, c1, point) && SplitAt(p2, p1, c2, point)
    ensures Crossed(SinglePoint, p1, p2, c1, c2)
  {
    hide SplitAt;
  }

  lemma CrossedBetween(p1: seq<GeneData>, p2: seq<GeneData>, c1: seq<GeneData>, c2: seq<GeneData>, start: nat, end: nat)
    requires |p1| == |p2| && start <= end < |p1|
    requires Exchanged(p1, p2, c1, start, end + 1) && Exchanged(p2, p1, c2, start, end + 1)
    ensures Crossed(Pmx, p1, p2, c1, c2)
  {
    hide Exchanged;
    assert SegmentOf(p1, p2, c1, start, end) && SegmentOf(p2, p1, c2, start, end);
  }

  /** Whatever the strategy: new objects, legal children, parents untouched. */
  method Crossover(t: CrossoverType, parent1: Chromosome, parent2: Chromosome, ghost cs: seq<Candidate>,
                   ghost lookup: SlotLookup)
    returns (child1: Chromosome, child2: Chromosome)
    requires CandidatesOk(cs) && cs != []
    requires ChromosomeOk(cs, lookup, Value(parent1)) && ChromosomeOk(cs, lookup, Value(parent2))
    ensures fresh(child1) && fresh(child2) && fresh(Objects(child1)) && fresh(Objects(child2))
    ensures ChromosomeOk(cs, lookup, Value(child1)) && ChromosomeOk(cs, lookup, Value(child2))
    ensures Crossed(t, old(Value(parent1)), old(Value(parent2)), Value(child1), Value(child2))
  {
    hide CandidateOk, GeneOk, Recombined, Exchanged;
    ghost var p1, p2 := Value(parent1), Value(parent2);
    match t
    case SinglePoint =>
      ghost var point;
      child1, child2, point := SinglePointCrossover(parent1, parent2);
      RecombinedOk(cs, lookup, p1, p2, Value(child1), Value(child2));
      CrossedAt(p1, p2, Value(child1), Value(child2), point);
    case Uniform =>
      child1, child2 := UniformCrossover(parent1, parent2);
      RecombinedOk(cs, lookup, p1, p2, Value(child1), Value(child2));
    case Pmx =>
      ghost var start, end;
      child1, child2, start, end := PmxCrossover(parent1, parent2);
      ExchangedOk(cs, lookup, p1, p2, Value(child1), start, end + 1);
      ExchangedOk(cs, lookup, p2, p1, Value(child2), start, end + 1);
      CrossedBetween(p1, p2, Value(child1), Value(child2), start, end);
  }
}
