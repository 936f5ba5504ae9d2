/** What the search minimises: collisions, overload, missing seats and gaps. */
module Fitness {
  import opened Prelude
  import opened Candidates
  import opened Genes

  /** new Map(candidates.map(c => [c.offeringId, c])) */
  function CandidateMap(cs: seq<Candidate>): (m: map<int, Candidate>)
    ensures forall k :: k in m ==> m[k] in cs && m[k].offeringId == k
    ensures forall c :: c in cs ==> c.offeringId in m
  {
    if cs == [] then map[]
    else
      assert cs == cs[..|cs| - 1] + [cs[|cs| - 1]];
      CandidateMap(cs[..|cs| - 1])[cs[|cs| - 1].offeringId := cs[|cs| - 1]]
  }

  lemma CandidateMapAt(cs: seq<Candidate>, i: nat)
    requires DistinctOfferings(cs) && i < |cs|
    ensures cs[i].offeringId in CandidateMap(cs) && CandidateMap(cs)[cs[i].offeringId] == cs[i]
  {
    var c := CandidateMap(cs)[cs[i].offeringId];
    var j :| 0 <= j < |cs| && cs[j] == c;
  }

  /** The sessions of every gene that has a candidate, in order. */
  function AllSessions(ch: seq<GeneData>, cm: map<int, Candidate>): seq<SessionData> {
    if ch == [] then []
    else
      var g := ch[|ch| - 1];
      AllSessions(ch[..|ch| - 1], cm) + if g.offeringId in cm then g.sessions else []
  }

  // ---------------------------------------------------------------- placements

  /** The (room, slot) pairs a session occupies. */
  function RoomKeys(s: SessionData): seq<(int, int)> {
    seq(|s.timeSlotIds|, i requires 0 <= i < |s.timeSlotIds| => (s.roomId, s.timeSlotIds[i]))
  }

  function LecturersAt(lecturerIds: seq<int>, slot: int): seq<(int, int)> {
    seq(|lecturerIds|, j requires 0 <= j < |lecturerIds| => (lecturerIds[j], slot))
  }

  function LecKeysUpTo(s: SessionData, n: nat): seq<(int, int)>
    requires n <= |s.timeSlotIds|
  {
    if n == 0 then [] else LecKeysUpTo(s, n - 1) + LecturersAt(s.lecturerIds, s.timeSlotIds[n - 1])
  }

  /** The (lecturer, slot) pairs a session occupies. */
  function LecKeys(s: SessionData): seq<(int, int)> {
    LecKeysUpTo(s, |s.timeSlotIds|)
  }

  function AllRoomKeys(ss: seq<SessionData>): seq<(int, int)> {
    if ss == [] then [] else AllRoomKeys(ss[..|ss| - 1]) + RoomKeys(ss[|ss| - 1])
  }

  function AllLecKeys(ss: seq<SessionData>): seq<(int, int)> {
    if ss == [] then [] else AllLecKeys(ss[..|ss| - 1]) + LecKeys(ss[|ss| - 1])
  }

  lemma RoomKeysMembers(s: SessionData)
    ensures forall k :: k in RoomKeys(s) <==> k.0 == s.roomId && k.1 in s.timeSlotIds
  {
    forall k: (int, int) | k.0 == s.roomId && k.1 in s.timeSlotIds ensures k in RoomKeys(s) {
      var i :| 0 <= i < |s.timeSlotIds| && s.timeSlotIds[i] == k.1;
      assert RoomKeys(s)[i] == k;
    }
  }

  lemma LecturersAtMembers(lecturerIds: seq<int>, slot: int)
    ensures forall k :: k in LecturersAt(lecturerIds, slot) <==> k.0 in lecturerIds && k.1 == slot
    ensures NoDup(lecturerIds) ==> NoDup(LecturersAt(lecturerIds, slot))
  {
    forall k: (int, int) | k.0 in lecturerIds && k.1 == slot ensures k in LecturersAt(lecturerIds, slot) {
      var i :| 0 <= i < |lecturerIds| && lecturerIds[i] == k.0;
      assert LecturersAt(lecturerIds, slot)[i] == k;
    }
  }

  lemma {:induction false} LecKeysUpToMembers(s: SessionData, n: nat)
    requires n <= |s.timeSlotIds|
    ensures forall k :: k in LecKeysUpTo(s, n) <==> k.0 in s.lecturerIds && k.1 in s.timeSlotIds[..n]
    ensures NoDup(s.timeSlotIds) && NoDup(s.lecturerIds) ==> NoDup(LecKeysUpTo(s, n))
  {
    if n > 0 {
      LecKeysUpToMembers(s, n - 1);
      LecturersAtMembers(s.lecturerIds, s.timeSlotIds[n - 1]);
      assert s.timeSlotIds[..n] == s.timeSlotIds[..n - 1] + [s.timeSlotIds[n - 1]];
    }
  }

  lemma LecKeysMembers(s: SessionData)
    ensures forall k :: k in LecKeys(s) <==> k.0 in s.lecturerIds && k.1 in s.timeSlotIds
    ensures NoDup(s.timeSlotIds) && NoDup(s.lecturerIds) ==> NoDup(LecKeys(s))
  {
    LecKeysUpToMembers(s, |s.timeSlotIds|);
    assert s.timeSlotIds[..|s.timeSlotIds|] == s.timeSlotIds;
  }

  // ---------------------------------------------------------------- counting repeats

  /** How many entries of xs repeat an earlier one. */
  ghost function Repeats<T>(xs: seq<T>): int {
    |xs| - |Elements(xs)|
  }

  lemma RepeatsSnoc<T>(xs: seq<T>, x: T)
    ensures Repeats(xs + [x]) == Repeats(xs) + if x in xs then 1 else 0
  {
    ElementsSnoc(xs, x);
    if x in xs {
      assert Elements(xs) + {x} == Elements(xs);
    } else {
      assert x !in Elements(xs);
      assert |Elements(xs) + {x}| == |Elements(xs)| + 1;
    }
  }

  lemma {:induction false} RepeatsZero<T>(xs: seq<T>)
    ensures Repeats(xs) >= 0
    ensures Repeats(xs) == 0 <==> NoDup(xs)
  {
    if xs != [] {
      var front, last := xs[..|xs| - 1], xs[|xs| - 1];
      assert xs == front + [last];
      RepeatsZero(front);
      RepeatsSnoc(front, last);
      NoDupSnoc(front, last);
      assert Repeats(xs) == 0 <==> Repeats(front) == 0 && last !in front;
    } else {
      assert Elements(xs) == {};
    }
  }

  /** The number evaluateHardFitness reports: room-time and lecturer-time double bookings. */
  ghost function HardCount(ss: seq<SessionData>): int {
    Repeats(AllRoomKeys(ss)) + Repeats(AllLecKeys(ss))
  }

  /** A counting map that has seen exactly the keys xs. */
  ghost predicate Tally(m: map<(int, int), nat>, xs: seq<(int, int)>) {
    m.Keys == Elements(xs) && forall k :: k in m ==> m[k] >= 1
  }

  /** count = (map.get(key) ?? 0) + 1; map.set(key, count); one violation when count > 1 */
  method CountKey(m: map<(int, int), nat>, key: (int, int), ghost xs: seq<(int, int)>)
    returns (m': map<(int, int), nat>, violations: nat)
    requires Tally(m, xs)
    ensures Tally(m', xs + [key])
    ensures Repeats(xs + [key]) == Repeats(xs) + violations
  {
    RepeatsSnoc(xs, key);
    var count := (if key in m then m[key] else 0) + 1;
    m' := m[key := count];
    violations := if count > 1 then 1 else 0;
    assert key in m <==> key in Elements(xs);
    assert Elements(xs + [key]) == Elements(xs) + {key};
  }

  method CountLecturers(lecturerIds: seq<int>, slot: int, m: map<(int, int), nat>, ghost xs: seq<(int, int)>)
    returns (m': map<(int, int), nat>, violations: nat)
    requires Tally(m, xs)
    ensures Tally(m', xs + LecturersAt(lecturerIds, slot))
    ensures Repeats(xs + LecturersAt(lecturerIds, slot)) == Repeats(xs) + violations
  {
    hide Tally, Repeats;
    m', violations := m, 0;
    ghost var all := LecturersAt(lecturerIds, slot);
    assert xs + all[..0] == xs;
    for j := 0 to |lecturerIds|
      invariant Tally(m', xs + all[..j])
      invariant Repeats(xs + all[..j]) == Repeats(xs) + violations
    {
      var more;
      m', more := CountKey(m', (lecturerIds[j], slot), xs + all[..j]);
      assert xs + all[..j + 1] == xs + all[..j] + [(lecturerIds[j], slot)];
      violations := violations + more;
    }
    assert all[..|lecturerIds|] == all;
  }

  method CountSession(s: SessionData, rooms: map<(int, int), nat>, lecs: map<(int, int), nat>,
                      ghost rs: seq<(int, int)>, ghost ls: seq<(int, int)>)
    returns (rooms': map<(int, int), nat>, lecs': map<(int, int), nat>, violations: nat)
    requires Tally(rooms, rs) && Tally(lecs, ls)
    ensures Tally(rooms', rs + RoomKeys(s)) && Tally(lecs', ls + LecKeys(s))
    ensures Repeats(rs + RoomKeys(s)) + Repeats(ls + LecKeys(s)) == Repeats(rs) + Repeats(ls) + violations
  {
    hide Tally, Repeats;
    rooms', lecs', violations := rooms, lecs, 0;
    ghost var all := RoomKeys(s);
    assert rs + all[..0] == rs && ls + LecKeysUpTo(s, 0) == ls;
    for i := 0 to |s.timeSlotIds|
      invariant Tally(rooms', rs + all[..i]) && Tally(lecs', ls + LecKeysUpTo(s, i))
      invariant Repeats(rs + all[..i]) + Repeats(ls + LecKeysUpTo(s, i)) == Repeats(rs) + Repeats(ls) + violations
    {
      var slotId := s.timeSlotIds[i];
      var a, b;
      rooms', a := CountKey(rooms', (s.roomId, slotId), rs + all[..i]);
      assert rs + all[..i + 1] == rs + all[..i] + [(s.roomId, slotId)];
      lecs', b := CountLecturers(s.lecturerIds, slotId, lecs', ls + LecKeysUpTo(s, i));
      assert ls + LecKeysUpTo(s, i + 1) == ls + LecKeysUpTo(s, i) + LecturersAt(s.lecturerIds, slotId);
      violations := violations + a + b;
    }
    assert all[..|s.timeSlotIds|] == all;
  }

  /** The two counting maps over every session of every gene that has a candidate. */
  method EvaluateHardFitness(ch: seq<GeneData>, cs: seq<Candidate>) returns (violations: nat)
    ensures violations == HardCount(AllSessions(ch, CandidateMap(cs)))
  {
    hide Tally, Repeats, AllSessions, AllRoomKeys, AllLecKeys, CandidateMap;
    var candidateMap := CandidateMap(cs);
    var rooms: map<(int, int), nat>, lecs: map<(int, int), nat> := map[], map[];
    violations := 0;
    ghost var ss: seq<SessionData> := [];
    NothingCounted(candidateMap);
    for i := 0 to |ch|
      invariant ss == AllSessions(ch[..i], candidateMap)
      invariant Tally(rooms, AllRoomKeys(ss)) && Tally(lecs, AllLecKeys(ss)) && violations == HardCount(ss)
    {
      var gene := ch[i];
      AllSessionsStep(ch, i, candidateMap);
      if gene.offeringId in candidateMap {
        ghost var before := ss;
        for k := 0 to |gene.sessions|
          invariant ss == before + gene.sessions[..k]
          invariant Tally(rooms, AllRoomKeys(ss)) && Tally(lecs, AllLecKeys(ss)) && violations == HardCount(ss)
        {
          var more;
          rooms, lecs, more := CountSession(gene.sessions[k], rooms, lecs, AllRoomKeys(ss), AllLecKeys(ss));
          KeysStep(ss, gene.sessions[k]);
          ss := ss + [gene.sessions[k]];
          violations := violations + more;
        }
        assert gene.sessions[..|gene.sessions|] == gene.sessions;
      }
    }
    assert ch[..|ch|] == ch;
  }

  lemma KeysStep(ss: seq<SessionData>, s: SessionData)
    ensures AllRoomKeys(ss + [s]) == AllRoomKeys(ss) + RoomKeys(s)
    ensures AllLecKeys(ss + [s]) == AllLecKeys(ss) + LecKeys(s)
  {
    assert (ss + [s])[..|ss|] == ss;
  }

  lemma NothingCounted(cm: map<int, Candidate>)
    ensures AllSessions([], cm) == [] && HardCount([]) == 0
    ensures Tally(map[], AllRoomKeys([])) && Tally(map[], AllLecKeys([]))
  {
  }

  lemma AllSessionsStep(ch: seq<GeneData>, i: nat, cm: map<int, Candidate>)
    requires i < |ch|
    ensures AllSessions(ch[..i + 1], cm)
         == AllSessions(ch[..i], cm) + if ch[i].offeringId in cm then ch[i].sessions else []
  {
    assert ch[..i + 1][..i] == ch[..i];
  }

  // ---------------------------------------------------------------- what a zero count means

  /** No slot and no lecturer is listed twice within the session. */
  ghost predicate Proper(s: SessionData) {
    NoDup(s.timeSlotIds) && NoDup(s.lecturerIds)
  }

  /** Whenever the two sessions meet at a slot they are in different rooms and share no lecturer. */
  ghost predicate Apart(s: SessionData, t: SessionData) {
    forall slot :: slot in s.timeSlotIds && slot in t.timeSlotIds ==>
      s.roomId != t.roomId && forall l :: l in s.lecturerIds ==> l !in t.lecturerIds
  }

  ghost predicate PairwiseApart(ss: seq<SessionData>) {
    forall p, q :: 0 <= p < q < |ss| ==> Apart(ss[p], ss[q])
  }

  ghost predicate AllProper(ss: seq<SessionData>) {
    forall p :: 0 <= p < |ss| ==> Proper(ss[p])
  }

  ghost predicate Disjoint<T>(a: seq<T>, b: seq<T>) {
    forall x :: x in a ==> x !in b
  }

  lemma NoDupConcat<T>(a: seq<T>, b: seq<T>)
    ensures NoDup(a + b) <==> NoDup(a) && NoDup(b) && Disjoint(a, b)
  {
    var c := a + b;
    assert forall i :: 0 <= i < |a| ==> c[i] == a[i];
    assert forall j :: 0 <= j < |b| ==> c[|a| + j] == b[j];
    if NoDup(c) {
      forall i, j | 0 <= i < j < |b| ensures b[i] != b[j] {
        assert c[|a| + i] != c[|a| + j];
      }
      forall x | x in a ensures x !in b {
        var i :| 0 <= i < |a| && a[i] == x;
        forall j | 0 <= j < |b| ensures b[j] != x {
          assert c[i] != c[|a| + j];
        }
      }
    }
    if NoDup(a) && NoDup(b) && Disjoint(a, b) {
      forall i, j | 0 <= i < j < |c| ensures c[i] != c[j] {
        if i < |a| <= j {
          assert c[i] in a && c[j] == b[j - |a|];
        }
      }
    }
  }

  lemma RoomKeysNoDup(s: SessionData)
    requires Proper(s)
    ensures NoDup(RoomKeys(s)) && NoDup(LecKeys(s))
  {
    LecKeysMembers(s);
  }

  lemma ApartMeansDisjoint(s: SessionData, t: SessionData)
    ensures Apart(s, t) <==> Disjoint(RoomKeys(s), RoomKeys(t)) && Disjoint(LecKeys(s), LecKeys(t))
  {
    RoomKeysMembers(s);
    RoomKeysMembers(t);
    LecKeysMembers(s);
    LecKeysMembers(t);
    if !Apart(s, t) {
      var slot :| slot in s.timeSlotIds && slot in t.timeSlotIds &&
                  !(s.roomId != t.roomId && forall l :: l in s.lecturerIds ==> l !in t.lecturerIds);
      if s.roomId == t.roomId {
        assert (s.roomId, slot) in RoomKeys(s) && (s.roomId, slot) in RoomKeys(t);
      } else {
        var l :| l in s.lecturerIds && l in t.lecturerIds;
        assert (l, slot) in LecKeys(s) && (l, slot) in LecKeys(t);
      }
    }
    if Apart(s, t) {
      forall k: (int, int) | k in RoomKeys(s) ensures k !in RoomKeys(t) {
        var slot := k.1;
        assert slot in s.timeSlotIds;
        assert slot in t.timeSlotIds ==> s.roomId != t.roomId;
      }
      forall k: (int, int) | k in LecKeys(s) ensures k !in LecKeys(t) {
        var slot := k.1;
        assert slot in s.timeSlotIds;
        assert slot in t.timeSlotIds ==> k.0 !in t.lecturerIds;
      }
    }
  }

  /** Disjoint from all is disjoint from each. */
  lemma {:induction false} DisjointFromAll(ss: seq<SessionData>, t: SessionData)
    ensures (forall p :: 0 <= p < |ss| ==> Apart(ss[p], t)) <==>
      Disjoint(AllRoomKeys(ss), RoomKeys(t)) && Disjoint(AllLecKeys(ss), LecKeys(t))
  {
    if ss != [] {
      var front, last := ss[..|ss| - 1], ss[|ss| - 1];
      DisjointFromAll(front, t);
      ApartMeansDisjoint(last, t);
      hide Apart, RoomKeys, LecKeys;
      assert forall p :: 0 <= p < |front| ==> front[p] == ss[p];
      assert (forall p :: 0 <= p < |ss| ==> Apart(ss[p], t)) <==>
        (forall p :: 0 <= p < |front| ==> Apart(front[p], t)) && Apart(last, t);
    }
  }

  lemma {:induction false} ApartMeansNoRepeat(ss: seq<SessionData>)
    requires AllProper(ss)
    ensures PairwiseApart(ss) <==> NoDup(AllRoomKeys(ss)) && NoDup(AllLecKeys(ss))
  {
    if ss != [] {
      var front, last := ss[..|ss| - 1], ss[|ss| - 1];
      assert AllProper(front) && Proper(last);
      ApartMeansNoRepeat(front);
      DisjointFromAll(front, last);
      RoomKeysNoDup(last);
      NoDupConcat(AllRoomKeys(front), RoomKeys(last));
      NoDupConcat(AllLecKeys(front), LecKeys(last));
      hide Apart, RoomKeys, LecKeys, NoDup, Disjoint;
      assert forall p :: 0 <= p < |front| ==> front[p] == ss[p];
      assert PairwiseApart(ss) <==> PairwiseApart(front) && forall p :: 0 <= p < |front| ==> Apart(front[p], last);
    }
  }

  /** Zero violations exactly when no two sessions collide. */
  lemma HardCountZero(ss: seq<SessionData>)
    requires AllProper(ss)
    ensures HardCount(ss) >= 0
    ensures HardCount(ss) == 0 <==> PairwiseApart(ss)
  {
    ApartMeansNoRepeat(ss);
    RepeatsZero(AllRoomKeys(ss));
    RepeatsZero(AllLecKeys(ss));
  }

  // ---------------------------------------------------------------- violations are charged to flagged sessions

  function Kept(ss: seq<SessionData>, flags: seq<bool>): seq<SessionData>
    requires |flags| == |ss|
  {
    if ss == [] then []
    else Kept(ss[..|ss| - 1], flags[..|ss| - 1]) + if flags[|ss| - 1] then [] else [ss[|ss| - 1]]
  }

  /** The number of room and lecturer bookings that the flagged sessions make. */
  function FlaggedBookings(ss: seq<SessionData>, flags: seq<bool>): nat
    requires |flags| == |ss|
  {
    if ss == [] then 0
    else
      FlaggedBookings(ss[..|ss| - 1], flags[..|ss| - 1]) +
      if flags[|ss| - 1] then |RoomKeys(ss[|ss| - 1])| + |LecKeys(ss[|ss| - 1])| else 0
  }

  ghost predicate UnflaggedApart(ss: seq<SessionData>, flags: seq<bool>)
    requires |flags| == |ss|
  {
    forall p, q :: 0 <= p < q < |ss| && !flags[p] && !flags[q] ==> Apart(ss[p], ss[q])
  }

  lemma {:induction false} KeptFacts(ss: seq<SessionData>, flags: seq<bool>)
    requires |flags| == |ss| && AllProper(ss)
    ensures AllProper(Kept(ss, flags))
    ensures forall s :: s in Kept(ss, flags) ==> exists p :: 0 <= p < |ss| && !flags[p] && ss[p] == s
    ensures UnflaggedApart(ss, flags) ==> PairwiseApart(Kept(ss, flags))
  {
    if ss != [] {
      var front, last := ss[..|ss| - 1], ss[|ss| - 1];
      hide Apart, Proper;
      KeptFacts(front, flags[..|front|]);
      var k := Kept(front, flags[..|front|]);
      forall i | 0 <= i < |k| && UnflaggedApart(ss, flags) && !flags[|front|] ensures Apart(k[i], last) {
        assert k[i] in k;
        var p :| 0 <= p < |front| && !flags[p] && front[p] == k[i];
        assert ss[p] == k[i];
      }
    }
  }

  lemma {:induction false} KeptKeys(ss: seq<SessionData>, flags: seq<bool>)
    requires |flags| == |ss|
    ensures Elements(AllRoomKeys(Kept(ss, flags))) <= Elements(AllRoomKeys(ss))
    ensures Elements(AllLecKeys(Kept(ss, flags))) <= Elements(AllLecKeys(ss))
    ensures |AllRoomKeys(ss)| + |AllLecKeys(ss)|
         == |AllRoomKeys(Kept(ss, flags))| + |AllLecKeys(Kept(ss, flags))| + FlaggedBookings(ss, flags)
  {
    hide RoomKeys, LecKeys;
    if ss != [] {
      var front, last := ss[..|ss| - 1], ss[|ss| - 1];
      var k := Kept(front, flags[..|front|]);
      KeptKeys(front, flags[..|front|]);
      assert (k + [last])[..|k|] == k;
      assert Elements(AllRoomKeys(ss)) == Elements(AllRoomKeys(front)) + Elements(RoomKeys(last));
      assert Elements(AllLecKeys(ss)) == Elements(AllLecKeys(front)) + Elements(LecKeys(last));
      assert Kept(ss, flags) == if flags[|front|] then k else k + [last];
      if !flags[|front|] {
        assert Elements(AllRoomKeys(k + [last])) == Elements(AllRoomKeys(k)) + Elements(RoomKeys(last));
        assert Elements(AllLecKeys(k + [last])) == Elements(AllLecKeys(k)) + Elements(LecKeys(last));
      }
    }
  }

  /** If the unflagged sessions are apart from each other, the violations number at most the bookings
      of the flagged ones: none at all when nothing is flagged. */
  lemma ViolationsAreFlagged(ss: seq<SessionData>, flags: seq<bool>)
    requires |flags| == |ss| && AllProper(ss) && UnflaggedApart(ss, flags)
    ensures HardCount(ss) <= FlaggedBookings(ss, flags)
  {
    var k := Kept(ss, flags);
    KeptFacts(ss, flags);
    KeptKeys(ss, flags);
    ApartMeansNoRepeat(k);
    NoDupSize(AllRoomKeys(k));
    NoDupSize(AllLecKeys(k));
    SubsetBound(Elements(AllRoomKeys(k)), Elements(AllRoomKeys(ss)));
    SubsetBound(Elements(AllLecKeys(k)), Elements(AllLecKeys(ss)));
  }

  lemma {:induction false} NothingFlagged(ss: seq<SessionData>, flags: seq<bool>)
    requires |flags| == |ss| && forall p :: 0 <= p < |ss| ==> !flags[p]
    ensures FlaggedBookings(ss, flags) == 0
  {
    if ss != [] { NothingFlagged(ss[..|ss| - 1], flags[..|ss| - 1]); }
  }
}
